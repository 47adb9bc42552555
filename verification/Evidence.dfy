/** Completion evidence: what a proposal must satisfy, and what validation leaves of it
    (src/remindi/evidence.rs). */
module Evidence {
  import opened Wrappers
  import opened Model

  datatype EvidenceType =
    | Observation | TestResult | ArtifactEvidence | LogReference | ChangeReference | UserConfirmation
    | ExternalReference

  datatype EvidenceSource = AuthenticatedActor | AdapterTrigger

  datatype EvidenceInput = EvidenceInput(
    evidenceType: EvidenceType,
    summary: string,
    referenceUri: Option<string>,
    contentHash: Option<string>,
    observedAt: Instant,
    metadata: Option<Json>,
    source: EvidenceSource)

  predicate IsAlpha(c: char) {
    'a' <= c <= 'z' || 'A' <= c <= 'Z'
  }

  predicate IsDigit(c: char) {
    '0' <= c <= '9'
  }

  predicate IsHex(c: char) {
    IsDigit(c) || 'a' <= c <= 'f' || 'A' <= c <= 'F'
  }

  function LowerChar(c: char): char {
    if 'A' <= c <= 'Z' then c - 'A' + 'a' else c
  }

  function Lower(s: string): (r: string)
    ensures |r| == |s|
  {
    seq(|s|, k requires 0 <= k < |s| => LowerChar(s[k]))
  }

  // ---------------------------------------------------------------- references

  /** The place of the first occurrence of a text. */
  function FirstOf(s: string, t: string): (r: Option<nat>)
    ensures r.Some? ==> r.value + |t| <= |s| && s[r.value..r.value + |t|] == t
    ensures r.Some? ==> forall k :: 0 <= k < r.value ==> !(t <= s[k..])
    ensures r.None? ==> forall k :: 0 <= k <= |s| ==> !(t <= s[k..])
  {
    if t <= s then Some(0)
    else if s == "" then None
    else
      var rest := FirstOf(s[1..], t);
      assert forall k :: 0 < k <= |s| ==> s[k..] == s[1..][k - 1..];
      if rest.None? then None else Some(rest.value + 1)
  }

  /** A scheme, a colon, something behind it, and no white space. */
  predicate ValidUri(reference: string) {
    var colon := FirstOf(reference, ":");
    && colon.Some?
    && var scheme := reference[..colon.value];
    && scheme != "" && IsAlpha(scheme[0])
    && (forall k :: 0 <= k < |scheme| ==> IsAlpha(scheme[k]) || IsDigit(scheme[k]) || scheme[k] in {'+', '-', '.'})
    && colon.value + 1 < |reference|
    && forall k :: 0 <= k < |reference| ==> !IsWhite(reference[k])
  }

  /** The text up to the first slash, question mark or hash. */
  function Authority(s: string): string {
    if s == "" || s[0] in {'/', '?', '#'} then "" else [s[0]] + Authority(s[1..])
  }

  predicate HasCredentials(reference: string) {
    var start := FirstOf(reference, "://");
    start.Some? && '@' in Authority(reference[start.value + 3..])
  }

  predicate ValidReference(reference: string) {
    |reference| <= 4096 && ValidUri(reference) && !HasCredentials(reference)
  }

  /** The text begins with a scheme and a colon, and something follows. */
  predicate HasScheme(s: string, colon: nat) {
    && 0 < colon < |s| - 1 && s[colon] == ':'
    && IsAlpha(s[0])
    && forall k :: 0 <= k < colon ==> IsAlpha(s[k]) || IsDigit(s[k]) || s[k] == '+' || s[k] == '-' || s[k] == '.'
  }

  /** An at sign in the authority, the part up to the first slash, question mark or hash. */
  predicate SignsIn(s: string, at: nat) {
    at < |s| && s[at] == '@' && forall k :: 0 <= k < at ==> s[k] != '/' && s[k] != '?' && s[k] != '#'
  }

  /** The first colon with two slashes. */
  predicate FirstSlashes(s: string, k: nat) {
    SlashesAt(s, k) && forall j: nat :: j < k ==> !SlashesAt(s, j)
  }

  predicate SlashesAt(s: string, k: nat) {
    k + 3 <= |s| && s[k] == ':' && s[k + 1] == '/' && s[k + 2] == '/'
  }

  predicate CredentialsAt(s: string, start: nat, at: nat) {
    FirstSlashes(s, start) && SignsIn(s[start + 3..], at)
  }

  lemma {:induction false} AuthoritySigns(s: string)
    ensures '@' in Authority(s) <==> exists at: nat :: SignsIn(s, at)
  {
    if s == "" || s[0] in {'/', '?', '#'} {
      forall at: nat ensures !SignsIn(s, at) {
      }
    } else {
      AuthoritySigns(s[1..]);
      if s[0] == '@' {
        assert SignsIn(s, 0);
      } else {
        forall at: nat ensures SignsIn(s, at + 1) <==> SignsIn(s[1..], at) {
          assert forall k :: 0 < k < |s| ==> s[k] == s[1..][k - 1];
        }
        if at: nat :| SignsIn(s, at) {
          assert SignsIn(s[1..], at - 1);
        }
        if at: nat :| SignsIn(s[1..], at) {
          assert SignsIn(s, at + 1);
        }
      }
    }
  }

  ghost predicate SoundReference(s: string) {
    && |s| <= 4096
    && (exists colon: nat :: HasScheme(s, colon))
    && (forall k :: 0 <= k < |s| ==> !IsWhite(s[k]))
    && !exists start: nat, at: nat :: CredentialsAt(s, start, at)
  }

  /** A reference is stored exactly when it has a scheme, no white space, and no credentials behind its first
      colon with two slashes. */
  lemma ReferenceIsValidIff(s: string)
    ensures ValidReference(s) <==> SoundReference(s)
  {
    SchemeIff(s);
    CredentialsIff(s);
    hide IsWhite, HasScheme, HasCredentials, CredentialsAt;
  }

  lemma SchemeIff(s: string)
    ensures ValidUri(s) <==> (exists colon: nat :: HasScheme(s, colon)) && forall k :: 0 <= k < |s| ==> !IsWhite(s[k])
  {
    hide IsWhite;
    var first := FirstOf(s, ":");
    if first.Some? {
      assert s[first.value..first.value + 1][0] == ':';
    }
    if ValidUri(s) {
      assert HasScheme(s, first.value) by {
        assert forall k :: 0 <= k < first.value ==> s[..first.value][k] == s[k];
      }
    }
    if colon: nat :| HasScheme(s, colon) {
      assert ":" <= s[colon..];
      assert first.value == colon by {
        assert first.Some? && first.value <= colon;
      }
      assert forall k :: 0 <= k < colon ==> s[..colon][k] == s[k];
    }
  }

  lemma CredentialsIff(s: string)
    ensures HasCredentials(s) <==> exists start: nat, at: nat :: CredentialsAt(s, start, at)
  {
    hide SignsIn;
    var first := FirstOf(s, "://");
    forall k: nat | k <= |s| ensures SlashesAt(s, k) <==> "://" <= s[k..] {
      if SlashesAt(s, k) {
        assert s[k..][..3] == "://";
      }
    }
    if first.Some? {
      assert s[first.value..][..3] == "://";
      assert FirstSlashes(s, first.value);
      var rest := s[first.value + 3..];
      AuthoritySigns(rest);
      if at: nat :| SignsIn(rest, at) {
        assert CredentialsAt(s, first.value, at);
      }
    }
  }

  // ---------------------------------------------------------------- hashes

  const PREFIX := "sha256:"

  function HashDigits(hash: string): string {
    if PREFIX <= hash then hash[7..] else hash
  }

  predicate ValidHash(hash: string) {
    var digits := HashDigits(hash);
    |digits| == 64 && forall k :: 0 <= k < 64 ==> IsHex(digits[k])
  }

  function NormalizeHash(hash: string): string {
    PREFIX + Lower(HashDigits(hash))
  }

  // ---------------------------------------------------------------- evidence

  predicate ValidEvidence(e: EvidenceInput) {
    var summary := Trim(e.summary);
    && 0 < |summary| <= 4096
    && Lower(summary) != "done" && Lower(summary) != "looks good"
    && e.source.AuthenticatedActor?
    && (e.referenceUri.Some? || e.contentHash.Some?)
    && (e.referenceUri.Some? ==> ValidReference(e.referenceUri.value))
    && (e.contentHash.Some? ==> ValidHash(e.contentHash.value))
    && (e.metadata.Some? ==> e.metadata.value.JsonObject?)
  }

  /** Evidence as validation leaves it. */
  function ValidatedEvidence(e: EvidenceInput): EvidenceInput {
    e.(summary := Trim(e.summary),
       contentHash := if e.contentHash.Some? then Some(NormalizeHash(e.contentHash.value)) else None)
  }

  lemma HashStaysNormal(hash: string)
    requires ValidHash(hash)
    ensures ValidHash(NormalizeHash(hash)) && NormalizeHash(NormalizeHash(hash)) == NormalizeHash(hash)
    ensures |NormalizeHash(hash)| == 71 && PREFIX <= NormalizeHash(hash)
  {
    var digits := HashDigits(hash);
    assert HashDigits(NormalizeHash(hash)) == Lower(digits);
    forall k | 0 <= k < 64 ensures IsHex(Lower(digits)[k]) && LowerChar(Lower(digits)[k]) == Lower(digits)[k] {
      assert IsHex(digits[k]);
    }
    assert Lower(Lower(digits)) == Lower(digits);
  }

  /** The digest is stored with its prefix, digit by digit in lower case. */
  lemma HashDigitsStay(hash: string)
    requires ValidHash(hash)
    ensures
      var digits, stored := if |hash| == 64 then hash else hash[7..], NormalizeHash(hash);
      && |digits| == 64 && |stored| == 71 && stored[..7] == "sha256:"
      && forall k :: 0 <= k < 64 ==>
           if 'A' <= digits[k] <= 'F' then stored[7 + k] - 'a' == digits[k] - 'A' else stored[7 + k] == digits[k]
  {
    var digits := HashDigits(hash);
    forall k | 0 <= k < 64 ensures IsHex(digits[k]) && NormalizeHash(hash)[7 + k] == LowerChar(digits[k]) {
    }
    if |hash| == 64 {
      assert hash[6] == ':' || hash[0] != 's';
    }
  }

  predicate SoundDigest(hash: string) {
    || (|hash| == 64 && forall k :: 0 <= k < 64 ==> IsHexDigit(hash[k]))
    || (|hash| == 71 && hash[..7] == "sha256:" && forall k :: 7 <= k < 71 ==> IsHexDigit(hash[k]))
  }

  predicate IsHexDigit(c: char) {
    '0' <= c <= '9' || 'a' <= c <= 'f' || 'A' <= c <= 'F'
  }

  /** A digest is 64 hexadecimal digits, with or without the name of its algorithm. */
  lemma HashIsValidIff(hash: string)
    ensures ValidHash(hash) <==> SoundDigest(hash)
  {
    if PREFIX <= hash {
      assert hash[0] == 's' && hash[..7] == PREFIX;
      assert forall k :: 7 <= k < |hash| ==> hash[k] == hash[7..][k - 7];
    }
  }

  /** Evidence is accepted with an assertion that says something, from the actor, with a sound reference or
      digest. */
  lemma EvidenceIsValidIff(e: EvidenceInput)
    ensures ValidEvidence(e) <==>
      && 0 < |Trim(e.summary)| <= 4096
      && Lower(Trim(e.summary)) != "done" && Lower(Trim(e.summary)) != "looks good"
      && e.source == AuthenticatedActor
      && (e.referenceUri != None || e.contentHash != None)
      && (e.referenceUri.Some? ==> SoundReference(e.referenceUri.value))
      && (e.contentHash.Some? ==> SoundDigest(e.contentHash.value))
      && (e.metadata.Some? ==> e.metadata.value.JsonObject?)
  {
    if e.referenceUri.Some? {
      ReferenceIsValidIff(e.referenceUri.value);
    }
    if e.contentHash.Some? {
      HashIsValidIff(e.contentHash.value);
    }
    hide ValidReference, ValidHash, SoundReference, SoundDigest, Trim;
  }

  /** What validation stores is valid evidence, and validating it again changes nothing: two spellings of
      one digest are stored alike. */
  lemma ValidationIsStable(e: EvidenceInput)
    requires ValidEvidence(e)
    ensures ValidEvidence(ValidatedEvidence(e))
    ensures ValidatedEvidence(ValidatedEvidence(e)) == ValidatedEvidence(e)
  {
    hide Trim, ValidHash, NormalizeHash, ValidReference;
    TrimTrims(e.summary);
    if e.contentHash.Some? {
      HashStaysNormal(e.contentHash.value);
    }
  }
}
