/** The item, its triggers and the validation rules of src/remindi/model.rs. */
module Model {
  import opened Wrappers

  // ---------------------------------------------------------------- time

  /** An instant, in nanoseconds from the Unix epoch. */
  type Instant = int

  /** A length of time given in whole seconds, in nanoseconds. */
  function Seconds(n: int): Instant {
    n * 1_000_000_000
  }

  /** The instant whose canonical text has no more than milliseconds. */
  predicate Aligned(t: Instant) {
    t % 1_000_000 == 0
  }

  /** What is left of an instant once it is written as canonical text: the fraction below a
      millisecond is cut off, towards the past also before the epoch. */
  function Millis(t: Instant): (r: Instant)
    ensures r <= t < r + 1_000_000
    ensures Aligned(r)
    ensures Aligned(t) ==> r == t
  {
    t - t % 1_000_000
  }

  function MillisOption(t: Option<Instant>): Option<Instant> {
    match t case None => None case Some(v) => Some(Millis(v))
  }

  predicate AlignedOption(t: Option<Instant>) {
    t.Some? ==> Aligned(t.value)
  }

  /** Comparing millisecond text with a bound that is itself stored text agrees with comparing
      the full instants. */
  lemma StoredBoundComparison(bound: Instant, now: Instant)
    requires Aligned(bound)
    ensures bound <= Millis(now) <==> bound <= now
    ensures bound > Millis(now) <==> bound > now
  {
  }

  lemma SecondsKeepAlignment(t: Instant, n: int)
    ensures Aligned(t + Seconds(n)) <==> Aligned(t)
  {
    assert t + Seconds(n) == t + (n * 1000) * 1_000_000;
  }

  // ---------------------------------------------------------------- text

  /** The characters with the Unicode property White_Space. */
  predicate IsWhite(c: char) {
    var n := c as int;
    || 0x09 <= n <= 0x0D || n == 0x20 || n == 0x85 || n == 0xA0 || n == 0x1680
    || 0x2000 <= n <= 0x200A || n == 0x2028 || n == 0x2029 || n == 0x202F || n == 0x205F || n == 0x3000
  }

  function TrimStart(s: string): string {
    if s != "" && IsWhite(s[0]) then TrimStart(s[1..]) else s
  }

  function TrimEnd(s: string): string {
    if s != "" && IsWhite(s[|s| - 1]) then TrimEnd(s[..|s| - 1]) else s
  }

  /** The text without white space at its ends. */
  function Trim(s: string): string {
    TrimEnd(TrimStart(s))
  }

  predicate Trimmed(s: string) {
    s == "" || (!IsWhite(s[0]) && !IsWhite(s[|s| - 1]))
  }

  /** White space from a position on, and up to one. */
  predicate WhiteUpTo(s: string, i: nat) {
    i <= |s| && forall k :: 0 <= k < i ==> IsWhite(s[k])
  }

  predicate WhiteFrom(s: string, j: nat) {
    j <= |s| && forall k :: j <= k < |s| ==> IsWhite(s[k])
  }

  lemma {:induction false} TrimStartStarts(s: string) returns (i: nat)
    ensures WhiteUpTo(s, i) && TrimStart(s) == s[i..]
    ensures TrimStart(s) == "" || !IsWhite(TrimStart(s)[0])
  {
    i := 0;
    if s != "" && IsWhite(s[0]) {
      var rest := TrimStartStarts(s[1..]);
      i := rest + 1;
      assert forall k :: 0 < k < i ==> s[k] == s[1..][k - 1];
    }
  }

  lemma {:induction false} TrimEndEnds(s: string) returns (j: nat)
    ensures WhiteFrom(s, j) && TrimEnd(s) == s[..j]
    ensures TrimEnd(s) == "" || !IsWhite(TrimEnd(s)[|TrimEnd(s)| - 1])
  {
    j := |s|;
    if s != "" && IsWhite(s[|s| - 1]) {
      j := TrimEndEnds(s[..|s| - 1]);
      assert forall k :: j <= k < |s| - 1 ==> s[k] == s[..|s| - 1][k];
    }
  }

  /** Trimming takes all white space off the ends and nothing else, and trimming again takes nothing. */
  lemma TrimTrims(s: string)
    ensures exists i: nat, j: nat :: i <= j && WhiteUpTo(s, i) && WhiteFrom(s, j) && Trim(s) == s[i..j]
    ensures Trimmed(Trim(s))
    ensures Trimmed(s) ==> Trim(s) == s
    ensures Trim(Trim(s)) == Trim(s)
  {
    hide IsWhite;
    var i := TrimStartStarts(s);
    var rest := s[i..];
    var j := TrimEndEnds(rest);
    assert Trim(s) == s[i..i + j];
    assert WhiteFrom(s, i + j) by {
      assert forall k :: i <= k < |s| ==> s[k] == rest[k - i];
    }
  }

  // ---------------------------------------------------------------- vocabulary

  /** A 128-bit identifier, as its big-endian number. */
  type Uuid = n: int | 0 <= n < 0x1_0000_0000_0000_0000_0000_0000_0000_0000

  datatype DomainError =
    | TerminalState
    | SnoozeRequiresReadyState
    | SnoozeMustBeFuture
    | ReasonRequired
    | CompletionEvidenceRequired
    | InvalidRecurrenceInterval
    | InvalidMaxOccurrences
    | FinalOccurrence
    | InvalidCatchUpLimit
    | ConditionParametersMustBeObject
    | InvalidElapsedDuration
    | InvalidTriggerInterval
    | InvalidConditionAdapter
    | InvalidGoalId
    | InvalidConditionPollInterval
    | RecurrenceRequiresIntervalTrigger
    | RecurrenceIntervalMismatch

  datatype RemindiState = Scheduled | Due | Overdue | Snoozed | Completed | Cancelled {
    predicate IsTerminal() {
      Completed? || Cancelled?
    }
    predicate IsReady() {
      Due? || Overdue?
    }
  }

  datatype Priority = Low | Normal | High | Critical

  datatype Readiness = ReadyDue | ReadyOverdue | ManualVerification

  datatype MissedPolicy = Coalesce | CatchUp | Skip

  datatype OccurrenceDisposition = Acknowledged | Skipped

  datatype EventType =
    | CreatedEvent
    | BecameDue
    | BecameOverdue
    | ConditionEvaluated
    | OccurrenceAdvanced
    | SnoozedEvent
    | UpdatedEvent
    | CompletedEvent
    | CancelledEvent

  datatype ActorType = User | Agent | SchedulerActor | System

  datatype LinkType = Goal | Memory | Issue | Url | Artifact

  datatype LifecycleEvent = TaskStart | Checkpoint | Continuation | FinalReview

  datatype ConditionStatus = Satisfied | Unsatisfied | Unknown | Error

  /** A JSON value: only whether it is an object matters here. */
  datatype Json = JsonObject(text: string) | JsonOther(text: string)

  datatype Trigger =
    | AtTime(at: Instant)
    | AfterElapsed(afterSeconds: nat)
    | Interval(firstAt: Instant, everySeconds: nat)
    | NextSession
    | NextContinuation
    | GoalActive(goalId: string)
    | Condition(
        adapter: string,
        parameters: Json,
        pollIntervalSeconds: Option<nat>,
        manualCheckAt: Option<Instant>)
  {
    /** The triggers that fire at an anchor instant. */
    predicate IsTimed() {
      AtTime? || AfterElapsed? || Interval?
    }
  }

  datatype RecurrenceSpec = RecurrenceSpec(
    everySeconds: nat,
    missedPolicy: MissedPolicy,
    maxOccurrences: Option<nat>,
    endAt: Option<Instant>)

  /** One row of the item table, or the value a request works on before it is stored. */
  datatype Item = Item(
    id: Uuid,
    ownerId: string,
    projectId: string,
    taskId: Option<string>,
    message: string,
    instructions: Option<string>,
    state: RemindiState,
    priority: Priority,
    trigger: Trigger,
    recurrence: Option<RecurrenceSpec>,
    nextFireAt: Option<Instant>,
    nextEvaluationAt: Option<Instant>,
    originalNextFireAt: Option<Instant>,
    dueSince: Option<Instant>,
    snoozeUntil: Option<Instant>,
    snoozedFromState: Option<RemindiState>,
    overdueAfterSeconds: nat,
    occurrenceNo: nat,
    sourceSessionId: Option<string>,
    sourceTaskLineageId: Option<string>,
    lastCheckedAt: Option<Instant>,
    lastConditionStatus: Option<ConditionStatus>,
    lastConditionDetail: Option<string>,
    snoozeCount: nat,
    version: nat,
    createdAt: Instant,
    updatedAt: Instant,
    completedAt: Option<Instant>,
    cancelledAt: Option<Instant>)

  // ---------------------------------------------------------------- trigger validation

  predicate IsLower(c: char) {
    'a' <= c <= 'z'
  }

  /** `[a-z][a-z0-9_]{0,63}`. */
  predicate ValidAdapterName(name: string) {
    && 1 <= |name| <= 64
    && IsLower(name[0])
    && forall k :: 0 <= k < |name| ==> IsLower(name[k]) || '0' <= name[k] <= '9' || name[k] == '_'
  }

  function ValidateTrigger(trigger: Trigger): Option<DomainError> {
    match trigger
    case AtTime(_) => None
    case NextSession => None
    case NextContinuation => None
    case AfterElapsed(n) => if 1 <= n <= 31_536_000 then None else Some(InvalidElapsedDuration)
    case Interval(_, n) => if 60 <= n <= 31_536_000 then None else Some(InvalidTriggerInterval)
    case GoalActive(goal) => if 1 <= |goal| <= 512 then None else Some(InvalidGoalId)
    case Condition(adapter, parameters, poll, _) =>
      if !ValidAdapterName(adapter) then Some(InvalidConditionAdapter)
      else if !parameters.JsonObject? then Some(ConditionParametersMustBeObject)
      else if poll.Some? && !(30 <= poll.value <= 86_400) then Some(InvalidConditionPollInterval)
      else None
  }

  /** Cuts the instants of a trigger to whole milliseconds. */
  function NormalizeTrigger(trigger: Trigger): Trigger {
    match trigger
    case AtTime(at) => AtTime(Millis(at))
    case Interval(first, every) => Interval(Millis(first), every)
    case Condition(adapter, parameters, poll, manual) =>
      Condition(adapter, parameters, poll, MillisOption(manual))
    case _ => trigger
  }

  predicate NormalizedTrigger(trigger: Trigger) {
    match trigger
    case AtTime(at) => Aligned(at)
    case Interval(first, _) => Aligned(first)
    case Condition(_, _, _, manual) => AlignedOption(manual)
    case _ => true
  }

  function NormalizeRecurrence(spec: RecurrenceSpec): RecurrenceSpec {
    spec.(endAt := MillisOption(spec.endAt))
  }
}
