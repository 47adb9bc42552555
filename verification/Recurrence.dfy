/** Fixed-interval recurrence: the stepping loops of src/remindi/recurrence.rs, their closed form,
    and how the three missed-occurrence policies relate. */
module Recurrence {
  import opened Wrappers
  import opened Model

  datatype RecurrenceAdvance = RecurrenceAdvance(nextFireAt: Instant, occurrenceNo: nat, skippedCount: nat)

  function Validate(spec: RecurrenceSpec): Option<DomainError> {
    if !(60 <= spec.everySeconds <= 31_536_000) then Some(InvalidRecurrenceInterval)
    else if spec.maxOccurrences.Some? && !(1 <= spec.maxOccurrences.value <= 1_000_000) then
      Some(InvalidMaxOccurrences)
    else None
  }

  function ValidateForTrigger(spec: RecurrenceSpec, trigger: Trigger): Option<DomainError> {
    if Validate(spec).Some? then Validate(spec)
    else if !trigger.Interval? then Some(RecurrenceRequiresIntervalTrigger)
    else if trigger.everySeconds != spec.everySeconds then Some(RecurrenceIntervalMismatch)
    else None
  }

  /** Neither the occurrence limit nor the end boundary forbids this occurrence. */
  predicate Permitted(spec: RecurrenceSpec, fireAt: Instant, occurrenceNo: nat) {
    && (spec.maxOccurrences.Some? ==> occurrenceNo <= spec.maxOccurrences.value)
    && (spec.endAt.Some? ==> fireAt <= spec.endAt.value)
  }

  // ---------------------------------------------------------------- closed form

  /** The anchor `k` intervals after `anchor`. */
  function AnchorAfter(spec: RecurrenceSpec, anchor: Instant, k: nat): Instant {
    anchor + k * Seconds(spec.everySeconds)
  }

  /** How many intervals one disposition moves the anchor: one for catch-up, otherwise
      max(1, floor((now - previous) / every) + 1). */
  function StepCount(spec: RecurrenceSpec, previous: Instant, now: Instant): (k: nat)
    requires spec.everySeconds > 0
    ensures k >= 1
  {
    if spec.missedPolicy.CatchUp? || now < previous then 1
    else (now - previous) / Seconds(spec.everySeconds) + 1
  }

  function AdvanceSpec(spec: RecurrenceSpec, previous: Instant, occurrenceNo: nat, now: Instant)
    : Result<RecurrenceAdvance, DomainError>
  {
    if Validate(spec).Some? then Failure(Validate(spec).value)
    else
      var k := StepCount(spec, previous, now);
      if Permitted(spec, AnchorAfter(spec, previous, k), occurrenceNo + k) then
        Success(RecurrenceAdvance(
          AnchorAfter(spec, previous, k),
          occurrenceNo + k,
          if spec.missedPolicy.Skip? then k - 1 else 0))
      else Failure(FinalOccurrence)
  }

  lemma AnchorStep(spec: RecurrenceSpec, anchor: Instant, k: nat)
    ensures AnchorAfter(spec, anchor, k + 1) == AnchorAfter(spec, anchor, k) + Seconds(spec.everySeconds)
    ensures AnchorAfter(spec, AnchorAfter(spec, anchor, 1), k) == AnchorAfter(spec, anchor, k + 1)
  {
    var i := Seconds(spec.everySeconds);
    assert (k + 1) * i == k * i + i;
    assert 1 * i == i;
  }

  lemma MultiplesGrow(i: int, j: nat, k: nat)
    requires i > 0 && j < k
    ensures j * i + i <= k * i
  {
    var d := k - j - 1;
    assert d * i >= 0;
    assert k * i == (j + d + 1) * i == j * i + d * i + i;
  }

  lemma AnchorOrder(spec: RecurrenceSpec, anchor: Instant, j: nat, k: nat)
    requires spec.everySeconds > 0
    ensures j <= k <==> AnchorAfter(spec, anchor, j) <= AnchorAfter(spec, anchor, k)
    ensures j < k ==> AnchorAfter(spec, anchor, j) + Seconds(spec.everySeconds) <= AnchorAfter(spec, anchor, k)
  {
    var i := Seconds(spec.everySeconds);
    if j < k {
      MultiplesGrow(i, j, k);
    } else if k < j {
      MultiplesGrow(i, k, j);
    }
  }

  /** Once an occurrence is forbidden every later one is. */
  lemma ForbiddenStaysForbidden(spec: RecurrenceSpec, anchor: Instant, occurrenceNo: nat, j: nat, k: nat)
    requires spec.everySeconds > 0 && j <= k
    requires !Permitted(spec, AnchorAfter(spec, anchor, j), occurrenceNo + j)
    ensures !Permitted(spec, AnchorAfter(spec, anchor, k), occurrenceNo + k)
  {
    AnchorOrder(spec, anchor, j, k);
  }

  /** Coalesce and Skip stop at the first anchor after `now`, and at no other. */
  lemma StepCountIsFirstFuture(spec: RecurrenceSpec, previous: Instant, now: Instant, j: nat)
    requires spec.everySeconds > 0 && !spec.missedPolicy.CatchUp? && j >= 1
    ensures j == StepCount(spec, previous, now)
       <==> AnchorAfter(spec, previous, j) > now && (j == 1 || AnchorAfter(spec, previous, j - 1) <= now)
  {
    var i := Seconds(spec.everySeconds);
    var k := StepCount(spec, previous, now);
    if now >= previous {
      var q := (now - previous) / i;
      QuotientBounds(now - previous, i);
      assert (q + 1) * i == q * i + i;
      assert AnchorAfter(spec, previous, k) > now;
      assert AnchorAfter(spec, previous, k - 1) <= now;
    } else {
      assert 1 * i == i && 0 * i == 0;
      assert k == 1;
    }
    assert j - 1 >= 0;
    if now < previous {
      AnchorOrder(spec, previous, 0, j);
      AnchorOrder(spec, previous, 0, j - 1);
    } else if j < k {
      AnchorOrder(spec, previous, j, k - 1);
    } else if j > k {
      AnchorOrder(spec, previous, k, j - 1);
    }
  }

  lemma QuotientBounds(a: int, i: int)
    requires i > 0 && a >= 0
    ensures (a / i) * i <= a < (a / i) * i + i
  {
  }

  // ---------------------------------------------------------------- the loops

  /** Moves a recurring item to its next occurrence, one interval at a time, checking the limits
      at every step. */
  method Advance(
      spec: RecurrenceSpec, previous: Instant, occurrenceNo: nat, now: Instant, disposition: OccurrenceDisposition)
    returns (r: Result<RecurrenceAdvance, DomainError>)
    ensures r == AdvanceSpec(spec, previous, occurrenceNo, now)
    ensures !(60 <= spec.everySeconds <= 31_536_000) <==> r == Failure(InvalidRecurrenceInterval)
    ensures 60 <= spec.everySeconds <= 31_536_000 ==>
      (r == Failure(InvalidMaxOccurrences) <==>
         spec.maxOccurrences.Some? && !(1 <= spec.maxOccurrences.value <= 1_000_000))
    ensures r.Success? || r == Failure(FinalOccurrence) ==>
      var k := StepCount(spec, previous, now);
      && (r == Failure(FinalOccurrence) <==>
            || (spec.maxOccurrences.Some? && occurrenceNo + k > spec.maxOccurrences.value)
            || (spec.endAt.Some? && previous + k * Seconds(spec.everySeconds) > spec.endAt.value))
      && (r.Success? ==>
            && r.value.occurrenceNo == occurrenceNo + k
            && r.value.nextFireAt == previous + k * Seconds(spec.everySeconds)
            && r.value.skippedCount == if spec.missedPolicy.Skip? then k - 1 else 0)
    ensures r.Failure? ==> r.error in {InvalidRecurrenceInterval, InvalidMaxOccurrences, FinalOccurrence}
  {
    var invalid := Validate(spec);
    if invalid.Some? {
      return Failure(invalid.value);
    }
    var interval := Seconds(spec.everySeconds);
    var next := previous + interval;
    var nextOccurrence := occurrenceNo + 1;
    var skippedCount := 0;
    ghost var k := StepCount(spec, previous, now);
    ghost var j: nat := 1;
    assert 1 * interval == interval;
    if !Permitted(spec, next, nextOccurrence) {
      ForbiddenStaysForbidden(spec, previous, occurrenceNo, 1, k);
      return Failure(FinalOccurrence);
    }
    if spec.missedPolicy.Coalesce? || spec.missedPolicy.Skip? {
      while next <= now
        invariant 1 <= j && next == AnchorAfter(spec, previous, j) && nextOccurrence == occurrenceNo + j
        invariant j == 1 || AnchorAfter(spec, previous, j - 1) <= now
        invariant skippedCount == if spec.missedPolicy.Skip? then j - 1 else 0
        invariant Permitted(spec, next, nextOccurrence)
        decreases now - next
      {
        if spec.missedPolicy.Skip? {
          skippedCount := skippedCount + 1;
        }
        AnchorStep(spec, previous, j);
        next := next + interval;
        nextOccurrence := nextOccurrence + 1;
        j := j + 1;
        if !Permitted(spec, next, nextOccurrence) {
          StepCountIsFirstFuture(spec, previous, now, k);
          if k < j {
            AnchorOrder(spec, previous, k, j - 1);
          }
          ForbiddenStaysForbidden(spec, previous, occurrenceNo, j, k);
          return Failure(FinalOccurrence);
        }
      }
      StepCountIsFirstFuture(spec, previous, now, j);
    }
    return Success(RecurrenceAdvance(next, nextOccurrence, skippedCount));
  }

  /** Whether the `k`-th catch-up occurrence after the current one is already ready. */
  predicate ReadyAt(spec: RecurrenceSpec, anchor: Instant, occurrenceNo: nat, now: Instant, k: nat) {
    && AnchorAfter(spec, anchor, k) <= now
    && Permitted(spec, AnchorAfter(spec, anchor, k), occurrenceNo + k)
  }

  /** The occurrence has come by `now`, not after the end, and is among those allowed. */
  predicate HappensBy(spec: RecurrenceSpec, anchor: Instant, number: nat, now: Instant) {
    && anchor <= now
    && (spec.endAt.None? || anchor <= spec.endAt.value)
    && (spec.maxOccurrences.None? || number <= spec.maxOccurrences.value)
  }

  lemma ReadyAtMeans(spec: RecurrenceSpec, anchor: Instant, occurrenceNo: nat, now: Instant, k: nat)
    ensures ReadyAt(spec, anchor, occurrenceNo, now, k)
       <==> HappensBy(spec, anchor + k * Seconds(spec.everySeconds), occurrenceNo + k, now)
  {
  }

  /** Counts the catch-up occurrences that are ready, up to a cap. */
  method ReadyOccurrences(
      spec: RecurrenceSpec, currentAnchor: Instant, occurrenceNo: nat, now: Instant, maximum: nat)
    returns (r: Result<nat, DomainError>)
    ensures Validate(spec).Some? ==> r == Failure(Validate(spec).value)
    ensures Validate(spec).None? && maximum == 0 ==> r == Failure(InvalidCatchUpLimit)
    ensures Validate(spec).None? && maximum > 0 ==>
      && r.Success? && r.value <= maximum
      && (forall k: nat :: k < maximum ==> (k < r.value <==> ReadyAt(spec, currentAnchor, occurrenceNo, now, k)))
      && (forall k: nat :: k < maximum ==>
            (k < r.value <==> HappensBy(spec, currentAnchor + k * Seconds(spec.everySeconds), occurrenceNo + k, now)))
      && r.value == Capped(|CatchUpAnchors(spec, currentAnchor, occurrenceNo, now)|, maximum)
  {
    var invalid := Validate(spec);
    if invalid.Some? {
      return Failure(invalid.value);
    }
    if maximum == 0 {
      return Failure(InvalidCatchUpLimit);
    }
    var interval := Seconds(spec.everySeconds);
    var anchor, number, ready := currentAnchor, occurrenceNo, 0;
    assert 0 * interval == 0;
    while anchor <= now && ready < maximum
      invariant ready <= maximum
      invariant anchor == AnchorAfter(spec, currentAnchor, ready) && number == occurrenceNo + ready
      invariant forall k: nat :: k < ready ==> ReadyAt(spec, currentAnchor, occurrenceNo, now, k)
      decreases maximum - ready
    {
      if !Permitted(spec, anchor, number) {
        break;
      }
      AnchorStep(spec, currentAnchor, ready);
      ready := ready + 1;
      anchor := anchor + interval;
      number := number + 1;
    }
    if ready < maximum {
      forall k: nat | ready <= k
        ensures !ReadyAt(spec, currentAnchor, occurrenceNo, now, k)
      {
        NotReadyStaysNotReady(spec, currentAnchor, occurrenceNo, now, ready, k);
      }
    }
    CatchUpChainIsReadyAnchors(spec, currentAnchor, occurrenceNo, now);
    hide CatchUpAnchors, ReadyAt, HappensBy;
    ghost var visited := |CatchUpAnchors(spec, currentAnchor, occurrenceNo, now)|;
    forall k: nat | k < maximum
      ensures k < ready <==> HappensBy(spec, currentAnchor + k * interval, occurrenceNo + k, now)
    {
      ReadyAtMeans(spec, currentAnchor, occurrenceNo, now, k);
    }
    assert ready == maximum || !ReadyAt(spec, currentAnchor, occurrenceNo, now, ready);
    assert ready == 0 || ReadyAt(spec, currentAnchor, occurrenceNo, now, ready - 1);
    return Success(ready);
  }

  function Capped(n: nat, maximum: nat): nat {
    if n <= maximum then n else maximum
  }

  lemma NotReadyStaysNotReady(
      spec: RecurrenceSpec, anchor: Instant, occurrenceNo: nat, now: Instant, j: nat, k: nat)
    requires spec.everySeconds > 0 && j <= k
    requires !ReadyAt(spec, anchor, occurrenceNo, now, j)
    ensures !ReadyAt(spec, anchor, occurrenceNo, now, k)
  {
    AnchorOrder(spec, anchor, j, k);
  }

  /** Where an advance ends, by the limits themselves: the occurrence whose number is the maximum and
      the one whose anchor is the end still happen, and the next does not. */
  lemma LastOccurrenceHappens(spec: RecurrenceSpec, previous: Instant, occurrenceNo: nat, now: Instant)
    requires 60 <= spec.everySeconds <= 31_536_000
    requires spec.maxOccurrences.Some? ==> 1 <= spec.maxOccurrences.value <= 1_000_000
    ensures
      var k := StepCount(spec, previous, now);
      var number, anchor := occurrenceNo + k, previous + k * Seconds(spec.everySeconds);
      AdvanceSpec(spec, previous, occurrenceNo, now)
      == if (spec.maxOccurrences.None? || number <= spec.maxOccurrences.value)
            && (spec.endAt.None? || anchor <= spec.endAt.value)
         then Success(RecurrenceAdvance(anchor, number, if spec.missedPolicy.Skip? then k - 1 else 0))
         else Failure(FinalOccurrence)
    ensures spec.missedPolicy.CatchUp? ==> StepCount(spec, previous, now) == 1
  {
  }

  // ---------------------------------------------------------------- how the policies relate

  function WithPolicy(spec: RecurrenceSpec, policy: MissedPolicy): RecurrenceSpec {
    spec.(missedPolicy := policy)
  }

  /** Catch-up dispositions repeated, at least once, until the anchor lies after `now`. */
  function CatchUpUntilFuture(spec: RecurrenceSpec, previous: Instant, occurrenceNo: nat, now: Instant)
    : Result<RecurrenceAdvance, DomainError>
    requires Validate(spec).None?
    decreases now - previous
  {
    var step := AdvanceSpec(WithPolicy(spec, CatchUp), previous, occurrenceNo, now);
    if step.Failure? then step
    else
      AnchorStep(spec, previous, 0);
      assert AnchorAfter(spec, previous, 0) == previous;
      if step.value.nextFireAt <= now then
        CatchUpUntilFuture(spec, step.value.nextFireAt, step.value.occurrenceNo, now)
      else step
  }

  /** One coalescing advance ends where repeated catch-up advances end, the final occurrence
      included. */
  lemma {:induction false} CoalesceIsRepeatedCatchUp(
      spec: RecurrenceSpec, previous: Instant, occurrenceNo: nat, now: Instant)
    requires Validate(spec).None?
    ensures CatchUpUntilFuture(spec, previous, occurrenceNo, now)
         == AdvanceSpec(WithPolicy(spec, Coalesce), previous, occurrenceNo, now)
    decreases now - previous
  {
    var coalesce, catchUp := WithPolicy(spec, Coalesce), WithPolicy(spec, CatchUp);
    var k := StepCount(coalesce, previous, now);
    var next := AnchorAfter(spec, previous, 1);
    AnchorStep(spec, previous, 0);
    if !Permitted(spec, next, occurrenceNo + 1) {
      ForbiddenStaysForbidden(spec, previous, occurrenceNo, 1, k);
    } else if next <= now {
      CoalesceIsRepeatedCatchUp(spec, next, occurrenceNo + 1, now);
      var rest := StepCount(coalesce, next, now);
      StepCountIsFirstFuture(coalesce, next, now, rest);
      AnchorStep(spec, previous, rest);
      AnchorStep(spec, previous, rest - 1);
      StepCountIsFirstFuture(coalesce, previous, now, rest + 1);
    } else {
      StepCountIsFirstFuture(coalesce, previous, now, 1);
    }
  }

  /** Skip moves exactly as Coalesce does and reports the occurrences it passed over. */
  lemma SkipCountsWhatCoalescePasses(spec: RecurrenceSpec, previous: Instant, occurrenceNo: nat, now: Instant)
    requires Validate(spec).None?
    ensures
      var skip := AdvanceSpec(WithPolicy(spec, Skip), previous, occurrenceNo, now);
      var coalesce := AdvanceSpec(WithPolicy(spec, Coalesce), previous, occurrenceNo, now);
      match skip
      case Failure(e) => coalesce == Failure(e)
      case Success(s) =>
        && coalesce == Success(s.(skippedCount := 0))
        && s.occurrenceNo == occurrenceNo + 1 + s.skippedCount
        && forall k: nat :: 1 <= k ==> (k <= s.skippedCount <==> AnchorAfter(spec, previous, k) <= now)
  {
    var skip := AdvanceSpec(WithPolicy(spec, Skip), previous, occurrenceNo, now);
    if skip.Success? {
      var n := StepCount(WithPolicy(spec, Skip), previous, now);
      StepCountIsFirstFuture(WithPolicy(spec, Skip), previous, now, n);
      forall k: nat | 1 <= k
        ensures k <= n - 1 <==> AnchorAfter(spec, previous, k) <= now
      {
        AnchorOrder(spec, previous, k, n);
        AnchorOrder(spec, previous, n, k);
        AnchorOrder(spec, previous, k, n - 1);
      }
    }
  }

  /** The ready anchors a chain of catch-up dispositions visits from the current occurrence on. */
  function CatchUpAnchors(spec: RecurrenceSpec, anchor: Instant, occurrenceNo: nat, now: Instant): seq<Instant>
    requires Validate(spec).None?
    decreases now - anchor
  {
    if anchor > now || !Permitted(spec, anchor, occurrenceNo) then []
    else
      AnchorStep(spec, anchor, 0);
      var step := AdvanceSpec(WithPolicy(spec, CatchUp), anchor, occurrenceNo, now);
      [anchor] + if step.Success? then CatchUpAnchors(spec, step.value.nextFireAt, step.value.occurrenceNo, now) else []
  }

  /** The chain visits the anchors `ReadyOccurrences` counts, in order, and no others; so the count
      is the length of the chain, capped. */
  lemma {:induction false} CatchUpChainIsReadyAnchors(
      spec: RecurrenceSpec, anchor: Instant, occurrenceNo: nat, now: Instant)
    requires Validate(spec).None?
    ensures
      var chain := CatchUpAnchors(spec, anchor, occurrenceNo, now);
      && (forall k: nat :: k < |chain| <==> ReadyAt(spec, anchor, occurrenceNo, now, k))
      && (forall k: nat :: k < |chain| ==> chain[k] == AnchorAfter(spec, anchor, k))
    decreases now - anchor
  {
    var chain := CatchUpAnchors(spec, anchor, occurrenceNo, now);
    assert AnchorAfter(spec, anchor, 0) == anchor;
    if chain == [] {
      forall k: nat ensures !ReadyAt(spec, anchor, occurrenceNo, now, k) {
        NotReadyStaysNotReady(spec, anchor, occurrenceNo, now, 0, k);
      }
    } else {
      var next := AnchorAfter(spec, anchor, 1);
      AnchorStep(spec, anchor, 0);
      if !Permitted(spec, next, occurrenceNo + 1) {
        assert chain == [anchor];
        forall k: nat | k > 0 ensures !ReadyAt(spec, anchor, occurrenceNo, now, k) {
          ForbiddenStaysForbidden(spec, anchor, occurrenceNo, 1, k);
        }
      } else {
        CatchUpChainIsReadyAnchors(spec, next, occurrenceNo + 1, now);
        var tail := CatchUpAnchors(spec, next, occurrenceNo + 1, now);
        assert chain == [anchor] + tail;
        forall k: nat | k > 0
          ensures k < |chain| <==> ReadyAt(spec, anchor, occurrenceNo, now, k)
          ensures k < |chain| ==> chain[k] == AnchorAfter(spec, anchor, k)
        {
          AnchorStep(spec, anchor, k - 1);
          assert k - 1 < |tail| <==> ReadyAt(spec, next, occurrenceNo + 1, now, k - 1);
        }
      }
    }
  }

  /** A successful advance keeps the anchor on the lattice of its previous value and moves the
      occurrence number by the same number of steps. */
  lemma AdvanceConservation(spec: RecurrenceSpec, previous: Instant, occurrenceNo: nat, now: Instant)
    requires AdvanceSpec(spec, previous, occurrenceNo, now).Success?
    ensures
      var a := AdvanceSpec(spec, previous, occurrenceNo, now).value;
      && a.occurrenceNo > occurrenceNo
      && a.nextFireAt - previous == (a.occurrenceNo - occurrenceNo) * Seconds(spec.everySeconds)
      && (!spec.missedPolicy.CatchUp? ==> a.nextFireAt > now)
      && Permitted(spec, a.nextFireAt, a.occurrenceNo)
  {
    if !spec.missedPolicy.CatchUp? {
      StepCountIsFirstFuture(spec, previous, now, StepCount(spec, previous, now));
    }
  }
}
