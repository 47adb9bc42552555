/** What holds of every run of the store, from an empty database on. */
module StoreTheorems {
  import opened Wrappers
  import opened Model
  import opened Lifecycle
  import opened Operations
  import opened Store
  import opened StoreRuns
  import Recurrence

  // ---------------------------------------------------------------- the backup invariant query

  /** What the invariant query of a backup verification counts: rows of another owner, rows that are
      completed without exactly one evidence row or have one without being completed, and rows with
      only one of the two snooze fields. */
  function Violations(db: Db, ownerId: string): nat {
    |(set id | id in db.items && db.items[id].ownerId != ownerId)|
    + |(set id | id in db.items && (db.items[id].state.Completed? != (id in db.evidence)))|
    + |(set id | id in db.items && db.items[id].snoozeUntil.None? != db.items[id].snoozedFromState.None?)|
  }

  /** Under every interleaving of tool calls, snapshot reads and late commits, no row violates the
      query, the schema or the lifecycle rules. */
  lemma NoRunViolatesTheInvariants(ownerId: string, steps: seq<Step>)
    ensures
      var db := Run(EmptyWorld, ownerId, steps).db;
      && Violations(db, ownerId) == 0
      && forall id :: id in db.items ==>
           && StoredInv(db.items[id])
           && id in db.links && GoalLinkFits(db.items[id].trigger, LinkInputs(db.links[id]))
  {
    hide StoredInv, GoalLinkFits, Run, DbInv, HistoryInv, SnapshotInv;
    EmptyWorldInvariant(ownerId);
    RunKeepsInvariant(EmptyWorld, ownerId, steps);
    var db := Run(EmptyWorld, ownerId, steps).db;
    forall id | id in db.items
      ensures db.items[id].ownerId == ownerId && (db.items[id].state.Completed? <==> id in db.evidence)
      ensures db.items[id].snoozeUntil.None? <==> db.items[id].snoozedFromState.None?
      ensures StoredInv(db.items[id])
      ensures id in db.links && GoalLinkFits(db.items[id].trigger, LinkInputs(db.links[id]))
    {
      RowFacts(db, ownerId, id);
    }
    assert (set id | id in db.items && db.items[id].ownerId != ownerId) == {};
    assert (set id | id in db.items && (db.items[id].state.Completed? != (id in db.evidence))) == {};
    assert (set id | id in db.items
                     && db.items[id].snoozeUntil.None? != db.items[id].snoozedFromState.None?) == {};
  }

  // ---------------------------------------------------------------- versions

  /** A step leaves a row alone or takes it from its version to the next one; it never leaves a
      terminal state, never changes a row's identity, and never rewrites an event. */
  lemma StepMovesOneVersion(w: World, ownerId: string, step: Step, id: Uuid)
    requires WorldInv(w, ownerId) && id in w.db.items
    ensures
      var after := Next(w, ownerId, step);
      && id in after.db.items
      && w.db.events <= after.db.events
      && SameIdentity(w.db.items[id], after.db.items[id])
      && (after.db.items[id] != w.db.items[id] ==>
            && !w.db.items[id].state.IsTerminal()
            && after.db.items[id].version == w.db.items[id].version + 1)
  {
    hide StoredInv, ItemInv, RowInv, UpdatedRow, Stored, NewItem, ApplyOperation, Candidate, ValidLinks,
      GoalLinkFits, Normalize, PersistEvaluated, HistoryInv, SnapshotInv, Execute;
    match step
    case CallTool(call) =>
      ExecuteOutcome(w.db, ownerId, call);
      EventsOnlyGrow(w.db, ownerId, call);
    case ReadSnapshot(_) =>
    case CommitSnapshot(prior, e) =>
      if Next(w, ownerId, step) != w {
        CurrentSnapshotIsRow(w, ownerId, prior);
        LateCommitIsIgnored(w, ownerId, prior, e);
        CommitChangesOneRow(w.db, ownerId, prior, e);
      }
  }

  lemma EventsOnlyGrow(db: Db, ownerId: string, call: Call)
    ensures db.events <= Execute(db, ownerId, call).db.events
  {
    hide ValidRequest, TimelyRequest, Stored, NewItem, SchemaChecks, ApplyOperation, Normalize, UpdatedRow;
  }

  /** In every run, at every time, each item's events chain None -> 1 -> 2 -> ... -> its version
      without a gap. */
  lemma HistoryHasNoGap(ownerId: string, steps: seq<Step>, id: Uuid, n: nat)
    requires id in Run(EmptyWorld, ownerId, steps).db.items
    requires 1 <= n <= Run(EmptyWorld, ownerId, steps).db.items[id].version
    ensures
      var db := Run(EmptyWorld, ownerId, steps).db;
      var events := EventsOf(db.events, id);
      && VersionChain(events, db.items[id].version)
      && exists k :: 0 <= k < |events| && events[k].newVersion == n
  {
    hide Run, StoredInv;
    EmptyWorldInvariant(ownerId);
    RunKeepsInvariant(EmptyWorld, ownerId, steps);
    var db := Run(EmptyWorld, ownerId, steps).db;
    assert RowInv(db, ownerId, id);
    ChainHasNoGap(EventsOf(db.events, id), db.items[id].version, n);
  }

  /** No update is lost: although evaluations are committed long after their snapshot was read, every
      version of every item is one operation applied to the version just before it, the first is
      what its add request created, and the last is the row. */
  lemma NoUpdateIsLost(ownerId: string, steps: seq<Step>, id: Uuid)
    requires id in Run(EmptyWorld, ownerId, steps).db.items
    ensures
      var w := Run(EmptyWorld, ownerId, steps);
      && id in w.history
      && var h := w.history[id];
      && |h| == w.db.items[id].version && |h| > 0 && h[|h| - 1].item == w.db.items[id]
      && IsCreation(h[0], ownerId)
      && forall k {:trigger h[k]} :: 0 < k < |h| ==> Derives(h[k - 1].item, h[k])
  {
    hide Run, DbInv, SnapshotInv, Derives, IsCreation, ItemInv;
    EmptyWorldInvariant(ownerId);
    RunKeepsInvariant(EmptyWorld, ownerId, steps);
    HistoryOf(Run(EmptyWorld, ownerId, steps), ownerId, id);
  }

  /** Items stay, and a row that kept its version is the same row. */
  predicate MovesOn(db: Db, found: Db) {
    forall id :: id in db.items ==> RowMovesOn(db, found, id)
  }

  predicate RowMovesOn(db: Db, found: Db, id: Uuid) {
    && id in db.items && id in found.items
    && db.items[id].version <= found.items[id].version
    && (db.items[id].version == found.items[id].version ==> db.items[id] == found.items[id])
  }

  /** Whatever a run does, the rows move on. */
  lemma {:induction false} RunMovesOn(w: World, ownerId: string, steps: seq<Step>)
    requires WorldInv(w, ownerId)
    ensures WorldInv(Run(w, ownerId, steps), ownerId) && MovesOn(w.db, Run(w, ownerId, steps).db)
  {
    hide WorldInv, Next;
    if steps != [] {
      var init, last := steps[..|steps| - 1], steps[|steps| - 1];
      var before := Run(w, ownerId, init);
      RunMovesOn(w, ownerId, init);
      RunKeepsInvariant(w, ownerId, steps);
      forall id | id in w.db.items ensures RowMovesOn(w.db, Run(w, ownerId, steps).db, id) {
        assert RowMovesOn(w.db, before.db, id);
        StepMovesOneVersion(before, ownerId, last, id);
      }
    }
  }

  // ---------------------------------------------------------------- the lifecycle

  /** What an evaluation may do to a stored item: only a condition that was asked and does not fire leaves
      it scheduled; it becomes due at the clock reading when it fires, overdue once its grace has run out, and
      wakes from a snooze after the deadline; the first readiness of an occurrence stays. */
  predicate LegalEvaluation(prev: Item, next: Item, e: Evaluating) {
    || (prev.state.Scheduled? && next.state.Scheduled? && next.dueSince.None?
        && prev.trigger.Condition? && e.condition.Evaluated? && !Fires(prev, e.now, e.context, e.condition))
    || (prev.state.Scheduled? && next.state.Due? && next.dueSince == Some(Millis(e.now))
        && Fires(prev, e.now, e.context, e.condition))
    || (prev.state.Due? && next.state.Overdue? && next.dueSince == prev.dueSince && GraceExpired(prev, e.now))
    || (prev.state.Snoozed? && prev.snoozeUntil.Some? && prev.snoozeUntil.value <= e.now
        && next.dueSince == prev.dueSince && next.snoozeUntil.None?
        && next.state == if GraceExpired(prev, e.now) then Overdue else Due)
  }

  /** What an update may do: a disposition takes a ready item to its next occurrence, a new trigger takes
      a snoozed item back to a schedule, and nothing else touches readiness. */
  predicate LegalUpdate(prev: Item, next: Item, r: Request)
    requires r.UpdateRequest?
  {
    if r.occurrenceDisposition.Some? then
      prev.state.IsReady() && next.state.Scheduled? && next.dueSince.None? && next.occurrenceNo > prev.occurrenceNo
    else if r.triggerChange.Some? && prev.state.Snoozed? then
      next.state.Scheduled? && next.dueSince.None? && next.snoozeUntil.None? && next.occurrenceNo == prev.occurrenceNo
    else
      && next.state == prev.state && next.dueSince == prev.dueSince && next.snoozeUntil == prev.snoozeUntil
      && next.snoozedFromState == prev.snoozedFromState && next.occurrenceNo == prev.occurrenceNo
  }

  predicate LegalMove(prev: Item, v: Version) {
    match v.origin
    case CreatedBy(_) => false
    case EvaluatedBy(e) => LegalEvaluation(prev, v.item, e)
    case MutatedBy(r, now) =>
      match r
      case AddRequest(_, _, _, _, _, _, _, _, _, _, _, _) => false
      case CompleteRequest(_, _, _, _, _) =>
        v.item.state.Completed? && v.item.completedAt == Some(Millis(now)) && v.item.dueSince == prev.dueSince
      case SnoozeRequest(_, _, until, _, _) =>
        && prev.state.IsReady() && now < until
        && v.item.state.Snoozed? && v.item.snoozedFromState == Some(prev.state)
        && v.item.snoozeUntil == Some(until) && v.item.dueSince == prev.dueSince
      case CancelRequest(_, _, _, _) =>
        v.item.state.Cancelled? && v.item.cancelledAt == Some(Millis(now)) && v.item.dueSince == prev.dueSince
      case UpdateRequest(_, _, _, _, _, _, _, _, _, _, _, _) => LegalUpdate(prev, v.item, r)
  }

  lemma EvaluationIsLegal(prev: Item, v: Version, e: Evaluating)
    requires StoredInv(prev) && Derives(prev, v) && v.origin == EvaluatedBy(e)
    ensures LegalEvaluation(prev, v.item, e)
  {
    CandidateKeeps(prev, e);
    if prev.state.Scheduled? {
      ScheduledMoveIsLegal(prev, v, e);
    } else {
      hide Fires;
    }
  }

  lemma ScheduledMoveIsLegal(prev: Item, v: Version, e: Evaluating)
    requires StoredInv(prev) && Derives(prev, v) && v.origin == EvaluatedBy(e) && prev.state.Scheduled?
    ensures LegalEvaluation(prev, v.item, e)
  {
    hide Fires;
    StoredIsInvariant(prev);
    ScheduledItemIsDueIff(prev, e.now, e.context, e.condition);
    CandidateItem(prev, e);
    hide Evaluate, Candidate, ItemInv, StoredInv;
  }

  /** What a candidate keeps of its evaluation. */
  lemma CandidateItem(prev: Item, e: Evaluating)
    requires Candidate(prev, e).Some?
    ensures
      var r := Evaluate(prev, e.now, e.context, e.condition);
      && r.Success? && r.value.events != []
      && Candidate(prev, e).value.0.state == r.value.item.state
      && Candidate(prev, e).value.0.dueSince == r.value.item.dueSince
    ensures prev.state.Scheduled? && e.condition.NotEvaluated? && prev.trigger.Condition? ==>
      Candidate(prev, e).value.0.state.Due?
    ensures prev.state.Scheduled? && !prev.trigger.Condition? ==> Candidate(prev, e).value.0.state.Due?
  {
  }

  lemma UpdateIsLegal(prev: Item, v: Version, r: Request, now: Instant)
    requires StoredInv(prev) && Derives(prev, v) && v.origin == MutatedBy(r, now) && r.UpdateRequest?
    ensures LegalUpdate(prev, v.item, r)
  {
    var done := ApplyUpdate(prev, r, now).value.item;
    UpdateReadiness(prev, r, now);
    UpdateKeepsInvariant(prev, r, now);
    hide ApplyUpdate, ValidRequest, NormalizedRequest;
  }

  lemma UpdateReadiness(prev: Item, r: Request, now: Instant)
    requires StoredInv(prev) && r.UpdateRequest? && ValidRequest(r) && NormalizedRequest(r)
    requires ApplyUpdate(prev, r, now).Success?
    ensures LegalUpdate(prev, ApplyUpdate(prev, r, now).value.item, r)
  {
    hide StoredInv, ChangeTrigger, AdvanceOccurrence, NormalizedRequest, ValidRequest, GoalLinkFits;
    StoredIsInvariant(prev);
    hide ItemInv;
    var fields := ChangeFields(prev, r);
    TriggerChangeReadiness(fields, r, now);
    var recurring := ChangeRecurrence(ChangeTrigger(fields, r, now).value, r).value;
    if r.occurrenceDisposition.Some? {
      AdvanceGrows(recurring, r.occurrenceDisposition.value, now);
    }
  }

  lemma TriggerChangeReadiness(i: Item, r: Request, now: Instant)
    requires r.UpdateRequest? && ChangeTrigger(i, r, now).Success?
    ensures
      var c := ChangeTrigger(i, r, now).value;
      && c.occurrenceNo == i.occurrenceNo
      && if r.triggerChange.Some? && i.state.Snoozed? then
           c.state.Scheduled? && c.dueSince.None? && c.snoozeUntil.None?
         else
           && c.state == i.state && c.dueSince == i.dueSince && c.snoozeUntil == i.snoozeUntil
           && c.snoozedFromState == i.snoozedFromState
  {
  }

  lemma AdvanceGrows(i: Item, disposition: OccurrenceDisposition, now: Instant)
    requires AdvanceOccurrence(i, disposition, now).Success?
    ensures
      var a := AdvanceOccurrence(i, disposition, now).value;
      a.state.Scheduled? && a.dueSince.None? && a.occurrenceNo > i.occurrenceNo
  {
    Recurrence.AdvanceConservation(i.recurrence.value, i.nextFireAt.value, i.occurrenceNo, now);
  }

  lemma DerivedMoveIsLegal(prev: Item, v: Version)
    requires StoredInv(prev) && Derives(prev, v)
    ensures LegalMove(prev, v)
  {
    match v.origin
    case EvaluatedBy(e) => EvaluationIsLegal(prev, v, e);
    case MutatedBy(r, now) =>
      if r.UpdateRequest? {
        UpdateIsLegal(prev, v, r, now);
      }
    case CreatedBy(_) =>
  }

  /** In every run, every version of every item after the first is a legal move of the lifecycle from the
      version before it. */
  lemma EveryVersionIsALegalMove(ownerId: string, steps: seq<Step>, id: Uuid, k: nat)
    requires id in Run(EmptyWorld, ownerId, steps).history
    requires 0 < k < |Run(EmptyWorld, ownerId, steps).history[id]|
    ensures
      var h := Run(EmptyWorld, ownerId, steps).history[id];
      LegalMove(h[k - 1].item, h[k])
  {
    hide Run, DbInv, SnapshotInv, HistoryInv, Derives, IsCreation, ItemInv, StoredInv, LegalMove;
    EmptyWorldInvariant(ownerId);
    RunKeepsInvariant(EmptyWorld, ownerId, steps);
    var w := Run(EmptyWorld, ownerId, steps);
    HistoryOf(w, ownerId, id);
    VersionOf(w.history[id], w.db.items[id], ownerId, k - 1);
    DerivedMoveIsLegal(w.history[id][k - 1].item, w.history[id][k]);
  }

  // ---------------------------------------------------------------- anchors

  predicate ReplacesTrigger(v: Version) {
    v.origin.MutatedBy? && v.origin.request.UpdateRequest? && v.origin.request.triggerChange.Some?
  }

  /** The occurrence number at the last trigger replacement: replacing a trigger does not reset it. */
  function BaseOccurrence(h: seq<Version>): nat
    requires |h| > 0
  {
    var last := |h| - 1;
    if last == 0 then h[0].item.occurrenceNo
    else if ReplacesTrigger(h[last]) then h[last - 1].item.occurrenceNo
    else BaseOccurrence(h[..last])
  }

  /** The anchor stands `occurrence - base` intervals after the trigger's first instant. */
  predicate OnLattice(i: Item, base: nat) {
    i.trigger.Interval? ==>
      && base <= i.occurrenceNo
      && i.nextFireAt == Some(i.trigger.firstAt + (i.occurrenceNo - base) * Seconds(i.trigger.everySeconds))
  }

  lemma LatticeIsAligned(i: Item, base: nat)
    requires i.trigger.Interval? && Aligned(i.trigger.firstAt) && OnLattice(i, base)
    ensures MillisOption(i.nextFireAt) == i.nextFireAt
  {
    var n := (i.occurrenceNo - base) * i.trigger.everySeconds;
    assert (i.occurrenceNo - base) * Seconds(i.trigger.everySeconds) == Seconds(n);
    SecondsKeepAlignment(i.trigger.firstAt, n);
  }

  /** Steps other than updates never move an anchor, an occurrence number or a trigger. */
  lemma OnlyUpdatesMoveAnchors(prev: Item, v: Version)
    requires StoredInv(prev) && Derives(prev, v)
    requires v.origin.MutatedBy? ==> !v.origin.request.UpdateRequest?
    ensures v.item.nextFireAt == prev.nextFireAt && v.item.originalNextFireAt == prev.originalNextFireAt
    ensures v.item.occurrenceNo == prev.occurrenceNo && v.item.trigger == prev.trigger
    ensures v.item.recurrence == prev.recurrence
  {
    if v.origin.EvaluatedBy? {
      CandidateKeeps(prev, v.origin.e);
    }
  }

  lemma SameSchedule(a: Item, b: Item, base: nat)
    requires a.trigger == b.trigger && a.nextFireAt == b.nextFireAt && a.occurrenceNo == b.occurrenceNo
    ensures OnLattice(a, base) <==> OnLattice(b, base)
  {
  }

  lemma TriggerChangeOnLattice(i: Item, request: Request, now: Instant, base: nat)
    requires request.UpdateRequest? && ChangeTrigger(i, request, now).Success?
    requires OnLattice(i, base) && base <= i.occurrenceNo
    ensures
      var c := ChangeTrigger(i, request, now).value;
      && c.occurrenceNo == i.occurrenceNo
      && OnLattice(c, if request.triggerChange.Some? then i.occurrenceNo else base)
  {
    var every := if request.triggerChange.Some? && request.triggerChange.value.Interval?
      then request.triggerChange.value.everySeconds else 0;
    assert 0 * Seconds(every) == 0;
  }

  lemma AdvanceOnLattice(i: Item, disposition: OccurrenceDisposition, now: Instant, base: nat)
    requires ItemInv(i) && i.state.IsReady() && OnLattice(i, base)
    requires AdvanceOccurrence(i, disposition, now).Success?
    ensures OnLattice(AdvanceOccurrence(i, disposition, now).value, base)
    ensures base <= i.occurrenceNo <= AdvanceOccurrence(i, disposition, now).value.occurrenceNo
  {
    AdvanceOccurrenceKeeps(i, disposition, now);
    var a := AdvanceOccurrence(i, disposition, now).value;
    var s := Seconds(i.trigger.everySeconds);
    assert (a.occurrenceNo - base) * s == (a.occurrenceNo - i.occurrenceNo) * s + (i.occurrenceNo - base) * s;
  }

  /** One update: displacement of the anchor and growth of the occurrence number stay in step, and a
      replaced trigger starts a new count. */
  lemma UpdateKeepsLattice(prev: Item, request: Request, now: Instant, base: nat)
    requires ItemInv(prev) && OnLattice(prev, base) && base <= prev.occurrenceNo
    requires request.UpdateRequest? && ValidRequest(request) && NormalizedRequest(request)
    requires ApplyUpdate(prev, request, now).Success?
    ensures
      var done := ApplyUpdate(prev, request, now).value.item;
      var newBase := if request.triggerChange.Some? then prev.occurrenceNo else base;
      OnLattice(done, newBase) && newBase <= done.occurrenceNo
  {
    hide ValidRequest, NormalizedRequest, ChangeTrigger, AdvanceOccurrence, OnLattice;
    var fields := ChangeFields(prev, request);
    var newBase := if request.triggerChange.Some? then prev.occurrenceNo else base;
    ChangeFieldsKeeps(prev, request);
    SameSchedule(prev, fields, base);
    ChangeTriggerKeeps(fields, request, now);
    TriggerChangeOnLattice(fields, request, now, base);
    var triggered := ChangeTrigger(fields, request, now).value;
    var recurring := ChangeRecurrence(triggered, request).value;
    SameSchedule(triggered, recurring, newBase);
    var done := ApplyUpdate(prev, request, now).value.item;
    if request.occurrenceDisposition.Some? {
      AdvanceOnLattice(recurring, request.occurrenceDisposition.value, now, newBase);
      SameSchedule(AdvanceOccurrence(recurring, request.occurrenceDisposition.value, now).value, done, newBase);
    } else {
      SameSchedule(recurring, done, newBase);
    }
  }

  lemma {:induction false} HistoryOnLattice(h: seq<Version>, row: Item, ownerId: string)
    requires ItemHistory(h, row, ownerId)
    ensures OnLattice(row, BaseOccurrence(h)) && BaseOccurrence(h) <= row.occurrenceNo
    decreases |h|
  {
    hide ItemInv, Derives, IsCreation, OnLattice, Stored;
    var last := |h| - 1;
    if last == 0 {
      CreationOnLattice(h[0], ownerId);
    } else {
      var init, prev, v := h[..last], h[last - 1].item, h[last];
      VersionOf(h, row, ownerId, last - 1);
      assert ItemHistory(init, prev, ownerId);
      HistoryOnLattice(init, prev, ownerId);
      DerivationOnLattice(prev, v, BaseOccurrence(init));
    }
  }

  lemma CreationOnLattice(v: Version, ownerId: string)
    requires IsCreation(v, ownerId)
    ensures OnLattice(v.item, v.item.occurrenceNo)
  {
    var request := Normalize(v.origin.call.request);
    NormalizationNormalizes(v.origin.call.request);
    var every := if request.newTrigger.Interval? then request.newTrigger.everySeconds else 0;
    assert 0 * Seconds(every) == 0;
  }

  lemma UpdatedRowOnLattice(prev: Item, v: Version, base: nat)
    requires StoredInv(prev) && Derives(prev, v) && v.origin.MutatedBy? && v.origin.request.UpdateRequest?
    requires OnLattice(prev, base) && base <= prev.occurrenceNo
    ensures
      var newBase := if ReplacesTrigger(v) then prev.occurrenceNo else base;
      OnLattice(v.item, newBase) && newBase <= v.item.occurrenceNo
  {
    hide ItemInv, ApplyUpdate, ValidRequest, NormalizedRequest, OnLattice;
    var newBase := if ReplacesTrigger(v) then prev.occurrenceNo else base;
    UpdateKeepsLattice(prev, v.origin.request, v.origin.now, base);
    var done := ApplyUpdate(prev, v.origin.request, v.origin.now).value.item;
    UpdateKeepsInvariant(prev, v.origin.request, v.origin.now);
    StoredOnLattice(prev, done, newBase);
  }

  lemma StoredOnLattice(row: Item, i: Item, base: nat)
    requires ItemInv(i) && OnLattice(i, base)
    ensures OnLattice(UpdatedRow(row, i), base) && UpdatedRow(row, i).occurrenceNo == i.occurrenceNo
  {
    if i.trigger.Interval? {
      LatticeIsAligned(i, base);
    }
  }

  lemma DerivationOnLattice(prev: Item, v: Version, base: nat)
    requires StoredInv(prev) && Derives(prev, v)
    requires OnLattice(prev, base) && base <= prev.occurrenceNo
    ensures
      var newBase := if ReplacesTrigger(v) then prev.occurrenceNo else base;
      OnLattice(v.item, newBase) && newBase <= v.item.occurrenceNo
  {
    hide ItemInv, StoredInv, Derives;
    if v.origin.MutatedBy? && v.origin.request.UpdateRequest? {
      UpdatedRowOnLattice(prev, v, base);
    } else {
      OnlyUpdatesMoveAnchors(prev, v);
    }
  }

  /** In every run, an interval item's anchor is its first instant plus a whole number of intervals:
      as many as the occurrence number has grown since the trigger was last replaced. A recurrence it
      carries has the same interval. */
  lemma AnchorsStayOnTheLattice(ownerId: string, steps: seq<Step>, id: Uuid)
    requires id in Run(EmptyWorld, ownerId, steps).db.items
    ensures
      var w := Run(EmptyWorld, ownerId, steps);
      var row := w.db.items[id];
      && id in w.history && |w.history[id]| > 0
      && OnLattice(row, BaseOccurrence(w.history[id]))
      && (row.recurrence.Some? ==>
            row.trigger.Interval? && row.trigger.everySeconds == row.recurrence.value.everySeconds)
  {
    hide Run, DbInv, SnapshotInv, OnLattice, StoredInv, ItemInv;
    EmptyWorldInvariant(ownerId);
    RunKeepsInvariant(EmptyWorld, ownerId, steps);
    var w := Run(EmptyWorld, ownerId, steps);
    HistoryOf(w, ownerId, id);
    HistoryOnLattice(w.history[id], w.db.items[id], ownerId);
    RowIdentity(w.db, ownerId, id);
    if w.db.items[id].recurrence.Some? {
      RecurrenceInterval(w.db.items[id]);
    }
  }

  lemma RecurrenceInterval(i: Item)
    requires ItemInv(i) && i.recurrence.Some?
    ensures i.trigger.Interval? && i.trigger.everySeconds == i.recurrence.value.everySeconds
  {
  }

  /** Counting occurrences from one gives the anchor exactly when the trigger was never replaced
      after an occurrence had passed. */
  lemma OccurrencesCountFromOneIff(i: Item, base: nat)
    requires i.trigger.Interval? && i.trigger.everySeconds > 0 && OnLattice(i, base) && i.occurrenceNo >= 1
    ensures i.nextFireAt == Some(i.trigger.firstAt + (i.occurrenceNo - 1) * Seconds(i.trigger.everySeconds))
       <==> base == 1
  {
    var s := Seconds(i.trigger.everySeconds);
    var a, b := i.occurrenceNo - base, i.occurrenceNo - 1;
    if a < b {
      Recurrence.MultiplesGrow(s, a, b);
    } else if b < a {
      Recurrence.MultiplesGrow(s, b, a);
    }
  }

  // ---------------------------------------------------------------- overdue items

  /** The item is overdue, or was when it was snoozed. */
  predicate CountsAsOverdue(i: Item) {
    i.state.Overdue? || (i.state.Snoozed? && i.snoozedFromState == Some(Overdue))
  }

  /** An item counted as overdue has outlived its grace by `clock`. */
  predicate OverdueJustified(i: Item, clock: Instant) {
    CountsAsOverdue(i) ==> GraceExpired(i, clock)
  }

  predicate InTime(step: Step, clock: Instant) {
    match step
    case CallTool(call) => call.now <= clock
    case ReadSnapshot(_) => true
    case CommitSnapshot(_, e) => e.now <= clock
  }

  /** The step does not raise the grace of this item. */
  predicate KeepsGrace(db: Db, step: Step, id: Uuid) {
    step.CallTool? ==>
      var r := Normalize(step.call.request);
      r.UpdateRequest? && r.overdueChange.Some? && r.id == id && id in db.items ==>
        r.overdueChange.value <= db.items[id].overdueAfterSeconds
  }

  /** Every step of the run happens by `clock` and raises no grace of this item. */
  predicate CalmRun(w: World, ownerId: string, steps: seq<Step>, clock: Instant, id: Uuid) {
    steps == [] ||
      var init, last := steps[..|steps| - 1], steps[|steps| - 1];
      && CalmRun(w, ownerId, init, clock, id)
      && InTime(last, clock)
      && KeepsGrace(Run(w, ownerId, init).db, last, id)
  }

  lemma StoredKeepsJustified(row: Item, i: Item, clock: Instant)
    requires ItemInv(i) && OverdueJustified(i, clock)
    ensures OverdueJustified(UpdatedRow(row, i), clock)
  {
  }

  lemma UpdateKeepsJustified(row: Item, request: Request, now: Instant, clock: Instant)
    requires ItemInv(row) && OverdueJustified(row, clock)
    requires request.UpdateRequest? && ApplyUpdate(row, request, now).Success?
    requires request.overdueChange.Some? ==> request.overdueChange.value <= row.overdueAfterSeconds
    ensures OverdueJustified(ApplyUpdate(row, request, now).value.item, clock)
  {
    hide ItemInv, ChangeTrigger, AdvanceOccurrence;
    var fields := ChangeFields(row, request);
    var triggered := ChangeTrigger(fields, request, now).value;
    LiveUpdate(row, request);
    assert OverdueJustified(fields, clock);
    ReadinessAfterTriggerChange(fields, request, now);
    var recurring := ChangeRecurrence(triggered, request).value;
    if request.occurrenceDisposition.Some? {
      AdvanceSchedules(recurring, request.occurrenceDisposition.value, now);
    }
  }

  lemma LiveUpdate(row: Item, request: Request)
    requires ItemInv(row) && request.UpdateRequest?
    requires request.overdueChange.Some? ==> request.overdueChange.value <= row.overdueAfterSeconds
    ensures GraceSeconds(ChangeFields(row, request)) <= GraceSeconds(row)
  {
  }

  lemma ReadinessAfterTriggerChange(i: Item, request: Request, now: Instant)
    requires request.UpdateRequest? && ChangeTrigger(i, request, now).Success?
    ensures
      var c := ChangeTrigger(i, request, now).value;
      && c.overdueAfterSeconds == i.overdueAfterSeconds
      && (c.state.Scheduled? || (c.state == i.state && c.dueSince == i.dueSince
                                 && c.snoozedFromState == i.snoozedFromState))
  {
  }

  lemma AdvanceSchedules(i: Item, disposition: OccurrenceDisposition, now: Instant)
    ensures AdvanceOccurrence(i, disposition, now).Success? ==>
      AdvanceOccurrence(i, disposition, now).value.state.Scheduled?
  {
  }

  lemma MutationKeepsJustified(row: Item, request: Request, now: Instant, clock: Instant)
    requires StoredInv(row) && OverdueJustified(row, clock)
    requires !request.AddRequest? && ValidRequest(request) && NormalizedRequest(request)
    requires ApplyOperation(row, request, now).Success?
    requires request.UpdateRequest? && request.overdueChange.Some? ==>
      request.overdueChange.value <= row.overdueAfterSeconds
    ensures OverdueJustified(UpdatedRow(row, ApplyOperation(row, request, now).value.item), clock)
  {
    hide ItemInv, ApplyUpdate, ValidRequest, NormalizedRequest, UpdatedRow;
    OperationKeepsInvariant(row, request, now);
    var done := ApplyOperation(row, request, now).value.item;
    if request.UpdateRequest? {
      UpdateKeepsJustified(row, request, now, clock);
    }
    StoredKeepsJustified(row, done, clock);
  }

  lemma EvaluationKeepsJustified(row: Item, e: Evaluating, clock: Instant)
    requires StoredInv(row) && OverdueJustified(row, clock) && e.now <= clock
    requires Candidate(row, e).Some?
    ensures OverdueJustified(UpdatedRow(row, Candidate(row, e).value.0), clock)
  {
    hide ItemInv, StoredInv, Candidate, LegalEvaluation;
    var next := UpdatedRow(row, Candidate(row, e).value.0);
    StoredIsInvariant(row);
    CandidateKeeps(row, e);
    EvaluationIsLegal(row, Version(next, EvaluatedBy(e)), e);
    LegalEvaluationKeepsJustified(row, next, e, clock);
  }

  lemma LegalEvaluationKeepsJustified(row: Item, next: Item, e: Evaluating, clock: Instant)
    requires OverdueJustified(row, clock) && e.now <= clock && LegalEvaluation(row, next, e)
    requires next.overdueAfterSeconds == row.overdueAfterSeconds
    ensures OverdueJustified(next, clock)
  {
  }

  lemma StepKeepsJustified(w: World, ownerId: string, step: Step, clock: Instant, id: Uuid)
    requires WorldInv(w, ownerId) && InTime(step, clock) && KeepsGrace(w.db, step, id)
    requires id in w.db.items ==> OverdueJustified(w.db.items[id], clock)
    requires id in Next(w, ownerId, step).db.items
    ensures OverdueJustified(Next(w, ownerId, step).db.items[id], clock)
  {
    hide StoredInv, ItemInv, UpdatedRow, Stored, NewItem, ApplyOperation, Candidate, ValidLinks, GoalLinkFits,
      Normalize, PersistEvaluated, HistoryInv, SnapshotInv, Execute, OverdueJustified, DbInv, ValidRequest,
      NormalizedRequest, Appends;
    match step
    case CallTool(call) =>
      ExecuteOutcome(w.db, ownerId, call);
      if CallWrites(w.db, ownerId, call) {
        var request := Normalize(call.request);
        if request.AddRequest? {
          NewItemJustified(request, ownerId, call.newId, call.now, clock);
        } else {
          RowIdentity(w.db, ownerId, request.id);
          if id == request.id {
            MutationKeepsJustified(w.db.items[id], request, call.now, clock);
          }
        }
      }
    case ReadSnapshot(_) =>
    case CommitSnapshot(prior, e) =>
      if Next(w, ownerId, step) != w {
        CurrentSnapshotIsRow(w, ownerId, prior);
        LateCommitIsIgnored(w, ownerId, prior, e);
        CommitChangesOneRow(w.db, ownerId, prior, e);
        RowIdentity(w.db, ownerId, prior.id);
        if id == prior.id {
          EvaluationKeepsJustified(prior, e, clock);
        }
      }
  }

  lemma NewItemJustified(request: Request, ownerId: string, id: Uuid, now: Instant, clock: Instant)
    requires request.AddRequest?
    ensures OverdueJustified(Stored(NewItem(request, ownerId, id, now)), clock)
  {
  }

  lemma {:induction false} CalmRunsJustifyOverdue(ownerId: string, steps: seq<Step>, clock: Instant, id: Uuid)
    requires CalmRun(EmptyWorld, ownerId, steps, clock, id)
    requires id in Run(EmptyWorld, ownerId, steps).db.items
    ensures OverdueJustified(Run(EmptyWorld, ownerId, steps).db.items[id], clock)
  {
    hide WorldInv, OverdueJustified, Next, InTime, KeepsGrace;
    if steps != [] {
      var init, last := steps[..|steps| - 1], steps[|steps| - 1];
      var before := Run(EmptyWorld, ownerId, init);
      EmptyWorldInvariant(ownerId);
      RunKeepsInvariant(EmptyWorld, ownerId, init);
      if id in before.db.items {
        CalmRunsJustifyOverdue(ownerId, init, clock, id);
      }
      StepKeepsJustified(before, ownerId, last, clock, id);
    }
  }

  /** In any run that does not raise the item's grace, an overdue item that is snoozed comes back overdue from its
      deadline on, at any time not before the run's clock. */
  lemma SnoozedOverdueReturnsOverdue(
      ownerId: string, steps: seq<Step>, clock: Instant, id: Uuid,
      until: Instant, reason: string, t: Instant, now: Instant, context: CheckContext, condition: ConditionEvaluation)
    requires CalmRun(EmptyWorld, ownerId, steps, clock, id)
    requires id in Run(EmptyWorld, ownerId, steps).db.items
    requires Run(EmptyWorld, ownerId, steps).db.items[id].state.Overdue?
    requires SnoozeItem(Run(EmptyWorld, ownerId, steps).db.items[id], until, reason, t).Success?
    requires now >= until && now >= clock
    ensures
      var row := Run(EmptyWorld, ownerId, steps).db.items[id];
      var back := Evaluate(Stored(SnoozeItem(row, until, reason, t).value), now, context, condition);
      back.Success? && back.value.item.state.Overdue? && back.value.readiness == Some(ReadyOverdue)
  {
    hide WorldInv, Run, CalmRun, Evaluate, Stored, SnoozeItem, StoredInv;
    EmptyWorldInvariant(ownerId);
    RunKeepsInvariant(EmptyWorld, ownerId, steps);
    CalmRunsJustifyOverdue(ownerId, steps, clock, id);
    RunRow(ownerId, steps, id);
    SnoozedOverdueComesBack(Run(EmptyWorld, ownerId, steps).db.items[id], until, reason, t, now, context, condition);
  }

  lemma RunRow(ownerId: string, steps: seq<Step>, id: Uuid)
    requires WorldInv(Run(EmptyWorld, ownerId, steps), ownerId)
    requires id in Run(EmptyWorld, ownerId, steps).db.items
    ensures StoredInv(Run(EmptyWorld, ownerId, steps).db.items[id])
  {
    hide Run, DbInv, HistoryInv, SnapshotInv, StoredInv;
    RowIdentity(Run(EmptyWorld, ownerId, steps).db, ownerId, id);
  }

  /** An update of nothing but the grace. */
  function RegraceRequest(i: Item, seconds: nat): Request {
    UpdateRequest(i.id, i.version, None, None, None, None, None, Some(seconds), None, None, "later", "regrace")
  }

  lemma RegraceChangesOnlyGrace(i: Item, seconds: nat, now: Instant)
    requires StoredInv(i) && i.state.Overdue? && seconds <= 31_536_000
    ensures
      var r := ApplyUpdate(i, RegraceRequest(i, seconds), now);
      && r.Success?
      && StoredInv(Stored(r.value.item))
      && Stored(r.value.item)
         == i.(overdueAfterSeconds := seconds, version := i.version + 1, updatedAt := Millis(now))
  {
  }

  /** An overdue item whose grace is changed and which is then snoozed comes back overdue exactly when
      the new grace has run out too; so raising the grace can bring it back merely due. */
  lemma RegracedOverdueComesBack(
      i: Item, seconds: nat, until: Instant, t: Instant, now: Instant, context: CheckContext)
    requires StoredInv(i) && i.state.Overdue? && seconds <= 31_536_000
    requires t < until <= now
    ensures
      var regraced := Stored(ApplyUpdate(i, RegraceRequest(i, seconds), t).value.item);
      && SnoozeItem(regraced, until, "later", t).Success?
      && var back := Evaluate(Stored(SnoozeItem(regraced, until, "later", t).value), now, context, NotEvaluated);
      && back.Success?
      && (back.value.item.state.Overdue? <==> now >= i.dueSince.value + Seconds(seconds))
  {
    hide ItemInv, ApplyUpdate, Stored, Evaluate;
    RegraceChangesOnlyGrace(i, seconds, t);
    OverdueHasDueSince(i);
    var regraced := Stored(ApplyUpdate(i, RegraceRequest(i, seconds), t).value.item);
    assert "later"[0] == 'l';
    SnoozedOverdueComesBack(regraced, until, "later", t, now, context, NotEvaluated);
  }

  lemma OverdueHasDueSince(i: Item)
    requires StoredInv(i) && i.state.Overdue?
    ensures i.dueSince.Some?
  {
  }

  /** For instance this item, overdue from the start with a grace of zero, raised to an hour and
      snoozed for a millisecond, comes back due. */
  lemma RaisedGraceBringsBackDue(context: CheckContext)
    ensures exists i: Item ::
      && StoredInv(i) && i.state.Overdue? && OverdueJustified(i, 0)
      && var raised := Stored(ApplyUpdate(i, RegraceRequest(i, 3600), 0).value.item);
      && SnoozeItem(raised, 1_000_000, "later", 0).Success?
      && Evaluate(Stored(SnoozeItem(raised, 1_000_000, "later", 0).value), 1_000_000, context, NotEvaluated).Success?
      && !Evaluate(Stored(SnoozeItem(raised, 1_000_000, "later", 0).value), 1_000_000, context, NotEvaluated)
            .value.item.state.Overdue?
  {
    hide ApplyUpdate, Evaluate, SnoozeItem, Stored;
    var i := Item(
      0, "owner", "project", None, "message", None, Overdue, Normal, NextSession, None, None, None, None, Some(0),
      None, None, 0, 1, None, None, None, None, None, 0, 3, 0, 0, None, None);
    ExampleIsStored(i);
    RegracedOverdueComesBack(i, 3600, 1_000_000, 0, 1_000_000, context);
  }

  lemma ExampleIsStored(i: Item)
    requires i == Item(
      0, "owner", "project", None, "message", None, Overdue, Normal, NextSession, None, None, None, None, Some(0),
      None, None, 0, 1, None, None, None, None, None, 0, 3, 0, 0, None, None)
    ensures StoredInv(i)
  {
  }
}
