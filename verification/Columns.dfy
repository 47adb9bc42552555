/** What each mutating call answers and what it writes, column by column
    (src/remindi/service.rs, src/remindi/state_machine.rs, src/remindi/repository.rs). */
module Columns {
  import opened Wrappers
  import opened Model
  import opened Lifecycle
  import opened Evidence
  import opened Operations
  import opened Store
  import opened StoreRuns
  import opened StoreTheorems
  import Recurrence

  const NANOS: int := 1_000_000_000

  // ---------------------------------------------------------------- keys

  /** Two calls share a stored answer exactly when actor, tool and key are the same. */
  lemma KeysSeparate(a: Call, b: Call)
    ensures KeyOf(a) == KeyOf(b) <==>
      && a.actor.actorId == b.actor.actorId
      && a.request.key == b.request.key
      && (a.request.AddRequest? <==> b.request.AddRequest?)
      && (a.request.CompleteRequest? <==> b.request.CompleteRequest?)
      && (a.request.SnoozeRequest? <==> b.request.SnoozeRequest?)
      && (a.request.CancelRequest? <==> b.request.CancelRequest?)
      && (a.request.UpdateRequest? <==> b.request.UpdateRequest?)
  {
  }

  // ---------------------------------------------------------------- the write of a mutation

  /** A mutation that writes is the write of its operation on the present row. */
  lemma WritesItsOperation(db: Db, ownerId: string, call: Call)
    requires DbInv(db, ownerId) && CallWrites(db, ownerId, call) && !call.request.AddRequest?
    ensures
      var r := Normalize(call.request);
      && !r.AddRequest? && ValidRequest(r) && NormalizedRequest(r) && TimelyRequest(r, call.limits, call.now)
      && r.id == call.request.id && r.id in db.items && r.id in db.links
      && var row := db.items[r.id];
      && row.id == r.id && row.ownerId == ownerId && row.version == r.expectedVersion && StoredInv(row)
      && !row.state.IsTerminal()
      && ApplyOperation(row, r, call.now).Success?
      && var applied := ApplyOperation(row, r, call.now).value;
      && applied.item.id == r.id && CasMatches(db, applied.item, row.version)
      && Execute(db, ownerId, call) == WriteMutation(db, call, r, row, applied)
      && Execute(db, ownerId, call).result == Success(applied.item)
  {
    hide DbInv, ValidRequest, TimelyRequest, NormalizedRequest, ApplyOperation, WriteMutation, ItemInv, StoredInv;
    var r := Normalize(call.request);
    KindsStay(call.request);
    NormalizationNormalizes(call.request);
    RowIdentity(db, ownerId, r.id);
    RowFacts(db, ownerId, r.id);
    OperationKeepsInvariant(db.items[r.id], r, call.now);
    MutationChangesOneRow(db, ownerId, call, r);
  }

  lemma KindsStay(r: Request)
    ensures Normalize(r).AddRequest? <==> r.AddRequest?
    ensures Normalize(r).CompleteRequest? <==> r.CompleteRequest?
    ensures Normalize(r).SnoozeRequest? <==> r.SnoozeRequest?
    ensures Normalize(r).CancelRequest? <==> r.CancelRequest?
    ensures Normalize(r).UpdateRequest? <==> r.UpdateRequest?
    ensures !r.AddRequest? ==> Normalize(r).id == r.id && Normalize(r).expectedVersion == r.expectedVersion
  {
  }

  /** The tables after the write of an operation. */
  lemma WrittenTables(db: Db, call: Call, request: Request, prior: Item, applied: Applied)
    requires CasMatches(db, applied.item, prior.version)
    requires WriteMutation(db, call, request, prior, applied).result.Success?
    ensures
      var o, id := WriteMutation(db, call, request, prior, applied).db, applied.item.id;
      && o.items == db.items[id := UpdatedRow(db.items[id], applied.item)]
      && o.events == db.events + [
           Event(id, applied.eventType, call.actor, Millis(call.eventNow), Some(prior.version), applied.item.version)]
      && o.idempotency == db.idempotency[
           KeyOf(call) := IdempotencyRecord(request, applied.item, Millis(call.transactionNow))]
      && (applied.evidence.None? ==> o.evidence == db.evidence)
      && (applied.evidence.Some? ==>
            o.evidence == db.evidence[
              id := EvidenceRow(applied.evidence.value, call.transactionNow, call.actor.actorId)])
      && (applied.links.None? ==> o.links == db.links)
      && (applied.links.Some? ==> o.links == db.links[id := StoredLinks(applied.links.value, call.now)])
  {
    hide UpdatedRow, SchemaChecks;
    assert EventRows(
      applied.item.id, [applied.eventType], call.actor, call.eventNow, Some(prior.version), applied.item.version)
      == [Event(
           applied.item.id, applied.eventType, call.actor, Millis(call.eventNow), Some(prior.version),
           applied.item.version)];
  }

  /** A completion ends the item, takes its snooze away, and stores the evidence as it was validated. */
  lemma CompletionWrites(db: Db, ownerId: string, call: Call)
    requires DbInv(db, ownerId) && CallWrites(db, ownerId, call) && call.request.CompleteRequest?
    ensures
      var id, proof := call.request.id, call.request.evidence;
      var o := Execute(db, ownerId, call).db;
      && id in db.items
      && var row := db.items[id];
      && row.ownerId == ownerId && row.version == call.request.expectedVersion && !row.state.IsTerminal()
      && o.items == db.items[id := row.(
           state := Completed, completedAt := Some(Millis(call.now)), snoozeUntil := None, snoozedFromState := None,
           version := row.version + 1, updatedAt := Millis(call.now))]
      && o.evidence == db.evidence[id := CompletionEvidence(
           proof.evidenceType, Trim(proof.summary), proof.referenceUri,
           if proof.contentHash.Some? then Some("sha256:" + Lower(HashDigits(proof.contentHash.value))) else None,
           Millis(proof.observedAt), Millis(call.transactionNow), call.actor.actorId, proof.metadata)]
      && o.events == db.events + [
           Event(id, CompletedEvent, call.actor, Millis(call.eventNow), Some(row.version), row.version + 1)]
      && o.links == db.links
  {
    hide DbInv, CallWrites, Execute, WriteMutation, ValidRequest, TimelyRequest, ItemInv, CasMatches;
    WritesItsOperation(db, ownerId, call);
    var r := Normalize(call.request);
    var row := db.items[r.id];
    WrittenTables(db, call, r, row, ApplyOperation(row, r, call.now).value);
  }

  /** A snooze sets deadline and previous state and counts itself. */
  lemma SnoozeWrites(db: Db, ownerId: string, call: Call)
    requires DbInv(db, ownerId) && CallWrites(db, ownerId, call) && call.request.SnoozeRequest?
    ensures
      var id := call.request.id;
      var o := Execute(db, ownerId, call).db;
      && id in db.items
      && var row := db.items[id];
      && row.ownerId == ownerId && row.version == call.request.expectedVersion && row.state.IsReady()
      && call.now < Millis(call.request.snoozeUntil)
      && o.items == db.items[id := row.(
           state := Snoozed, snoozedFromState := Some(row.state), snoozeUntil := Some(Millis(call.request.snoozeUntil)),
           snoozeCount := row.snoozeCount + 1, version := row.version + 1, updatedAt := Millis(call.now))]
      && o.events == db.events + [
           Event(id, SnoozedEvent, call.actor, Millis(call.eventNow), Some(row.version), row.version + 1)]
      && o.evidence == db.evidence && o.links == db.links
  {
    hide DbInv, CallWrites, Execute, WriteMutation, ValidRequest, TimelyRequest, ItemInv, CasMatches;
    WritesItsOperation(db, ownerId, call);
    var r := Normalize(call.request);
    var row := db.items[r.id];
    WrittenTables(db, call, r, row, ApplyOperation(row, r, call.now).value);
  }

  /** A cancellation ends the item and takes its snooze away; everything else of it is preserved. */
  lemma CancellationWrites(db: Db, ownerId: string, call: Call)
    requires DbInv(db, ownerId) && CallWrites(db, ownerId, call) && call.request.CancelRequest?
    ensures
      var id := call.request.id;
      var o := Execute(db, ownerId, call).db;
      && id in db.items
      && var row := db.items[id];
      && row.ownerId == ownerId && row.version == call.request.expectedVersion && !row.state.IsTerminal()
      && o.items == db.items[id := row.(
           state := Cancelled, cancelledAt := Some(Millis(call.now)), snoozeUntil := None, snoozedFromState := None,
           version := row.version + 1, updatedAt := Millis(call.now))]
      && o.events == db.events + [
           Event(id, CancelledEvent, call.actor, Millis(call.eventNow), Some(row.version), row.version + 1)]
      && o.evidence == db.evidence && o.links == db.links
  {
    hide DbInv, CallWrites, Execute, WriteMutation, ValidRequest, TimelyRequest, ItemInv, CasMatches;
    WritesItsOperation(db, ownerId, call);
    var r := Normalize(call.request);
    var row := db.items[r.id];
    WrittenTables(db, call, r, row, ApplyOperation(row, r, call.now).value);
  }

  // ---------------------------------------------------------------- new items

  /** The instant a trigger set at `now` fires at, if it fires at one. */
  predicate AnchorOf(trigger: Trigger, now: Instant, anchor: Option<Instant>) {
    match trigger
    case AtTime(at) => anchor == Some(Millis(at))
    case AfterElapsed(n) => anchor == Some(Millis(now + n * 1_000_000_000))
    case Interval(first, _) => anchor == Some(Millis(first))
    case _ => anchor == None
  }

  /** When a condition set at `now` is asked for the first time. */
  predicate FirstAsked(trigger: Trigger, now: Instant, at: Option<Instant>) {
    match trigger
    case Condition(_, _, poll, manual) =>
      var asked := now + (if poll.Some? then poll.value else 30) * 1_000_000_000;
      at == Some(Millis(if manual.Some? && Millis(manual.value) < asked then manual.value else asked))
    case _ => at == None
  }

  /** The text of a context, trimmed; white space is no context. */
  predicate ContextOf(given: Option<string>, kept: Option<string>) {
    if given.Some? && Trim(given.value) != "" then kept == Some(Trim(given.value)) else kept == None
  }

  /** The columns a new row takes from its request. */
  predicate RowFromRequest(row: Item, r: Request, ownerId: string, id: Uuid, now: Instant)
    requires r.AddRequest?
  {
    && row.id == id && row.ownerId == ownerId
    && row.projectId == Trim(r.projectId)
    && (row.taskId.None? <==> r.taskId.None?) && (r.taskId.Some? ==> row.taskId == Some(Trim(r.taskId.value)))
    && row.message == Trim(r.message) && row.instructions == r.instructions
    && row.priority == r.priority && row.overdueAfterSeconds == r.newOverdueAfterSeconds
    && row.trigger == NormalizeTrigger(r.newTrigger)
    && (row.recurrence.None? <==> r.newRecurrence.None?)
    && (r.newRecurrence.Some? ==>
          row.recurrence == Some(r.newRecurrence.value.(endAt := MillisOption(r.newRecurrence.value.endAt))))
    && ContextOf(r.sessionId, row.sourceSessionId) && ContextOf(r.taskLineageId, row.sourceTaskLineageId)
    && AnchorOf(r.newTrigger, now, row.nextFireAt) && row.originalNextFireAt == row.nextFireAt
    && FirstAsked(r.newTrigger, now, row.nextEvaluationAt)
  }

  /** The columns every new row starts with. */
  predicate StartingRow(row: Item, now: Instant) {
    && row.state == Scheduled && row.version == 1 && row.occurrenceNo == 1 && row.snoozeCount == 0
    && row.createdAt == Millis(now) && row.updatedAt == Millis(now)
    && row.dueSince == None && row.snoozeUntil == None && row.snoozedFromState == None
    && row.lastCheckedAt == None && row.lastConditionStatus == None && row.lastConditionDetail == None
    && row.completedAt == None && row.cancelledAt == None
  }

  lemma NewRowColumns(r: Request, ownerId: string, id: Uuid, now: Instant)
    requires r.AddRequest? && ValidRequest(Normalize(r))
    ensures
      var row := Stored(NewItem(Normalize(r), ownerId, id, now));
      RowFromRequest(row, r, ownerId, id, now) && StartingRow(row, now)
  {
    hide ValidLinks, GoalLinkFits, Trim, ValidKey;
    FirstSchedule(r.newTrigger, now);
    hide AnchorOf, FirstAsked, InitialNextFireAt, InitialNextEvaluationAt;
  }

  /** The first schedule of a trigger, by its raw form. */
  lemma FirstSchedule(trigger: Trigger, now: Instant)
    requires ValidateTrigger(NormalizeTrigger(trigger)).None?
    ensures AnchorOf(trigger, now, MillisOption(InitialNextFireAt(NormalizeTrigger(trigger), now)))
    ensures FirstAsked(trigger, now, MillisOption(InitialNextEvaluationAt(NormalizeTrigger(trigger), now)))
  {
    FirstAnchor(trigger, now);
    hide ValidAdapterName, AnchorOf;
  }

  /** An add writes one row with these columns, its links, its first event and its answer. */
  lemma AddWrites(db: Db, ownerId: string, call: Call)
    requires DbInv(db, ownerId) && CallWrites(db, ownerId, call) && call.request.AddRequest?
    ensures
      var id, r := call.newId, call.request;
      var o := Execute(db, ownerId, call).db;
      && id !in db.items && id in o.items && o.items == db.items[id := o.items[id]]
      && RowFromRequest(o.items[id], r, ownerId, id, call.now) && StartingRow(o.items[id], call.now)
      && o.events == db.events + [Event(id, CreatedEvent, call.actor, Millis(call.eventNow), None, 1)]
      && id in o.links && o.links == db.links[id := o.links[id]] && |o.links[id]| == |r.newLinks|
      && (forall k :: 0 <= k < |r.newLinks| ==> o.links[id][k] == StoredLink(r.newLinks[k], Millis(call.now)))
      && o.evidence == db.evidence
  {
    hide DbInv, ValidRequest, TimelyRequest, Stored, NewItem, RowFromRequest, StartingRow, SchemaChecks;
    var r := Normalize(call.request);
    KindsStay(call.request);
    NewRowColumns(call.request, ownerId, call.newId, call.now);
    AddedLinks(call.request);
    NewItemId(r, ownerId, call.newId, call.now);
    assert EventRows(call.newId, [CreatedEvent], call.actor, call.eventNow, None, 1)
      == [Event(call.newId, CreatedEvent, call.actor, Millis(call.eventNow), None, 1)];
  }

  lemma AddedLinks(r: Request)
    requires r.AddRequest?
    ensures Normalize(r).newLinks == r.newLinks
  {
  }

  // ---------------------------------------------------------------- updates

  /** The columns an update sets from its request, and those it leaves. */
  predicate RowFromUpdate(row: Item, next: Item, r: Request, now: Instant)
    requires r.UpdateRequest?
  {
    && next.message == (if r.messageChange.Some? then Trim(r.messageChange.value) else row.message)
    && next.instructions == (if r.instructionsChange.Some? then r.instructionsChange.value else row.instructions)
    && next.priority == (if r.priorityChange.Some? then r.priorityChange.value else row.priority)
    && next.overdueAfterSeconds == (if r.overdueChange.Some? then r.overdueChange.value else row.overdueAfterSeconds)
    && next.trigger == (if r.triggerChange.Some? then NormalizeTrigger(r.triggerChange.value) else row.trigger)
    && (r.recurrenceChange.None? ==> next.recurrence == row.recurrence)
    && (r.recurrenceChange == Some(None) ==> next.recurrence == None)
    && (r.recurrenceChange.Some? && r.recurrenceChange.value.Some? ==>
          var given := r.recurrenceChange.value.value;
          next.recurrence == Some(given.(endAt := MillisOption(given.endAt))))
    && next.version == row.version + 1 && next.updatedAt == Millis(now)
    && next.id == row.id && next.ownerId == row.ownerId && next.projectId == row.projectId && next.taskId == row.taskId
    && next.createdAt == row.createdAt && next.snoozeCount == row.snoozeCount
    && next.sourceSessionId == row.sourceSessionId && next.sourceTaskLineageId == row.sourceTaskLineageId
    && next.lastCheckedAt == row.lastCheckedAt && next.lastConditionStatus == row.lastConditionStatus
    && next.lastConditionDetail == row.lastConditionDetail
    && next.completedAt == None && next.cancelledAt == None
    && (if r.triggerChange.Some? then FirstAsked(r.triggerChange.value, now, next.nextEvaluationAt)
        else next.nextEvaluationAt == row.nextEvaluationAt)
  }

  /** The anchor before a disposition: that of the new trigger, or the old one. */
  predicate AnchorBefore(row: Item, r: Request, now: Instant, anchor: Option<Instant>)
    requires r.UpdateRequest?
  {
    if r.triggerChange.Some? then AnchorOf(r.triggerChange.value, now, anchor) else anchor == row.nextFireAt
  }

  /** Without a disposition the anchor is that one and the occurrence stays; a disposition moves both by
      the same number of steps. */
  ghost predicate AnchorMoves(row: Item, next: Item, r: Request, now: Instant)
    requires r.UpdateRequest?
  {
    && next.originalNextFireAt == next.nextFireAt
    && if r.occurrenceDisposition.None? then
         next.occurrenceNo == row.occurrenceNo && AnchorBefore(row, r, now, next.nextFireAt)
       else
         exists anchor: Instant ::
           && AnchorBefore(row, r, now, Some(anchor))
           && next.recurrence.Some? && next.recurrence.value.everySeconds > 0
           && var k := Recurrence.StepCount(next.recurrence.value, anchor, now);
           && next.occurrenceNo == row.occurrenceNo + k
           && next.nextFireAt == Some(anchor + k * Seconds(next.recurrence.value.everySeconds))
  }

  lemma FieldsFromUpdate(row: Item, r: Request, now: Instant)
    requires StoredInv(row) && !row.state.IsTerminal() && r.UpdateRequest?
    requires ValidRequest(Normalize(r)) && NormalizedRequest(Normalize(r))
    requires ApplyUpdate(row, Normalize(r), now).Success?
    ensures RowFromUpdate(row, UpdatedRow(row, ApplyUpdate(row, Normalize(r), now).value.item), r, now)
  {
    var n := Normalize(r);
    PartsOfUpdate(row, n, now);
    if r.triggerChange.Some? {
      FirstSchedule(r.triggerChange.value, now);
    }
    hide ApplyUpdate, ValidRequest, ItemInv, Trim, NormalizeTrigger, FirstAsked, InitialNextEvaluationAt;
  }

  /** What the parts of an update leave alone. */
  lemma PartsOfUpdate(row: Item, r: Request, now: Instant)
    requires StoredInv(row) && !row.state.IsTerminal() && r.UpdateRequest? && ApplyUpdate(row, r, now).Success?
    ensures
      var done := ApplyUpdate(row, r, now).value.item;
      var fields := ChangeFields(row, r);
      && done.message == fields.message && done.instructions == fields.instructions
      && done.priority == fields.priority && done.overdueAfterSeconds == fields.overdueAfterSeconds
      && done.trigger == (if r.triggerChange.Some? then r.triggerChange.value else row.trigger)
      && done.recurrence == (if r.recurrenceChange.Some? then r.recurrenceChange.value else row.recurrence)
      && done.version == row.version + 1 && done.updatedAt == now
      && done.id == row.id && done.ownerId == row.ownerId && done.projectId == row.projectId
      && done.taskId == row.taskId && done.createdAt == row.createdAt && done.snoozeCount == row.snoozeCount
      && done.sourceSessionId == row.sourceSessionId && done.sourceTaskLineageId == row.sourceTaskLineageId
      && done.lastCheckedAt == row.lastCheckedAt && done.lastConditionStatus == row.lastConditionStatus
      && done.lastConditionDetail == row.lastConditionDetail
      && done.completedAt == row.completedAt && done.cancelledAt == row.cancelledAt
      && done.nextEvaluationAt
         == if r.triggerChange.Some? then InitialNextEvaluationAt(r.triggerChange.value, now) else row.nextEvaluationAt
  {
    var fields := ChangeFields(row, r);
    TriggerPart(fields, r, now);
    var triggered := ChangeTrigger(fields, r, now).value;
    var recurring := ChangeRecurrence(triggered, r).value;
    if r.occurrenceDisposition.Some? {
      DispositionPart(recurring, r.occurrenceDisposition.value, now);
    }
    hide ChangeTrigger, AdvanceOccurrence, Recurrence.ValidateForTrigger, StoredInv;
  }

  lemma TriggerPart(i: Item, r: Request, now: Instant)
    requires r.UpdateRequest? && ChangeTrigger(i, r, now).Success?
    ensures
      var c := ChangeTrigger(i, r, now).value;
      && c == i.(
           trigger := c.trigger, nextFireAt := c.nextFireAt, originalNextFireAt := c.originalNextFireAt,
           nextEvaluationAt := c.nextEvaluationAt, version := c.version, updatedAt := c.updatedAt, state := c.state,
           dueSince := c.dueSince, snoozeUntil := c.snoozeUntil, snoozedFromState := c.snoozedFromState)
      && (if r.triggerChange.Some? then
            c.version == i.version + 1 && c.updatedAt == now && c.trigger == r.triggerChange.value
          else c == i)
      && (r.triggerChange.Some? ==>
            && c.nextFireAt == InitialNextFireAt(r.triggerChange.value, now) && c.originalNextFireAt == c.nextFireAt
            && c.nextEvaluationAt == InitialNextEvaluationAt(r.triggerChange.value, now))
  {
  }

  lemma DispositionPart(i: Item, disposition: OccurrenceDisposition, now: Instant)
    requires AdvanceOccurrence(i, disposition, now).Success?
    ensures
      var a := AdvanceOccurrence(i, disposition, now).value;
      && a == i.(
           nextFireAt := a.nextFireAt, originalNextFireAt := a.nextFireAt, occurrenceNo := a.occurrenceNo,
           dueSince := None, state := Scheduled)
      && i.recurrence.Some? && i.nextFireAt.Some? && Recurrence.Validate(i.recurrence.value).None?
      && var k := Recurrence.StepCount(i.recurrence.value, i.nextFireAt.value, now);
      && a.occurrenceNo == i.occurrenceNo + k
      && a.nextFireAt == Some(i.nextFireAt.value + k * Seconds(i.recurrence.value.everySeconds))
  {
  }

  /** The anchor of an update before it is stored. */
  lemma AnchorPart(row: Item, r: Request, now: Instant)
    requires StoredInv(row) && !row.state.IsTerminal() && r.UpdateRequest? && ApplyUpdate(row, r, now).Success?
    ensures
      var done := ApplyUpdate(row, r, now).value.item;
      var base := if r.triggerChange.Some? then InitialNextFireAt(r.triggerChange.value, now) else row.nextFireAt;
      && done.originalNextFireAt == done.nextFireAt
      && (r.occurrenceDisposition.None? ==> done.nextFireAt == base && done.occurrenceNo == row.occurrenceNo)
      && (r.occurrenceDisposition.Some? ==>
            && base.Some? && done.recurrence.Some? && done.recurrence.value.everySeconds > 0 && done.trigger.Interval?
            && var k := Recurrence.StepCount(done.recurrence.value, base.value, now);
            && done.occurrenceNo == row.occurrenceNo + k
            && done.nextFireAt == Some(base.value + k * Seconds(done.recurrence.value.everySeconds)))
  {
    var fields := ChangeFields(row, r);
    TriggerPart(fields, r, now);
    var triggered := ChangeTrigger(fields, r, now).value;
    var recurring := ChangeRecurrence(triggered, r).value;
    RowAnchor(row);
    if r.occurrenceDisposition.Some? {
      DispositionPart(recurring, r.occurrenceDisposition.value, now);
    }
    hide ChangeTrigger, AdvanceOccurrence, StoredInv, InitialNextFireAt, Recurrence.StepCount;
  }

  lemma RowAnchor(row: Item)
    requires StoredInv(row)
    ensures row.originalNextFireAt == row.nextFireAt && MillisOption(row.nextFireAt) == row.nextFireAt
  {
  }

  /** The first anchor of a normalized trigger is the one its raw form names. */
  lemma FirstAnchor(trigger: Trigger, now: Instant)
    ensures AnchorOf(trigger, now, MillisOption(InitialNextFireAt(NormalizeTrigger(trigger), now)))
    ensures trigger.Interval? ==>
      MillisOption(InitialNextFireAt(NormalizeTrigger(trigger), now))
      == InitialNextFireAt(NormalizeTrigger(trigger), now)
  {
  }

  lemma StepsKeepMillis(anchor: Instant, k: nat, every: nat)
    requires Aligned(anchor)
    ensures Millis(anchor + k * Seconds(every)) == anchor + k * Seconds(every)
  {
    assert k * Seconds(every) == Seconds(k * every);
    SecondsKeepAlignment(anchor, k * every);
  }

  lemma AnchorFromUpdate(row: Item, r: Request, now: Instant)
    requires StoredInv(row) && !row.state.IsTerminal() && r.UpdateRequest?
    requires ValidRequest(Normalize(r)) && NormalizedRequest(Normalize(r))
    requires ApplyUpdate(row, Normalize(r), now).Success?
    ensures AnchorMoves(row, UpdatedRow(row, ApplyUpdate(row, Normalize(r), now).value.item), r, now)
  {
    var n := Normalize(r);
    NormalizedUpdate(r);
    AnchorPart(row, n, now);
    PartsOfUpdate(row, n, now);
    RowAnchor(row);
    var done := ApplyUpdate(row, n, now).value.item;
    var base := if n.triggerChange.Some? then InitialNextFireAt(n.triggerChange.value, now) else row.nextFireAt;
    var next := UpdatedRow(row, done);
    StoredColumns(row, done);
    if r.triggerChange.Some? {
      FirstAnchor(r.triggerChange.value, now);
    }
    hide ApplyUpdate, ValidRequest, NormalizedRequest, StoredInv, UpdatedRow, Normalize, InitialNextFireAt, AnchorOf,
      Recurrence.StepCount, NormalizeTrigger;
    if r.occurrenceDisposition.Some? {
      NormalIsInterval(r, n);
      var anchor := base.value;
      StepsKeepMillis(
        anchor, Recurrence.StepCount(done.recurrence.value, anchor, now), done.recurrence.value.everySeconds);
      assert AnchorBefore(row, r, now, Some(anchor));
    }
  }

  lemma NormalizedUpdate(r: Request)
    requires r.UpdateRequest?
    ensures
      var n := Normalize(r);
      && n.UpdateRequest? && n.occurrenceDisposition == r.occurrenceDisposition
      && n.triggerChange == if r.triggerChange.Some? then Some(NormalizeTrigger(r.triggerChange.value)) else None
  {
  }

  lemma NormalIsInterval(r: Request, n: Request)
    requires r.UpdateRequest? && n.UpdateRequest?
    requires n.triggerChange == if r.triggerChange.Some? then Some(NormalizeTrigger(r.triggerChange.value)) else None
    ensures r.triggerChange.Some? && n.triggerChange.value.Interval? ==> r.triggerChange.value.Interval?
  {
  }

  lemma StoredColumns(row: Item, item: Item)
    ensures
      var next := UpdatedRow(row, item);
      && next.nextFireAt == MillisOption(item.nextFireAt)
      && next.originalNextFireAt == MillisOption(item.originalNextFireAt)
      && next.occurrenceNo == item.occurrenceNo && next.recurrence == item.recurrence
  {
  }

  /** An update writes one row with these columns, the links it was given, and one event of its kind. */
  lemma UpdateWrites(db: Db, ownerId: string, call: Call)
    requires DbInv(db, ownerId) && CallWrites(db, ownerId, call) && call.request.UpdateRequest?
    ensures
      var id, r := call.request.id, call.request;
      var o := Execute(db, ownerId, call).db;
      && id in db.items && id in o.items
      && var row := db.items[id];
      && row.ownerId == ownerId && row.version == r.expectedVersion && !row.state.IsTerminal()
      && o.items == db.items[id := o.items[id]]
      && RowFromUpdate(row, o.items[id], r, call.now)
      && AnchorMoves(row, o.items[id], r, call.now)
      && LegalUpdate(row, o.items[id], r)
      && o.events == db.events + [Event(
           id, if r.occurrenceDisposition.Some? then OccurrenceAdvanced else UpdatedEvent,
           call.actor, Millis(call.eventNow), Some(row.version), row.version + 1)]
      && o.evidence == db.evidence
      && (r.linksChange.None? ==> o.links == db.links)
      && (r.linksChange.Some? ==>
            && id in o.links && o.links == db.links[id := o.links[id]] && |o.links[id]| == |r.linksChange.value|
            && forall k :: 0 <= k < |r.linksChange.value| ==>
                 o.links[id][k] == StoredLink(r.linksChange.value[k], Millis(call.now)))
  {
    hide DbInv, CallWrites, Execute, WriteMutation, ValidRequest, TimelyRequest, ItemInv, CasMatches, ApplyUpdate,
      RowFromUpdate, AnchorMoves, LegalUpdate, UpdatedRow, Normalize, NormalizedRequest, StoredInv;
    WritesItsOperation(db, ownerId, call);
    KindsStay(call.request);
    var r := Normalize(call.request);
    var row := db.items[r.id];
    var applied := ApplyOperation(row, r, call.now).value;
    WrittenTables(db, call, r, row, applied);
    FieldsFromUpdate(row, call.request, call.now);
    AnchorFromUpdate(row, call.request, call.now);
    UpdateReadiness(row, r, call.now);
    AppliedUpdate(row, call.request, call.now);
    ReadinessStored(row, applied.item, call.request);
  }

  lemma AppliedUpdate(row: Item, r: Request, now: Instant)
    requires r.UpdateRequest? && StoredInv(row)
    requires ValidRequest(Normalize(r)) && NormalizedRequest(Normalize(r))
    requires ApplyUpdate(row, Normalize(r), now).Success?
    ensures
      var n := Normalize(r);
      var applied := ApplyUpdate(row, n, now).value;
      && applied.eventType == (if r.occurrenceDisposition.Some? then OccurrenceAdvanced else UpdatedEvent)
      && applied.evidence == None && applied.links == r.linksChange
      && applied.item.version == row.version + 1
      && (LegalUpdate(row, applied.item, n) <==> LegalUpdate(row, applied.item, r))
  {
    hide ItemInv, ValidRequest, NormalizedRequest;
    StoredIsInvariant(row);
    UpdateKeepsInvariant(row, Normalize(r), now);
  }

  lemma ReadinessStored(row: Item, item: Item, r: Request)
    requires StoredInv(row) && r.UpdateRequest? && LegalUpdate(row, item, r)
    ensures LegalUpdate(row, UpdatedRow(row, item), r)
  {
  }

  // ---------------------------------------------------------------- answers

  /** A call that gets past validation under a key that holds no answer yet. */
  predicate Admitted(db: Db, call: Call) {
    && !Blank(call.actor.actorId)
    && ValidRequest(Normalize(call.request))
    && KeyOf(call) !in db.idempotency
  }

  /** Whatever goes wrong, the tables stay as they were. */
  lemma FailureChangesNothing(db: Db, ownerId: string, call: Call)
    requires DbInv(db, ownerId) && Execute(db, ownerId, call).result.Failure?
    ensures Execute(db, ownerId, call).db == db
  {
    hide DbInv, Execute;
    ExecuteOutcome(db, ownerId, call);
  }

  /** The answer of an admitted call to a mutation, up to its operation. */
  predicate Answers(db: Db, call: Call, result: Result<Item, ServiceError>)
    requires !call.request.AddRequest?
  {
    if call.request.CompleteRequest?
       && call.now + call.limits.maximumFutureSkew < call.request.evidence.observedAt
    then result == Failure(Validation)
    else if call.request.SnoozeRequest?
            && call.now + call.limits.maximumSnoozeHorizon < Millis(call.request.snoozeUntil)
    then result == Failure(Validation)
    else if call.request.id !in db.items then result == Failure(NotFound)
    else
      var row := db.items[call.request.id];
      if row.version != call.request.expectedVersion then result == Failure(VersionConflict(row.version))
      else if row.state == Completed || row.state == Cancelled then result == Failure(InvalidState)
      else if call.request.SnoozeRequest? then
        if row.state != Due && row.state != Overdue then result == Failure(InvalidState)
        else if Millis(call.request.snoozeUntil) <= call.now then result == Failure(Validation)
        else result.Success?
      else if call.request.UpdateRequest? then UpdateAnswers(row, call.request, call.now, result)
      else result.Success?
  }

  /** The answer of an update of a live item: a disposition needs a ready item; the recurrence it ends up
      with, if any, has to fit the trigger; a disposition also needs one, and an occurrence it permits;
      and new links have to fit the trigger. */
  predicate UpdateAnswers(row: Item, r: Request, now: Instant, result: Result<Item, ServiceError>)
    requires r.UpdateRequest?
  {
    var trigger := if r.triggerChange.Some? then NormalizeTrigger(r.triggerChange.value) else row.trigger;
    var recurrence :=
      if r.recurrenceChange.None? then row.recurrence
      else if r.recurrenceChange.value.None? then None
      else Some(NormalizeRecurrence(r.recurrenceChange.value.value));
    if r.occurrenceDisposition.Some? && row.state != Due && row.state != Overdue then result == Failure(InvalidState)
    else if recurrence.Some? && !Recurs(recurrence.value, trigger) then result == Failure(Validation)
    else if r.occurrenceDisposition.Some? && recurrence.None? then result == Failure(InvalidState)
    else if r.occurrenceDisposition.Some? && !HasNext(row, r, recurrence.value, now) then
      result == Failure(InvalidState)
    else if r.linksChange.Some? && !GoalLinkFits(trigger, r.linksChange.value) then result == Failure(Validation)
    else result.Success?
  }

  /** A rule within its bounds, on an interval trigger of the same length. */
  predicate Recurs(r: RecurrenceSpec, trigger: Trigger) {
    && 60 <= r.everySeconds <= 31_536_000
    && (r.maxOccurrences.Some? ==> 1 <= r.maxOccurrences.value <= 1_000_000)
    && trigger.Interval? && trigger.everySeconds == r.everySeconds
  }

  /** The occurrence after this anchor is permitted. */
  predicate NextPermitted(spec: RecurrenceSpec, anchor: Instant, number: nat, now: Instant)
    requires spec.everySeconds > 0
  {
    var k := Recurrence.StepCount(spec, anchor, now);
    && (spec.maxOccurrences.None? || number + k <= spec.maxOccurrences.value)
    && (spec.endAt.None? || anchor + k * Seconds(spec.everySeconds) <= spec.endAt.value)
  }

  /** The occurrence a disposition leads to is permitted. */
  predicate HasNext(row: Item, r: Request, spec: RecurrenceSpec, now: Instant)
    requires r.UpdateRequest? && spec.everySeconds > 0
  {
    var anchor :=
      if r.triggerChange.None? then row.nextFireAt
      else if r.triggerChange.value.Interval? then Some(Millis(r.triggerChange.value.firstAt))
      else None;
    anchor.Some? && NextPermitted(spec, anchor.value, row.occurrenceNo, now)
  }

  /** What an admitted mutation answers, in full. */
  lemma MutationAnswers(db: Db, ownerId: string, call: Call)
    requires DbInv(db, ownerId) && Admitted(db, call) && !call.request.AddRequest?
    ensures Answers(db, call, Execute(db, ownerId, call).result)
  {
    hide DbInv, ValidRequest, ApplyOperation, Mutate, UpdateAnswers;
    KindsStay(call.request);
    NormalizationNormalizes(call.request);
    var r := Normalize(call.request);
    if r.id in db.items {
      RowIdentity(db, ownerId, r.id);
    }
    if TimelyRequest(r, call.limits, call.now) {
      MutateAnswers(db, ownerId, call, r);
      if r.id in db.items {
        OperationAnswers(db.items[r.id], call.request, call.now);
        AnswersJoin(db, call, Mutate(db, ownerId, call, r).result);
      }
    }
  }

  lemma AnswersJoin(db: Db, call: Call, result: Result<Item, ServiceError>)
    requires !call.request.AddRequest? && !Normalize(call.request).AddRequest?
    requires TimelyRequest(Normalize(call.request), call.limits, call.now)
    requires call.request.id in db.items
    requires
      var row := db.items[call.request.id];
      if row.version != call.request.expectedVersion then result == Failure(VersionConflict(row.version))
      else
        match ApplyOperation(row, Normalize(call.request), call.now)
        case Failure(e) => result == Failure(e)
        case Success(_) => result.Success?
    requires OperationAnswer(
      db.items[call.request.id], call.request, call.now,
      ApplyOperation(db.items[call.request.id], Normalize(call.request), call.now))
    ensures Answers(db, call, result)
  {
    hide ApplyOperation, UpdateAnswers, Trim;
    var row := db.items[call.request.id];
    var operation := ApplyOperation(row, Normalize(call.request), call.now);
    if call.request.UpdateRequest? && operation.Success? && result.Success?
       && row.version == call.request.expectedVersion && !row.state.IsTerminal()
    {
      AnyAnswer(row, call.request, call.now, operation.value.item, result.value);
    }
  }

  /** The store's part of the answer. */
  lemma MutateAnswers(db: Db, ownerId: string, call: Call, r: Request)
    requires DbInv(db, ownerId) && !r.AddRequest? && ValidRequest(r) && NormalizedRequest(r)
    ensures
      var result := Mutate(db, ownerId, call, r).result;
      if r.id !in db.items then result == Failure(NotFound)
      else if db.items[r.id].version != r.expectedVersion then
        result == Failure(VersionConflict(db.items[r.id].version))
      else
        match ApplyOperation(db.items[r.id], r, call.now)
        case Failure(e) => result == Failure(e)
        case Success(_) => result.Success?
  {
    hide DbInv, ValidRequest, NormalizedRequest, ApplyOperation, WriteMutation, RowChange, ItemInv, StoredInv;
    if r.id in db.items {
      RowIdentity(db, ownerId, r.id);
      if db.items[r.id].version == r.expectedVersion && ApplyOperation(db.items[r.id], r, call.now).Success? {
        MutationChangesOneRow(db, ownerId, call, r);
      }
    }
  }

  /** The operation's part of the answer. */
  predicate OperationAnswer(row: Item, r: Request, now: Instant, result: Result<Applied, ServiceError>)
    requires !r.AddRequest?
  {
    if row.state == Completed || row.state == Cancelled then result == Failure(InvalidState)
    else if r.SnoozeRequest? then
      if row.state != Due && row.state != Overdue then result == Failure(InvalidState)
      else if Millis(r.snoozeUntil) <= now then result == Failure(Validation)
      else result.Success?
    else if r.UpdateRequest? then
      match result
      case Failure(e) => UpdateAnswers(row, r, now, Failure(e))
      case Success(a) => UpdateAnswers(row, r, now, Success(a.item))
    else result.Success?
  }

  lemma OperationAnswers(row: Item, r: Request, now: Instant)
    requires StoredInv(row) && !r.AddRequest? && ValidRequest(Normalize(r))
    ensures !Normalize(r).AddRequest?
    ensures OperationAnswer(row, r, now, ApplyOperation(row, Normalize(r), now))
  {
    KindsStay(r);
    if r.UpdateRequest? {
      if row.state.IsTerminal() {
        hide ValidRequest, UpdateAnswers;
      } else {
        hide ApplyUpdate, UpdateAnswers;
        UpdateAnswered(row, r, now);
      }
    } else {
      hide UpdateAnswers, StoredInv, ItemInv, Trim;
      ReasonIsNotBlank(r);
    }
  }

  lemma ReasonIsNotBlank(r: Request)
    requires ValidRequest(Normalize(r))
    ensures r.SnoozeRequest? ==> !Blank(Normalize(r).reason)
    ensures r.CancelRequest? ==> !Blank(Normalize(r).reason)
  {
    if r.SnoozeRequest? || r.CancelRequest? {
      TrimTrims(r.reason);
      hide Trim, ValidKey;
    }
  }

  lemma TriggerSucceeds(i: Item, r: Request, now: Instant)
    requires !i.state.IsTerminal() && r.UpdateRequest?
    requires r.triggerChange.Some? ==> ValidateTrigger(r.triggerChange.value).None?
    ensures ChangeTrigger(i, r, now).Success?
    ensures i.state.IsReady() ==> ChangeTrigger(i, r, now).value.state == i.state
  {
  }

  lemma RecursIff(spec: RecurrenceSpec, trigger: Trigger)
    ensures Recurrence.ValidateForTrigger(spec, trigger).None? <==> Recurs(spec, trigger)
    ensures Recurrence.ValidateForTrigger(spec, trigger).Some? ==>
      MapDomain(Recurrence.ValidateForTrigger(spec, trigger).value) == Validation
  {
  }

  lemma AdvanceAnswers(i: Item, disposition: OccurrenceDisposition, now: Instant)
    requires i.recurrence.Some? ==> Recurs(i.recurrence.value, i.trigger)
    ensures
      var result := AdvanceOccurrence(i, disposition, now);
      if i.recurrence.None? || i.nextFireAt.None? then result == Failure(InvalidState)
      else if !NextPermitted(i.recurrence.value, i.nextFireAt.value, i.occurrenceNo, now) then
        result == Failure(InvalidState)
      else result.Success?
  {
    if i.recurrence.Some? && i.nextFireAt.Some? {
      Recurrence.LastOccurrenceHappens(i.recurrence.value, i.nextFireAt.value, i.occurrenceNo, now);
      hide Recurrence.AdvanceSpec, Recurrence.StepCount;
    }
  }

  lemma HasNextIff(row: Item, r: Request, spec: RecurrenceSpec, anchor: Option<Instant>, now: Instant)
    requires r.UpdateRequest? && spec.everySeconds > 0
    requires r.triggerChange.None? ==> anchor == row.nextFireAt
    requires r.triggerChange.Some? ==>
      && r.triggerChange.value.Interval?
      && anchor == InitialNextFireAt(NormalizeTrigger(r.triggerChange.value), now)
    ensures HasNext(row, r, spec, now)
       <==> anchor.Some? && NextPermitted(spec, anchor.value, row.occurrenceNo, now)
  {
    hide Recurrence.StepCount;
  }

  /** The recurrence and the trigger an update ends up with. */
  lemma UpdatedRule(row: Item, r: Request, now: Instant)
    requires StoredInv(row) && !row.state.IsTerminal() && r.UpdateRequest? && ValidRequest(Normalize(r))
    ensures
      var n := Normalize(r);
      && n.UpdateRequest? && n.occurrenceDisposition == r.occurrenceDisposition && n.linksChange == r.linksChange
      && n.triggerChange == (if r.triggerChange.Some? then Some(NormalizeTrigger(r.triggerChange.value)) else None)
      && (n.triggerChange.Some? ==> ValidateTrigger(n.triggerChange.value).None?)
      && n.recurrenceChange
         == (if r.recurrenceChange.None? then None
             else if r.recurrenceChange.value.None? then Some(None)
             else Some(Some(NormalizeRecurrence(r.recurrenceChange.value.value))))
      && var fields := ChangeFields(row, n);
      && fields.state == row.state && fields.nextFireAt == row.nextFireAt && fields.trigger == row.trigger
      && fields.recurrence == row.recurrence && fields.occurrenceNo == row.occurrenceNo
  {
    hide Trim, ValidKey, ValidLinks, GoalLinkFits, ItemInv;
  }

  lemma RuleOf(i: Item, r: Request)
    requires r.UpdateRequest?
    ensures
      var rule := if r.recurrenceChange.Some? then r.recurrenceChange.value else i.recurrence;
      match ChangeRecurrence(i, r)
      case Failure(e) => e == Validation && rule.Some? && !Recurs(rule.value, i.trigger)
      case Success(c) => c == i.(recurrence := rule) && (rule.Some? ==> Recurs(rule.value, i.trigger))
  {
    var rule := if r.recurrenceChange.Some? then r.recurrenceChange.value else i.recurrence;
    if rule.Some? {
      RecursIff(rule.value, i.trigger);
    }
    hide Recurrence.ValidateForTrigger, Recurs;
  }

  lemma NormalKind(trigger: Trigger)
    ensures NormalizeTrigger(trigger).Interval? <==> trigger.Interval?
  {
  }

  lemma UpdateAnswered(row: Item, r: Request, now: Instant)
    requires StoredInv(row) && !row.state.IsTerminal() && r.UpdateRequest? && ValidRequest(Normalize(r))
    ensures
      match ApplyUpdate(row, Normalize(r), now)
      case Failure(e) => UpdateAnswers(row, r, now, Failure(e))
      case Success(a) => UpdateAnswers(row, r, now, Success(a.item))
  {
    hide Normalize, ChangeFields, ChangeTrigger, ChangeRecurrence, AdvanceOccurrence, StoredInv, ValidRequest, HasNext,
      NextPermitted, NormalizeTrigger, NormalizeRecurrence, GoalLinkFits, InitialNextFireAt, ValidateTrigger;
    var n := Normalize(r);
    UpdatedRule(row, r, now);
    var fields := ChangeFields(row, n);
    TriggerSucceeds(fields, n, now);
    TriggerPart(fields, n, now);
    var triggered := ChangeTrigger(fields, n, now).value;
    RuleOf(triggered, n);
    if ChangeRecurrence(triggered, n).Success? {
      var recurring := ChangeRecurrence(triggered, n).value;
      if r.triggerChange.Some? {
        NormalKind(r.triggerChange.value);
      }
      if r.occurrenceDisposition.Some? {
        AdvanceAnswers(recurring, r.occurrenceDisposition.value, now);
        if recurring.recurrence.Some? {
          HasNextIff(row, r, recurring.recurrence.value, recurring.nextFireAt, now);
        }
        if AdvanceOccurrence(recurring, r.occurrenceDisposition.value, now).Success? {
          DispositionPart(recurring, r.occurrenceDisposition.value, now);
        }
      }
    }
  }

  lemma AnyAnswer(row: Item, r: Request, now: Instant, a: Item, b: Item)
    requires r.UpdateRequest? && UpdateAnswers(row, r, now, Success(a))
    ensures UpdateAnswers(row, r, now, Success(b))
  {
    hide HasNext, Recurs, GoalLinkFits;
  }

  // ---------------------------------------------------------------- bounds

  /** What each trigger kind has to satisfy. */
  predicate InBounds(t: Trigger) {
    && (t.AfterElapsed? ==> 0 < t.afterSeconds <= 365 * 86_400)
    && (t.Interval? ==> 60 <= t.everySeconds <= 365 * 86_400)
    && (t.GoalActive? ==> t.goalId != "" && |t.goalId| <= 512)
    && (t.Condition? ==>
          && t.adapter != "" && |t.adapter| <= 64
          && 'a' <= t.adapter[0] <= 'z'
          && (forall k :: 0 <= k < |t.adapter| ==>
                'a' <= t.adapter[k] <= 'z' || '0' <= t.adapter[k] <= '9' || t.adapter[k] == '_')
          && t.parameters.JsonObject?
          && (t.pollIntervalSeconds.Some? ==> 30 <= t.pollIntervalSeconds.value <= 86_400))
  }

  lemma TriggerBounds(t: Trigger)
    ensures ValidateTrigger(t).None? <==> InBounds(t)
    ensures InBounds(NormalizeTrigger(t)) <==> InBounds(t)
  {
  }

  /** 8 to 128 of the characters a key may have. */
  predicate SoundKey(key: string) {
    |key| > 7 && |key| < 129 && forall c :: c in key ==> KeyCharacter(c)
  }

  predicate KeyCharacter(c: char) {
    'a' <= c <= 'z' || 'A' <= c <= 'Z' || '0' <= c <= '9' || c == '.' || c == '_' || c == ':' || c == '-'
  }

  /** At most a hundred links, none of white space, none twice. */
  ghost predicate SoundLinks(links: seq<LinkInput>) {
    && |links| < 101
    && (forall l :: l in links ==> Trim(l.value) != "" && |l.value| < 2049)
    && forall j, k :: 0 <= j < |links| && 0 <= k < |links| && links[j] == links[k] ==> j == k
  }

  lemma KeyIsValidIff(key: string)
    ensures ValidKey(key) <==> SoundKey(key)
  {
    assert forall k :: 0 <= k < |key| ==> key[k] in key;
  }

  lemma LinksAreValidIff(links: seq<LinkInput>)
    ensures ValidLinks(links) <==> SoundLinks(links)
  {
    forall k | 0 <= k < |links| ensures links[k] in links && (Blank(links[k].value) <==> Trim(links[k].value) == "") {
      BlankIsTrimmedAway(links[k].value);
    }
    hide Trim, Blank;
  }

  lemma BlankIsTrimmedAway(s: string)
    ensures Blank(s) <==> Trim(s) == ""
  {
    hide Trim, IsWhite;
    TrimTrims(s);
    var i: nat, j: nat :| i <= j && WhiteUpTo(s, i) && WhiteFrom(s, j) && Trim(s) == s[i..j];
    if i < j {
      assert Trim(s)[0] == s[i];
    }
  }

  /** A valid add, by what was sent. */
  lemma AddIsValidIff(r: Request)
    requires r.AddRequest?
    ensures ValidRequest(Normalize(r)) <==>
      && SoundKey(r.key)
      && 0 < |Trim(r.projectId)| <= 512 && 0 < |Trim(r.message)| <= 8192
      && (r.taskId.Some? ==> 0 < |Trim(r.taskId.value)| <= 512)
      && (r.instructions.Some? ==> |r.instructions.value| <= 32_768)
      && (r.sessionId.Some? ==> |Trim(r.sessionId.value)| <= 512)
      && (r.taskLineageId.Some? ==> |Trim(r.taskLineageId.value)| <= 512)
      && InBounds(r.newTrigger)
      && (r.newRecurrence.Some? ==> Recurs(r.newRecurrence.value, r.newTrigger))
      && r.newOverdueAfterSeconds <= 365 * 86_400
      && SoundLinks(r.newLinks)
      && GoalLinkFits(NormalizeTrigger(r.newTrigger), r.newLinks)
  {
    KeyIsValidIff(r.key);
    LinksAreValidIff(r.newLinks);
    TriggerBounds(r.newTrigger);
    if r.newRecurrence.Some? {
      RecursIff(NormalizeRecurrence(r.newRecurrence.value), NormalizeTrigger(r.newTrigger));
      SameRule(r.newRecurrence.value, r.newTrigger);
    }
    hide Trim, ValidKey, ValidLinks, SoundKey, SoundLinks, GoalLinkFits, ValidateTrigger, InBounds,
      NormalizeTrigger, NormalizeRecurrence, Recurs, Recurrence.ValidateForTrigger;
  }

  /** A valid mutation, by what was sent. */
  lemma MutationIsValidIff(r: Request)
    requires !r.AddRequest?
    ensures ValidRequest(Normalize(r)) <==>
      && SoundKey(r.key) && r.expectedVersion >= 1
      && (r.CompleteRequest? ==>
            (r.completionNote.Some? ==> |r.completionNote.value| <= 4096) && ValidEvidence(r.evidence))
      && (r.SnoozeRequest? || r.CancelRequest? || r.UpdateRequest? ==> 0 < |Trim(r.reason)| <= 4096)
      && (r.UpdateRequest? ==> ValidChanges(r))
  {
    KeyIsValidIff(r.key);
    if r.UpdateRequest? && r.linksChange.Some? {
      LinksAreValidIff(r.linksChange.value);
    }
    if r.UpdateRequest? && r.triggerChange.Some? {
      TriggerBounds(r.triggerChange.value);
      TriggerBounds(NormalizeTrigger(r.triggerChange.value));
      NormalKind(r.triggerChange.value);
    }
    hide Trim, ValidKey, ValidLinks, SoundKey, SoundLinks, GoalLinkFits, ValidateTrigger, InBounds,
      NormalizeTrigger, NormalizeRecurrence, ValidEvidence;
  }

  /** An update names something to change, within its bounds, and brings the link of a new goal trigger. */
  ghost predicate ValidChanges(r: Request)
    requires r.UpdateRequest?
  {
    && !(&& r.messageChange == None && r.instructionsChange == None && r.priorityChange == None
         && r.triggerChange == None && r.recurrenceChange == None && r.overdueChange == None
         && r.linksChange == None && r.occurrenceDisposition == None)
    && (r.messageChange.Some? ==> 0 < |Trim(r.messageChange.value)| <= 8192)
    && (r.instructionsChange.Some? && r.instructionsChange.value.Some? ==>
          |r.instructionsChange.value.value| <= 32_768)
    && (r.triggerChange.Some? ==> InBounds(r.triggerChange.value))
    && (r.overdueChange.Some? ==> r.overdueChange.value <= 365 * 86_400)
    && (r.linksChange.Some? ==> SoundLinks(r.linksChange.value))
    && (r.triggerChange.Some? && r.triggerChange.value.GoalActive? ==>
          r.linksChange.Some? && GoalLinkFits(NormalizeTrigger(r.triggerChange.value), r.linksChange.value))
  }

  lemma SameRule(r: RecurrenceSpec, t: Trigger)
    ensures Recurs(NormalizeRecurrence(r), NormalizeTrigger(t)) <==> Recurs(r, t)
  {
  }

  /** A goal trigger is accepted with exactly one goal link, which names the goal. */
  lemma GoalLinkFitsIff(goal: string, links: seq<LinkInput>)
    ensures GoalLinkFits(GoalActive(goal), links) <==>
      exists k :: 0 <= k < |links| && OnlyGoal(links, LinkInput(Goal, goal), k)
  {
    GoalLinksOne(links, LinkInput(Goal, goal));
  }

  lemma {:induction false} GoalLinksNone(links: seq<LinkInput>)
    ensures GoalLinks(links) == [] <==> forall j :: 0 <= j < |links| ==> links[j].linkType != Goal
  {
    if links != [] {
      GoalLinksNone(links[1..]);
      assert links == [links[0]] + links[1..];
      assert forall j :: 0 < j < |links| ==> links[j] == links[1..][j - 1];
    }
  }

  /** The link at `k` is this one, and no other is a goal link. */
  predicate OnlyGoal(links: seq<LinkInput>, link: LinkInput, k: nat)
    requires k < |links|
  {
    links[k] == link && forall j :: 0 <= j < |links| && j != k ==> links[j].linkType != Goal
  }

  lemma {:induction false} GoalLinksOne(links: seq<LinkInput>, link: LinkInput)
    requires link.linkType == Goal
    ensures GoalLinks(links) == [link] <==> exists k :: 0 <= k < |links| && OnlyGoal(links, link, k)
  {
    if links != [] {
      var rest := links[1..];
      GoalLinksOne(rest, link);
      GoalLinksNone(rest);
      assert forall j :: 0 < j < |links| ==> links[j] == rest[j - 1];
      if links[0].linkType == Goal {
        if GoalLinks(links) == [link] {
          assert OnlyGoal(links, link, 0);
        }
        if k :| 0 <= k < |links| && OnlyGoal(links, link, k) {
          assert k == 0;
          assert forall j :: 0 <= j < |rest| ==> rest[j] == links[j + 1];
        }
      } else {
        if k :| 0 <= k < |rest| && OnlyGoal(rest, link, k) {
          assert OnlyGoal(links, link, k + 1);
        }
        if k :| 0 <= k < |links| && OnlyGoal(links, link, k) {
          assert rest[k - 1] == links[k];
          assert forall j :: 0 <= j < |rest| ==> rest[j] == links[j + 1];
          assert OnlyGoal(rest, link, k - 1);
        }
      }
    }
  }
}
