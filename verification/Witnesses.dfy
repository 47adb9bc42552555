/** Concrete runs on which the unconditional forms of three properties fail: a retry that is refused, an
    anchor that does not count occurrences from one, and a check walk that misses an item. */
module Witnesses {
  import opened Wrappers
  import opened Model
  import opened Lifecycle
  import opened Operations
  import opened Evidence
  import opened Store
  import opened StoreRuns
  import opened StoreTheorems
  import Recurrence
  import Retry

  const OWNER := "owner"

  const AGENT := Actor(Agent, "agent", None)

  const SECOND: int := 1_000_000_000

  // ---------------------------------------------------------------- steps that write

  /** A valid call under a fresh key, made in time. */
  ghost predicate Admitted(w: World, call: Call) {
    var r := Normalize(call.request);
    && !Blank(call.actor.actorId) && ValidRequest(r) && TimelyRequest(r, call.limits, call.now)
    && KeyOf(call) !in w.db.idempotency
  }

  lemma AddWrites(w: World, call: Call)
    requires WorldInv(w, OWNER) && Admitted(w, call)
    requires call.request.AddRequest? && call.newId !in w.db.items
    ensures
      var after := Next(w, OWNER, CallTool(call));
      && WorldInv(after, OWNER)
      && after.db.items
         == w.db.items[call.newId := Stored(NewItem(Normalize(call.request), OWNER, call.newId, call.now))]
      && after.db.idempotency.Keys == w.db.idempotency.Keys + {KeyOf(call)}
  {
    hide DbInv, HistoryInv, SnapshotInv, ValidRequest, TimelyRequest, Normalize, NewItem, Stored, Add, Wrote, KeyOf;
    CallKeepsInvariant(w, OWNER, call);
    AddSucceeds(w, call);
  }

  lemma AddSucceeds(w: World, call: Call)
    requires DbInv(w.db, OWNER) && Admitted(w, call)
    requires call.request.AddRequest? && call.newId !in w.db.items
    ensures Execute(w.db, OWNER, call).result.Success?
    ensures
      var o := Execute(w.db, OWNER, call);
      && o.db.items
         == w.db.items[call.newId := Stored(NewItem(Normalize(call.request), OWNER, call.newId, call.now))]
      && o.db.idempotency.Keys == w.db.idempotency.Keys + {KeyOf(call)}
      && o.result.value.id == call.newId
  {
    hide DbInv, ValidRequest, TimelyRequest, Normalize, NewItem, Stored, Add;
    var r := Normalize(call.request);
    NormalizedAdd(call.request);
    NormalizationNormalizes(call.request);
    AddKeepsInvariant(w.db, OWNER, call, r);
    NewItemId(r, OWNER, call.newId, call.now);
  }

  lemma NormalizedAdd(r: Request)
    ensures Normalize(r).AddRequest? <==> r.AddRequest?
    ensures Normalize(r).UpdateRequest? <==> r.UpdateRequest?
  {
  }

  lemma MutationWrites(w: World, call: Call)
    requires WorldInv(w, OWNER) && Admitted(w, call)
    requires !Normalize(call.request).AddRequest?
    requires
      var r := Normalize(call.request);
      && r.id in w.db.items && w.db.items[r.id].version == r.expectedVersion
      && ApplyOperation(w.db.items[r.id], r, call.now).Success?
    ensures
      var r := Normalize(call.request);
      var after := Next(w, OWNER, CallTool(call));
      var row := UpdatedRow(w.db.items[r.id], ApplyOperation(w.db.items[r.id], r, call.now).value.item);
      && Execute(w.db, OWNER, call).result.Success?
      && WorldInv(after, OWNER)
      && after.db.items == w.db.items[r.id := row]
      && after.db.idempotency.Keys == w.db.idempotency.Keys + {KeyOf(call)}
      && r.id in w.history && r.id in after.history
      && after.history[r.id] == w.history[r.id] + [Version(row, MutatedBy(r, call.now))]
  {
    hide DbInv, HistoryInv, SnapshotInv, ValidRequest, TimelyRequest, Normalize, ApplyOperation, UpdatedRow, Mutate,
      KeyOf, RowChange, Stored, NewItem, ItemInv, ItemHistory;
    var r := Normalize(call.request);
    NormalizationNormalizes(call.request);
    CallKeepsInvariant(w, OWNER, call);
    RowIdentity(w.db, OWNER, r.id);
    HistoryOf(w, OWNER, r.id);
    MutationSucceeds(w, call);
    ExecuteOutcome(w.db, OWNER, call);
    OperationIdentity(w.db, OWNER, call, r);
    RowChangeItems(w.db, Execute(w.db, OWNER, call).db, r.id);
  }

  lemma RowChangeItems(db: Db, after: Db, id: Uuid)
    requires RowChange(db, after, id)
    ensures id in db.items && id in after.items && after.items == db.items[id := after.items[id]]
  {
  }

  lemma MutationSucceeds(w: World, call: Call)
    requires DbInv(w.db, OWNER) && Admitted(w, call)
    requires !Normalize(call.request).AddRequest?
    requires
      var r := Normalize(call.request);
      && r.id in w.db.items && w.db.items[r.id].version == r.expectedVersion
      && ApplyOperation(w.db.items[r.id], r, call.now).Success?
    ensures Execute(w.db, OWNER, call).result.Success? && CallWrites(w.db, OWNER, call)
  {
    hide DbInv, ValidRequest, TimelyRequest, Normalize, ApplyOperation, Mutate, RowChange, UpdatedRow, Stored;
    var r := Normalize(call.request);
    NormalizationNormalizes(call.request);
    RowIdentity(w.db, OWNER, r.id);
    MutationChangesOneRow(w.db, OWNER, call, r);
  }

  /** Reading a row and committing its evaluation at once. */
  function EvaluatedNow(w: World, id: Uuid, e: Evaluating): World
    requires id in w.db.items
  {
    Next(Next(w, OWNER, ReadSnapshot(id)), OWNER, CommitSnapshot(w.db.items[id], e))
  }

  lemma EvaluationWrites(w: World, id: Uuid, e: Evaluating)
    requires WorldInv(w, OWNER) && id in w.db.items && Candidate(w.db.items[id], e).Some?
    ensures
      var after := EvaluatedNow(w, id, e);
      && WorldInv(after, OWNER)
      && after.db.items == w.db.items[id := UpdatedRow(w.db.items[id], Candidate(w.db.items[id], e).value.0)]
      && after.db.idempotency == w.db.idempotency
  {
    hide DbInv, HistoryInv, SnapshotInv, Candidate, UpdatedRow, ItemInv, CommitEvaluation;
    var row := w.db.items[id];
    var read := Next(w, OWNER, ReadSnapshot(id));
    ReadKeepsInvariant(w, OWNER, id);
    RowIdentity(w.db, OWNER, id);
    CommitKeepsInvariant(read, OWNER, row, e);
    CommitChangesOneRow(read.db, OWNER, row, e);
    CandidateRaisesVersion(row, e);
    RowChangeItems(read.db, CommitEvaluation(read.db, row, e), id);
  }

  lemma CandidateRaisesVersion(row: Item, e: Evaluating)
    requires ItemInv(row) && Candidate(row, e).Some?
    ensures UpdatedRow(row, Candidate(row, e).value.0) != row
  {
    CandidateKeeps(row, e);
  }

  // ---------------------------------------------------------------- requests

  function AddOf(trigger: Trigger, recurrence: Option<RecurrenceSpec>, priority: Priority, grace: nat, key: string)
    : Request
  {
    AddRequest("project", None, "message", None, priority, trigger, recurrence, grace, [], None, None, key)
  }

  function CallOf(request: Request, id: Uuid, now: Instant, limits: Limits): Call {
    Call(AGENT, request, limits, id, now, now, now)
  }

  const NoLimits := Limits(0, 0)

  lemma WordsAreTrimmed()
    ensures Trim("project") == "project" && Trim("message") == "message" && Trim("later") == "later"
    ensures !Blank("agent")
  {
    TrimTrims("project");
    TrimTrims("message");
    TrimTrims("later");
    assert "agent"[0] == 'a';
  }

  lemma KeysAreValid()
    ensures ValidKey("key.add1") && ValidKey("key.add2") && ValidKey("key.done") && ValidKey("key.next")
    ensures ValidKey("key.swap")
  {
  }

  predicate AddFits(trigger: Trigger, recurrence: Option<RecurrenceSpec>, grace: nat, key: string) {
    && ValidKey(key) && grace <= 31_536_000
    && ValidateTrigger(trigger).None? && NormalizeTrigger(trigger) == trigger && !trigger.GoalActive?
    && (recurrence.Some? ==>
          && Recurrence.ValidateForTrigger(recurrence.value, trigger).None?
          && NormalizeRecurrence(recurrence.value) == recurrence.value)
  }

  /** The add requests used here pass validation unchanged. */
  lemma AddOfIsValid(trigger: Trigger, recurrence: Option<RecurrenceSpec>, priority: Priority, grace: nat, key: string)
    requires AddFits(trigger, recurrence, grace, key)
    ensures
      var r := AddOf(trigger, recurrence, priority, grace, key);
      Normalize(r) == r && ValidRequest(r)
  {
    hide Trim, ValidKey, Blank;
    WordsAreTrimmed();
  }

  /** A row as an add request of this kind creates it. */
  predicate FreshRow(
      row: Item, trigger: Trigger, recurrence: Option<RecurrenceSpec>, priority: Priority, grace: nat, id: Uuid)
  {
    && row.state.Scheduled? && row.version == 1 && row.occurrenceNo == 1
    && row.trigger == trigger && row.recurrence == recurrence && row.priority == priority
    && row.overdueAfterSeconds == grace && row.projectId == "project" && row.ownerId == OWNER && row.id == id
    && (trigger.Interval? ==> row.nextFireAt == Some(trigger.firstAt))
    && (trigger == NextSession ==> row.nextFireAt == None && row.sourceSessionId == None)
  }

  lemma NewRowIsFresh(
      trigger: Trigger, recurrence: Option<RecurrenceSpec>, priority: Priority, grace: nat, key: string, id: Uuid)
    requires AddFits(trigger, recurrence, grace, key)
    ensures FreshRow(
      Stored(NewItem(AddOf(trigger, recurrence, priority, grace, key), OWNER, id, 0)),
      trigger, recurrence, priority, grace, id)
  {
    hide ValidKey;
  }

  function AddStep(
      trigger: Trigger, recurrence: Option<RecurrenceSpec>, priority: Priority, grace: nat, key: string, id: Uuid)
    : Step
  {
    CallTool(CallOf(AddOf(trigger, recurrence, priority, grace, key), id, 0, NoLimits))
  }

  lemma AddedRow(
      w: World, trigger: Trigger, recurrence: Option<RecurrenceSpec>, priority: Priority, grace: nat, key: string,
      id: Uuid)
    requires WorldInv(w, OWNER) && id !in w.db.items && AddFits(trigger, recurrence, grace, key)
    requires IdempotencyKey("agent", RemindiAdd, key) !in w.db.idempotency
    ensures
      var after := Next(w, OWNER, AddStep(trigger, recurrence, priority, grace, key, id));
      && WorldInv(after, OWNER)
      && id in after.db.items && after.db.items == w.db.items[id := after.db.items[id]]
      && after.db.idempotency.Keys == w.db.idempotency.Keys + {IdempotencyKey("agent", RemindiAdd, key)}
      && FreshRow(after.db.items[id], trigger, recurrence, priority, grace, id)
  {
    hide WorldInv, Normalize, ValidRequest, Trim, ValidKey, Blank, Next, AddFits, FreshRow, NewItem, Stored;
    WordsAreTrimmed();
    AddOfIsValid(trigger, recurrence, priority, grace, key);
    NewRowIsFresh(trigger, recurrence, priority, grace, key, id);
    AddWrites(w, CallOf(AddOf(trigger, recurrence, priority, grace, key), id, 0, NoLimits));
  }

  // ---------------------------------------------------------------- a refused retry

  const Observed := EvidenceInput(
    Observation, "observed", Some("urn:x"), None, 15 * SECOND, None, AuthenticatedActor)

  const Completion := CompleteRequest(1, 1, Observed, None, "key.done")

  /** A completion at ten seconds, of what was observed at fifteen, with a future skew of five seconds. */
  const FirstCall := CallOf(Completion, 0, 10 * SECOND, Limits(5 * SECOND, 0))

  function Prepared(): World {
    Next(EmptyWorld, OWNER, AddStep(NextSession, None, Normal, 0, "key.add1", 1))
  }

  lemma PreparedWorld()
    ensures WorldInv(Prepared(), OWNER) && Prepared() == Run(EmptyWorld, OWNER, [
      AddStep(NextSession, None, Normal, 0, "key.add1", 1)])
    ensures 1 in Prepared().db.items
    ensures Prepared().db.items[1].state.Scheduled? && Prepared().db.items[1].version == 1
    ensures Prepared().db.idempotency.Keys == {IdempotencyKey("agent", RemindiAdd, "key.add1")}
  {
    hide WorldInv, Next, ValidKey, AddStep;
    EmptyWorldInvariant(OWNER);
    KeysAreValid();
    AddedRow(EmptyWorld, NextSession, None, Normal, 0, "key.add1", 1);
    var step := AddStep(NextSession, None, Normal, 0, "key.add1", 1);
    assert [step][..0] == [];
    assert Run(EmptyWorld, OWNER, []) == EmptyWorld;
  }

  lemma CompletionIsValid()
    ensures Normalize(Completion) == Completion && ValidRequest(Completion)
  {
    hide ValidKey, ValidEvidence;
    ObservedIsValid();
    KeysAreValid();
  }

  lemma ObservedIsValid()
    ensures ValidEvidence(Observed)
  {
    hide Trim, ValidReference;
    assert Trim("observed") == "observed" by {
      TrimTrims("observed");
    }
    assert |Lower("observed")| == 8 && Lower("observed")[0] == 'o' && Lower("observed")[1] == 'b';
    ReferenceIsValid();
  }

  lemma ReferenceIsValid()
    ensures ValidReference("urn:x")
  {
    var reference := "urn:x";
    FirstOfIs(reference, ":", 3);
    if FirstOf(reference, "://").Some? {
      FoundIsThere(reference, "://", 1);
    }
  }

  lemma FirstOfIs(s: string, t: string, k: nat)
    requires |t| == 1 && k < |s| && s[k] == t[0] && forall j :: 0 <= j < k ==> s[j] != t[0]
    ensures FirstOf(s, t) == Some(k)
  {
    assert t <= s[k..];
  }

  lemma FoundIsThere(s: string, t: string, k: nat)
    requires k < |t| && FirstOf(s, t).Some?
    ensures t[k] in s
  {
    assert s[FirstOf(s, t).value + k] == t[k];
  }

  lemma FirstCallSucceeds()
    ensures Execute(Prepared().db, OWNER, FirstCall).result.Success?
  {
    hide WorldInv, Normalize, ValidRequest, Prepared, Blank, Trim, Execute;
    PreparedWorld();
    CompletionIsValid();
    WordsAreTrimmed();
    assert Trim("observed") == "observed" by {
      TrimTrims("observed");
    }
    assert ApplyOperation(Prepared().db.items[1], Completion, 10 * SECOND).Success?;
    PreparedDb();
    MutationSucceeds(Prepared(), FirstCall);
  }

  lemma PreparedDb()
    ensures DbInv(Prepared().db, OWNER)
  {
    hide Prepared, DbInv, HistoryInv, SnapshotInv;
    PreparedWorld();
  }

  /** A call that succeeded, sent again under an earlier clock or under a smaller skew, is refused instead
      of answered. */
  lemma RetriesCanBeRefused()
    ensures Execute(Prepared().db, OWNER, FirstCall).result.Success?
    ensures
      var later := Next(Prepared(), OWNER, CallTool(FirstCall)).db;
      var earlier := FirstCall.(now := 0);
      var stricter := FirstCall.(limits := NoLimits);
      && Retry.Repeats(FirstCall, earlier) && Retry.Repeats(FirstCall, stricter)
      && Execute(later, OWNER, earlier) == Outcome(later, Failure(Validation))
      && Execute(later, OWNER, stricter) == Outcome(later, Failure(Validation))
  {
    hide Execute, WorldInv, Next, Normalize, ValidRequest, Prepared;
    PreparedWorld();
    FirstCallSucceeds();
    CompletionIsValid();
    Retry.RetryAnswer(Prepared(), OWNER, FirstCall, [], FirstCall.(now := 0));
    Retry.RetryAnswer(Prepared(), OWNER, FirstCall, [], FirstCall.(limits := NoLimits));
  }

  // ---------------------------------------------------------------- an anchor that does not count from one

  const EveryMinute := Interval(0, 60)

  const Minutely := RecurrenceSpec(60, Coalesce, None, None)

  function UpdateOf(version: nat, trigger: Option<Trigger>, disposition: Option<OccurrenceDisposition>, key: string)
    : Request
  {
    UpdateRequest(1, version, None, None, None, trigger, None, None, None, disposition, "later", key)
  }

  const Poll := Evaluating(AGENT, 0, CheckContext(None, None, Checkpoint, []), NotEvaluated, None, 0)

  const AddMinutely := AddStep(EveryMinute, Some(Minutely), Normal, 0, "key.add1", 1)

  const Acknowledge := CallTool(CallOf(UpdateOf(2, None, Some(Acknowledged), "key.next"), 0, 0, NoLimits))

  const ReplaceByItself := CallTool(CallOf(UpdateOf(3, Some(EveryMinute), None, "key.swap"), 0, 0, NoLimits))

  lemma UpdateOfIsValid(version: nat, trigger: Option<Trigger>, disposition: Option<OccurrenceDisposition>, key: string)
    requires ValidKey(key) && version >= 1 && (trigger.Some? || disposition.Some?)
    requires trigger.Some? ==> trigger.value == EveryMinute
    ensures
      var r := UpdateOf(version, trigger, disposition, key);
      Normalize(r) == r && ValidRequest(r)
  {
    hide Trim, ValidKey, ValidateTrigger, NormalizeTrigger, GoalLinkFits;
    WordsAreTrimmed();
    EveryMinuteIsValid();
  }

  lemma EveryMinuteIsValid()
    ensures ValidateTrigger(EveryMinute).None? && NormalizeTrigger(EveryMinute) == EveryMinute
    ensures Recurrence.ValidateForTrigger(Minutely, EveryMinute).None? && NormalizeRecurrence(Minutely) == Minutely
  {
    IntervalIsValid(0, 60);
    RecurrenceIsValid(Minutely, EveryMinute);
  }

  lemma IntervalIsValid(first: Instant, every: nat)
    requires Aligned(first) && 60 <= every <= 31_536_000
    ensures ValidateTrigger(Interval(first, every)).None?
    ensures NormalizeTrigger(Interval(first, every)) == Interval(first, every)
  {
  }

  lemma RecurrenceIsValid(r: RecurrenceSpec, trigger: Trigger)
    requires trigger.Interval? && trigger.everySeconds == r.everySeconds && 60 <= r.everySeconds <= 31_536_000
    requires r.maxOccurrences.None? && r.endAt.None?
    ensures Recurrence.ValidateForTrigger(r, trigger).None? && NormalizeRecurrence(r) == r
  {
  }

  lemma MinutelyFits()
    ensures AddFits(EveryMinute, Some(Minutely), 0, "key.add1")
  {
    hide ValidKey, ValidateTrigger, NormalizeTrigger, NormalizeRecurrence, Recurrence.ValidateForTrigger;
    KeysAreValid();
    EveryMinuteIsValid();
  }

  lemma MinutelyAdded()
    ensures
      var w := Next(EmptyWorld, OWNER, AddMinutely);
      && WorldInv(w, OWNER) && 1 in w.db.items
      && w.db.idempotency.Keys == {IdempotencyKey("agent", RemindiAdd, "key.add1")}
      && var row := w.db.items[1];
      && row.state.Scheduled? && row.version == 1 && row.occurrenceNo == 1 && row.nextFireAt == Some(0)
      && row.trigger == EveryMinute && row.recurrence == Some(Minutely)
  {
    hide WorldInv, Next, AddFits, AddStep;
    EmptyWorldInvariant(OWNER);
    MinutelyFits();
    AddedRow(EmptyWorld, EveryMinute, Some(Minutely), Normal, 0, "key.add1", 1);
  }

  /** The evaluation of a minutely item at its first instant. */
  lemma PollMakesDue(row: Item)
    requires row.state.Scheduled? && row.trigger == EveryMinute && row.nextFireAt == Some(0)
    ensures Candidate(row, Poll).Some?
    ensures
      var due := UpdatedRow(row, Candidate(row, Poll).value.0);
      && due.state.Due? && due.version == row.version + 1 && due.occurrenceNo == row.occurrenceNo
      && due.nextFireAt == row.nextFireAt && due.trigger == row.trigger && due.recurrence == row.recurrence
  {
  }

  lemma AcknowledgeAdvances(row: Item)
    requires row.state.Due? && row.version == 2 && row.occurrenceNo == 1 && row.nextFireAt == Some(0)
    requires row.trigger == EveryMinute && row.recurrence == Some(Minutely)
    ensures
      var done := ApplyOperation(row, UpdateOf(2, None, Some(Acknowledged), "key.next"), 0);
      && done.Success?
      && var next := UpdatedRow(row, done.value.item);
      && next.state.Scheduled? && next.version == 3 && next.occurrenceNo == 2
      && next.nextFireAt == Some(60 * SECOND)
      && next.trigger == EveryMinute && next.recurrence == Some(Minutely)
  {
    hide AdvanceOccurrence, ApplyUpdate;
    MinutelyAdvance(row);
    DispositionOnly(row, UpdateOf(2, None, Some(Acknowledged), "key.next"), 0);
  }

  lemma MinutelyAdvance(row: Item)
    requires row.occurrenceNo == 1 && row.nextFireAt == Some(0) && row.recurrence == Some(Minutely)
    ensures AdvanceOccurrence(row, Acknowledged, 0) == Success(row.(
      nextFireAt := Some(60 * SECOND), originalNextFireAt := Some(60 * SECOND), occurrenceNo := 2, dueSince := None,
      state := Scheduled))
  {
    hide Recurrence.AnchorAfter, Recurrence.StepCount;
    assert Recurrence.StepCount(Minutely, 0, 0) == 1 by {
      Recurrence.StepCountIsFirstFuture(Minutely, 0, 0, 1);
      FirstAnchors();
    }
    FirstAnchors();
  }

  lemma FirstAnchors()
    ensures Recurrence.AnchorAfter(Minutely, 0, 0) == 0 && Recurrence.AnchorAfter(Minutely, 0, 1) == 60 * SECOND
  {
  }

  /** An update of nothing but the occurrence. */
  lemma DispositionOnly(row: Item, r: Request, now: Instant)
    requires r.UpdateRequest? && r.occurrenceDisposition.Some? && row.state.IsReady()
    requires r.messageChange.None? && r.instructionsChange.None? && r.priorityChange.None? && r.overdueChange.None?
    requires r.triggerChange.None? && r.recurrenceChange.None? && r.linksChange.None?
    requires row.recurrence.Some? && Recurrence.ValidateForTrigger(row.recurrence.value, row.trigger).None?
    requires AdvanceOccurrence(row, r.occurrenceDisposition.value, now).Success?
    ensures ApplyUpdate(row, r, now) == Success(Applied(
      BumpOnce(AdvanceOccurrence(row, r.occurrenceDisposition.value, now).value, row.version, now),
      OccurrenceAdvanced, None, None))
  {
    hide AdvanceOccurrence, BumpOnce;
    assert ChangeFields(row, r) == row;
  }

  lemma ReplacedTrigger(row: Item, trigger: Trigger, version: nat, key: string)
    requires !row.state.IsTerminal() && !row.state.Snoozed?
    requires trigger.Interval? && Aligned(trigger.firstAt) && ValidateTrigger(trigger).None?
    requires row.recurrence.Some? ==> Recurrence.ValidateForTrigger(row.recurrence.value, trigger).None?
    ensures
      var done := ApplyOperation(row, UpdateOf(version, Some(trigger), None, key), 0);
      && done.Success?
      && var next := UpdatedRow(row, done.value.item);
      && next.occurrenceNo == row.occurrenceNo && next.nextFireAt == Some(trigger.firstAt) && next.trigger == trigger
  {
    hide ApplyUpdate, ValidateTrigger, Recurrence.ValidateForTrigger, UpdatedRow;
    var r := UpdateOf(version, Some(trigger), None, key);
    TriggerOnly(row, r, 0);
    StoredSchedule(row, ApplyUpdate(row, r, 0).value.item);
  }

  lemma StoredSchedule(row: Item, item: Item)
    ensures
      var next := UpdatedRow(row, item);
      next.occurrenceNo == item.occurrenceNo && next.nextFireAt == MillisOption(item.nextFireAt)
      && next.trigger == item.trigger
  {
  }

  /** An update of nothing but the trigger of a live item that is not snoozed. */
  lemma TriggerOnly(row: Item, r: Request, now: Instant)
    requires r.UpdateRequest? && r.triggerChange.Some? && !row.state.IsTerminal() && !row.state.Snoozed?
    requires r.messageChange.None? && r.instructionsChange.None? && r.priorityChange.None? && r.overdueChange.None?
    requires r.occurrenceDisposition.None? && r.recurrenceChange.None? && r.linksChange.None?
    requires ValidateTrigger(r.triggerChange.value).None?
    requires row.recurrence.Some? ==>
      Recurrence.ValidateForTrigger(row.recurrence.value, r.triggerChange.value).None?
    ensures ApplyUpdate(row, r, now) == Success(Applied(
      row.(trigger := r.triggerChange.value,
           nextFireAt := InitialNextFireAt(r.triggerChange.value, now),
           originalNextFireAt := InitialNextFireAt(r.triggerChange.value, now),
           nextEvaluationAt := InitialNextEvaluationAt(r.triggerChange.value, now),
           version := row.version + 1,
           updatedAt := now),
      UpdatedEvent, None, None))
  {
    hide ValidateTrigger, InitialNextFireAt, InitialNextEvaluationAt, Recurrence.ValidateForTrigger;
    assert ChangeFields(row, r) == row;
  }

  lemma MinutelyDue()
    ensures 1 in Next(EmptyWorld, OWNER, AddMinutely).db.items
    ensures
      var w := EvaluatedNow(Next(EmptyWorld, OWNER, AddMinutely), 1, Poll);
      && WorldInv(w, OWNER) && 1 in w.db.items
      && w.db.idempotency.Keys == {IdempotencyKey("agent", RemindiAdd, "key.add1")}
      && var row := w.db.items[1];
      && row.state.Due? && row.version == 2 && row.occurrenceNo == 1 && row.nextFireAt == Some(0)
      && row.trigger == EveryMinute && row.recurrence == Some(Minutely)
  {
    hide WorldInv, Next, Candidate, UpdatedRow, EvaluatedNow;
    MinutelyAdded();
    var w := Next(EmptyWorld, OWNER, AddMinutely);
    PollMakesDue(w.db.items[1]);
    EvaluationWrites(w, 1, Poll);
  }

  lemma MinutelyAdvanced()
    ensures 1 in Next(EmptyWorld, OWNER, AddMinutely).db.items
    ensures
      var w := Next(EvaluatedNow(Next(EmptyWorld, OWNER, AddMinutely), 1, Poll), OWNER, Acknowledge);
      && WorldInv(w, OWNER) && 1 in w.db.items
      && w.db.idempotency.Keys
         == {IdempotencyKey("agent", RemindiAdd, "key.add1"), IdempotencyKey("agent", RemindiUpdate, "key.next")}
      && var row := w.db.items[1];
      && row.state.Scheduled? && row.version == 3 && row.occurrenceNo == 2 && row.nextFireAt == Some(60 * SECOND)
      && row.trigger == EveryMinute && row.recurrence == Some(Minutely)
  {
    hide WorldInv, Next, UpdatedRow, EvaluatedNow, ApplyOperation, Normalize, ValidRequest, ValidKey, Blank;
    MinutelyDue();
    KeysAreValid();
    WordsAreTrimmed();
    var w := EvaluatedNow(Next(EmptyWorld, OWNER, AddMinutely), 1, Poll);
    UpdateOfIsValid(2, None, Some(Acknowledged), "key.next");
    AcknowledgeAdvances(w.db.items[1]);
    MutationWrites(w, Acknowledge.call);
  }


  function ReplacedSteps(): seq<Step> {
    var added := Next(EmptyWorld, OWNER, AddMinutely);
    if 1 !in added.db.items then []
    else [AddMinutely, ReadSnapshot(1), CommitSnapshot(added.db.items[1], Poll), Acknowledge, ReplaceByItself]
  }

  /** A minutely item is added, becomes due, is acknowledged, and gets its trigger anew: it then stands at
      its first instant with occurrence two, although counting from one would put it a minute later. */
  lemma AnchorNeedNotCountFromOne()
    ensures
      var w := Run(EmptyWorld, OWNER, ReplacedSteps());
      && 1 in w.db.items && 1 in w.history && |w.history[1]| > 0
      && BaseOccurrence(w.history[1]) == 2
      && var row := w.db.items[1];
      && row.trigger == EveryMinute && row.occurrenceNo == 2 && row.nextFireAt == Some(0)
      && row.nextFireAt != Some(row.trigger.firstAt + (row.occurrenceNo - 1) * Seconds(row.trigger.everySeconds))
  {
    hide WorldInv, Next, UpdatedRow, EvaluatedNow, ApplyOperation, Normalize, ValidRequest, ValidKey, Blank, Run,
      ReplacesTrigger, BaseOccurrence;
    MinutelyAdvanced();
    MinutelyReplaced();
    var added := Next(EmptyWorld, OWNER, AddMinutely);
    FiveSteps(added, ReplacedSteps());
  }

  lemma MinutelyReplaced()
    ensures 1 in Next(EmptyWorld, OWNER, AddMinutely).db.items
    ensures
      var w := Next(
        Next(EvaluatedNow(Next(EmptyWorld, OWNER, AddMinutely), 1, Poll), OWNER, Acknowledge), OWNER, ReplaceByItself);
      && 1 in w.db.items && 1 in w.history && |w.history[1]| > 0
      && BaseOccurrence(w.history[1]) == 2
      && w.db.items[1].trigger == EveryMinute && w.db.items[1].occurrenceNo == 2 && w.db.items[1].nextFireAt == Some(0)
  {
    hide WorldInv, Next, UpdatedRow, EvaluatedNow, ApplyOperation, Normalize, ValidRequest, ValidKey, Blank,
      BaseOccurrence, ValidateTrigger, NormalizeTrigger, NormalizeRecurrence, Recurrence.ValidateForTrigger;
    MinutelyAdvanced();
    KeysAreValid();
    WordsAreTrimmed();
    var w := Next(EvaluatedNow(Next(EmptyWorld, OWNER, AddMinutely), 1, Poll), OWNER, Acknowledge);
    UpdateOfIsValid(3, Some(EveryMinute), None, "key.swap");
    EveryMinuteIsValid();
    ReplacedTrigger(w.db.items[1], EveryMinute, 3, "key.swap");
    LastVersion(w, 1);
    MutationWrites(w, ReplaceByItself.call);
    BaseAfterReplacement(Next(w, OWNER, ReplaceByItself).history[1]);
  }

  lemma LastVersion(w: World, id: Uuid)
    requires WorldInv(w, OWNER) && id in w.db.items
    ensures id in w.history && |w.history[id]| > 0 && w.history[id][|w.history[id]| - 1].item == w.db.items[id]
  {
    hide DbInv, SnapshotInv, ItemInv, Derives, IsCreation;
    HistoryOf(w, OWNER, id);
  }

  lemma BaseAfterReplacement(h: seq<Version>)
    requires |h| > 1 && ReplacesTrigger(h[|h| - 1])
    ensures BaseOccurrence(h) == h[|h| - 2].item.occurrenceNo
  {
  }

  lemma FiveSteps(added: World, s: seq<Step>)
    requires |s| == 5 && s[0] == AddMinutely && added == Next(EmptyWorld, OWNER, s[0]) && 1 in added.db.items
    requires s[1] == ReadSnapshot(1) && s[2] == CommitSnapshot(added.db.items[1], Poll)
    ensures Run(EmptyWorld, OWNER, s)
         == Next(Next(EvaluatedNow(added, 1, Poll), OWNER, s[3]), OWNER, s[4])
  {
    hide Next;
    assert s[..5] == s && s[..4] == s[..5][..4] && s[..3] == s[..4][..3] && s[..2] == s[..3][..2];
    assert s[..1] == s[..2][..1] && s[..0] == s[..1][..0] && s[..0] == [];
    assert Run(EmptyWorld, OWNER, s[..1]) == added;
    assert Run(EmptyWorld, OWNER, s[..2]) == Next(added, OWNER, s[1]);
    assert Run(EmptyWorld, OWNER, s[..3]) == EvaluatedNow(added, 1, Poll);
    assert Run(EmptyWorld, OWNER, s[..4]) == Next(EvaluatedNow(added, 1, Poll), OWNER, s[3]);
  }
}
