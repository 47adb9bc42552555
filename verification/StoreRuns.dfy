/** Whole runs of the store: tool calls, snapshot reads and late commits of evaluated snapshots, in
    any order, and the invariants every run keeps. */
module StoreRuns {
  import opened Wrappers
  import opened Model
  import opened Lifecycle
  import opened Operations
  import opened Store

  // ---------------------------------------------------------------- runs

  /** How one version of an item came about. */
  datatype Origin = CreatedBy(call: Call) | MutatedBy(request: Request, now: Instant) | EvaluatedBy(e: Evaluating)

  datatype Version = Version(item: Item, origin: Origin)

  /** The database, the snapshots that were ever read for evaluation, and the versions each item
      has gone through. */
  datatype World = World(db: Db, snapshots: set<Item>, history: map<Uuid, seq<Version>>)

  datatype Step =
    | CallTool(call: Call)
    | ReadSnapshot(id: Uuid)
    | CommitSnapshot(prior: Item, e: Evaluating)

  const EmptyWorld := World(EmptyDb, {}, map[])

  function Recorded(history: map<Uuid, seq<Version>>, id: Uuid, v: Version): map<Uuid, seq<Version>> {
    history[id := (if id in history then history[id] else []) + [v]]
  }

  /** The call reaches the tables: it is valid, in time, not a repeat, and succeeds. */
  predicate CallWrites(db: Db, ownerId: string, call: Call) {
    KeyOf(call) !in db.idempotency && Execute(db, ownerId, call).result.Success?
  }

  function Next(w: World, ownerId: string, step: Step): World {
    match step
    case CallTool(call) =>
      var o := Execute(w.db, ownerId, call);
      if CallWrites(w.db, ownerId, call) && o.result.value.id in o.db.items then
        var id := o.result.value.id;
        var request := Normalize(call.request);
        w.(db := o.db,
           history := Recorded(w.history, id, Version(
             o.db.items[id],
             if request.AddRequest? then CreatedBy(call) else MutatedBy(request, call.now))))
      else w.(db := o.db)
    case ReadSnapshot(id) =>
      if id in w.db.items then w.(snapshots := w.snapshots + {w.db.items[id]}) else w
    case CommitSnapshot(prior, e) =>
      var db := CommitEvaluation(w.db, prior, e);
      if prior !in w.snapshots || db == w.db || prior.id !in db.items then w
      else w.(db := db, history := Recorded(w.history, prior.id, Version(db.items[prior.id], EvaluatedBy(e))))
  }

  function Run(w: World, ownerId: string, steps: seq<Step>): World {
    if steps == [] then w else Next(Run(w, ownerId, steps[..|steps| - 1]), ownerId, steps[|steps| - 1])
  }

  // ---------------------------------------------------------------- invariants

  function EventsOf(events: seq<Event>, id: Uuid): seq<Event> {
    if events == [] then []
    else
      EventsOf(events[..|events| - 1], id)
      + if events[|events| - 1].remindiId == id then [events[|events| - 1]] else []
  }

  predicate SamePair(a: Event, b: Event) {
    a.priorVersion == b.priorVersion && a.newVersion == b.newVersion
  }

  predicate Follows(a: Event, b: Event) {
    b.priorVersion == Some(a.newVersion) && b.newVersion == a.newVersion + 1
  }

  /** The events of one item, in sequence order, chain None -> 1 -> 2 -> ... -> version; the events
      of one commit share their pair. */
  predicate VersionChain(events: seq<Event>, version: nat) {
    && |events| > 0
    && events[0].priorVersion.None? && events[0].newVersion == 1
    && events[|events| - 1].newVersion == version
    && forall k {:trigger events[k]} :: 0 < k < |events| ==>
         SamePair(events[k - 1], events[k]) || Follows(events[k - 1], events[k])
  }

  ghost predicate RowInv(db: Db, ownerId: string, id: Uuid)
    requires id in db.items
  {
    var row := db.items[id];
    && row.id == id && row.ownerId == ownerId
    && StoredInv(row)
    && (id in db.evidence <==> row.state.Completed?)
    && id in db.links
    && ValidLinks(LinkInputs(db.links[id]))
    && GoalLinkFits(row.trigger, LinkInputs(db.links[id]))
    && VersionChain(EventsOf(db.events, id), row.version)
  }

  ghost predicate DbInv(db: Db, ownerId: string) {
    && (forall id :: id in db.items ==> RowInv(db, ownerId, id))
    && db.evidence.Keys <= db.items.Keys
    && db.links.Keys == db.items.Keys
    && (forall k :: 0 <= k < |db.events| ==> db.events[k].remindiId in db.items)
  }

  /** Version `v` is the outcome of its operation on the row `prev`, and of nothing else. */
  ghost predicate Derives(prev: Item, v: Version) {
    match v.origin
    case CreatedBy(_) => false
    case MutatedBy(request, now) =>
      && !request.AddRequest? && ValidRequest(request) && NormalizedRequest(request)
      && ApplyOperation(prev, request, now).Success?
      && v.item == UpdatedRow(prev, ApplyOperation(prev, request, now).value.item)
    case EvaluatedBy(e) =>
      && Candidate(prev, e).Some?
      && v.item == UpdatedRow(prev, Candidate(prev, e).value.0)
  }

  ghost predicate IsCreation(v: Version, ownerId: string) {
    && v.origin.CreatedBy?
    && var request := Normalize(v.origin.call.request);
    && request.AddRequest?
    && ValidRequest(request)
    && v.item == Stored(NewItem(request, ownerId, v.item.id, v.origin.call.now))
  }

  ghost predicate ItemHistory(h: seq<Version>, row: Item, ownerId: string) {
    && |h| == row.version && |h| > 0
    && h[|h| - 1].item == row
    && IsCreation(h[0], ownerId)
    && (forall k {:trigger h[k]} :: 0 <= k < |h| ==> h[k].item.version == k + 1 && StoredInv(h[k].item))
    && (forall k {:trigger h[k]} :: 0 < k < |h| ==> Derives(h[k - 1].item, h[k]))
  }

  ghost predicate HistoryInv(w: World, ownerId: string) {
    && w.history.Keys == w.db.items.Keys
    && forall id :: id in w.db.items ==> ItemHistory(w.history[id], w.db.items[id], ownerId)
  }

  /** Every snapshot was once the row of its item, at the version it carries. */
  ghost predicate SnapshotInv(w: World) {
    forall s :: s in w.snapshots ==>
      && s.id in w.history
      && 1 <= s.version <= |w.history[s.id]|
      && w.history[s.id][s.version - 1].item == s
  }

  ghost predicate WorldInv(w: World, ownerId: string) {
    DbInv(w.db, ownerId) && HistoryInv(w, ownerId) && SnapshotInv(w)
  }

  // ---------------------------------------------------------------- events

  lemma {:induction false} EventsOfAppend(events: seq<Event>, rows: seq<Event>, from: Uuid, id: Uuid)
    requires forall k :: 0 <= k < |rows| ==> rows[k].remindiId == from
    ensures EventsOf(events + rows, id) == EventsOf(events, id) + if id == from then rows else []
  {
    if rows == [] {
      assert events + rows == events;
    } else {
      var init := rows[..|rows| - 1];
      EventsOfAppend(events, init, from, id);
      assert (events + rows)[..|events + rows| - 1] == events + init;
      assert init + [rows[|rows| - 1]] == rows;
    }
  }

  lemma {:induction false} NoEventsOfUnknown(events: seq<Event>, id: Uuid)
    requires forall k :: 0 <= k < |events| ==> events[k].remindiId != id
    ensures EventsOf(events, id) == []
  {
    if events != [] {
      NoEventsOfUnknown(events[..|events| - 1], id);
    }
  }

  /** A version chain names every version up to the current one. */
  lemma {:induction false} ChainHasNoGap(events: seq<Event>, version: nat, n: nat)
    requires VersionChain(events, version)
    requires 1 <= n <= version
    ensures exists k :: 0 <= k < |events| && events[k].newVersion == n
  {
    var last := |events| - 1;
    if n == version {
      assert events[last].newVersion == n;
    } else {
      var init := events[..last];
      assert last > 0;
      assert SamePair(events[last - 1], events[last]) || Follows(events[last - 1], events[last]);
      assert VersionChain(init, init[last - 1].newVersion);
      ChainHasNoGap(init, init[last - 1].newVersion, n);
      var k :| 0 <= k < |init| && init[k].newVersion == n;
      assert events[k].newVersion == n;
    }
  }

  // ---------------------------------------------------------------- one change of one row

  /** The rows an event batch appends. */
  ghost predicate Appends(before: seq<Event>, after: seq<Event>, id: Uuid, prior: Option<nat>, version: nat) {
    exists types: seq<EventType>, actor: Actor, at: Instant ::
      types != [] && after == before + EventRows(id, types, actor, at, prior, version)
  }

  /** A commit that moves exactly one row from one version to the next. */
  ghost predicate RowChange(db: Db, after: Db, id: Uuid) {
    && id in db.items && id in after.items
    && after.items == db.items[id := after.items[id]]
    && var old_, new_ := db.items[id], after.items[id];
    && !old_.state.IsTerminal()
    && StoredInv(new_) && SameIdentity(old_, new_) && new_.version == old_.version + 1
    && after.evidence.Keys == db.evidence.Keys + (if new_.state.Completed? then {id} else {})
    && id in after.links && after.links == db.links[id := after.links[id]]
    && ValidLinks(LinkInputs(after.links[id])) && GoalLinkFits(new_.trigger, LinkInputs(after.links[id]))
    && Appends(db.events, after.events, id, Some(old_.version), new_.version)
  }

  lemma ChainExtends(events: seq<Event>, rows: seq<Event>, version: nat)
    requires VersionChain(events, version) && rows != []
    requires forall k :: 0 <= k < |rows| ==> rows[k].priorVersion == Some(version) && rows[k].newVersion == version + 1
    ensures VersionChain(events + rows, version + 1)
  {
  }

  lemma RowChangeKeepsInvariant(db: Db, after: Db, id: Uuid, ownerId: string)
    requires DbInv(db, ownerId) && RowChange(db, after, id)
    ensures DbInv(after, ownerId)
  {
    hide StoredInv, ValidLinks, GoalLinkFits, VersionChain;
    var version := db.items[id].version;
    var types, actor, at :|
      types != [] && after.events == db.events + EventRows(id, types, actor, at, Some(version), version + 1);
    var rows := EventRows(id, types, actor, at, Some(version), version + 1);
    forall other | other in after.items ensures RowInv(after, ownerId, other) {
      assert RowInv(db, ownerId, other);
      EventsOfAppend(db.events, rows, id, other);
      if other == id {
        ChainExtends(EventsOf(db.events, id), rows, version);
      } else {
        assert EventsOf(after.events, other) == EventsOf(db.events, other);
      }
    }
  }

  lemma LinkInputsOfStored(links: seq<LinkInput>, now: Instant)
    ensures LinkInputs(StoredLinks(links, now)) == links
  {
  }

  lemma UpdatedRowInvariant(row: Item, item: Item)
    requires StoredInv(row) && ItemInv(item)
    ensures StoredInv(UpdatedRow(row, item)) && SchemaChecks(UpdatedRow(row, item))
    ensures SameIdentity(row, UpdatedRow(row, item))
    ensures UpdatedRow(row, item).state == item.state && UpdatedRow(row, item).version == item.version
    ensures UpdatedRow(row, item).trigger == item.trigger
  {
    StoringKeepsInvariant(item);
  }

  lemma WritesChangeOneRow(db: Db, call: Call, request: Request, row: Item, applied: Applied)
    requires row.id in db.items && db.items[row.id] == row
    requires row.id in db.links && (row.id in db.evidence <==> row.state.Completed?)
    requires StoredInv(row) && OperationKeeps(row, applied)
    requires ValidLinks(LinkInputs(db.links[row.id])) && GoalLinkFits(row.trigger, LinkInputs(db.links[row.id]))
    ensures
      var o := WriteMutation(db, call, request, row, applied);
      && o.result == Success(applied.item)
      && RowChange(db, o.db, row.id)
      && o.db.items[row.id] == UpdatedRow(row, applied.item)
      && o.db.idempotency == Remember(db, call, request, applied.item).idempotency
  {
    hide ItemInv, ValidLinks, UpdatedRow, SchemaChecks, Stored;
    var id := row.id;
    UpdatedRowInvariant(row, applied.item);
    var after := WriteMutation(db, call, request, row, applied).db;
    assert Appends(db.events, after.events, id, Some(row.version), row.version + 1) by {
      assert after.events == db.events + EventRows(
        id, [applied.eventType], call.actor, call.eventNow, Some(row.version), row.version + 1);
    }
    if applied.links.Some? {
      LinkInputsOfStored(applied.links.value, call.now);
    }
  }

  /** A mutation whose operation succeeds is never stopped by a table constraint, and changes one
      row. */
  lemma MutationChangesOneRow(db: Db, ownerId: string, call: Call, request: Request)
    requires DbInv(db, ownerId) && !request.AddRequest? && ValidRequest(request) && NormalizedRequest(request)
    requires Find(db, ownerId, request.id).Some?
    requires db.items[request.id].version == request.expectedVersion
    requires ApplyOperation(db.items[request.id], request, call.now).Success?
    ensures
      var o := Mutate(db, ownerId, call, request);
      var applied := ApplyOperation(db.items[request.id], request, call.now).value;
      && o.result == Success(applied.item)
      && RowChange(db, o.db, request.id)
      && o.db.items[request.id] == UpdatedRow(db.items[request.id], applied.item)
      && o.db.idempotency == Remember(db, call, request, applied.item).idempotency
  {
    hide ItemInv, StoredInv, ApplyOperation, ValidLinks, GoalLinkFits, VersionChain, ValidRequest, WriteMutation,
      RowChange, UpdatedRow, NormalizedRequest, Remember;
    assert RowInv(db, ownerId, request.id);
    var row := db.items[request.id];
    StoredIsInvariant(row);
    OperationKeepsInvariant(row, request, call.now);
    WritesChangeOneRow(db, call, request, row, ApplyOperation(row, request, call.now).value);
  }

  lemma StoredIsInvariant(row: Item)
    requires StoredInv(row)
    ensures ItemInv(row)
  {
  }

  /** The fields of a candidate that matter to the store. */
  lemma CandidateKeeps(prior: Item, e: Evaluating)
    requires ItemInv(prior)
    ensures prior.state.IsTerminal() ==> Candidate(prior, e).None?
    ensures Candidate(prior, e).Some? ==>
      var c := Candidate(prior, e).value;
      && ItemInv(c.0) && SameIdentity(prior, c.0) && !c.0.state.IsTerminal()
      && c.0.version == prior.version + 1 && c.0.trigger == prior.trigger && c.1 != []
      && c.0.nextFireAt == prior.nextFireAt && c.0.occurrenceNo == prior.occurrenceNo
      && c.0.recurrence == prior.recurrence && c.0.overdueAfterSeconds == prior.overdueAfterSeconds
  {
    EvaluationKeepsInvariant(prior, e.now, e.context, e.condition);
  }

  /** Committing the evaluation of a snapshot that is still the current row changes that row. */
  lemma CommitChangesOneRow(db: Db, ownerId: string, prior: Item, e: Evaluating)
    requires DbInv(db, ownerId)
    requires prior.id in db.items && db.items[prior.id] == prior
    ensures
      var after := CommitEvaluation(db, prior, e);
      if Candidate(prior, e).None? then after == db
      else
        && RowChange(db, after, prior.id)
        && after.items[prior.id] == UpdatedRow(prior, Candidate(prior, e).value.0)
        && after.idempotency == db.idempotency
        && after.evidence == db.evidence && after.links == db.links
  {
    hide ItemInv, Candidate, ValidLinks, GoalLinkFits, VersionChain, UpdatedRow;
    assert RowInv(db, ownerId, prior.id);
    CandidateKeeps(prior, e);
    if Candidate(prior, e).Some? {
      var (candidate, events) := Candidate(prior, e).value;
      UpdatedRowInvariant(prior, candidate);
      var after := CommitEvaluation(db, prior, e);
      assert after.events == db.events + EventRows(
        prior.id, events, e.actor, e.eventNow, Some(prior.version), prior.version + 1);
      assert db.links == db.links[prior.id := db.links[prior.id]];
    }
  }

  lemma NewItemStored(request: Request, ownerId: string, id: Uuid, now: Instant)
    requires request.AddRequest? && ValidRequest(request) && NormalizedRequest(request)
    ensures
      var row := Stored(NewItem(request, ownerId, id, now));
      && StoredInv(row) && SchemaChecks(row) && row.state.Scheduled?
      && row.id == id && row.ownerId == ownerId && row.version == 1 && row.trigger == request.newTrigger
    ensures ValidLinks(request.newLinks) && GoalLinkFits(request.newTrigger, request.newLinks)
  {
    NewItemInvariant(request, ownerId, id, now);
    StoringKeepsInvariant(NewItem(request, ownerId, id, now));
  }

  lemma FirstEventStartsChain(id: Uuid, actor: Actor, at: Instant)
    ensures VersionChain(EventRows(id, [CreatedEvent], actor, at, None, 1), 1)
  {
  }

  /** A new row with its links and its first event. */
  lemma InsertKeepsInvariant(db: Db, after: Db, row: Item, ownerId: string)
    requires DbInv(db, ownerId)
    requires row.id !in db.items && row.ownerId == ownerId
    requires StoredInv(row) && row.version == 1 && row.state.Scheduled?
    requires after.items == db.items[row.id := row] && after.evidence == db.evidence
    requires row.id in after.links && after.links == db.links[row.id := after.links[row.id]]
    requires ValidLinks(LinkInputs(after.links[row.id])) && GoalLinkFits(row.trigger, LinkInputs(after.links[row.id]))
    requires exists actor: Actor, at: Instant ::
      after.events == db.events + EventRows(row.id, [CreatedEvent], actor, at, None, 1)
    ensures DbInv(after, ownerId)
  {
    hide StoredInv, ValidLinks, GoalLinkFits, VersionChain, LinkInputs;
    var actor, at :| after.events == db.events + EventRows(row.id, [CreatedEvent], actor, at, None, 1);
    var rows := EventRows(row.id, [CreatedEvent], actor, at, None, 1);
    forall other | other in after.items ensures RowInv(after, ownerId, other) {
      EventsOfAppend(db.events, rows, row.id, other);
      if other == row.id {
        NoEventsOfUnknown(db.events, row.id);
        assert EventsOf(after.events, other) == rows;
        FirstEventStartsChain(row.id, actor, at);
      } else {
        assert RowInv(db, ownerId, other);
        assert EventsOf(after.events, other) == EventsOf(db.events, other);
      }
    }
  }

  lemma AddKeepsInvariant(db: Db, ownerId: string, call: Call, request: Request)
    requires DbInv(db, ownerId) && request.AddRequest? && ValidRequest(request) && NormalizedRequest(request)
    ensures
      var o := Add(db, ownerId, call, request);
      var item := NewItem(request, ownerId, call.newId, call.now);
      && DbInv(o.db, ownerId)
      && (o.result.Failure? <==> call.newId in db.items)
      && (o.result.Failure? ==> o.db == db)
      && (o.result.Success? ==>
            && o.result.value == item
            && o.db.items == db.items[call.newId := Stored(item)]
            && o.db.idempotency == Remember(db, call, request, item).idempotency)
  {
    hide ItemInv, ValidLinks, GoalLinkFits, ValidRequest, StoredInv, SchemaChecks, Stored, NewItem, RowInv;
    NewItemStored(request, ownerId, call.newId, call.now);
    var item := NewItem(request, ownerId, call.newId, call.now);
    assert item.id == call.newId by {
      NewItemId(request, ownerId, call.newId, call.now);
    }
    if call.newId !in db.items {
      var after := Add(db, ownerId, call, request).db;
      LinkInputsOfStored(request.newLinks, call.now);
      assert after.events == db.events + EventRows(item.id, [CreatedEvent], call.actor, call.eventNow, None, 1);
      InsertKeepsInvariant(db, after, Stored(item), ownerId);
    }
  }

  lemma NewItemId(request: Request, ownerId: string, id: Uuid, now: Instant)
    requires request.AddRequest?
    ensures NewItem(request, ownerId, id, now).id == id
  {
  }

  // ---------------------------------------------------------------- one step of a run

  /** What a call that writes has done. */
  ghost predicate Wrote(db: Db, ownerId: string, call: Call, after: Db) {
    var request := Normalize(call.request);
    && ValidRequest(request) && NormalizedRequest(request)
    && if request.AddRequest? then
      && call.newId !in db.items
      && after.items == db.items[call.newId := Stored(NewItem(request, ownerId, call.newId, call.now))]
    else
      && request.id in db.items
      && db.items[request.id].version == request.expectedVersion
      && ApplyOperation(db.items[request.id], request, call.now).Success?
      && RowChange(db, after, request.id)
      && after.items[request.id]
         == UpdatedRow(db.items[request.id], ApplyOperation(db.items[request.id], request, call.now).value.item)
  }

  /** A call either leaves the database as it was or makes exactly one change, and the change keeps
      the invariant. */
  lemma ExecuteOutcome(db: Db, ownerId: string, call: Call)
    requires DbInv(db, ownerId)
    ensures
      var o := Execute(db, ownerId, call);
      && DbInv(o.db, ownerId)
      && (!CallWrites(db, ownerId, call) ==> o.db == db)
      && (CallWrites(db, ownerId, call) ==>
            && Wrote(db, ownerId, call, o.db)
            && o.result.value.id == (var r := Normalize(call.request); if r.AddRequest? then call.newId else r.id)
            && o.db.idempotency == Remember(db, call, Normalize(call.request), o.result.value).idempotency)
  {
    hide ValidRequest, TimelyRequest, NormalizedRequest, RowInv, Stored, NewItem, UpdatedRow, RowChange, Remember,
      ApplyOperation, WriteMutation, Add, DbInv;
    var request := Normalize(call.request);
    NormalizationNormalizes(call.request);
    if Execute(db, ownerId, call).db != db || CallWrites(db, ownerId, call) {
      if request.AddRequest? {
        AddKeepsInvariant(db, ownerId, call, request);
        NewItemId(request, ownerId, call.newId, call.now);
      } else if Find(db, ownerId, request.id).Some?
             && db.items[request.id].version == request.expectedVersion
             && ApplyOperation(db.items[request.id], request, call.now).Success? {
        MutationChangesOneRow(db, ownerId, call, request);
        RowChangeKeepsInvariant(db, Mutate(db, ownerId, call, request).db, request.id, ownerId);
        RowIdentity(db, ownerId, request.id);
        OperationIdentity(db, ownerId, call, request);
      }
    }
  }

  lemma RowIdentity(db: Db, ownerId: string, id: Uuid)
    requires DbInv(db, ownerId) && id in db.items
    ensures db.items[id].id == id && db.items[id].ownerId == ownerId
    ensures StoredInv(db.items[id]) && ItemInv(db.items[id])
  {
    hide ValidLinks, GoalLinkFits, VersionChain;
    assert RowInv(db, ownerId, id);
  }

  /** The invariants of one row and of what hangs on it. */
  lemma RowFacts(db: Db, ownerId: string, id: Uuid)
    requires DbInv(db, ownerId) && id in db.items
    ensures db.items[id].ownerId == ownerId && StoredInv(db.items[id])
    ensures db.items[id].state.Completed? <==> id in db.evidence
    ensures db.items[id].snoozeUntil.None? <==> db.items[id].snoozedFromState.None?
    ensures id in db.links && GoalLinkFits(db.items[id].trigger, LinkInputs(db.links[id]))
    ensures VersionChain(EventsOf(db.events, id), db.items[id].version)
  {
    hide ValidLinks, GoalLinkFits, VersionChain;
    assert RowInv(db, ownerId, id);
  }

  lemma OperationIdentity(db: Db, ownerId: string, call: Call, request: Request)
    requires DbInv(db, ownerId) && !request.AddRequest? && ValidRequest(request) && NormalizedRequest(request)
    requires request.id in db.items && ApplyOperation(db.items[request.id], request, call.now).Success?
    ensures ApplyOperation(db.items[request.id], request, call.now).value.item.id == request.id
  {
    hide ItemInv, ApplyOperation, ValidRequest, NormalizedRequest;
    RowIdentity(db, ownerId, request.id);
    OperationKeepsInvariant(db.items[request.id], request, call.now);
  }

  /** One more version at the end of an item's history. */
  lemma HistoryGrows(h: seq<Version>, row: Item, v: Version, ownerId: string)
    requires ItemHistory(h, row, ownerId) && Derives(row, v)
    requires v.item.version == row.version + 1 && StoredInv(v.item)
    ensures ItemHistory(h + [v], v.item, ownerId)
  {
    hide StoredInv, Derives, IsCreation;
  }

  lemma SnapshotsSurvive(w: World, after: World)
    requires SnapshotInv(w) && after.snapshots == w.snapshots
    requires forall id :: id in w.history ==> id in after.history && w.history[id] <= after.history[id]
    ensures SnapshotInv(after)
  {
  }

  lemma SnapshotOf(w: World, s: Item)
    requires SnapshotInv(w) && s in w.snapshots
    ensures s.id in w.history && 1 <= s.version <= |w.history[s.id]|
    ensures w.history[s.id][s.version - 1].item == s
  {
  }

  lemma HistoryOf(w: World, ownerId: string, id: Uuid)
    requires HistoryInv(w, ownerId) && (id in w.history || id in w.db.items)
    ensures id in w.history && id in w.db.items && ItemHistory(w.history[id], w.db.items[id], ownerId)
  {
  }

  lemma HistoryKeys(w: World, ownerId: string)
    requires HistoryInv(w, ownerId)
    ensures w.history.Keys == w.db.items.Keys
  {
  }

  lemma VersionOf(h: seq<Version>, row: Item, ownerId: string, k: nat)
    requires ItemHistory(h, row, ownerId) && k < |h|
    ensures |h| == row.version && h[row.version - 1].item == row
    ensures h[k].item.version == k + 1 && StoredInv(h[k].item) && ItemInv(h[k].item)
  {
    hide ItemInv, Derives, IsCreation;
  }

  /** The histories after one row got one more version. */
  lemma HistoryUpdated(w: World, after: World, id: Uuid, ownerId: string)
    requires HistoryInv(w, ownerId)
    requires id in after.history && id in after.db.items
    requires after.history == w.history[id := after.history[id]]
    requires after.db.items == w.db.items[id := after.db.items[id]]
    requires ItemHistory(after.history[id], after.db.items[id], ownerId)
    ensures HistoryInv(after, ownerId)
  {
    hide ItemHistory;
  }

  /** A snapshot whose version is still current is the current row: nothing was lost between reading
      and committing it. */
  lemma CurrentSnapshotIsRow(w: World, ownerId: string, s: Item)
    requires WorldInv(w, ownerId) && s in w.snapshots
    ensures s.id in w.db.items && s.version <= w.db.items[s.id].version && ItemInv(s) && s.ownerId == ownerId
    ensures s.version == w.db.items[s.id].version ==> w.db.items[s.id] == s
  {
    hide ItemInv, ItemHistory, DbInv, SnapshotInv, HistoryInv;
    SnapshotOf(w, s);
    HistoryOf(w, ownerId, s.id);
    VersionOf(w.history[s.id], w.db.items[s.id], ownerId, s.version - 1);
    HistoryKeepsOwner(w.history[s.id], w.db.items[s.id], ownerId, s.version - 1);
  }

  lemma {:induction false} HistoryKeepsOwner(h: seq<Version>, row: Item, ownerId: string, k: nat)
    requires ItemHistory(h, row, ownerId) && k < |h|
    ensures h[k].item.ownerId == ownerId
  {
    hide ItemInv, ApplyOperation, Candidate;
    if k > 0 {
      HistoryKeepsOwner(h, row, ownerId, k - 1);
      assert Derives(h[k - 1].item, h[k]);
    } else {
      assert IsCreation(h[0], ownerId);
    }
  }

  lemma CallKeepsInvariant(w: World, ownerId: string, call: Call)
    requires WorldInv(w, ownerId)
    ensures WorldInv(Next(w, ownerId, CallTool(call)), ownerId)
  {
    hide ItemInv, DbInv, Execute, Stored, NewItem, UpdatedRow, ApplyOperation, Normalize, Remember, ItemHistory,
      HistoryInv, SnapshotInv, StoredInv, ValidLinks, GoalLinkFits, Appends, ValidRequest, NormalizedRequest;
    ExecuteOutcome(w.db, ownerId, call);
    var after := Next(w, ownerId, CallTool(call));
    if CallWrites(w.db, ownerId, call) {
      var request := Normalize(call.request);
      var id := if request.AddRequest? then call.newId else request.id;
      var row := after.db.items[id];
      RowIdentity(after.db, ownerId, id);
      var v := after.history[id][|after.history[id]| - 1];
      if request.AddRequest? {
        assert v == Version(row, CreatedBy(call));
        NewItemId(request, ownerId, id, call.now);
        FirstVersion(v, row, ownerId, request, call);
        HistoryKeys(w, ownerId);
        assert after.history[id] == [v];
      } else {
        assert v == Version(row, MutatedBy(request, call.now));
        HistoryOf(w, ownerId, id);
        HistoryGrows(w.history[id], w.db.items[id], v, ownerId);
      }
      HistoryUpdated(w, after, id, ownerId);
      SnapshotsSurvive(w, after);
    } else {
      assert after == w;
    }
  }

  lemma FirstVersion(v: Version, row: Item, ownerId: string, request: Request, call: Call)
    requires request == Normalize(call.request) && request.AddRequest? && ValidRequest(request)
    requires v == Version(row, CreatedBy(call)) && StoredInv(row)
    requires row == Stored(NewItem(request, ownerId, row.id, call.now))
    ensures ItemHistory([v], row, ownerId)
  {
    hide ItemInv, Normalize, ValidRequest;
  }

  lemma ReadKeepsInvariant(w: World, ownerId: string, id: Uuid)
    requires WorldInv(w, ownerId)
    ensures WorldInv(Next(w, ownerId, ReadSnapshot(id)), ownerId)
  {
    hide ItemInv, DbInv, ItemHistory;
    if id in w.db.items {
      RowIdentity(w.db, ownerId, id);
      HistoryOf(w, ownerId, id);
      VersionOf(w.history[id], w.db.items[id], ownerId, 0);
    }
  }

  lemma CommitKeepsInvariant(w: World, ownerId: string, prior: Item, e: Evaluating)
    requires WorldInv(w, ownerId)
    ensures WorldInv(Next(w, ownerId, CommitSnapshot(prior, e)), ownerId)
  {
    hide ItemInv, DbInv, UpdatedRow, Candidate, PersistEvaluated, ItemHistory, HistoryInv, SnapshotInv, StoredInv,
      ValidLinks, GoalLinkFits, Appends;
    var after := Next(w, ownerId, CommitSnapshot(prior, e));
    if after != w {
      CurrentSnapshotIsRow(w, ownerId, prior);
      LateCommitIsIgnored(w, ownerId, prior, e);
      CommitChangesOneRow(w.db, ownerId, prior, e);
      CandidateKeeps(prior, e);
      RowChangeKeepsInvariant(w.db, after.db, prior.id, ownerId);
      RowIdentity(after.db, ownerId, prior.id);
      var v := Version(after.db.items[prior.id], EvaluatedBy(e));
      HistoryOf(w, ownerId, prior.id);
      HistoryGrows(w.history[prior.id], prior, v, ownerId);
      HistoryUpdated(w, after, prior.id, ownerId);
      SnapshotsSurvive(w, after);
    }
  }

  /** Committing a snapshot the row has moved past changes nothing. */
  lemma LateCommitIsIgnored(w: World, ownerId: string, prior: Item, e: Evaluating)
    requires WorldInv(w, ownerId) && prior in w.snapshots
    ensures prior.id in w.db.items
    ensures w.db.items[prior.id].version != prior.version ==> CommitEvaluation(w.db, prior, e) == w.db
  {
    hide ItemInv, UpdatedRow, ItemHistory;
    CurrentSnapshotIsRow(w, ownerId, prior);
    CandidateKeeps(prior, e);
  }

  lemma {:induction false} RunKeepsInvariant(w: World, ownerId: string, steps: seq<Step>)
    requires WorldInv(w, ownerId)
    ensures WorldInv(Run(w, ownerId, steps), ownerId)
  {
    hide WorldInv, Next;
    if steps != [] {
      var before := Run(w, ownerId, steps[..|steps| - 1]);
      RunKeepsInvariant(w, ownerId, steps[..|steps| - 1]);
      match steps[|steps| - 1]
      case CallTool(call) => CallKeepsInvariant(before, ownerId, call);
      case ReadSnapshot(id) => ReadKeepsInvariant(before, ownerId, id);
      case CommitSnapshot(prior, e) => CommitKeepsInvariant(before, ownerId, prior, e);
    }
  }

  lemma EmptyWorldInvariant(ownerId: string)
    ensures WorldInv(EmptyWorld, ownerId)
  {
  }
}
