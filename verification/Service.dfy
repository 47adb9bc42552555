/** The service as it works: tables that its transactions change step by step, and items that its
    operations change in place (src/remindi/service.rs, src/remindi/repository.rs). Each method is
    proved against the function of Store, Operations or CheckWalk that states its effect. */
module Service {
  import opened Wrappers
  import opened Model
  import opened Lifecycle
  import opened RemindiObject
  import opened Operations
  import opened Evidence
  import opened Store
  import opened StoreRuns
  import opened CheckPages
  import opened CheckWalk
  import opened CheckLaws
  import Drain
  import Recurrence

  // ---------------------------------------------------------------- tables

  class Tables {
    var items: map<Uuid, Item>
    var events: seq<Event>
    var evidence: map<Uuid, CompletionEvidence>
    var idempotency: map<IdempotencyKey, IdempotencyRecord>
    var links: map<Uuid, seq<StoredLink>>

    function Value(): Db
      reads this
    {
      Db(items, events, evidence, idempotency, links)
    }

    constructor (db: Db)
      ensures Value() == db
    {
      items, events, evidence, idempotency, links := db.items, db.events, db.evidence, db.idempotency, db.links;
    }

    /** Undoes a transaction that cannot be committed. */
    method Rollback(saved: Db)
      modifies this
      ensures Value() == saved
    {
      items, events, evidence, idempotency, links :=
        saved.items, saved.events, saved.evidence, saved.idempotency, saved.links;
    }

    /** Other clients' transactions. */
    method LetOthersWrite(db: Db)
      modifies this
      ensures Value() == db
    {
      items, events, evidence, idempotency, links := db.items, db.events, db.evidence, db.idempotency, db.links;
    }

    method Insert(item: Item, newLinks: seq<LinkInput>, now: Instant) returns (ok: bool)
      modifies this`items, this`links
      ensures ok <==> item.id !in old(items) && SchemaChecks(Stored(item))
      ensures ok ==> items == old(items)[item.id := Stored(item)]
                     && links == old(links)[item.id := StoredLinks(newLinks, now)]
      ensures !ok ==> items == old(items) && links == old(links)
    {
      if item.id in items || !SchemaChecks(Stored(item)) {
        return false;
      }
      items := items[item.id := Stored(item)];
      links := links[item.id := StoredLinks(newLinks, now)];
      return true;
    }

    /** UPDATE … WHERE owner_id, id and version match: whether a row was changed, or an error when the
        new row breaks a constraint. */
    method UpdateCas(item: Item, expectedVersion: nat) returns (r: Result<bool, ServiceError>)
      modifies this`items
      ensures !CasMatches(old(Value()), item, expectedVersion) ==> r == Success(false) && items == old(items)
      ensures CasMatches(old(Value()), item, expectedVersion) ==>
        var row := UpdatedRow(old(items)[item.id], item);
        if SchemaChecks(row) then r == Success(true) && items == old(items)[item.id := row]
        else r == Failure(Internal) && items == old(items)
    {
      hide UpdatedRow, SchemaChecks;
      if !CasMatches(Value(), item, expectedVersion) {
        return Success(false);
      }
      var row := UpdatedRow(items[item.id], item);
      if !SchemaChecks(row) {
        return Failure(Internal);
      }
      items := items[item.id := row];
      return Success(true);
    }

    method ReplaceLinks(id: Uuid, newLinks: seq<LinkInput>, now: Instant)
      modifies this`links
      ensures links == old(links)[id := StoredLinks(newLinks, now)]
    {
      links := links[id := StoredLinks(newLinks, now)];
    }

    method InsertEvidence(id: Uuid, row: CompletionEvidence) returns (ok: bool)
      modifies this`evidence
      ensures ok <==> id !in old(evidence)
      ensures evidence == if ok then old(evidence)[id := row] else old(evidence)
    {
      ok := id !in evidence;
      if ok {
        evidence := evidence[id := row];
      }
    }

    method AppendEvent(e: Event)
      modifies this`events
      ensures events == old(events) + [e]
    {
      events := events + [e];
    }

    /** The rows of one change, one after the other. */
    method AppendEvents(id: Uuid, types: seq<EventType>, actor: Actor, at: Instant, prior: Option<nat>, version: nat)
      modifies this`events
      ensures events == old(events) + EventRows(id, types, actor, at, prior, version)
    {
      var k := 0;
      while k < |types|
        invariant 0 <= k <= |types|
        invariant events == old(events) + EventRows(id, types, actor, at, prior, version)[..k]
      {
        AppendEvent(Event(id, types[k], actor, Millis(at), prior, version));
        k := k + 1;
      }
    }

    method InsertIdempotency(key: IdempotencyKey, record: IdempotencyRecord)
      modifies this`idempotency
      ensures idempotency == old(idempotency)[key := record]
    {
      idempotency := idempotency[key := record];
    }
  }

  // ---------------------------------------------------------------- operations in place

  method ChangeTextsInPlace(item: Remindi, r: Request)
    requires r.UpdateRequest?
    modifies item
    ensures item.Value() == old(item.Value()).(
      message := if r.messageChange.Some? then r.messageChange.value else old(item.message),
      instructions := if r.instructionsChange.Some? then r.instructionsChange.value else old(item.instructions))
  {
    if r.messageChange.Some? {
      item.message := r.messageChange.value;
    }
    if r.instructionsChange.Some? {
      item.instructions := r.instructionsChange.value;
    }
  }

  method ChangeFieldsInPlace(item: Remindi, r: Request)
    requires r.UpdateRequest?
    modifies item
    ensures item.Value() == ChangeFields(old(item.Value()), r)
  {
    ChangeTextsInPlace(item, r);
    if r.priorityChange.Some? {
      item.priority := r.priorityChange.value;
    }
    if r.overdueChange.Some? {
      item.overdueAfterSeconds := r.overdueChange.value;
    }
  }

  method ChangeTriggerInPlace(item: Remindi, r: Request, now: Instant) returns (ok: Result<(), ServiceError>)
    requires r.UpdateRequest?
    modifies item
    ensures match ChangeTrigger(old(item.Value()), r, now)
            case Failure(e) => ok == Failure(e)
            case Success(i) => ok == Success(()) && item.Value() == i
  {
    if r.triggerChange.None? {
      return Success(());
    }
    var trigger := r.triggerChange.value;
    var replaced := item.Replace(trigger, InitialNextFireAt(trigger, now), now);
    if replaced.Failure? {
      return Failure(MapDomain(replaced.error));
    }
    item.nextEvaluationAt := InitialNextEvaluationAt(trigger, now);
    return Success(());
  }

  method ChangeRecurrenceInPlace(item: Remindi, r: Request) returns (ok: Result<(), ServiceError>)
    requires r.UpdateRequest?
    modifies item
    ensures match ChangeRecurrence(old(item.Value()), r)
            case Failure(e) => ok == Failure(e)
            case Success(i) => ok == Success(()) && item.Value() == i
  {
    if r.recurrenceChange.Some? {
      item.recurrence := r.recurrenceChange.value;
    }
    if item.recurrence.Some? {
      var invalid := Recurrence.ValidateForTrigger(item.recurrence.value, item.trigger);
      if invalid.Some? {
        return Failure(MapDomain(invalid.value));
      }
    }
    return Success(());
  }

  method AdvanceInPlace(item: Remindi, disposition: OccurrenceDisposition, now: Instant)
    returns (ok: Result<(), ServiceError>)
    modifies item
    ensures match AdvanceOccurrence(old(item.Value()), disposition, now)
            case Failure(e) => ok == Failure(e)
            case Success(i) => ok == Success(()) && item.Value() == i
  {
    if item.recurrence.None? || item.nextFireAt.None? {
      return Failure(InvalidState);
    }
    hide Recurrence.AdvanceSpec;
    var advance := Recurrence.Advance(
      item.recurrence.value, item.nextFireAt.value, item.occurrenceNo, now, disposition);
    if advance.Failure? {
      return Failure(MapDomain(advance.error));
    }
    MoveAnchor(item, advance.value.nextFireAt, advance.value.occurrenceNo);
    item.dueSince := None;
    item.state := Scheduled;
    return Success(());
  }

  method MoveAnchor(item: Remindi, fireAt: Instant, occurrenceNo: nat)
    modifies item
    ensures item.Value() == old(item.Value()).(
      nextFireAt := Some(fireAt), originalNextFireAt := Some(fireAt), occurrenceNo := occurrenceNo)
  {
    item.nextFireAt := Some(fireAt);
    item.originalNextFireAt := Some(fireAt);
    item.occurrenceNo := occurrenceNo;
  }

  method BumpInPlace(item: Remindi, priorVersion: nat, now: Instant)
    modifies item
    ensures item.Value() == BumpOnce(old(item.Value()), priorVersion, now)
  {
    if item.version == priorVersion {
      item.version := item.version + 1;
      item.updatedAt := now;
    }
  }

  /** The closure of an update. */
  method UpdateInPlace(item: Remindi, r: Request, now: Instant) returns (res: Result<Applied, ServiceError>)
    requires r.UpdateRequest?
    modifies item
    ensures res == ApplyUpdate(old(item.Value()), r, now)
    ensures res.Success? ==> item.Value() == res.value.item
  {
    hide ChangeFields, ChangeTrigger, ChangeRecurrence, AdvanceOccurrence, BumpOnce, GoalLinkFits;
    if item.state.IsTerminal() {
      return Failure(InvalidState);
    }
    if r.occurrenceDisposition.Some? && !item.state.IsReady() {
      return Failure(InvalidState);
    }
    var priorVersion := item.version;
    ChangeFieldsInPlace(item, r);
    var ok := ChangeTriggerInPlace(item, r, now);
    if ok.Failure? {
      return Failure(ok.error);
    }
    ok := ChangeRecurrenceInPlace(item, r);
    if ok.Failure? {
      return Failure(ok.error);
    }
    if r.occurrenceDisposition.Some? {
      ok := AdvanceInPlace(item, r.occurrenceDisposition.value, now);
      if ok.Failure? {
        return Failure(ok.error);
      }
    }
    BumpInPlace(item, priorVersion, now);
    if r.linksChange.Some? && !GoalLinkFits(item.trigger, r.linksChange.value) {
      return Failure(Validation);
    }
    return Success(Applied(
      item.Value(), if r.occurrenceDisposition.Some? then OccurrenceAdvanced else UpdatedEvent, None, r.linksChange));
  }

  /** What a mutation does to the item it was given. */
  method OperateInPlace(item: Remindi, r: Request, now: Instant) returns (res: Result<Applied, ServiceError>)
    requires !r.AddRequest?
    modifies item
    ensures res == ApplyOperation(old(item.Value()), r, now)
    ensures res.Success? ==> item.Value() == res.value.item
  {
    hide ApplyUpdate, CompleteItem, SnoozeItem, CancelItem;
    if r.UpdateRequest? {
      res := UpdateInPlace(item, r, now);
      return;
    }
    var done;
    if r.CompleteRequest? {
      done := item.Complete(ValidatedEvidence(r.evidence).summary, now);
    } else if r.SnoozeRequest? {
      done := item.Snooze(r.snoozeUntil, r.reason, now);
    } else {
      done := item.Cancel(r.reason, now);
    }
    if done.Failure? {
      return Failure(MapDomain(done.error));
    }
    var evidence := if r.CompleteRequest? then Some(ValidatedEvidence(r.evidence)) else None;
    return Success(Applied(item.Value(), done.value, evidence, None));
  }

  // ---------------------------------------------------------------- the service

  class RemindiService {
    const ownerId: string
    const tables: Tables

    constructor (ownerId: string, tables: Tables)
      ensures this.ownerId == ownerId && this.tables == tables
    {
      this.ownerId, this.tables := ownerId, tables;
    }

    /** One mutating tool call. */
    method Call(call: Call) returns (r: Result<Item, ServiceError>)
      modifies tables
      ensures Outcome(tables.Value(), r) == Execute(old(tables.Value()), ownerId, call)
    {
      hide ValidRequest, TimelyRequest, Normalize, Store.Add, Store.Mutate, Replay;
      var request := Normalize(call.request);
      if Blank(call.actor.actorId) || !ValidRequest(request) || !TimelyRequest(request, call.limits, call.now) {
        return Failure(Validation);
      }
      if KeyOf(call) in tables.idempotency {
        return Replay(tables.idempotency[KeyOf(call)], request);
      }
      if request.AddRequest? {
        r := Add(call, request);
      } else {
        r := Mutate(call, request);
      }
    }

    method Add(call: Call, request: Request) returns (r: Result<Item, ServiceError>)
      requires request.AddRequest?
      modifies tables
      ensures Outcome(tables.Value(), r) == Store.Add(old(tables.Value()), ownerId, call, request)
    {
      hide NewItem, Stored, SchemaChecks;
      var item := NewItem(request, ownerId, call.newId, call.now);
      var ok := tables.Insert(item, request.newLinks, call.now);
      if !ok {
        return Failure(Internal);
      }
      tables.AppendEvents(item.id, [CreatedEvent], call.actor, call.eventNow, None, 1);
      tables.InsertIdempotency(KeyOf(call), IdempotencyRecord(request, item, Millis(call.transactionNow)));
      return Success(item);
    }

    /** Find, compare the version, operate, and write everything or nothing. */
    method Mutate(call: Call, request: Request) returns (r: Result<Item, ServiceError>)
      requires !request.AddRequest?
      modifies tables
      ensures Outcome(tables.Value(), r) == Store.Mutate(old(tables.Value()), ownerId, call, request)
    {
      hide ApplyOperation, WriteMutation, Remindi.Value;
      var found := Find(tables.Value(), ownerId, request.id);
      if found.None? {
        return Failure(NotFound);
      }
      var prior := found.value;
      if prior.version != request.expectedVersion {
        return Failure(VersionConflict(prior.version));
      }
      var item := new Remindi(prior);
      var applied := OperateInPlace(item, request, call.now);
      if applied.Failure? {
        return Failure(applied.error);
      }
      if !CasMatches(tables.Value(), applied.value.item, prior.version) {
        return Failure(VersionConflict(prior.version));
      }
      r := Write(call, request, prior, applied.value);
    }

    method Write(call: Call, request: Request, prior: Item, applied: Applied) returns (r: Result<Item, ServiceError>)
      requires CasMatches(tables.Value(), applied.item, prior.version)
      modifies tables
      ensures Outcome(tables.Value(), r) == WriteMutation(old(tables.Value()), call, request, prior, applied)
    {
      hide UpdatedRow, SchemaChecks;
      var saved := tables.Value();
      var item := applied.item;
      var updated := tables.UpdateCas(item, prior.version);
      if updated.Failure? {
        return Failure(Internal);
      }
      if applied.links.Some? {
        tables.ReplaceLinks(item.id, applied.links.value, call.now);
      }
      if applied.evidence.Some? {
        var inserted := tables.InsertEvidence(
          item.id, EvidenceRow(applied.evidence.value, call.transactionNow, call.actor.actorId));
        if !inserted {
          tables.Rollback(saved);
          return Failure(Internal);
        }
      }
      tables.AppendEvents(item.id, [applied.eventType], call.actor, call.eventNow, Some(prior.version), item.version);
      tables.InsertIdempotency(KeyOf(call), IdempotencyRecord(request, item, Millis(call.transactionNow)));
      return Success(item);
    }

    /** Commits an evaluated snapshot, unless its row has moved on; says whether it did. */
    method Persist(prior: Item, candidate: Item, types: seq<EventType>, e: Evaluating) returns (written: bool)
      modifies tables
      ensures tables.Value() == PersistEvaluated(old(tables.Value()), prior, candidate, types, e)
      ensures written <==> Persists(old(tables.Value()), prior, candidate)
      ensures !written ==> tables.Value() == old(tables.Value())
    {
      hide UpdatedRow, SchemaChecks;
      var updated := tables.UpdateCas(candidate, prior.version);
      if updated != Success(true) {
        return false;
      }
      tables.AppendEvents(candidate.id, types, e.actor, e.eventNow, Some(prior.version), candidate.version);
      return true;
    }

    /** Evaluates a snapshot and commits the outcome: what the scheduler does with each candidate. */
    method EvaluateOne(prior: Item, e: Evaluating) returns (r: Result<(), DomainError>)
      modifies tables
      ensures tables.Value() == CommitEvaluation(old(tables.Value()), prior, e)
      ensures r.Success? <==> Evaluate(prior, e.now, e.context, e.condition).Success?
    {
      hide Evaluate, PersistEvaluated, SchemaChecks, UpdatedRow;
      var item := new Remindi(prior);
      var result := item.EvaluateInPlace(e.now, e.context, e.condition);
      if result.Failure? {
        return Failure(result.error);
      }
      if e.condition.Evaluated? {
        item.lastConditionDetail := e.detail;
      }
      var (readiness, types) := result.value;
      if types == [] {
        return Success(());
      }
      BumpInPlace(item, prior.version, e.now);
      var written := Persist(prior, item.Value(), types, e);
      return Success(());
    }

    /** The rows a condition selects, each once, in some order. */
    method SelectRows(selects: Item -> bool) returns (rows: seq<Item>)
      requires KeyedById(tables.Value())
      ensures Lists(rows, set id | id in tables.items && selects(tables.items[id]) :: tables.items[id])
      ensures forall i :: i in rows <==> i.id in tables.items && tables.items[i.id] == i && selects(i)
      ensures forall j, k :: 0 <= j < k < |rows| ==> rows[j].id != rows[k].id
    {
      var ids := tables.items.Keys;
      rows := [];
      while ids != {}
        invariant ids <= tables.items.Keys
        invariant forall i :: i in rows <==>
          i.id in tables.items && i.id !in ids && tables.items[i.id] == i && selects(i)
        invariant forall j, k :: 0 <= j < k < |rows| ==> rows[j].id != rows[k].id
        decreases ids
      {
        var id :| id in ids;
        ids := ids - {id};
        if selects(tables.items[id]) {
          rows := rows + [tables.items[id]];
        }
      }
    }

    /** The candidate query of a check. */
    method CheckCandidates(call: CheckCall) returns (rows: seq<Item>)
      requires KeyedById(tables.Value())
      ensures IsCandidateList(
        tables.Value(), ownerId, call.query, call.now, call.includeScheduled, rows)
    {
      var q, now := call.query, call.now;
      if call.includeScheduled {
        rows := SelectRows((i: Item) => InScope(i, ownerId, q) && !i.state.IsTerminal());
        return;
      }
      var a := SelectRows((i: Item) => InScope(i, ownerId, q) && InBranch(i, 0, now));
      var b := SelectRows((i: Item) => InScope(i, ownerId, q) && InBranch(i, 1, now));
      var c := SelectRows((i: Item) => InScope(i, ownerId, q) && InBranch(i, 2, now));
      var d := SelectRows((i: Item) => InScope(i, ownerId, q) && InBranch(i, 3, now));
      hide InScope, InBranch, Lists;
      rows := a + b + c + d;
      assert Lists(a, BranchRows(tables.Value(), ownerId, q, now, 0));
    }

    /** Evaluates every candidate on a copy of its row. */
    method Previews(rows: seq<Item>, now: Instant, context: CheckContext) returns (ready: seq<ReadyEntry>)
      requires forall i :: i in rows ==> Evaluate(i, now, context, NotEvaluated).Success?
      ensures ready == ReadyFrom(rows, now, context)
    {
      hide Evaluate;
      ready := [];
      var k := 0;
      while k < |rows|
        invariant 0 <= k <= |rows|
        invariant ready == ReadyFrom(rows[..k], now, context)
      {
        var row := rows[k];
        assert row in rows;
        var preview := new Remindi(row);
        var result := preview.EvaluateInPlace(now, context, NotEvaluated);
        var (readiness, types) := result.value;
        if readiness.Some? {
          ready := ready + [ReadyEntry(row, CheckedItem(preview.Value(), readiness.value), types)];
        }
        assert rows[..k + 1][..k] == rows[..k];
        k := k + 1;
      }
      assert rows[..k] == rows;
    }

    /** Stores the evaluated entries of a page, one after the other. */
    method CommitPage(page: seq<ReadyEntry>, call: CheckCall) returns (items: seq<CheckedItem>)
      modifies tables
      ensures (tables.Value(), items) == CommitEntries(old(tables.Value()), page, call)
    {
      hide Persists, PersistEvaluated;
      items := [];
      var k := 0;
      while k < |page|
        invariant 0 <= k <= |page|
        invariant (tables.Value(), items) == CommitEntries(old(tables.Value()), page[..k], call)
      {
        var e := page[k];
        if e.events == [] {
          items := items + [CheckedItem(e.prior, e.checked.readiness)];
        } else {
          var written := Persist(e.prior, e.checked.remindi, e.events, EvaluatingOf(call));
          if written {
            items := items + [e.checked];
          }
        }
        assert page[..k + 1][..k] == page[..k];
        k := k + 1;
      }
      assert page[..k] == page;
    }

    /** A readiness check. Its query and its commit are two transactions: `meanwhile` is what other
        clients have made of the tables in between, if they wrote at all. */
    method Check(call: CheckCall, meanwhile: Option<Db>)
      returns (r: Result<(seq<CheckedItem>, Option<CheckCursor>), ServiceError>, ghost rows: seq<Item>)
      requires DbInv(tables.Value(), ownerId)
      modifies tables
      ensures call.limit > 200 <==> r == Failure(Validation)
      ensures r.Success? ==>
        InOrder(r.value.0) && |r.value.0| <= if call.limit == 0 then 50 else call.limit
      ensures match PageLimit(call.limit, 50)
              case Failure(e) => r == Failure(e) && tables.Value() == old(tables.Value())
              case Success(limit) =>
                && IsCandidateList(
                     old(tables.Value()), ownerId, call.query, call.now, call.includeScheduled, rows)
                && limit > 0
                && var found := if meanwhile.Some? then meanwhile.value else old(tables.Value());
                   var page := CommitEntries(found, Cut(Remaining(rows, call), limit), call);
                   && tables.Value() == page.0
                   && r == Success((page.1, NextCursor(Remaining(rows, call), limit)))
                   && (meanwhile.None? ==>
                         Page(tables.Value(), r.value.0, r.value.1)
                         == ServePage(old(tables.Value()), rows, call, limit))
    {
      rows := [];
      var limit := PageLimit(call.limit, 50);
      if limit.Failure? {
        return Failure(limit.error), rows;
      }
      hide DbInv, IsCandidateList, Evaluate, SortReady, Retain, CommitEntries, ReadyFrom, CursorOf, InOrder;
      DbIsKeyed(tables.Value(), ownerId);
      var candidates := CheckCandidates(call);
      rows := candidates;
      CandidatesEvaluate(tables.Value(), ownerId, call, candidates);
      var ready := Previews(candidates, call.now, call.query.context);
      ready := SortReady(ready);
      ready := Retain(ready, call.cursor);
      var page := Cut(ready, limit.value);
      var next := NextCursor(ready, limit.value);
      PageIsInOrder(
        tables.Value(), ownerId, candidates, call, limit.value,
        if meanwhile.Some? then meanwhile.value else tables.Value());
      if meanwhile.Some? {
        tables.LetOthersWrite(meanwhile.value);
      }
      if forall k :: 0 <= k < |page| ==> page[k].events == [] {
        NothingToCommit(tables.Value(), page, call);
        return Success((ShownAll(page), next)), rows;
      }
      var items := CommitPage(page, call);
      return Success((items, next)), rows;
    }

    /** The scheduler's candidates, as many as the batch allows. */
    method SchedulerCandidates(now: Instant, limit: nat) returns (rows: seq<Item>)
      requires KeyedById(tables.Value())
      ensures Drain.IsBatch(tables.Value(), now, limit, rows)
    {
      hide Drain.Selects;
      rows := SelectRows((i: Item) => Drain.Selects(i, now));
      if |rows| > limit {
        rows := rows[..limit];
      }
    }
  }

  predicate KeyedById(db: Db) {
    forall id :: id in db.items ==> db.items[id].id == id
  }

  lemma DbIsKeyed(db: Db, ownerId: string)
    requires DbInv(db, ownerId)
    ensures KeyedById(db)
  {
    hide DbInv;
    forall id | id in db.items ensures db.items[id].id == id {
      RowIdentity(db, ownerId, id);
    }
  }

  lemma CandidatesEvaluate(db: Db, ownerId: string, call: CheckCall, rows: seq<Item>)
    requires DbInv(db, ownerId)
    requires IsCandidateList(db, ownerId, call.query, call.now, call.includeScheduled, rows)
    ensures forall i :: i in rows ==> Evaluate(i, call.now, call.query.context, NotEvaluated).Success?
  {
    hide DbInv, IsCandidateList, Evaluate;
    forall i | i in rows ensures Evaluate(i, call.now, call.query.context, NotEvaluated).Success? {
      CandidatesAreChosen(db, ownerId, call.query, call.now, call.includeScheduled, rows, i);
      RowIdentity(db, ownerId, i.id);
      EvaluationKeepsInvariant(i, call.now, call.query.context, NotEvaluated);
    }
  }

  lemma {:induction false} NothingToCommit(db: Db, page: seq<ReadyEntry>, call: CheckCall)
    requires forall k :: 0 <= k < |page| ==> page[k].events == []
    ensures CommitEntries(db, page, call) == (db, ShownAll(page))
  {
    if page == [] {
      assert ShownAll(page) == [];
    } else {
      var init, entry := page[..|page| - 1], page[|page| - 1];
      NothingToCommit(db, init, call);
      assert CommitEntries(db, page, call) == CommitEntry((db, ShownAll(init)), entry, call);
      assert ShownAll(page) == ShownAll(init) + [Shown(entry)];
    }
  }
}
