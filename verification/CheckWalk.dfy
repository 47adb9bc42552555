/** The pages of a readiness check and the walk along its cursors. Serving a page stores the new
    state of every item on it, so the walk reads data it changes itself
    (src/remindi/service.rs, `check`). */
module CheckWalk {
  import opened Wrappers
  import opened Model
  import opened Lifecycle
  import opened Operations
  import opened Store
  import opened StoreRuns
  import opened CheckPages

  // ---------------------------------------------------------------- one page

  datatype CheckCall = CheckCall(
    actor: Actor,
    query: CheckQuery,
    includeScheduled: bool,
    limit: nat,
    cursor: Option<CheckCursor>,
    now: Instant,
    eventNow: Instant)

  datatype Page = Page(db: Db, items: seq<CheckedItem>, next: Option<CheckCursor>)

  /** Zero asks for the default; more than 200 is refused. */
  function PageLimit(value: nat, default_: nat): Result<nat, ServiceError> {
    var limit := if value == 0 then default_ else value;
    if limit <= 200 then Success(limit) else Failure(Validation)
  }

  /** The entries after a cursor, in their order. */
  function Retain(s: seq<ReadyEntry>, cursor: Option<CheckCursor>): seq<ReadyEntry> {
    if cursor.None? || s == [] then s
    else (if AfterCursor(s[0].checked, cursor.value) then [s[0]] else []) + Retain(s[1..], cursor)
  }

  /** Everything a check could still show, before it is cut to a page. */
  function Remaining(rows: seq<Item>, call: CheckCall): seq<ReadyEntry> {
    Retain(SortReady(ReadyFrom(rows, call.now, call.query.context)), call.cursor)
  }

  function Cut(s: seq<ReadyEntry>, limit: nat): seq<ReadyEntry> {
    if |s| <= limit then s else s[..limit]
  }

  function NextCursor(s: seq<ReadyEntry>, limit: nat): Option<CheckCursor>
    requires limit > 0
  {
    if |s| > limit then Some(CursorOf(s[limit - 1].checked)) else None
  }

  /** What a check does to one entry of its page: an entry without events is shown as stored; one
      with events is stored unless its row has moved on, and then shown as evaluated. */
  function CommitEntry(page: (Db, seq<CheckedItem>), e: ReadyEntry, call: CheckCall): (Db, seq<CheckedItem>) {
    if e.events == [] then (page.0, page.1 + [CheckedItem(e.prior, e.checked.readiness)])
    else if Persists(page.0, e.prior, e.checked.remindi) then
      (PersistEvaluated(page.0, e.prior, e.checked.remindi, e.events, EvaluatingOf(call)), page.1 + [e.checked])
    else page
  }

  function EvaluatingOf(call: CheckCall): Evaluating {
    Evaluating(call.actor, call.now, call.query.context, NotEvaluated, None, call.eventNow)
  }

  function CommitEntries(db: Db, entries: seq<ReadyEntry>, call: CheckCall): (Db, seq<CheckedItem>) {
    if entries == [] then (db, [])
    else CommitEntry(CommitEntries(db, entries[..|entries| - 1], call), entries[|entries| - 1], call)
  }

  /** A check with no writer between its query and its commit. */
  function ServePage(db: Db, rows: seq<Item>, call: CheckCall, limit: nat): Page
    requires limit > 0
  {
    var s := Remaining(rows, call);
    var (after, items) := CommitEntries(db, Cut(s, limit), call);
    Page(after, items, NextCursor(s, limit))
  }

  // ---------------------------------------------------------------- commits are steps of a run

  /** The commits of a page, as steps of a run. */
  function CommitSteps(entries: seq<ReadyEntry>, call: CheckCall): seq<Step> {
    seq(|entries|, k requires 0 <= k < |entries| => CommitSnapshot(entries[k].prior, EvaluatingOf(call)))
  }

  /** The evaluation a check commits is the one a snapshot commit computes. */
  lemma EntryIsCandidate(row: Item, call: CheckCall)
    requires StoredInv(row) && EntryOf(row, call.now, call.query.context).Some?
    ensures
      var e := EntryOf(row, call.now, call.query.context).value;
      && e.prior == row
      && Candidate(row, EvaluatingOf(call)) == if e.events == [] then None else Some((e.checked.remindi, e.events))
  {
    EvaluationKeepsInvariant(row, call.now, call.query.context, NotEvaluated);
    hide ItemInv;
  }

  /** Committing a page of snapshots, however late and whatever was written in between, is a run of
      snapshot commits; so it keeps every invariant of the store. */
  lemma {:induction false} PageCommitIsRun(w: World, ownerId: string, entries: seq<ReadyEntry>, call: CheckCall)
    requires WorldInv(w, ownerId)
    requires forall e :: e in entries ==> e.prior in w.snapshots
    requires forall e :: e in entries ==> EntryOf(e.prior, call.now, call.query.context) == Some(e)
    ensures CommitEntries(w.db, entries, call).0 == Run(w, ownerId, CommitSteps(entries, call)).db
    ensures Run(w, ownerId, CommitSteps(entries, call)).snapshots == w.snapshots
    ensures WorldInv(Run(w, ownerId, CommitSteps(entries, call)), ownerId)
  {
    hide WorldInv, Next, EntryOf, CommitEntry;
    if entries != [] {
      var init, last := entries[..|entries| - 1], entries[|entries| - 1];
      PageCommitIsRun(w, ownerId, init, call);
      var steps := CommitSteps(entries, call);
      assert steps[..|steps| - 1] == CommitSteps(init, call);
      assert steps[|steps| - 1] == CommitSnapshot(last.prior, EvaluatingOf(call));
      var before := Run(w, ownerId, CommitSteps(init, call));
      assert last.prior in before.snapshots;
      EntryCommitIsStep(before, ownerId, last, call, CommitEntries(w.db, init, call).1);
      CommitKeepsInvariant(before, ownerId, last.prior, EvaluatingOf(call));
    }
  }

  lemma EntryCommitIsStep(w: World, ownerId: string, e: ReadyEntry, call: CheckCall, items: seq<CheckedItem>)
    requires WorldInv(w, ownerId) && e.prior in w.snapshots
    requires EntryOf(e.prior, call.now, call.query.context) == Some(e)
    ensures
      var after := Next(w, ownerId, CommitSnapshot(e.prior, EvaluatingOf(call)));
      CommitEntry((w.db, items), e, call).0 == after.db && after.snapshots == w.snapshots
  {
    hide DbInv, HistoryInv, SnapshotInv, StoredInv, ItemInv, EntryOf, Candidate, UpdatedRow, EvaluatingOf, SchemaChecks,
      CommitEntry;
    SnapshotIsStored(w, ownerId, e.prior);
    CurrentSnapshotIsRow(w, ownerId, e.prior);
    EntryCommitIsEvaluation(w.db, e, call, items);
  }

  lemma EntryCommitIsEvaluation(db: Db, e: ReadyEntry, call: CheckCall, items: seq<CheckedItem>)
    requires StoredInv(e.prior) && EntryOf(e.prior, call.now, call.query.context) == Some(e)
    ensures CommitEntry((db, items), e, call).0 == CommitEvaluation(db, e.prior, EvaluatingOf(call))
  {
    hide StoredInv, ItemInv, EntryOf, Candidate, UpdatedRow, EvaluatingOf, SchemaChecks;
    EntryIsCandidate(e.prior, call);
  }

  lemma SnapshotIsStored(w: World, ownerId: string, s: Item)
    requires WorldInv(w, ownerId) && s in w.snapshots
    ensures StoredInv(s)
  {
    hide DbInv, SnapshotInv, HistoryInv, StoredInv, ItemHistory;
    SnapshotOf(w, s);
    HistoryOf(w, ownerId, s.id);
    VersionOf(w.history[s.id], w.db.items[s.id], ownerId, s.version - 1);
  }

  // ---------------------------------------------------------------- what serving a page changes

  /** The entry is what evaluating its row as it stands gives. */
  predicate Current(db: Db, e: ReadyEntry, call: CheckCall) {
    && e.checked.remindi.id in db.items
    && EntryOf(db.items[e.checked.remindi.id], call.now, call.query.context) == Some(e)
  }

  /** The row of an entry once its page was served. */
  function RowAfter(e: ReadyEntry): Item {
    if e.events == [] then e.prior else UpdatedRow(e.prior, e.checked.remindi)
  }

  function Shown(e: ReadyEntry): CheckedItem {
    if e.events == [] then CheckedItem(e.prior, e.checked.readiness) else e.checked
  }

  function ShownAll(entries: seq<ReadyEntry>): seq<CheckedItem> {
    seq(|entries|, k requires 0 <= k < |entries| => Shown(entries[k]))
  }

  lemma CommitEntryEffect(db: Db, ownerId: string, e: ReadyEntry, call: CheckCall, items: seq<CheckedItem>)
    requires DbInv(db, ownerId) && Current(db, e, call)
    ensures
      var (after, shown) := CommitEntry((db, items), e, call);
      && DbInv(after, ownerId)
      && after.items == db.items[e.checked.remindi.id := RowAfter(e)]
      && shown == items + [Shown(e)]
  {
    hide DbInv, StoredInv, ItemInv, EntryOf, Candidate, UpdatedRow, EvaluatingOf, SchemaChecks;
    var id := e.checked.remindi.id;
    RowIdentity(db, ownerId, id);
    EntryFields(db.items[id], call.now, call.query.context);
    EntryIsCandidate(db.items[id], call);
    if e.events != [] {
      StoredIsInvariant(e.prior);
      CandidateKeeps(e.prior, EvaluatingOf(call));
      UpdatedRowInvariant(e.prior, e.checked.remindi);
      CommitChangesOneRow(db, ownerId, e.prior, EvaluatingOf(call));
      RowChangeKeepsInvariant(db, CommitEvaluation(db, e.prior, EvaluatingOf(call)), id, ownerId);
    } else {
      assert db.items == db.items[id := RowAfter(e)];
    }
  }

  predicate IsServed(entries: seq<ReadyEntry>, id: Uuid) {
    exists e :: e in entries && e.checked.remindi.id == id
  }

  /** The rows of the entries, and no others, were replaced by their evaluated states. */
  ghost predicate Served(db: Db, after: Db, entries: seq<ReadyEntry>) {
    && after.items.Keys == db.items.Keys
    && (forall e :: e in entries ==> HasRow(after, e.checked.remindi.id, RowAfter(e)))
    && (forall id :: id in db.items && !IsServed(entries, id) ==> HasRow(after, id, db.items[id]))
  }

  predicate HasRow(db: Db, id: Uuid, row: Item) {
    id in db.items && db.items[id] == row
  }

  /** Serving a page moves exactly the rows of its entries with events, each to its evaluated state,
      and shows every entry. */
  lemma {:induction false} CommitEntriesEffect(db: Db, ownerId: string, entries: seq<ReadyEntry>, call: CheckCall)
    requires DbInv(db, ownerId) && DistinctIds(entries)
    requires forall e :: e in entries ==> Current(db, e, call)
    ensures
      var (after, shown) := CommitEntries(db, entries, call);
      DbInv(after, ownerId) && shown == ShownAll(entries) && Served(db, after, entries)
  {
    hide DbInv, EntryOf, CommitEntry, RowAfter, Shown;
    if entries != [] {
      var init, last := entries[..|entries| - 1], entries[|entries| - 1];
      CommitEntriesEffect(db, ownerId, init, call);
      var (before, shown) := CommitEntries(db, init, call);
      var id := last.checked.remindi.id;
      assert last in entries;
      assert !IsServed(init, id);
      assert HasRow(before, id, db.items[id]);
      CommitEntryEffect(before, ownerId, last, call, shown);
      assert ShownAll(entries) == ShownAll(init) + [Shown(last)];
      assert entries == init + [last];
      ServedOneMore(db, before, CommitEntries(db, entries, call).0, init, last);
    }
  }

  lemma ServedOneMore(db: Db, before: Db, after: Db, init: seq<ReadyEntry>, last: ReadyEntry)
    requires Served(db, before, init) && !IsServed(init, last.checked.remindi.id)
    requires last.checked.remindi.id in db.items
    requires after.items == before.items[last.checked.remindi.id := RowAfter(last)]
    ensures Served(db, after, init + [last])
  {
    hide RowAfter;
    var entries := init + [last];
    forall e | e in entries ensures HasRow(after, e.checked.remindi.id, RowAfter(e)) {
      if e in init {
        assert HasRow(before, e.checked.remindi.id, RowAfter(e));
      }
    }
    forall id | id in db.items && !IsServed(entries, id) ensures HasRow(after, id, db.items[id]) {
      assert last in entries;
      assert forall e :: e in init ==> e in entries;
      assert HasRow(before, id, db.items[id]);
    }
  }

  /** A row that was shown comes back, at the same time and in the same context, no later in the
      order than it was shown. */
  lemma ServedRowSinksInOrder(row: Item, now: Instant, context: CheckContext)
    requires StoredInv(row) && EntryOf(row, now, context).Some?
    ensures
      var e := EntryOf(row, now, context).value;
      var again := EntryOf(RowAfter(e), now, context);
      && again.Some?
      && ReadinessRank(again.value.checked.readiness) <= ReadinessRank(e.checked.readiness)
      && again.value.checked.remindi.priority == e.checked.remindi.priority
      && again.value.checked.remindi.nextFireAt == e.checked.remindi.nextFireAt
      && again.value.checked.remindi.id == e.checked.remindi.id
  {
    var e := EntryOf(row, now, context).value;
    EvaluationKeepsInvariant(row, now, context, NotEvaluated);
    ReadyComesBackReady(row, now, context);
  }

  lemma ReadyComesBackReady(row: Item, now: Instant, context: CheckContext)
    requires StoredInv(row) && EntryOf(row, now, context).Some?
    ensures
      var e := EntryOf(row, now, context).value;
      var after := RowAfter(e);
      && StoredInv(after) && after.state.IsReady()
      && after.id == row.id && after.priority == row.priority && after.nextFireAt == row.nextFireAt
      && (e.checked.readiness.ReadyOverdue? ==> after.state.Overdue?)
  {
    EvaluationKeepsInvariant(row, now, context, NotEvaluated);
    var e := EntryOf(row, now, context).value;
    UpdatedRowInvariant(row, e.checked.remindi);
  }

  // ---------------------------------------------------------------- cursors cut sorted sequences

  predicate Beyond(e: ReadyEntry, cursor: Option<CheckCursor>) {
    cursor.Some? ==> AfterCursor(e.checked, cursor.value)
  }

  lemma {:induction false} RetainKeeps(s: seq<ReadyEntry>, cursor: Option<CheckCursor>)
    requires Sorted(s)
    ensures Sorted(Retain(s, cursor))
    ensures forall e :: e in Retain(s, cursor) <==> e in s && Beyond(e, cursor)
  {
    hide Before, AfterCursor;
    if cursor.Some? && s != [] {
      RetainKeeps(s[1..], cursor);
      var rest := Retain(s[1..], cursor);
      assert s == [s[0]] + s[1..];
      forall k | 0 <= k < |rest| ensures Before(s[0], rest[k]) {
        assert rest[k] in rest;
        var j :| 0 <= j < |s[1..]| && s[1..][j] == rest[k];
        assert Before(s[0], s[j + 1]);
      }
    }
  }

  /** Of a sorted sequence the entries after the cursor of its `k`-th are those behind it. */
  lemma CursorCuts(s: seq<ReadyEntry>, k: nat, j: nat)
    requires Sorted(s) && j < |s| && k < |s|
    requires forall e :: e in s ==> AlignedOption(e.checked.remindi.nextFireAt)
    ensures AfterCursor(s[j].checked, CursorOf(s[k].checked)) <==> j > k
  {
    hide AfterCursor, CheckOrder;
    CursorAgreesWithOrder(s[k].checked, s[j].checked);
    assert s[k] in s && s[j] in s;
    if j < k {
      BeforeIsStrictTotalOrder(s[j], s[k], s[j]);
      assert Before(s[j], s[k]);
    } else if j == k {
      BeforeIsStrictTotalOrder(s[j], s[k], s[j]);
    }
  }

  lemma AfterCursorIsTransitive(a: CheckedItem, b: CheckedItem, c: CheckCursor)
    requires AfterCursor(a, c) && AfterCursor(b, CursorOf(a))
    ensures AfterCursor(b, c)
  {
  }

  lemma LowerRankIsNotBeyond(a: CheckedItem, b: CheckedItem, c: CheckCursor)
    requires ReadinessRank(b.readiness) <= ReadinessRank(a.readiness)
    requires b.remindi.priority == a.remindi.priority && b.remindi.nextFireAt == a.remindi.nextFireAt
    requires b.remindi.id == a.remindi.id
    ensures AfterCursor(b, c) ==> AfterCursor(a, c)
  {
  }

  // ---------------------------------------------------------------- from one page to the next

  /** The sequence of a check: the ready entries of the scope beyond its cursor, in order. */
  ghost predicate IsRemaining(db: Db, ownerId: string, s: seq<ReadyEntry>, call: CheckCall) {
    && Sorted(s) && DistinctIds(s)
    && (forall e :: e in s <==> e in ReadySet(db, ownerId, call.query, call.now) && Beyond(e, call.cursor))
    && (forall e :: e in s ==> Current(db, e, call) && AlignedOption(e.checked.remindi.nextFireAt))
  }

  /** What a check lists before cutting it to a page. */
  lemma RemainingElements(db: Db, ownerId: string, rows: seq<Item>, call: CheckCall)
    requires DbInv(db, ownerId)
    requires IsCandidateList(db, ownerId, call.query, call.now, call.includeScheduled, rows)
    ensures IsRemaining(db, ownerId, Remaining(rows, call), call)
  {
    hide DbInv, IsCandidateList, EntryOf, Beyond, ReadySet, AfterCursor, InScope;
    var all := ReadyFrom(rows, call.now, call.query.context);
    QueryFindsEverythingReady(db, ownerId, call.query, call.now, call.includeScheduled, rows);
    SortReadySorts(all);
    RetainKeeps(SortReady(all), call.cursor);
    forall e | e in Remaining(rows, call)
      ensures e in ReadySet(db, ownerId, call.query, call.now)
      ensures Current(db, e, call) && AlignedOption(e.checked.remindi.nextFireAt)
    {
      assert e in Elements(all);
      ReadyIsCurrent(db, ownerId, call, e);
    }
    forall e | e in ReadySet(db, ownerId, call.query, call.now) ensures e in SortReady(all) {
      assert e in Elements(SortReady(all));
    }
    SortedCurrentIsDistinct(db, Remaining(rows, call), call);
  }

  lemma ReadyIsCurrent(db: Db, ownerId: string, call: CheckCall, e: ReadyEntry)
    requires DbInv(db, ownerId)
    ensures e in ReadySet(db, ownerId, call.query, call.now) <==>
      Current(db, e, call) && InScope(db.items[e.checked.remindi.id], ownerId, call.query)
    ensures Current(db, e, call) ==> AlignedOption(e.checked.remindi.nextFireAt)
  {
    hide DbInv, EntryOf, InScope, StoredInv, ItemInv;
    if e in ReadySet(db, ownerId, call.query, call.now) {
      var id :| id in db.items && InScope(db.items[id], ownerId, call.query)
                && EntryOf(db.items[id], call.now, call.query.context) == Some(e);
      RowIdentity(db, ownerId, id);
      EntryFields(db.items[id], call.now, call.query.context);
    }
    if Current(db, e, call) {
      var id := e.checked.remindi.id;
      RowIdentity(db, ownerId, id);
      EntryFields(db.items[id], call.now, call.query.context);
    }
  }

  lemma SortedCurrentIsDistinct(db: Db, s: seq<ReadyEntry>, call: CheckCall)
    requires Sorted(s) && forall e :: e in s ==> Current(db, e, call)
    ensures DistinctIds(s)
  {
    hide EntryOf, Before;
    forall j, k | 0 <= j < k < |s| ensures s[j].checked.remindi.id != s[k].checked.remindi.id {
      assert s[j] in s && s[k] in s;
      BeforeIsStrictTotalOrder(s[j], s[k], s[j]);
    }
  }

  /** An entry beyond the cursor of a served page was ready and unserved before, and is so still. */
  lemma BeyondThePage(
      db: Db, ownerId: string, rows: seq<Item>, call: CheckCall, limit: nat, e: ReadyEntry)
    requires DbInv(db, ownerId)
    requires IsCandidateList(db, ownerId, call.query, call.now, call.includeScheduled, rows)
    requires 0 < limit < |Remaining(rows, call)|
    ensures
      var s := Remaining(rows, call);
      var page := s[..limit];
      var after := CommitEntries(db, page, call).0;
      && DbInv(after, ownerId)
      && (e in ReadySet(after, ownerId, call.query, call.now)
            && AfterCursor(e.checked, CursorOf(s[limit - 1].checked))
          <==> e in s[limit..])
  {
    hide DbInv, IsCandidateList, EntryOf, Remaining, ReadySet, AfterCursor, InScope, RowAfter, Before, CommitEntries,
      CursorOf, Beyond;
    var s := Remaining(rows, call);
    RemainingElements(db, ownerId, rows, call);
    CommitEntriesEffect(db, ownerId, s[..limit], call);
    var after := CommitEntries(db, s[..limit], call).0;
    if e in ReadySet(after, ownerId, call.query, call.now) && AfterCursor(e.checked, CursorOf(s[limit - 1].checked)) {
      BeyondWasUnserved(db, after, ownerId, s, limit, call, e);
    }
    if e in s[limit..] {
      UnservedStaysBeyond(db, after, ownerId, s, limit, call, e);
    }
  }

  lemma BeyondWasUnserved(
      db: Db, after: Db, ownerId: string, s: seq<ReadyEntry>, limit: nat, call: CheckCall, e: ReadyEntry)
    requires DbInv(db, ownerId) && DbInv(after, ownerId) && 0 < limit < |s|
    requires IsRemaining(db, ownerId, s, call) && Served(db, after, s[..limit])
    requires e in ReadySet(after, ownerId, call.query, call.now)
    requires AfterCursor(e.checked, CursorOf(s[limit - 1].checked))
    ensures e in s[limit..]
  {
    hide DbInv, EntryOf, ReadySet, AfterCursor, InScope, RowAfter, CursorOf, Beyond, IsRemaining, Served;
    ReadyIsCurrent(after, ownerId, call, e);
    if p :| p in s[..limit] && p.checked.remindi.id == e.checked.remindi.id {
      ServedRow(db, after, s[..limit], p);
      ServedIsNotBeyond(db, ownerId, s, limit, call, p, e);
    } else {
      UnservedRow(db, after, s[..limit], e.checked.remindi.id);
      ReadyIsCurrent(db, ownerId, call, e);
      BeyondCursorOf(db, ownerId, s, limit - 1, e, call);
      RemainingHas(db, ownerId, s, call, e);
      var j :| 0 <= j < |s| && s[j] == e;
      RemainingCuts(db, ownerId, s, call, limit - 1, j);
      assert s[limit..][j - limit] == e;
    }
  }

  lemma UnservedStaysBeyond(
      db: Db, after: Db, ownerId: string, s: seq<ReadyEntry>, limit: nat, call: CheckCall, e: ReadyEntry)
    requires DbInv(db, ownerId) && DbInv(after, ownerId) && 0 < limit < |s|
    requires IsRemaining(db, ownerId, s, call) && Served(db, after, s[..limit])
    requires e in s[limit..]
    ensures e in ReadySet(after, ownerId, call.query, call.now)
    ensures AfterCursor(e.checked, CursorOf(s[limit - 1].checked))
  {
    hide DbInv, EntryOf, ReadySet, AfterCursor, InScope, RowAfter, CursorOf, Beyond, IsRemaining, Served;
    var j :| limit <= j < |s| && s[j] == e;
    RemainingCuts(db, ownerId, s, call, limit - 1, j);
    RemainingHas(db, ownerId, s, call, e);
    ReadyIsCurrent(db, ownerId, call, e);
    forall p | p in s[..limit] ensures p.checked.remindi.id != e.checked.remindi.id {
      var i :| 0 <= i < limit && s[i] == p;
      RemainingDistinct(db, ownerId, s, call, i, j);
    }
    UnservedRow(db, after, s[..limit], e.checked.remindi.id);
    ReadyIsCurrent(after, ownerId, call, e);
  }

  lemma ServedRow(db: Db, after: Db, entries: seq<ReadyEntry>, e: ReadyEntry)
    requires Served(db, after, entries) && e in entries
    ensures HasRow(after, e.checked.remindi.id, RowAfter(e))
  {
    hide RowAfter;
  }

  lemma UnservedRow(db: Db, after: Db, entries: seq<ReadyEntry>, id: Uuid)
    requires Served(db, after, entries) && !IsServed(entries, id)
    ensures id in after.items <==> id in db.items
    ensures id in db.items ==> HasRow(after, id, db.items[id])
  {
    hide RowAfter;
  }

  /** The entries of a check's sequence are the ready ones beyond its cursor, as they stand. */
  lemma RemainingHas(db: Db, ownerId: string, s: seq<ReadyEntry>, call: CheckCall, e: ReadyEntry)
    requires IsRemaining(db, ownerId, s, call)
    ensures e in s <==> e in ReadySet(db, ownerId, call.query, call.now) && Beyond(e, call.cursor)
    ensures e in s ==> Current(db, e, call)
  {
    hide ReadySet, Beyond, EntryOf;
  }

  lemma RemainingDistinct(db: Db, ownerId: string, s: seq<ReadyEntry>, call: CheckCall, j: nat, k: nat)
    requires IsRemaining(db, ownerId, s, call) && j < k < |s|
    ensures s[j].checked.remindi.id != s[k].checked.remindi.id
  {
    hide ReadySet, Beyond, EntryOf;
  }

  lemma RemainingCuts(db: Db, ownerId: string, s: seq<ReadyEntry>, call: CheckCall, k: nat, j: nat)
    requires IsRemaining(db, ownerId, s, call) && j < |s| && k < |s|
    ensures AfterCursor(s[j].checked, CursorOf(s[k].checked)) <==> j > k
  {
    hide ReadySet, Beyond, EntryOf, AfterCursor, CursorOf;
    CursorCuts(s, k, j);
  }

  lemma BeyondCursorOf(db: Db, ownerId: string, s: seq<ReadyEntry>, k: nat, e: ReadyEntry, call: CheckCall)
    requires IsRemaining(db, ownerId, s, call) && k < |s|
    requires AfterCursor(e.checked, CursorOf(s[k].checked))
    ensures Beyond(e, call.cursor)
  {
    hide AfterCursor, CursorOf, IsRemaining, ReadySet;
    assert s[k] in s;
    RemainingHas(db, ownerId, s, call, s[k]);
    if call.cursor.Some? {
      AfterCursorIsTransitive(s[k].checked, e.checked, call.cursor.value);
    }
  }

  lemma ServedIsNotBeyond(
      db: Db, ownerId: string, s: seq<ReadyEntry>, limit: nat, call: CheckCall, p: ReadyEntry, e: ReadyEntry)
    requires DbInv(db, ownerId) && IsRemaining(db, ownerId, s, call) && 0 < limit < |s| && p in s[..limit]
    requires EntryOf(RowAfter(p), call.now, call.query.context) == Some(e)
    ensures !AfterCursor(e.checked, CursorOf(s[limit - 1].checked))
  {
    hide DbInv, EntryOf, AfterCursor, RowAfter, CursorOf, StoredInv, ItemInv, IsRemaining, ReadySet, Beyond;
    var id := p.checked.remindi.id;
    RemainingHas(db, ownerId, s, call, p);
    RowIdentity(db, ownerId, id);
    ServedRowSinksInOrder(db.items[id], call.now, call.query.context);
    LowerRankIsNotBeyond(p.checked, e.checked, CursorOf(s[limit - 1].checked));
    var i :| 0 <= i < limit && s[i] == p;
    RemainingCuts(db, ownerId, s, call, limit - 1, i);
  }

  /** The next check, at the same time and in the same context, has left exactly what this one left. */
  lemma NextPageContinues(
      db: Db, ownerId: string, rows: seq<Item>, call: CheckCall, limit: nat, nextRows: seq<Item>, next: CheckCall)
    requires DbInv(db, ownerId) && limit > 0
    requires IsCandidateList(db, ownerId, call.query, call.now, call.includeScheduled, rows)
    requires ServePage(db, rows, call, limit).next.Some?
    requires next.cursor == ServePage(db, rows, call, limit).next
    requires next.query == call.query && next.now == call.now
    requires DbInv(ServePage(db, rows, call, limit).db, ownerId)
    requires IsCandidateList(
      ServePage(db, rows, call, limit).db, ownerId, next.query, next.now, next.includeScheduled, nextRows)
    ensures Remaining(nextRows, next) == Remaining(rows, call)[limit..]
  {
    hide DbInv, IsCandidateList, Remaining, ReadySet, AfterCursor, InScope, Before, CommitEntries, CursorOf, EntryOf;
    var s := Remaining(rows, call);
    RemainingElements(db, ownerId, rows, call);
    var after := ServePage(db, rows, call, limit).db;
    RemainingElements(after, ownerId, nextRows, next);
    forall e: ReadyEntry ensures e in Elements(Remaining(nextRows, next)) <==> e in Elements(s[limit..]) {
      BeyondThePage(db, ownerId, rows, call, limit, e);
    }
    SortedIsUnique(Remaining(nextRows, next), s[limit..]);
  }

  // ---------------------------------------------------------------- the walk

  /** One check of a walk: the database it finds and the rows its query returns. */
  datatype Visit = Visit(db: Db, rows: seq<Item>, call: CheckCall, limit: Positive)

  type Positive = n: nat | n > 0 witness 1

  ghost predicate GoodVisit(ownerId: string, v: Visit) {
    && PageLimit(v.call.limit, 50) == Success(v.limit)
    && IsCandidateList(v.db, ownerId, v.call.query, v.call.now, v.call.includeScheduled, v.rows)
  }

  function PageOf(v: Visit): Page {
    ServePage(v.db, v.rows, v.call, v.limit)
  }

  /** A client follows the cursors to the end; nobody else writes, the clock and the context stay. The
      page sizes and the choice of the query may differ from page to page. */
  ghost predicate IsWalk(ownerId: string, visits: seq<Visit>) {
    && |visits| > 0
    && GoodVisit(ownerId, visits[0])
    && var page := PageOf(visits[0]);
    if |visits| == 1 then page.next.None?
    else
      && page.next.Some?
      && visits[1].db == page.db && visits[1].call.cursor == page.next
      && visits[1].call.query == visits[0].call.query && visits[1].call.now == visits[0].call.now
      && IsWalk(ownerId, visits[1..])
  }

  function Collected(visits: seq<Visit>): seq<CheckedItem> {
    if visits == [] then [] else PageOf(visits[0]).items + Collected(visits[1..])
  }

  lemma ServedPage(ownerId: string, v: Visit)
    requires DbInv(v.db, ownerId) && GoodVisit(ownerId, v)
    ensures DbInv(PageOf(v).db, ownerId)
    ensures PageOf(v).items == ShownAll(Cut(Remaining(v.rows, v.call), v.limit))
  {
    hide DbInv, IsCandidateList, Remaining, CommitEntries, EntryOf, AfterCursor, InScope, ReadySet, Before;
    RemainingElements(v.db, ownerId, v.rows, v.call);
    CommitEntriesEffect(v.db, ownerId, Cut(Remaining(v.rows, v.call), v.limit), v.call);
  }

  lemma {:induction false} WalkShowsRemaining(ownerId: string, visits: seq<Visit>)
    requires IsWalk(ownerId, visits) && DbInv(visits[0].db, ownerId)
    ensures Collected(visits) == ShownAll(Remaining(visits[0].rows, visits[0].call))
    ensures |visits| == 1 || |visits| <= |Remaining(visits[0].rows, visits[0].call)|
  {
    hide DbInv, IsCandidateList, Remaining, CommitEntries, Shown;
    var v := visits[0];
    var s := Remaining(v.rows, v.call);
    ServedPage(ownerId, v);
    if |visits| > 1 {
      WalkShowsRemaining(ownerId, visits[1..]);
      NextPageContinues(v.db, ownerId, v.rows, v.call, v.limit, visits[1].rows, visits[1].call);
      assert ShownAll(s) == ShownAll(s[..v.limit]) + ShownAll(s[v.limit..]);
    } else {
      assert Collected(visits[1..]) == [];
    }
  }

  /** Following the cursors of a check to the end shows each item that was ready at the start exactly
      once, in the order of the check, although every page stores new states; and the walk ends after
      at most as many pages as there are items. */
  lemma WalkShowsEachReadyItemOnce(ownerId: string, visits: seq<Visit>)
    requires IsWalk(ownerId, visits) && DbInv(visits[0].db, ownerId) && visits[0].call.cursor.None?
    ensures
      var start := visits[0];
      exists s: seq<ReadyEntry> ::
        && Sorted(s) && DistinctIds(s)
        && Elements(s) == ReadySet(start.db, ownerId, start.call.query, start.call.now)
        && Collected(visits) == ShownAll(s)
        && (|visits| == 1 || |visits| <= |s|)
  {
    var start := visits[0];
    hide DbInv, Remaining, IsWalk, Collected, ReadySet, Before, AfterCursor, IsCandidateList, Current;
    var s := Remaining(start.rows, start.call);
    FirstVisit(ownerId, visits);
    RemainingElements(start.db, ownerId, start.rows, start.call);
    WalkShowsRemaining(ownerId, visits);
    assert Elements(s) == ReadySet(start.db, ownerId, start.call.query, start.call.now);
  }

  lemma FirstVisit(ownerId: string, visits: seq<Visit>)
    requires IsWalk(ownerId, visits)
    ensures
      var v := visits[0];
      IsCandidateList(v.db, ownerId, v.call.query, v.call.now, v.call.includeScheduled, v.rows)
  {
    hide IsCandidateList;
  }
}
