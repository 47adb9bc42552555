/** A concrete walk that misses an item: two items are due, the first page shows one of them, and before
    the second check the grace of the other runs out. */
module MissedItem {
  import opened Wrappers
  import opened Model
  import opened Lifecycle
  import opened Operations
  import opened Store
  import opened StoreRuns
  import opened CheckPages
  import opened CheckWalk
  import opened MovingClock
  import opened Witnesses

  const Session := CheckContext(Some("session"), None, TaskStart, [])

  const Query := CheckQuery("project", None, Session)

  const LATE: int := 60 * SECOND

  const Look := Evaluating(AGENT, 0, Session, NotEvaluated, None, 0)

  // ---------------------------------------------------------------- two due items

  /** An item of the project, due since the epoch. */
  predicate DueItem(row: Item, id: Uuid, priority: Priority, grace: nat) {
    && row.id == id && row.ownerId == OWNER && row.projectId == "project"
    && row.state.Due? && row.dueSince == Some(0) && row.nextFireAt == None
    && row.priority == priority && row.overdueAfterSeconds == grace
  }

  lemma SessionMakesDue(row: Item, id: Uuid, priority: Priority, grace: nat)
    requires FreshRow(row, NextSession, None, priority, grace, id)
    ensures Candidate(row, Look).Some?
    ensures DueItem(UpdatedRow(row, Candidate(row, Look).value.0), id, priority, grace)
  {
    hide Candidate, ContextSatisfies;
    SessionSatisfies(row.(lastCheckedAt := Some(0)));
    ContextMakesDue(row, Look);
  }

  lemma SessionSatisfies(row: Item)
    requires row.trigger == NextSession && row.sourceSessionId == None
    ensures ContextSatisfies(row, Session)
  {
  }

  lemma ContextMakesDue(row: Item, e: Evaluating)
    requires row.state.Scheduled? && row.trigger == NextSession && e.condition.NotEvaluated?
    requires ContextSatisfies(row.(lastCheckedAt := Some(e.now)), e.context)
    ensures Candidate(row, e) == Some((
      row.(lastCheckedAt := Some(e.now), state := Due, dueSince := Some(e.now), updatedAt := e.now,
           version := row.version + 1),
      [BecameDue]))
  {
    hide ContextSatisfies;
    var none: seq<EventType> := [];
    assert none + [BecameDue] == [BecameDue];
  }

  lemma SessionTriggerFits(grace: nat, key: string)
    requires ValidKey(key) && grace <= 31_536_000
    ensures AddFits(NextSession, None, grace, key)
  {
  }

  /** The world after an item was added and found due. */
  function WithDueItem(w: World, id: Uuid, priority: Priority, grace: nat, key: string): World {
    var added := Next(w, OWNER, AddStep(NextSession, None, priority, grace, key, id));
    if id in added.db.items then EvaluatedNow(added, id, Look) else added
  }

  lemma DueItemAdded(w: World, id: Uuid, priority: Priority, grace: nat, key: string)
    requires WorldInv(w, OWNER) && id !in w.db.items && ValidKey(key) && grace <= 31_536_000
    requires IdempotencyKey("agent", RemindiAdd, key) !in w.db.idempotency
    ensures
      var after := WithDueItem(w, id, priority, grace, key);
      && WorldInv(after, OWNER)
      && id in after.db.items && after.db.items == w.db.items[id := after.db.items[id]]
      && after.db.idempotency.Keys == w.db.idempotency.Keys + {IdempotencyKey("agent", RemindiAdd, key)}
      && DueItem(after.db.items[id], id, priority, grace)
  {
    hide WorldInv, Next, AddStep, AddFits, FreshRow, DueItem, EvaluatedNow, Candidate, UpdatedRow, ValidKey;
    SessionTriggerFits(grace, key);
    AddedRow(w, NextSession, None, priority, grace, key, id);
    var added := Next(w, OWNER, AddStep(NextSession, None, priority, grace, key, id));
    SessionMakesDue(added.db.items[id], id, priority, grace);
    EvaluationWrites(added, id, Look);
  }

  /** A critical item with a grace of a year, and a normal one with a grace of a minute. */
  function TwoDueItems(): World {
    WithDueItem(WithDueItem(EmptyWorld, 1, Critical, 31_536_000, "key.add1"), 2, Normal, 60, "key.add2")
  }

  lemma TwoDueItemsHold()
    ensures
      var w := TwoDueItems();
      && WorldInv(w, OWNER) && w.db.items.Keys == {1, 2}
      && DueItem(w.db.items[1], 1, Critical, 31_536_000) && DueItem(w.db.items[2], 2, Normal, 60)
  {
    hide WorldInv, WithDueItem, DueItem, ValidKey;
    EmptyWorldInvariant(OWNER);
    KeysAreValid();
    DueItemAdded(EmptyWorld, 1, Critical, 31_536_000, "key.add1");
    DueItemAdded(WithDueItem(EmptyWorld, 1, Critical, 31_536_000, "key.add1"), 2, Normal, 60, "key.add2");
  }

  // ---------------------------------------------------------------- the walk

  function Looked(row: Item, now: Instant): ReadyEntry {
    ReadyEntry(row, CheckedItem(row.(lastCheckedAt := Some(now)), ReadyDue), [])
  }

  lemma DueEntry(row: Item, now: Instant)
    requires row.state.Due? && !GraceExpired(row, now)
    ensures EntryOf(row, now, Session) == Some(Looked(row, now))
  {
  }

  lemma OverdueEntry(row: Item, now: Instant)
    requires row.state.Due? && GraceExpired(row, now)
    ensures EntryOf(row, now, Session).Some?
    ensures EntryOf(row, now, Session).value.checked.readiness == ReadyOverdue
  {
  }

  function CheckAt(now: Instant, cursor: Option<CheckCursor>): CheckCall {
    CheckCall(AGENT, Query, true, 1, cursor, now, now)
  }

  function FirstVisit(db: Db): Visit
    requires {1, 2} <= db.items.Keys
  {
    Visit(db, [db.items[1], db.items[2]], CheckAt(0, None), 1)
  }

  function SecondVisit(db: Db): Visit
    requires {1, 2} <= db.items.Keys
  {
    Visit(
      db, [db.items[1], db.items[2]], CheckAt(LATE, Some(CheckPages.CursorOf(Looked(db.items[1], 0).checked))), 1)
  }

  predicate HoldsBoth(db: Db) {
    && db.items.Keys == {1, 2}
    && DueItem(db.items[1], 1, Critical, 31_536_000) && DueItem(db.items[2], 2, Normal, 60)
  }

  lemma BothAreCandidates(db: Db, now: Instant)
    requires HoldsBoth(db)
    ensures IsCandidateList(db, OWNER, Query, now, true, [db.items[1], db.items[2]])
  {
    var rows := [db.items[1], db.items[2]];
    forall i ensures i in (set r | r in rows) <==> i in ActiveRows(db, OWNER, Query) {
      if i in ActiveRows(db, OWNER, Query) {
        var id :| id in db.items && db.items[id] == i;
        assert id == 1 || id == 2;
      }
      if i in rows {
        assert i == db.items[1] || i == db.items[2];
      }
    }
  }

  /** What is ready is one of the two. */
  lemma ReadyIsOneOfThem(db: Db, now: Instant, e: ReadyEntry)
    requires HoldsBoth(db) && e in ReadySet(db, OWNER, Query, now)
    ensures EntryOf(db.items[1], now, Session) == Some(e) || EntryOf(db.items[2], now, Session) == Some(e)
  {
    hide EntryOf, InScope;
    var id :| id in db.items && EntryOf(db.items[id], now, Session) == Some(e);
    assert id == 1 || id == 2;
  }

  lemma ReadyAreBoth(db: Db)
    requires HoldsBoth(db)
    ensures ReadySet(db, OWNER, Query, 0) == {Looked(db.items[1], 0), Looked(db.items[2], 0)}
  {
    DueEntry(db.items[1], 0);
    DueEntry(db.items[2], 0);
    assert InScope(db.items[1], OWNER, Query) && InScope(db.items[2], OWNER, Query);
    hide EntryOf, InScope;
    forall e ensures e in ReadySet(db, OWNER, Query, 0) <==> e in {Looked(db.items[1], 0), Looked(db.items[2], 0)} {
      if e in ReadySet(db, OWNER, Query, 0) {
        ReadyIsOneOfThem(db, 0, e);
      }
      if e in {Looked(db.items[1], 0), Looked(db.items[2], 0)} {
        var id := if e == Looked(db.items[1], 0) then 1 else 2;
        assert id in db.items && InScope(db.items[id], OWNER, Query)
          && EntryOf(db.items[id], 0, Query.context) == Some(e);
      }
    }
  }

  lemma FirstListing(db: Db)
    requires HoldsBoth(db) && DbInv(db, OWNER)
    ensures Listed(FirstVisit(db)) == [Looked(db.items[1], 0), Looked(db.items[2], 0)]
  {
    hide DbInv, EntryOf, Remaining, ReadySet, Current, IsCandidateList;
    var v := FirstVisit(db);
    var both := [Looked(db.items[1], 0), Looked(db.items[2], 0)];
    BothAreCandidates(db, 0);
    RemainingElements(db, OWNER, v.rows, v.call);
    ReadyAreBoth(db);
    assert Sorted(both);
    assert Elements(Listed(v)) == Elements(both);
    SortedIsUnique(Listed(v), both);
  }

  /** At the second check the first item stands on the cursor and the second before it. */
  lemma NeitherIsToCome(a: Item, b: Item)
    requires DueItem(a, 1, Critical, 31_536_000) && DueItem(b, 2, Normal, 60)
    ensures
      var c := CheckPages.CursorOf(Looked(a, 0).checked);
      && EntryOf(a, LATE, Session) == Some(Looked(a, LATE)) && !AfterCursor(Looked(a, LATE).checked, c)
      && EntryOf(b, LATE, Session).Some? && !AfterCursor(EntryOf(b, LATE, Session).value.checked, c)
  {
    DueEntry(a, LATE);
    OverdueEntry(b, LATE);
    hide EntryOf;
  }

  lemma SecondListing(db: Db)
    requires HoldsBoth(db) && DbInv(db, OWNER)
    ensures Listed(SecondVisit(db)) == []
  {
    hide DbInv, EntryOf, Remaining, ReadySet, Current, IsCandidateList, AfterCursor, Looked, CheckPages.CursorOf,
      DueItem, Sorted, DistinctIds;
    var v := SecondVisit(db);
    BothAreCandidates(db, LATE);
    RemainingElements(db, OWNER, v.rows, v.call);
    NeitherIsToCome(db.items[1], db.items[2]);
    if Listed(v) != [] {
      var e := Listed(v)[0];
      assert e in Listed(v);
      ReadyIsOneOfThem(db, LATE, e);
    }
  }

  lemma FirstPage(db: Db)
    requires HoldsBoth(db) && DbInv(db, OWNER)
    ensures PageOf(FirstVisit(db)).db == db
    ensures PageOf(FirstVisit(db)).next == SecondVisit(db).call.cursor
  {
    hide DbInv, Remaining;
    FirstListing(db);
    var v := FirstVisit(db);
    var page := [Looked(db.items[1], 0)];
    assert Cut(Listed(v), 1) == page;
    assert CommitEntries(db, [], v.call) == (db, []);
    assert page[..0] == [];
  }

  lemma SecondPage(db: Db)
    requires HoldsBoth(db) && DbInv(db, OWNER)
    ensures PageOf(SecondVisit(db)).next == None
  {
    hide DbInv, Remaining, CommitEntries;
    SecondListing(db);
  }

  lemma TwoPagesAreAWalk(db: Db)
    requires HoldsBoth(db) && DbInv(db, OWNER)
    ensures IsClockWalk(OWNER, [FirstVisit(db), SecondVisit(db)])
  {
    hide DbInv, PageOf, IsCandidateList, HoldsBoth;
    KeysOfBoth(db);
    BothAreCandidates(db, 0);
    BothAreCandidates(db, LATE);
    FirstPage(db);
    SecondPage(db);
    var visits := [FirstVisit(db), SecondVisit(db)];
    assert visits[1..] == [SecondVisit(db)];
  }

  lemma KeysOfBoth(db: Db)
    requires HoldsBoth(db)
    ensures db.items.Keys == {1, 2}
  {
  }

  lemma SecondIsPassedOver(db: Db)
    requires HoldsBoth(db)
    ensures EntryAt(db.items[2], FirstVisit(db)) == Some(Looked(db.items[2], 0))
    ensures InScope(db.items[2], OWNER, Query)
    ensures PassedOver(db.items[2], FirstVisit(db), SecondVisit(db))
  {
    DueEntry(db.items[2], 0);
    hide EntryOf;
  }

  lemma BothAreHeld()
    ensures DbInv(TwoDueItems().db, OWNER) && HoldsBoth(TwoDueItems().db)
  {
    hide TwoDueItems, DbInv, HistoryInv, SnapshotInv, DueItem;
    TwoDueItemsHold();
  }

  /** Nobody else writes and the clock moves by a minute; the second item, ready at the start, is never
      shown. */
  lemma AMovingClockCanMissAnItem()
    ensures {1, 2} <= TwoDueItems().db.items.Keys
    ensures
      var db := TwoDueItems().db;
      var visits := [FirstVisit(db), SecondVisit(db)];
      && DbInv(db, OWNER) && IsClockWalk(OWNER, visits) && visits[0].call.cursor.None?
      && IsInScope(visits[0], OWNER, 2) && EntryAt(db.items[2], visits[0]).Some?
      && PassedOver(db.items[2], visits[0], visits[1])
      && !ShowsId(Collected(visits), 2)
  {
    hide TwoDueItems, DbInv, HoldsBoth, IsClockWalk, PassedOver, EntryOf, InScope, ShowsId, Collected;
    BothAreHeld();
    var db := TwoDueItems().db;
    KeysOfBoth(db);
    TwoPagesAreAWalk(db);
    SecondIsPassedOver(db);
    WalkMissesExactlyTheOvertaken(OWNER, [FirstVisit(db), SecondVisit(db)], 2);
  }
}
