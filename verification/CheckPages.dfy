/** The readiness check: its order, its cursor, its candidate query and its pages
    (src/remindi/service.rs, src/remindi/repository.rs). */
module CheckPages {
  import opened Wrappers
  import opened Model
  import opened Lifecycle
  import opened Operations
  import opened Store
  import opened StoreRuns

  datatype CheckedItem = CheckedItem(remindi: Item, readiness: Readiness)

  datatype ReadyEntry = ReadyEntry(prior: Item, checked: CheckedItem, events: seq<EventType>)

  // ---------------------------------------------------------------- order and cursor

  datatype Ordering = Less | Equal | Greater

  function Compare(a: int, b: int): Ordering {
    if a < b then Less else if a == b then Equal else Greater
  }

  function Then(first: Ordering, second: Ordering): Ordering {
    if first.Equal? then second else first
  }

  function ReadinessRank(r: Readiness): nat {
    match r case ReadyOverdue => 0 case ReadyDue => 1 case ManualVerification => 2
  }

  function PriorityRank(p: Priority): nat {
    match p case Low => 0 case Normal => 1 case High => 2 case Critical => 3
  }

  function CompareAnchors(a: Option<Instant>, b: Option<Instant>): Ordering {
    if a.Some? && b.Some? then Compare(a.value, b.value)
    else if a.Some? then Less
    else if b.Some? then Greater
    else Equal
  }

  /** Overdue first, then due, then manual verification; within that by falling priority, rising
      anchor (items without one last) and identifier. */
  function CheckOrder(a: CheckedItem, b: CheckedItem): Ordering {
    Then(Compare(ReadinessRank(a.readiness), ReadinessRank(b.readiness)),
    Then(Compare(PriorityRank(b.remindi.priority), PriorityRank(a.remindi.priority)),
    Then(CompareAnchors(a.remindi.nextFireAt, b.remindi.nextFireAt),
         Compare(a.remindi.id, b.remindi.id))))
  }

  /** The position after an item; the anchor is kept as canonical text, that is to the millisecond. */
  datatype CheckCursor = CheckCursor(readiness: nat, priority: nat, nextFireAt: Option<Instant>, id: Uuid)

  function CursorOf(i: CheckedItem): CheckCursor {
    CheckCursor(
      ReadinessRank(i.readiness), PriorityRank(i.remindi.priority), MillisOption(i.remindi.nextFireAt), i.remindi.id)
  }

  /** Whether an item comes after a cursor: the comparison of the two key tuples. */
  predicate AfterCursor(i: CheckedItem, c: CheckCursor) {
    var k := CursorOf(i);
    if k.readiness != c.readiness then k.readiness > c.readiness
    else if k.priority != c.priority then k.priority < c.priority
    else if k.nextFireAt.None? != c.nextFireAt.None? then k.nextFireAt.None?
    else if k.nextFireAt != c.nextFireAt then k.nextFireAt.value > c.nextFireAt.value
    else k.id > c.id
  }

  /** For stored anchors the cursor test agrees with the comparator, although one compares text and
      the other instants. */
  lemma CursorAgreesWithOrder(a: CheckedItem, b: CheckedItem)
    requires AlignedOption(a.remindi.nextFireAt) && AlignedOption(b.remindi.nextFireAt)
    ensures AfterCursor(b, CursorOf(a)) <==> CheckOrder(a, b) == Less
  {
  }

  predicate Before(a: ReadyEntry, b: ReadyEntry) {
    CheckOrder(a.checked, b.checked) == Less
  }

  lemma BeforeIsStrictTotalOrder(a: ReadyEntry, b: ReadyEntry, c: ReadyEntry)
    ensures !Before(a, a)
    ensures Before(a, b) && Before(b, c) ==> Before(a, c)
    ensures a.checked.remindi.id != b.checked.remindi.id ==> Before(a, b) || Before(b, a)
  {
  }

  predicate Sorted(s: seq<ReadyEntry>) {
    forall j, k :: 0 <= j < k < |s| ==> Before(s[j], s[k])
  }

  /** No two entries are for the same item. */
  predicate DistinctIds(s: seq<ReadyEntry>) {
    forall j, k :: 0 <= j < k < |s| ==> s[j].checked.remindi.id != s[k].checked.remindi.id
  }

  /** The entries of a sequence. */
  function Elements(s: seq<ReadyEntry>): set<ReadyEntry> {
    set e | e in s
  }

  function InsertReady(e: ReadyEntry, s: seq<ReadyEntry>): seq<ReadyEntry> {
    if s == [] || Before(e, s[0]) then [e] + s else [s[0]] + InsertReady(e, s[1..])
  }

  function SortReady(s: seq<ReadyEntry>): seq<ReadyEntry> {
    if s == [] then [] else InsertReady(s[0], SortReady(s[1..]))
  }

  lemma {:induction false} InsertKeepsSorted(e: ReadyEntry, s: seq<ReadyEntry>)
    requires Sorted(s)
    requires forall k :: 0 <= k < |s| ==> s[k].checked.remindi.id != e.checked.remindi.id
    ensures Sorted(InsertReady(e, s))
    ensures Elements(InsertReady(e, s)) == Elements(s) + {e}
  {
    hide Before;
    forall x: ReadyEntry, y: ReadyEntry, z: ReadyEntry
      ensures Before(x, y) && Before(y, z) ==> Before(x, z)
    {
      BeforeIsStrictTotalOrder(x, y, z);
    }
    if s != [] {
      BeforeIsStrictTotalOrder(e, s[0], e);
      if !Before(e, s[0]) {
        InsertKeepsSorted(e, s[1..]);
        var rest := InsertReady(e, s[1..]);
        assert s == [s[0]] + s[1..];
        forall k | 0 <= k < |rest| ensures Before(s[0], rest[k]) {
          assert rest[k] in Elements(rest);
        }
      }
    }
  }

  lemma {:induction false} SortReadySorts(s: seq<ReadyEntry>)
    requires DistinctIds(s)
    ensures Sorted(SortReady(s)) && Elements(SortReady(s)) == Elements(s)
  {
    if s != [] {
      SortReadySorts(s[1..]);
      var rest := SortReady(s[1..]);
      assert s == [s[0]] + s[1..];
      forall k | 0 <= k < |rest| ensures rest[k].checked.remindi.id != s[0].checked.remindi.id {
        assert rest[k] in Elements(rest);
      }
      InsertKeepsSorted(s[0], rest);
    }
  }

  /** A set of entries has one sorted sequence. */
  lemma {:induction false} SortedIsUnique(s: seq<ReadyEntry>, t: seq<ReadyEntry>)
    requires Sorted(s) && Sorted(t) && Elements(s) == Elements(t)
    ensures s == t
  {
    hide Before;
    NoElements(s);
    NoElements(t);
    if s != [] && t != [] {
      assert s[0] in Elements(t) && t[0] in Elements(s);
      BeforeIsStrictTotalOrder(s[0], t[0], s[0]);
      assert s[0] == t[0];
      forall e: ReadyEntry ensures e in Elements(s[1..]) <==> e in Elements(t[1..]) {
        TailElements(s, e);
        TailElements(t, e);
      }
      SortedIsUnique(s[1..], t[1..]);
      assert s == [s[0]] + s[1..] && t == [t[0]] + t[1..];
    }
  }

  lemma NoElements(s: seq<ReadyEntry>)
    ensures s == [] <==> Elements(s) == {}
  {
    if s != [] {
      assert s[0] in Elements(s);
    }
  }

  lemma TailElements(s: seq<ReadyEntry>, e: ReadyEntry)
    requires Sorted(s) && s != []
    ensures e in Elements(s[1..]) <==> e in Elements(s) && e != s[0]
  {
    hide Before;
    BeforeIsStrictTotalOrder(e, e, e);
    if e in s[1..] {
      var k :| 0 <= k < |s[1..]| && s[1..][k] == e;
      assert Before(s[0], s[k + 1]);
    }
    assert s == [s[0]] + s[1..];
  }

  // ---------------------------------------------------------------- the candidate query

  /** What a check asks for, with the lifecycle context the agent supplies. */
  datatype CheckQuery = CheckQuery(projectId: string, taskId: Option<string>, context: CheckContext)

  predicate InScope(row: Item, ownerId: string, q: CheckQuery) {
    && row.ownerId == ownerId && row.projectId == q.projectId
    && (q.taskId.Some? ==> row.taskId == q.taskId)
  }

  /** The four branches of the indexed UNION ALL; instants are compared as canonical text. */
  predicate InBranch(row: Item, branch: nat, now: Instant) {
    if branch == 0 then row.state.IsReady()
    else if branch == 1 then
      row.state.Snoozed? && row.snoozeUntil.Some? && Millis(row.snoozeUntil.value) <= Millis(now)
    else if branch == 2 then
      && row.state.Scheduled? && row.trigger.IsTimed()
      && row.nextFireAt.Some? && Millis(row.nextFireAt.value) <= Millis(now)
    else if branch == 3 then row.state.Scheduled? && !row.trigger.IsTimed()
    else false
  }

  function BranchRows(db: Db, ownerId: string, q: CheckQuery, now: Instant, branch: nat): set<Item> {
    set id | id in db.items && InScope(db.items[id], ownerId, q) && InBranch(db.items[id], branch, now)
      :: db.items[id]
  }

  /** The rows a full scan of the active items of the scope returns. */
  function ActiveRows(db: Db, ownerId: string, q: CheckQuery): set<Item> {
    set id | id in db.items && InScope(db.items[id], ownerId, q) && !db.items[id].state.IsTerminal() :: db.items[id]
  }

  /** Some order of the rows of a set, each once: what a SELECT without ORDER BY may return. */
  predicate Lists(rows: seq<Item>, all: set<Item>) {
    && (set i | i in rows) == all
    && forall j, k :: 0 <= j < k < |rows| ==> rows[j] != rows[k]
  }

  /** What the query of a check may return. */
  ghost predicate IsCandidateList(
      db: Db, ownerId: string, q: CheckQuery, now: Instant, includeScheduled: bool, rows: seq<Item>)
  {
    if includeScheduled then Lists(rows, ActiveRows(db, ownerId, q))
    else exists a: seq<Item>, b: seq<Item>, c: seq<Item>, d: seq<Item> ::
      && rows == a + b + c + d
      && Lists(a, BranchRows(db, ownerId, q, now, 0)) && Lists(b, BranchRows(db, ownerId, q, now, 1))
      && Lists(c, BranchRows(db, ownerId, q, now, 2)) && Lists(d, BranchRows(db, ownerId, q, now, 3))
  }

  /** No row is in two branches. */
  lemma BranchesAreDisjoint(row: Item, j: nat, k: nat, now: Instant)
    requires InBranch(row, j, now) && InBranch(row, k, now)
    ensures j == k
  {
  }

  /** Evaluating one candidate, as a check does: without asking a condition adapter. */
  function EntryOf(row: Item, now: Instant, context: CheckContext): Option<ReadyEntry> {
    match Evaluate(row, now, context, NotEvaluated)
    case Failure(_) => None
    case Success(e) =>
      if e.readiness.Some? then Some(ReadyEntry(row, CheckedItem(e.item, e.readiness.value), e.events)) else None
  }

  /** A live item of the scope that no branch selects would not have been ready. The SQL compares
      millisecond text and the evaluator full instants; stored deadlines make the two agree. */
  lemma UnselectedIsNotReady(row: Item, now: Instant, context: CheckContext)
    requires StoredInv(row) && !row.state.IsTerminal()
    requires !InSomeBranch(row, now)
    ensures EntryOf(row, now, context).None?
  {
  }

  /** The entries of the ready rows, in the order of the rows. */
  function ReadyFrom(rows: seq<Item>, now: Instant, context: CheckContext): seq<ReadyEntry> {
    if rows == [] then []
    else
      var init, last := rows[..|rows| - 1], EntryOf(rows[|rows| - 1], now, context);
      ReadyFrom(init, now, context) + if last.Some? then [last.value] else []
  }

  /** Everything that is ready in the scope. */
  function ReadySet(db: Db, ownerId: string, q: CheckQuery, now: Instant): set<ReadyEntry> {
    set id | id in db.items && InScope(db.items[id], ownerId, q) && EntryOf(db.items[id], now, q.context).Some?
      :: EntryOf(db.items[id], now, q.context).value
  }

  lemma EntryFields(row: Item, now: Instant, context: CheckContext)
    requires StoredInv(row) && EntryOf(row, now, context).Some?
    ensures
      var e := EntryOf(row, now, context).value;
      && e.prior == row && !row.state.IsTerminal()
      && e.checked.remindi.id == row.id
      && e.checked.remindi.priority == row.priority && e.checked.remindi.nextFireAt == row.nextFireAt
      && AlignedOption(row.nextFireAt)
  {
    EvaluationKeepsInvariant(row, now, context, NotEvaluated);
  }

  lemma {:induction false} ReadyFromElements(rows: seq<Item>, now: Instant, context: CheckContext, e: ReadyEntry)
    ensures e in ReadyFrom(rows, now, context)
       <==> exists i :: i in rows && EntryOf(i, now, context) == Some(e)
  {
    hide EntryOf;
    if rows != [] {
      var init, last := rows[..|rows| - 1], rows[|rows| - 1];
      ReadyFromElements(init, now, context, e);
      assert rows == init + [last];
    }
  }

  lemma {:induction false} ReadyFromDistinct(rows: seq<Item>, now: Instant, context: CheckContext)
    requires forall i :: i in rows ==> StoredInv(i)
    requires forall j, k :: 0 <= j < k < |rows| ==> rows[j].id != rows[k].id
    ensures DistinctIds(ReadyFrom(rows, now, context))
  {
    hide EntryOf, StoredInv;
    if rows != [] {
      var init, last := rows[..|rows| - 1], rows[|rows| - 1];
      ReadyFromDistinct(init, now, context);
      var before := ReadyFrom(init, now, context);
      if EntryOf(last, now, context).Some? {
        EntryFields(last, now, context);
        forall k | 0 <= k < |before| ensures before[k].checked.remindi.id != last.id {
          ReadyFromElements(init, now, context, before[k]);
          var i :| i in init && EntryOf(i, now, context) == Some(before[k]);
          EntryFields(i, now, context);
        }
      }
    }
  }

  // ---------------------------------------------------------------- the query refines a full scan

  /** The row is in one of the branches. */
  predicate InSomeBranch(row: Item, now: Instant) {
    InBranch(row, 0, now) || InBranch(row, 1, now) || InBranch(row, 2, now) || InBranch(row, 3, now)
  }

  /** The row `i` of the table is a live row of the scope, and selected. */
  predicate Chosen(db: Db, ownerId: string, q: CheckQuery, now: Instant, includeScheduled: bool, i: Item) {
    && i.id in db.items && db.items[i.id] == i && InScope(i, ownerId, q)
    && !i.state.IsTerminal()
    && (includeScheduled || InSomeBranch(i, now))
  }

  lemma BranchList(db: Db, ownerId: string, q: CheckQuery, now: Instant, branch: nat, rows: seq<Item>, i: Item)
    requires DbInv(db, ownerId) && Lists(rows, BranchRows(db, ownerId, q, now, branch))
    ensures i in rows <==>
      i.id in db.items && db.items[i.id] == i && InScope(i, ownerId, q) && InBranch(i, branch, now)
  {
    hide DbInv, InBranch;
    assert i in rows <==> i in BranchRows(db, ownerId, q, now, branch);
    if i in rows {
      var id :| id in db.items && InScope(db.items[id], ownerId, q) && InBranch(db.items[id], branch, now)
                && db.items[id] == i;
      RowIdentity(db, ownerId, id);
    }
  }

  lemma ActiveList(db: Db, ownerId: string, q: CheckQuery, rows: seq<Item>, i: Item)
    requires DbInv(db, ownerId) && Lists(rows, ActiveRows(db, ownerId, q))
    ensures i in rows <==>
      i.id in db.items && db.items[i.id] == i && InScope(i, ownerId, q) && !i.state.IsTerminal()
  {
    hide DbInv;
    assert i in rows <==> i in ActiveRows(db, ownerId, q);
    if i in rows {
      var id :| id in db.items && InScope(db.items[id], ownerId, q) && !db.items[id].state.IsTerminal()
                && db.items[id] == i;
      RowIdentity(db, ownerId, id);
    }
  }

  /** A candidate list holds the chosen rows and nothing else. */
  lemma CandidatesAreChosen(
      db: Db, ownerId: string, q: CheckQuery, now: Instant, includeScheduled: bool, rows: seq<Item>, i: Item)
    requires DbInv(db, ownerId) && IsCandidateList(db, ownerId, q, now, includeScheduled, rows)
    ensures i in rows <==> Chosen(db, ownerId, q, now, includeScheduled, i)
  {
    hide DbInv, Lists;
    if includeScheduled {
      ActiveList(db, ownerId, q, rows, i);
    } else {
      var a, b, c, d :|
        && rows == a + b + c + d
        && Lists(a, BranchRows(db, ownerId, q, now, 0)) && Lists(b, BranchRows(db, ownerId, q, now, 1))
        && Lists(c, BranchRows(db, ownerId, q, now, 2)) && Lists(d, BranchRows(db, ownerId, q, now, 3));
      BranchList(db, ownerId, q, now, 0, a, i);
      BranchList(db, ownerId, q, now, 1, b, i);
      BranchList(db, ownerId, q, now, 2, c, i);
      BranchList(db, ownerId, q, now, 3, d, i);
    }
  }

  lemma DistinctConcat(a: seq<Item>, b: seq<Item>)
    requires forall j, k :: 0 <= j < k < |a| ==> a[j] != a[k]
    requires forall j, k :: 0 <= j < k < |b| ==> b[j] != b[k]
    requires forall i :: i in a ==> i !in b
    ensures forall j, k :: 0 <= j < k < |a + b| ==> (a + b)[j] != (a + b)[k]
  {
    forall j, k | 0 <= j < k < |a + b| ensures (a + b)[j] != (a + b)[k] {
      if j < |a| <= k {
        assert a[j] in a && b[k - |a|] in b;
      }
    }
  }

  /** No row comes twice. */
  lemma CandidatesAreDistinct(
      db: Db, ownerId: string, q: CheckQuery, now: Instant, includeScheduled: bool, rows: seq<Item>)
    requires DbInv(db, ownerId) && IsCandidateList(db, ownerId, q, now, includeScheduled, rows)
    ensures forall j, k :: 0 <= j < k < |rows| ==> rows[j] != rows[k]
  {
    hide DbInv, InBranch, BranchRows;
    if !includeScheduled {
      var a, b, c, d :|
        && rows == a + b + c + d
        && Lists(a, BranchRows(db, ownerId, q, now, 0)) && Lists(b, BranchRows(db, ownerId, q, now, 1))
        && Lists(c, BranchRows(db, ownerId, q, now, 2)) && Lists(d, BranchRows(db, ownerId, q, now, 3));
      forall i: Item ensures !(i in a && i in b) && !(i in a + b && i in c) && !(i in a + b + c && i in d) {
        ListedOnce(db, ownerId, q, now, a, b, c, d, i);
      }
      DistinctConcat(a, b);
      DistinctConcat(a + b, c);
      DistinctConcat(a + b + c, d);
    }
  }

  lemma ListedOnce(
      db: Db, ownerId: string, q: CheckQuery, now: Instant,
      a: seq<Item>, b: seq<Item>, c: seq<Item>, d: seq<Item>, i: Item)
    requires DbInv(db, ownerId)
    requires Lists(a, BranchRows(db, ownerId, q, now, 0)) && Lists(b, BranchRows(db, ownerId, q, now, 1))
    requires Lists(c, BranchRows(db, ownerId, q, now, 2)) && Lists(d, BranchRows(db, ownerId, q, now, 3))
    ensures !(i in a && i in b) && !(i in a + b && i in c) && !(i in a + b + c && i in d)
  {
    hide DbInv, Lists;
    BranchList(db, ownerId, q, now, 0, a, i);
    BranchList(db, ownerId, q, now, 1, b, i);
    BranchList(db, ownerId, q, now, 2, c, i);
    BranchList(db, ownerId, q, now, 3, d, i);
  }

  lemma ChosenIdsDistinct(
      db: Db, ownerId: string, q: CheckQuery, now: Instant, includeScheduled: bool, rows: seq<Item>)
    requires DbInv(db, ownerId) && IsCandidateList(db, ownerId, q, now, includeScheduled, rows)
    ensures forall j, k :: 0 <= j < k < |rows| ==> rows[j].id != rows[k].id
    ensures forall i :: i in rows ==> StoredInv(i)
  {
    hide DbInv, IsCandidateList, StoredInv;
    CandidatesAreDistinct(db, ownerId, q, now, includeScheduled, rows);
    forall i | i in rows ensures i.id in db.items && db.items[i.id] == i && StoredInv(i) {
      CandidatesAreChosen(db, ownerId, q, now, includeScheduled, rows, i);
      RowIdentity(db, ownerId, i.id);
    }
  }

  /** Whichever query a check runs and in whatever order it returns its rows, the ready entries are
      those of the whole scope: asking for the scheduled items too adds no entry, and the indexed
      branches miss none. */
  lemma QueryFindsEverythingReady(
      db: Db, ownerId: string, q: CheckQuery, now: Instant, includeScheduled: bool, rows: seq<Item>)
    requires DbInv(db, ownerId) && IsCandidateList(db, ownerId, q, now, includeScheduled, rows)
    ensures Elements(ReadyFrom(rows, now, q.context)) == ReadySet(db, ownerId, q, now)
    ensures DistinctIds(ReadyFrom(rows, now, q.context))
  {
    hide DbInv, IsCandidateList, StoredInv, EntryOf, InScope, InBranch;
    ChosenIdsDistinct(db, ownerId, q, now, includeScheduled, rows);
    ReadyFromDistinct(rows, now, q.context);
    forall e: ReadyEntry
      ensures e in Elements(ReadyFrom(rows, now, q.context)) <==> e in ReadySet(db, ownerId, q, now)
    {
      ReadyFromElements(rows, now, q.context, e);
      if e in Elements(ReadyFrom(rows, now, q.context)) {
        var i :| i in rows && EntryOf(i, now, q.context) == Some(e);
        CandidatesAreChosen(db, ownerId, q, now, includeScheduled, rows, i);
      }
      if e in ReadySet(db, ownerId, q, now) {
        var id :| id in db.items && InScope(db.items[id], ownerId, q)
                  && EntryOf(db.items[id], now, q.context) == Some(e);
        ReadyRowIsChosen(db, ownerId, q, now, includeScheduled, id);
        CandidatesAreChosen(db, ownerId, q, now, includeScheduled, rows, db.items[id]);
      }
    }
  }

  lemma ReadyRowIsChosen(db: Db, ownerId: string, q: CheckQuery, now: Instant, includeScheduled: bool, id: Uuid)
    requires DbInv(db, ownerId) && id in db.items && InScope(db.items[id], ownerId, q)
    requires EntryOf(db.items[id], now, q.context).Some?
    ensures Chosen(db, ownerId, q, now, includeScheduled, db.items[id])
  {
    hide DbInv, StoredInv, ItemInv, EntryOf, InBranch, InScope;
    RowIdentity(db, ownerId, id);
    EntryFields(db.items[id], now, q.context);
    if !InSomeBranch(db.items[id], now) {
      UnselectedIsNotReady(db.items[id], now, q.context);
    }
  }

  /** What a check goes through, before any cursor: one sequence, the same for both queries and for
      every order of the rows. */
  lemma QueriesAgree(
      db: Db, ownerId: string, q: CheckQuery, now: Instant,
      someScheduled: bool, some: seq<Item>, otherScheduled: bool, other: seq<Item>)
    requires DbInv(db, ownerId)
    requires IsCandidateList(db, ownerId, q, now, someScheduled, some)
    requires IsCandidateList(db, ownerId, q, now, otherScheduled, other)
    ensures SortReady(ReadyFrom(some, now, q.context)) == SortReady(ReadyFrom(other, now, q.context))
  {
    hide DbInv, IsCandidateList, Before;
    QueryFindsEverythingReady(db, ownerId, q, now, someScheduled, some);
    QueryFindsEverythingReady(db, ownerId, q, now, otherScheduled, other);
    SortReadySorts(ReadyFrom(some, now, q.context));
    SortReadySorts(ReadyFrom(other, now, q.context));
    SortedIsUnique(SortReady(ReadyFrom(some, now, q.context)), SortReady(ReadyFrom(other, now, q.context)));
  }
}
