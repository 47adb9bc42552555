/** What a readiness check shows and in which order, said by the fields and kinds of the items alone
    (src/remindi/service.rs, `check`, `check_order`, `readiness_rank`, `priority_rank`). */
module CheckLaws {
  import opened Wrappers
  import opened Model
  import opened Lifecycle
  import opened Store
  import opened StoreRuns
  import opened CheckPages
  import opened CheckWalk

  // ---------------------------------------------------------------- the order

  /** Overdue items come before due ones and these before manual verifications. */
  predicate MoreUrgent(a: Readiness, b: Readiness) {
    match a
    case ReadyOverdue => b != ReadyOverdue
    case ReadyDue => b == ManualVerification
    case ManualVerification => false
  }

  /** Critical, high, normal, low. */
  predicate MoreImportant(a: Priority, b: Priority) {
    match a
    case Critical => b != Critical
    case High => b == Normal || b == Low
    case Normal => b == Low
    case Low => false
  }

  /** The earlier anchor, and any anchor before none. */
  predicate EarlierAnchor(a: Option<Instant>, b: Option<Instant>) {
    a.Some? && (b.None? || a.value < b.value)
  }

  predicate ShownBefore(a: CheckedItem, b: CheckedItem) {
    || MoreUrgent(a.readiness, b.readiness)
    || (a.readiness == b.readiness
        && (|| MoreImportant(a.remindi.priority, b.remindi.priority)
            || (a.remindi.priority == b.remindi.priority
                && (|| EarlierAnchor(a.remindi.nextFireAt, b.remindi.nextFireAt)
                    || (a.remindi.nextFireAt == b.remindi.nextFireAt && a.remindi.id < b.remindi.id)))))
  }

  /** The comparator puts an item first exactly for these reasons. */
  lemma OrderByName(a: CheckedItem, b: CheckedItem)
    ensures CheckOrder(a, b) == Less <==> ShownBefore(a, b)
    ensures CheckOrder(a, b) == Greater <==> ShownBefore(b, a)
  {
  }

  predicate InOrder(items: seq<CheckedItem>) {
    forall j, k :: 0 <= j < k < |items| ==> ShownBefore(items[j], items[k])
  }

  /** What is shown of an entry has the entry's place in the order. */
  lemma ShownKeepsPlace(db: Db, ownerId: string, e: ReadyEntry, call: CheckCall)
    requires DbInv(db, ownerId) && Current(db, e, call)
    ensures
      var s := Shown(e);
      && s.readiness == e.checked.readiness && s.remindi.id == e.checked.remindi.id
      && s.remindi.priority == e.checked.remindi.priority && s.remindi.nextFireAt == e.checked.remindi.nextFireAt
  {
    hide DbInv, EntryOf, StoredInv, ItemInv;
    RowIdentity(db, ownerId, e.checked.remindi.id);
    EntryFields(db.items[e.checked.remindi.id], call.now, call.query.context);
  }

  lemma ListIsInOrder(db: Db, ownerId: string, s: seq<ReadyEntry>, call: CheckCall)
    requires DbInv(db, ownerId) && IsRemaining(db, ownerId, s, call)
    ensures InOrder(ShownAll(s))
  {
    hide DbInv, IsRemaining, Shown, ShownBefore, CheckOrder, ReadySet;
    forall j, k | 0 <= j < k < |s| ensures ShownBefore(ShownAll(s)[j], ShownAll(s)[k]) {
      assert s[j] in s && s[k] in s;
      RemainingHas(db, ownerId, s, call, s[j]);
      RemainingHas(db, ownerId, s, call, s[k]);
      RemainingSorted(db, ownerId, s, call, j, k);
      OrderByName(s[j].checked, s[k].checked);
      ShownKeepsPlace(db, ownerId, s[j], call);
      ShownKeepsPlace(db, ownerId, s[k], call);
      SamePlace(s[j].checked, s[k].checked, Shown(s[j]), Shown(s[k]));
    }
  }

  lemma SamePlace(a: CheckedItem, b: CheckedItem, x: CheckedItem, y: CheckedItem)
    requires a.readiness == x.readiness && a.remindi.id == x.remindi.id
    requires a.remindi.priority == x.remindi.priority && a.remindi.nextFireAt == x.remindi.nextFireAt
    requires b.readiness == y.readiness && b.remindi.id == y.remindi.id
    requires b.remindi.priority == y.remindi.priority && b.remindi.nextFireAt == y.remindi.nextFireAt
    ensures ShownBefore(a, b) <==> ShownBefore(x, y)
  {
  }

  lemma RemainingSorted(db: Db, ownerId: string, s: seq<ReadyEntry>, call: CheckCall, j: nat, k: nat)
    requires IsRemaining(db, ownerId, s, call) && j < k < |s|
    ensures CheckOrder(s[j].checked, s[k].checked) == Less
  {
    hide ReadySet, Beyond, EntryOf, CheckOrder;
    assert Before(s[j], s[k]);
  }

  /** What is left of a page when others have written meanwhile keeps its order. */
  lemma {:induction false} CommittedKeepsOrder(db: Db, entries: seq<ReadyEntry>, call: CheckCall)
    requires InOrder(ShownAll(entries))
    ensures InOrder(CommitEntries(db, entries, call).1)
    ensures |CommitEntries(db, entries, call).1| <= |entries|
    ensures forall i :: i in CommitEntries(db, entries, call).1 ==> i in ShownAll(entries)
  {
    hide ShownBefore, Persists, PersistEvaluated, Shown;
    if entries != [] {
      var init, last := entries[..|entries| - 1], entries[|entries| - 1];
      assert ShownAll(entries) == ShownAll(init) + [Shown(last)];
      forall j, k | 0 <= j < k < |ShownAll(init)| ensures ShownBefore(ShownAll(init)[j], ShownAll(init)[k]) {
        assert ShownBefore(ShownAll(entries)[j], ShownAll(entries)[k]);
      }
      CommittedKeepsOrder(db, init, call);
      assert entries == init + [last];
      LastIsBehind(init, last);
      AddsShown(CommitEntries(db, init, call), last, call);
      var before := CommitEntries(db, init, call).1;
      forall j | 0 <= j < |before| ensures ShownBefore(before[j], Shown(last)) {
        assert before[j] in ShownAll(init);
      }
    }
  }

  lemma LastIsBehind(init: seq<ReadyEntry>, last: ReadyEntry)
    requires InOrder(ShownAll(init + [last]))
    ensures forall i :: i in ShownAll(init) ==> ShownBefore(i, Shown(last))
  {
    hide ShownBefore, Shown;
    var all := ShownAll(init + [last]);
    forall i | i in ShownAll(init) ensures ShownBefore(i, Shown(last)) {
      var j :| 0 <= j < |init| && ShownAll(init)[j] == i;
      assert ShownBefore(all[j], all[|init|]);
    }
  }

  lemma AddsShown(page: (Db, seq<CheckedItem>), e: ReadyEntry, call: CheckCall)
    ensures CommitEntry(page, e, call).1 == page.1 || CommitEntry(page, e, call).1 == page.1 + [Shown(e)]
  {
    hide Persists, PersistEvaluated;
  }

  /** A check shows at most as many items as a page holds, in order, whatever others wrote meanwhile. */
  lemma PageIsInOrder(
      db: Db, ownerId: string, rows: seq<Item>, call: CheckCall, limit: nat, found: Db)
    requires DbInv(db, ownerId)
    requires IsCandidateList(db, ownerId, call.query, call.now, call.includeScheduled, rows)
    ensures
      var shown := CommitEntries(found, Cut(Remaining(rows, call), limit), call).1;
      InOrder(shown) && |shown| <= limit
  {
    hide DbInv, IsCandidateList, Remaining, InOrder, ReadySet, Before;
    var s := Remaining(rows, call);
    RemainingElements(db, ownerId, rows, call);
    ListIsInOrder(db, ownerId, s, call);
    PrefixInOrder(s, Cut(s, limit));
    CommittedKeepsOrder(found, Cut(s, limit), call);
  }

  lemma PrefixInOrder(s: seq<ReadyEntry>, p: seq<ReadyEntry>)
    requires p <= s && InOrder(ShownAll(s))
    ensures InOrder(ShownAll(p))
  {
    hide ShownBefore, Shown;
    forall j, k | 0 <= j < k < |p| ensures ShownBefore(ShownAll(p)[j], ShownAll(p)[k]) {
      assert ShownAll(p)[j] == ShownAll(s)[j] && ShownAll(p)[k] == ShownAll(s)[k];
    }
  }

  /** All pages of a walk together show the items in this order. */
  lemma WalkIsInOrder(ownerId: string, visits: seq<Visit>)
    requires IsWalk(ownerId, visits) && DbInv(visits[0].db, ownerId)
    ensures InOrder(Collected(visits))
  {
    assert |visits| > 0;
    hide DbInv, IsWalk, Collected, Remaining, InOrder, ReadySet, Before, IsCandidateList;
    FirstVisit(ownerId, visits);
    var v := visits[0];
    RemainingElements(v.db, ownerId, v.rows, v.call);
    ListIsInOrder(v.db, ownerId, Remaining(v.rows, v.call), v.call);
    WalkShowsRemaining(ownerId, visits);
  }

  // ---------------------------------------------------------------- who is shown

  /** A row that a check finds ready: due or overdue, awake again, or firing without its condition being
      asked. */
  predicate IsReadyRow(row: Item, now: Instant, context: CheckContext) {
    match row.state
    case Due => true
    case Overdue => true
    case Snoozed => row.snoozeUntil.Some? && row.snoozeUntil.value <= now
    case Scheduled => Fires(row, now, context, NotEvaluated)
    case Completed => false
    case Cancelled => false
  }

  lemma EntryIff(row: Item, now: Instant, context: CheckContext)
    requires StoredInv(row)
    ensures EntryOf(row, now, context).Some? <==> IsReadyRow(row, now, context)
  {
    hide Fires;
    StoredIsInvariant(row);
    if row.state.Scheduled? {
      ScheduledItemIsDueIff(row, now, context, NotEvaluated);
      hide Evaluate;
    } else if !row.state.IsTerminal() {
      ReadyItemIsOverdueIff(row, now, context, NotEvaluated);
      hide Evaluate;
    }
  }

  /** A check lists an item exactly when it is the owner's, of the project, of the task if one is named,
      and ready; with a cursor, when it also stands behind it. */
  lemma ListedExactly(db: Db, ownerId: string, rows: seq<Item>, call: CheckCall, id: Uuid)
    requires DbInv(db, ownerId) && id in db.items
    requires IsCandidateList(db, ownerId, call.query, call.now, call.includeScheduled, rows)
    requires call.cursor.None?
    ensures
      var row := db.items[id];
      (exists e :: e in Remaining(rows, call) && e.checked.remindi.id == id) <==>
        && row.ownerId == ownerId
        && row.projectId == call.query.projectId
        && (call.query.taskId.Some? ==> row.taskId == Some(call.query.taskId.value))
        && IsReadyRow(row, call.now, call.query.context)
  {
    hide DbInv, IsCandidateList, Remaining, EntryOf, ReadySet, IsReadyRow, StoredInv, ItemInv;
    var row := db.items[id];
    RowIdentity(db, ownerId, id);
    EntryIff(row, call.now, call.query.context);
    RemainingElements(db, ownerId, rows, call);
    var s := Remaining(rows, call);
    if e :| e in s && e.checked.remindi.id == id {
      RemainingHas(db, ownerId, s, call, e);
      ReadyIsCurrent(db, ownerId, call, e);
    }
    if EntryOf(row, call.now, call.query.context).Some? {
      var e := EntryOf(row, call.now, call.query.context).value;
      EntryFields(row, call.now, call.query.context);
      RemainingHas(db, ownerId, s, call, e);
      ReadyIsCurrent(db, ownerId, call, e);
    }
  }

  /** A page is full when there is another one after it, and the last page shows all that is left. */
  lemma PagesAreFull(ownerId: string, v: Visit)
    requires DbInv(v.db, ownerId) && GoodVisit(ownerId, v)
    ensures PageOf(v).next.Some? ==> |PageOf(v).items| == if v.call.limit == 0 then 50 else v.call.limit
    ensures PageOf(v).next.None? ==> PageOf(v).items == ShownAll(Remaining(v.rows, v.call))
  {
    hide DbInv, IsCandidateList, Remaining, CommitEntries, CheckPages.CursorOf;
    ServedPage(ownerId, v);
  }
}
