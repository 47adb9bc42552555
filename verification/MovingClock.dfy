/** A walk along the cursors of a check while the clock moves: what it shows, and exactly what it
    misses (src/remindi/service.rs, `check`). */
module MovingClock {
  import opened Wrappers
  import opened Model
  import opened Lifecycle
  import opened Store
  import opened StoreRuns
  import opened CheckPages
  import opened CheckWalk

  // ---------------------------------------------------------------- one row at two times

  /** The keys of the order that no clock moves. */
  predicate SameKeys(a: CheckedItem, b: CheckedItem) {
    && a.remindi.priority == b.remindi.priority && a.remindi.nextFireAt == b.remindi.nextFireAt
    && a.remindi.id == b.remindi.id
  }

  /** By `later` the row has become overdue, and as an overdue item it stands before the cursor. */
  predicate Overtaken(row: Item, c: CheckCursor, later: Instant) {
    && (row.state.Due? || row.state.Snoozed?)
    && GraceExpired(row, later)
    && !AfterCursor(CheckedItem(row, ReadyOverdue), c)
  }

  /** A ready row stays ready, and only rises in the order. */
  lemma ReadyRowRises(row: Item, now: Instant, later: Instant, context: CheckContext)
    requires StoredInv(row) && now <= later && EntryOf(row, now, context).Some?
    ensures
      var e, f := EntryOf(row, now, context), EntryOf(row, later, context);
      && f.Some?
      && ReadinessRank(f.value.checked.readiness) <= ReadinessRank(e.value.checked.readiness)
      && SameKeys(e.value.checked, f.value.checked)
      && SameKeys(e.value.checked, CheckedItem(row, ReadyOverdue))
      && (f.value.checked.readiness == e.value.checked.readiness
          || (f.value.checked.readiness.ReadyOverdue? && (row.state.Due? || row.state.Snoozed?)
              && GraceExpired(row, later)))
      && (e.value.checked.readiness.ReadyOverdue? || f.value.checked.readiness.ReadyOverdue?
            || !((row.state.Due? || row.state.Snoozed?) && GraceExpired(row, later)))
  {
    EvaluationKeepsInvariant(row, now, context, NotEvaluated);
    EvaluationKeepsInvariant(row, later, context, NotEvaluated);
  }

  /** A row that was ready and still to come at one time is still to come at a later one exactly when it
      has not been overtaken. */
  lemma StillToComeIff(row: Item, c: CheckCursor, now: Instant, later: Instant, context: CheckContext)
    requires StoredInv(row) && now <= later
    requires EntryOf(row, now, context).Some? && AfterCursor(EntryOf(row, now, context).value.checked, c)
    ensures EntryOf(row, later, context).Some?
    ensures AfterCursor(EntryOf(row, later, context).value.checked, c) <==> !Overtaken(row, c, later)
  {
    hide EntryOf, GraceExpired, StoredInv;
    ReadyRowRises(row, now, later, context);
  }

  /** Behind a cursor among the due items or the manual verifications, being overtaken is nothing but
      the end of the grace. */
  lemma OvertakenBehindDue(row: Item, c: CheckCursor, later: Instant)
    requires c.readiness >= ReadinessRank(ReadyDue)
    ensures Overtaken(row, c, later) <==> (row.state.Due? || row.state.Snoozed?) && GraceExpired(row, later)
  {
  }

  /** A row that was ready and not to come stays so. */
  lemma NotToComeStays(row: Item, c: CheckCursor, now: Instant, later: Instant, context: CheckContext)
    requires StoredInv(row) && now <= later
    requires EntryOf(row, now, context).Some? && !AfterCursor(EntryOf(row, now, context).value.checked, c)
    ensures EntryOf(row, later, context).Some?
    ensures !AfterCursor(EntryOf(row, later, context).value.checked, c)
  {
    hide EntryOf, GraceExpired, StoredInv, AfterCursor;
    ReadyRowRises(row, now, later, context);
    LowerRankIsNotBeyond(EntryOf(row, now, context).value.checked, EntryOf(row, later, context).value.checked, c);
  }

  /** A served row is never again after a cursor it was not after: not at any later time, and not in any
      other context. */
  lemma ServedRowStaysBehind(
      row: Item, c: CheckCursor, now: Instant, context: CheckContext, later: Instant, other: CheckContext)
    requires StoredInv(row) && now <= later
    requires EntryOf(row, now, context).Some? && !AfterCursor(EntryOf(row, now, context).value.checked, c)
    ensures
      var again := EntryOf(RowAfter(EntryOf(row, now, context).value), later, other);
      again.Some? && !AfterCursor(again.value.checked, c)
  {
    hide AfterCursor, EntryOf, StoredInv;
    var e := EntryOf(row, now, context).value;
    ServedRowRises(row, now, context, later, other);
    LowerRankIsNotBeyond(e.checked, EntryOf(RowAfter(e), later, other).value.checked, c);
  }

  lemma ServedRowRises(row: Item, now: Instant, context: CheckContext, later: Instant, other: CheckContext)
    requires StoredInv(row) && now <= later && EntryOf(row, now, context).Some?
    ensures
      var e := EntryOf(row, now, context).value;
      var again := EntryOf(RowAfter(e), later, other);
      && again.Some?
      && ReadinessRank(again.value.checked.readiness) <= ReadinessRank(e.checked.readiness)
      && SameKeys(e.checked, again.value.checked)
  {
    EvaluationKeepsInvariant(row, now, context, NotEvaluated);
    ReadyComesBackReady(row, now, context);
  }

  // ---------------------------------------------------------------- walks

  /** A client follows the cursors of one query to the end; nobody else writes, and the clock does not
      go back. */
  ghost predicate IsClockWalk(ownerId: string, visits: seq<Visit>) {
    && |visits| > 0
    && GoodVisit(ownerId, visits[0])
    && var page := PageOf(visits[0]);
    if |visits| == 1 then page.next.None?
    else
      && page.next.Some?
      && visits[1].db == page.db && visits[1].call.cursor == page.next
      && visits[1].call.query == visits[0].call.query && visits[0].call.now <= visits[1].call.now
      && IsClockWalk(ownerId, visits[1..])
  }

  /** A walk at one instant is a walk with a clock that stands still. */
  lemma {:induction false} StandingClock(ownerId: string, visits: seq<Visit>)
    requires IsWalk(ownerId, visits)
    ensures IsClockWalk(ownerId, visits)
  {
    hide GoodVisit, PageOf;
    if |visits| > 1 {
      StandingClock(ownerId, visits[1..]);
    }
  }

  predicate ShowsId(items: seq<CheckedItem>, id: Uuid) {
    exists k :: 0 <= k < |items| && items[k].remindi.id == id
  }

  lemma ShowsEither(a: seq<CheckedItem>, b: seq<CheckedItem>, id: Uuid)
    ensures ShowsId(a + b, id) <==> ShowsId(a, id) || ShowsId(b, id)
  {
    if k :| 0 <= k < |a| && a[k].remindi.id == id {
      assert (a + b)[k].remindi.id == id;
    }
    if k :| 0 <= k < |b| && b[k].remindi.id == id {
      assert (a + b)[|a| + k].remindi.id == id;
    }
  }

  /** The entry of a row at a visit. */
  function EntryAt(row: Item, v: Visit): Option<ReadyEntry> {
    EntryOf(row, v.call.now, v.call.query.context)
  }

  predicate IsInScope(v: Visit, ownerId: string, id: Uuid) {
    id in v.db.items && InScope(v.db.items[id], ownerId, v.call.query)
  }

  /** What a visit lists. */
  function Listed(v: Visit): seq<ReadyEntry> {
    Remaining(v.rows, v.call)
  }

  lemma ListedFacts(ownerId: string, v: Visit)
    requires DbInv(v.db, ownerId) && GoodVisit(ownerId, v)
    ensures IsRemaining(v.db, ownerId, Listed(v), v.call)
    ensures DbInv(PageOf(v).db, ownerId)
    ensures PageOf(v).items == ShownAll(Cut(Listed(v), v.limit))
    ensures Served(v.db, PageOf(v).db, Cut(Listed(v), v.limit))
  {
    hide DbInv, IsCandidateList, Remaining, CommitEntries, EntryOf, AfterCursor, InScope, ReadySet, Before, Served;
    RemainingElements(v.db, ownerId, v.rows, v.call);
    CommitEntriesEffect(v.db, ownerId, Cut(Listed(v), v.limit), v.call);
  }

  /** An item is listed at a visit exactly when it is ready there and beyond the cursor. */
  lemma ListedIff(ownerId: string, v: Visit, id: Uuid, e: ReadyEntry)
    requires DbInv(v.db, ownerId) && IsRemaining(v.db, ownerId, Listed(v), v.call) && id in v.db.items
    ensures e in Listed(v) && e.checked.remindi.id == id <==>
      && EntryAt(v.db.items[id], v) == Some(e) && InScope(v.db.items[id], ownerId, v.call.query)
      && Beyond(e, v.call.cursor)
    ensures EntryAt(v.db.items[id], v) == Some(e) ==> StoredInv(v.db.items[id]) && e.checked.remindi.id == id
  {
    hide DbInv, EntryOf, InScope, ReadySet, AfterCursor, Remaining, StoredInv, ItemInv, Before, Beyond;
    RowIdentity(v.db, ownerId, id);
    if EntryAt(v.db.items[id], v).Some? {
      EntryFields(v.db.items[id], v.call.now, v.call.query.context);
    }
    ReadyIsCurrent(v.db, ownerId, v.call, e);
  }

  /** The identifiers a page shows are those of its entries. */
  lemma PageShows(db: Db, ownerId: string, entries: seq<ReadyEntry>, call: CheckCall, id: Uuid)
    requires DbInv(db, ownerId) && forall e :: e in entries ==> Current(db, e, call)
    ensures ShowsId(ShownAll(entries), id) <==> IsServed(entries, id)
  {
    hide DbInv, Current;
    forall k | 0 <= k < |entries| ensures Shown(entries[k]).remindi.id == entries[k].checked.remindi.id {
      assert entries[k] in entries;
      ShownHasId(db, ownerId, entries[k], call);
    }
    if ShowsId(ShownAll(entries), id) {
      var k :| 0 <= k < |entries| && ShownAll(entries)[k].remindi.id == id;
      assert entries[k] in entries;
    }
    if IsServed(entries, id) {
      var e :| e in entries && e.checked.remindi.id == id;
      var k :| 0 <= k < |entries| && entries[k] == e;
      assert ShownAll(entries)[k].remindi.id == id;
    }
  }

  lemma ShownHasId(db: Db, ownerId: string, e: ReadyEntry, call: CheckCall)
    requires DbInv(db, ownerId) && Current(db, e, call)
    ensures Shown(e).remindi.id == e.checked.remindi.id
  {
    hide DbInv, EntryOf, StoredInv, ItemInv;
    RowIdentity(db, ownerId, e.checked.remindi.id);
    EntryFields(db.items[e.checked.remindi.id], call.now, call.query.context);
  }

  /** An entry of a list stands on its page, or is beyond the next cursor. */
  lemma OnPageOrBeyond(ownerId: string, v: Visit, e: ReadyEntry)
    requires IsRemaining(v.db, ownerId, Listed(v), v.call) && e in Listed(v)
    ensures
      var next := NextCursor(Listed(v), v.limit);
      if next.None? then e in Cut(Listed(v), v.limit)
      else e in Cut(Listed(v), v.limit) <==> !AfterCursor(e.checked, next.value)
  {
    hide Current, ReadySet, Remaining, AfterCursor, Before, CursorOf, Beyond, DistinctIds;
    var s := Listed(v);
    if |s| > v.limit {
      var k :| 0 <= k < |s| && s[k] == e;
      CursorCuts(s, v.limit - 1, k);
      if e in s[..v.limit] {
        var j :| 0 <= j < v.limit && s[j] == e;
        CursorCuts(s, v.limit - 1, j);
      }
    }
  }

  /** Whatever is after the next cursor is after the present one. */
  lemma NextCursorIsFurther(ownerId: string, v: Visit, i: CheckedItem)
    requires IsRemaining(v.db, ownerId, Listed(v), v.call)
    requires NextCursor(Listed(v), v.limit).Some?
    requires AfterCursor(i, NextCursor(Listed(v), v.limit).value)
    ensures v.call.cursor.Some? ==> AfterCursor(i, v.call.cursor.value)
  {
    hide Current, ReadySet, Remaining, AfterCursor, Before, CursorOf;
    var last := Listed(v)[v.limit - 1];
    assert last in Listed(v);
    if v.call.cursor.Some? {
      AfterCursorIsTransitive(last.checked, i, v.call.cursor.value);
    }
  }

  /** The facts about the first visit of a walk and the step to the next. */
  ghost predicate Steps(ownerId: string, visits: seq<Visit>) {
    && |visits| > 0
    && DbInv(visits[0].db, ownerId)
    && IsRemaining(visits[0].db, ownerId, Listed(visits[0]), visits[0].call)
    && (|visits| > 1 ==>
          && DbInv(visits[1].db, ownerId)
          && Served(visits[0].db, visits[1].db, Cut(Listed(visits[0]), visits[0].limit))
          && visits[1].call.cursor == NextCursor(Listed(visits[0]), visits[0].limit)
          && visits[1].call.cursor.Some?
          && visits[1].call.query == visits[0].call.query && visits[0].call.now <= visits[1].call.now
          && IsClockWalk(ownerId, visits[1..]))
    && (|visits| == 1 ==> NextCursor(Listed(visits[0]), visits[0].limit).None?)
  }

  lemma WalkSteps(ownerId: string, visits: seq<Visit>)
    requires IsClockWalk(ownerId, visits) && DbInv(visits[0].db, ownerId)
    ensures |visits| > 0 && Steps(ownerId, visits)
    ensures PageOf(visits[0]).items == ShownAll(Cut(Listed(visits[0]), visits[0].limit))
  {
    assert |visits| > 0;
    hide DbInv, GoodVisit, IsRemaining, Served, CommitEntries;
    ListedFacts(ownerId, visits[0]);
  }

  /** The identifiers of a walk are those of its first page and those of the rest. */
  lemma CollectedShows(ownerId: string, visits: seq<Visit>, id: Uuid)
    requires |visits| > 0 && Steps(ownerId, visits)
    requires PageOf(visits[0]).items == ShownAll(Cut(Listed(visits[0]), visits[0].limit))
    ensures ShowsId(Collected(visits), id) <==>
      IsServed(Cut(Listed(visits[0]), visits[0].limit), id) || ShowsId(Collected(visits[1..]), id)
  {
    hide DbInv, Current, ReadySet, Remaining, Before, Beyond, ShowsId, IsServed, Served, IsClockWalk;
    var page := Cut(Listed(visits[0]), visits[0].limit);
    forall e | e in page ensures Current(visits[0].db, e, visits[0].call) {
      assert e in Listed(visits[0]);
    }
    PageShows(visits[0].db, ownerId, page, visits[0].call, id);
    ShowsEither(PageOf(visits[0]).items, Collected(visits[1..]), id);
  }

  /** An item that a page does not show keeps its row. */
  lemma UnservedKeepsRow(ownerId: string, visits: seq<Visit>, id: Uuid)
    requires |visits| > 1 && Steps(ownerId, visits) && id in visits[0].db.items
    requires !IsServed(Cut(Listed(visits[0]), visits[0].limit), id)
    ensures id in visits[1].db.items && visits[1].db.items[id] == visits[0].db.items[id]
  {
    hide DbInv, IsRemaining, IsClockWalk, IsServed, NextCursor;
    assert HasRow(visits[1].db, id, visits[0].db.items[id]);
  }

  /** An item that is ready but not to come is never shown again. */
  lemma {:induction false} NeverShown(ownerId: string, visits: seq<Visit>, id: Uuid)
    requires IsClockWalk(ownerId, visits) && DbInv(visits[0].db, ownerId) && id in visits[0].db.items
    requires EntryAt(visits[0].db.items[id], visits[0]).Some?
    requires !Beyond(EntryAt(visits[0].db.items[id], visits[0]).value, visits[0].call.cursor)
    ensures !ShowsId(Collected(visits), id)
  {
    hide DbInv, IsRemaining, Served, EntryOf, InScope, AfterCursor, StoredInv, ItemInv, NextCursor, ShowsId,
      GoodVisit, PageOf, IsServed, Collected;
    var v := visits[0];
    var row := v.db.items[id];
    var e := EntryAt(row, v).value;
    WalkSteps(ownerId, visits);
    CollectedShows(ownerId, visits, id);
    NotOnPage(ownerId, v, id);
    ListedIff(ownerId, v, id, e);
    if |visits| > 1 {
      UnservedKeepsRow(ownerId, visits, id);
      NotToComeStays(row, v.call.cursor.value, v.call.now, visits[1].call.now, v.call.query.context);
      var later := EntryAt(row, visits[1]).value;
      if Beyond(later, visits[1].call.cursor) {
        NextCursorIsFurther(ownerId, v, later.checked);
      }
      NeverShown(ownerId, visits[1..], id);
    } else {
      NothingCollected(id);
    }
  }

  lemma NothingCollected(id: Uuid)
    ensures !ShowsId(Collected([]), id)
  {
  }

  lemma NotOnPage(ownerId: string, v: Visit, id: Uuid)
    requires DbInv(v.db, ownerId) && IsRemaining(v.db, ownerId, Listed(v), v.call) && id in v.db.items
    requires EntryAt(v.db.items[id], v).Some? && !Beyond(EntryAt(v.db.items[id], v).value, v.call.cursor)
    ensures !IsServed(Cut(Listed(v), v.limit), id)
  {
    hide DbInv, IsRemaining, EntryOf, InScope, Beyond, Remaining;
    if p :| p in Cut(Listed(v), v.limit) && p.checked.remindi.id == id {
      assert p in Listed(v);
      ListedIff(ownerId, v, id, p);
    }
  }

  /** With a clock that does not go back, and no other writer, no walk shows an item twice. */
  lemma {:induction false} NothingTwice(ownerId: string, visits: seq<Visit>)
    requires IsClockWalk(ownerId, visits) && DbInv(visits[0].db, ownerId)
    ensures forall j, k :: 0 <= j < k < |Collected(visits)| ==>
      Collected(visits)[j].remindi.id != Collected(visits)[k].remindi.id
  {
    hide DbInv, IsRemaining, Served, EntryOf, InScope, AfterCursor, NextCursor, ShowsId, GoodVisit, PageOf, Current;
    var page := Cut(Listed(visits[0]), visits[0].limit);
    WalkSteps(ownerId, visits);
    PageIsDistinct(ownerId, visits[0]);
    var shown, rest := PageOf(visits[0]).items, Collected(visits[1..]);
    if |visits| > 1 {
      NothingTwice(ownerId, visits[1..]);
      forall j, k | 0 <= j < |shown| && 0 <= k < |rest| ensures shown[j].remindi.id != rest[k].remindi.id {
        ServedNotShownAgain(ownerId, visits, page[j]);
        PageIds(ownerId, visits[0]);
        ShownAt(rest, k);
      }
    }
  }

  lemma ShownAt(items: seq<CheckedItem>, k: nat)
    requires k < |items|
    ensures ShowsId(items, items[k].remindi.id)
  {
  }

  lemma PageIds(ownerId: string, v: Visit)
    requires DbInv(v.db, ownerId) && IsRemaining(v.db, ownerId, Listed(v), v.call)
    ensures
      var page := Cut(Listed(v), v.limit);
      forall k :: 0 <= k < |page| ==> ShownAll(page)[k].remindi.id == page[k].checked.remindi.id
  {
    hide DbInv, Current, ReadySet, Remaining, Before, Beyond, DistinctIds;
    var page := Cut(Listed(v), v.limit);
    forall k | 0 <= k < |page| ensures ShownAll(page)[k].remindi.id == page[k].checked.remindi.id {
      assert page[k] in Listed(v);
      ShownHasId(v.db, ownerId, page[k], v.call);
    }
  }

  lemma PageIsDistinct(ownerId: string, v: Visit)
    requires DbInv(v.db, ownerId) && IsRemaining(v.db, ownerId, Listed(v), v.call)
    ensures
      var shown := ShownAll(Cut(Listed(v), v.limit));
      forall j, k :: 0 <= j < k < |shown| ==> shown[j].remindi.id != shown[k].remindi.id
  {
    hide DbInv, Current, ReadySet, Remaining, Before, Beyond;
    PageIds(ownerId, v);
  }

  lemma ServedNotShownAgain(ownerId: string, visits: seq<Visit>, e: ReadyEntry)
    requires IsClockWalk(ownerId, visits) && DbInv(visits[0].db, ownerId) && |visits| > 1
    requires e in Cut(Listed(visits[0]), visits[0].limit)
    ensures !ShowsId(Collected(visits[1..]), e.checked.remindi.id)
  {
    hide DbInv, Served, EntryOf, InScope, AfterCursor, StoredInv, ItemInv, NextCursor, ShowsId, GoodVisit, PageOf,
      Collected, IsServed, IsRemaining, RowAfter, ReadySet, Before;
    var v, w := visits[0], visits[1];
    var id := e.checked.remindi.id;
    WalkSteps(ownerId, visits);
    assert e in Listed(v);
    EntryIsCurrent(ownerId, v, e);
    ListedIff(ownerId, v, id, e);
    OnPageOrBeyond(ownerId, v, e);
    ServedHasRow(visits[0].db, w.db, Cut(Listed(v), v.limit), e);
    ServedRowStaysBehind(
      v.db.items[id], w.call.cursor.value, v.call.now, v.call.query.context, w.call.now, w.call.query.context);
    NeverShown(ownerId, visits[1..], id);
  }

  lemma EntryIsCurrent(ownerId: string, v: Visit, e: ReadyEntry)
    requires IsRemaining(v.db, ownerId, Listed(v), v.call) && e in Listed(v)
    ensures e.checked.remindi.id in v.db.items
    ensures EntryAt(v.db.items[e.checked.remindi.id], v) == Some(e)
  {
    hide EntryOf, ReadySet, Before, Beyond, Remaining;
  }

  lemma ServedHasRow(db: Db, after: Db, entries: seq<ReadyEntry>, e: ReadyEntry)
    requires Served(db, after, entries) && e in entries
    ensures e.checked.remindi.id in after.items && after.items[e.checked.remindi.id] == RowAfter(e)
  {
    hide RowAfter;
    assert HasRow(after, e.checked.remindi.id, RowAfter(e));
  }

  // ---------------------------------------------------------------- what a walk misses

  /** Between two checks the row, still to come after the first, was overtaken. */
  predicate PassedOver(row: Item, v: Visit, w: Visit) {
    && w.call.cursor.Some?
    && EntryAt(row, v).Some? && AfterCursor(EntryAt(row, v).value.checked, w.call.cursor.value)
    && Overtaken(row, w.call.cursor.value, w.call.now)
  }

  predicate NeverPassedOver(row: Item, visits: seq<Visit>) {
    |visits| <= 1 || (!PassedOver(row, visits[0], visits[1]) && NeverPassedOver(row, visits[1..]))
  }

  /** A row that is ready and not to come cannot be passed over any more. */
  lemma {:induction false} NotToComeNeverPassed(ownerId: string, visits: seq<Visit>, row: Item)
    requires IsClockWalk(ownerId, visits) && DbInv(visits[0].db, ownerId) && StoredInv(row)
    requires EntryAt(row, visits[0]).Some?
    requires |visits| > 1 ==> !Beyond(EntryAt(row, visits[0]).value, visits[1].call.cursor)
    ensures NeverPassedOver(row, visits)
  {
    hide DbInv, IsRemaining, Served, EntryOf, InScope, AfterCursor, StoredInv, NextCursor, GoodVisit, PageOf, Overtaken;
    if |visits| > 1 {
      var v, w := visits[0], visits[1];
      WalkSteps(ownerId, visits);
      NotToComeStays(row, w.call.cursor.value, v.call.now, w.call.now, v.call.query.context);
      if |visits| > 2 {
        WalkSteps(ownerId, visits[1..]);
        if AfterCursor(EntryAt(row, w).value.checked, visits[2].call.cursor.value) {
          NextCursorIsFurther(ownerId, w, EntryAt(row, w).value.checked);
        }
      }
      NotToComeNeverPassed(ownerId, visits[1..], row);
    }
  }

  lemma {:induction false} ShownIffNeverPassedOver(ownerId: string, visits: seq<Visit>, id: Uuid)
    requires IsClockWalk(ownerId, visits) && DbInv(visits[0].db, ownerId)
    requires IsInScope(visits[0], ownerId, id)
    requires EntryAt(visits[0].db.items[id], visits[0]).Some?
    requires Beyond(EntryAt(visits[0].db.items[id], visits[0]).value, visits[0].call.cursor)
    ensures ShowsId(Collected(visits), id) <==> NeverPassedOver(visits[0].db.items[id], visits)
  {
    hide DbInv, IsRemaining, Served, EntryOf, InScope, AfterCursor, StoredInv, ItemInv, NextCursor, ShowsId,
      GoodVisit, PageOf, IsServed, Collected, Overtaken;
    var v := visits[0];
    var row := v.db.items[id];
    var e := EntryAt(row, v).value;
    WalkSteps(ownerId, visits);
    CollectedShows(ownerId, visits, id);
    ListedIff(ownerId, v, id, e);
    OnPageOrBeyond(ownerId, v, e);
    ServedIff(ownerId, v, id, e);
    if e in Cut(Listed(v), v.limit) {
      NotToComeNeverPassed(ownerId, visits, row);
    } else {
      var w := visits[1];
      UnservedKeepsRow(ownerId, visits, id);
      StillToComeIff(row, w.call.cursor.value, v.call.now, w.call.now, v.call.query.context);
      if PassedOver(row, v, w) {
        NeverShown(ownerId, visits[1..], id);
      } else {
        ShownIffNeverPassedOver(ownerId, visits[1..], id);
      }
    }
  }

  lemma ServedIff(ownerId: string, v: Visit, id: Uuid, e: ReadyEntry)
    requires DbInv(v.db, ownerId) && IsRemaining(v.db, ownerId, Listed(v), v.call) && id in v.db.items
    requires EntryAt(v.db.items[id], v) == Some(e)
    ensures IsServed(Cut(Listed(v), v.limit), id) <==> e in Cut(Listed(v), v.limit)
  {
    hide DbInv, IsRemaining, EntryOf, InScope, Beyond, Remaining, StoredInv;
    ListedIff(ownerId, v, id, e);
    if p :| p in Cut(Listed(v), v.limit) && p.checked.remindi.id == id {
      assert p in Listed(v);
      ListedIff(ownerId, v, id, p);
    }
  }

  /** The exact condition of completeness: with a clock that does not go back and no other writer, an
      item that was ready at the start is shown unless, between two checks that had not shown it yet, it
      became overdue and so came to stand before the cursor. Nothing else is missed. */
  lemma WalkMissesExactlyTheOvertaken(ownerId: string, visits: seq<Visit>, id: Uuid)
    requires IsClockWalk(ownerId, visits) && DbInv(visits[0].db, ownerId) && visits[0].call.cursor.None?
    requires IsInScope(visits[0], ownerId, id)
    requires EntryAt(visits[0].db.items[id], visits[0]).Some?
    ensures ShowsId(Collected(visits), id) <==> NeverPassedOver(visits[0].db.items[id], visits)
    ensures forall j, k :: 0 <= j < k < |Collected(visits)| ==>
      !(Collected(visits)[j].remindi.id == id && Collected(visits)[k].remindi.id == id)
  {
    assert |visits| > 0;
    hide IsClockWalk, DbInv, Collected, NeverPassedOver, ShowsId, EntryOf, InScope;
    ShownIffNeverPassedOver(ownerId, visits, id);
    NothingTwice(ownerId, visits);
  }

  /** At one instant nothing is overtaken: a walk with a standing clock misses no item. */
  lemma {:induction false} StandingClockMissesNothing(ownerId: string, visits: seq<Visit>, row: Item)
    requires IsWalk(ownerId, visits) && StoredInv(row)
    ensures IsClockWalk(ownerId, visits) && NeverPassedOver(row, visits)
  {
    hide GoodVisit, PageOf, EntryOf, StoredInv, AfterCursor, Overtaken;
    StandingClock(ownerId, visits);
    if |visits| > 1 {
      StandingClockMissesNothing(ownerId, visits[1..], row);
      var v, w := visits[0], visits[1];
      if PassedOver(row, v, w) {
        StillToComeIff(row, w.call.cursor.value, v.call.now, w.call.now, v.call.query.context);
      }
    }
  }
}
