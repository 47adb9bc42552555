/** The item listing: newest first, one page after another, while other clients write
    (src/remindi/service.rs, `list`; src/remindi/repository.rs, `list`). */
module ListWalk {
  import opened Wrappers
  import opened Model
  import opened Lifecycle
  import opened Operations
  import opened Store
  import opened StoreRuns
  import opened StoreTheorems

  datatype TriggerType =
    | AtTimeType | AfterElapsedType | IntervalType | NextSessionType | NextContinuationType | GoalActiveType
    | ConditionType

  function TypeOf(t: Trigger): TriggerType {
    match t
    case AtTime(_) => AtTimeType
    case AfterElapsed(_) => AfterElapsedType
    case Interval(_, _) => IntervalType
    case NextSession => NextSessionType
    case NextContinuation => NextContinuationType
    case GoalActive(_) => GoalActiveType
    case Condition(_, _, _, _) => ConditionType
  }

  datatype ListFilter = ListFilter(
    projectId: Option<string>,
    taskId: Option<string>,
    states: seq<RemindiState>,
    triggerTypes: seq<TriggerType>,
    linkedGoalId: Option<string>,
    linkedMemoryHash: Option<string>)

  predicate HasLink(db: Db, id: Uuid, linkType: LinkType, value: string) {
    id in db.links && exists l :: l in db.links[id] && l.link == LinkInput(linkType, value)
  }

  predicate Matches(db: Db, row: Item, ownerId: string, f: ListFilter) {
    && row.ownerId == ownerId
    && (f.projectId.Some? ==> row.projectId == f.projectId.value)
    && (f.taskId.Some? ==> row.taskId == f.taskId)
    && (f.states != [] ==> row.state in f.states)
    && (f.triggerTypes != [] ==> TypeOf(row.trigger) in f.triggerTypes)
    && (f.linkedGoalId.Some? ==> HasLink(db, row.id, Goal, f.linkedGoalId.value))
    && (f.linkedMemoryHash.Some? ==> HasLink(db, row.id, Memory, f.linkedMemoryHash.value))
  }

  /** The filter names only the project or the task, which nothing changes. */
  predicate Immutable(f: ListFilter) {
    f.states == [] && f.triggerTypes == [] && f.linkedGoalId.None? && f.linkedMemoryHash.None?
  }

  /** The position after an item: its creation time as canonical text, and its identifier. */
  datatype ListCursor = ListCursor(createdAt: Instant, id: Uuid)

  function CursorOf(i: Item): ListCursor {
    ListCursor(Millis(i.createdAt), i.id)
  }

  /** ORDER BY created_at DESC, id ASC. */
  predicate ListBefore(a: ListCursor, b: ListCursor) {
    a.createdAt > b.createdAt || (a.createdAt == b.createdAt && a.id < b.id)
  }

  predicate Beyond(i: Item, after: Option<ListCursor>) {
    after.Some? ==> ListBefore(after.value, CursorOf(i))
  }

  /** What the listing query selects before its LIMIT. */
  ghost predicate IsListing(db: Db, ownerId: string, f: ListFilter, after: Option<ListCursor>, s: seq<Item>) {
    && (forall i :: i in s <==>
          i.id in db.items && db.items[i.id] == i && Matches(db, i, ownerId, f) && Beyond(i, after))
    && (forall j, k :: 0 <= j < k < |s| ==> ListBefore(CursorOf(s[j]), CursorOf(s[k])))
  }

  type Positive = n: nat | n > 0 witness 1

  datatype ListPage = ListPage(items: seq<Item>, next: Option<ListCursor>)

  /** The page a list request returns: one row more than the limit was asked for, to see whether
      there is a next page. */
  function PageFrom(s: seq<Item>, limit: Positive): ListPage {
    if |s| > limit then ListPage(s[..limit], Some(CursorOf(s[limit - 1]))) else ListPage(s, None)
  }

  /** One request of a walk, and the steps of other clients before the next one. */
  datatype ListVisit = ListVisit(
    world: World, after: Option<ListCursor>, limit: Positive, listing: seq<Item>, steps: seq<Step>)

  ghost predicate IsListWalk(ownerId: string, f: ListFilter, visits: seq<ListVisit>) {
    && |visits| > 0
    && var v := visits[0];
    && IsListing(v.world.db, ownerId, f, v.after, v.listing)
    && var next := PageFrom(v.listing, v.limit).next;
    if |visits| == 1 then next.None?
    else
      && next.Some? && visits[1].after == next
      && visits[1].world == Run(v.world, ownerId, v.steps)
      && IsListWalk(ownerId, f, visits[1..])
  }

  function Collected(visits: seq<ListVisit>): seq<Item> {
    if visits == [] then [] else PageFrom(visits[0].listing, visits[0].limit).items + Collected(visits[1..])
  }

  // ---------------------------------------------------------------- items under other steps

  /** Steps never remove an item and never change its identity. */
  lemma {:induction false} RunKeepsIdentity(w: World, ownerId: string, steps: seq<Step>, id: Uuid)
    requires WorldInv(w, ownerId) && id in w.db.items
    ensures id in Run(w, ownerId, steps).db.items
    ensures SameIdentity(w.db.items[id], Run(w, ownerId, steps).db.items[id])
  {
    hide WorldInv, Next;
    if steps != [] {
      var init := steps[..|steps| - 1];
      RunKeepsIdentity(w, ownerId, init, id);
      RunKeepsInvariant(w, ownerId, init);
      StepMovesOneVersion(Run(w, ownerId, init), ownerId, steps[|steps| - 1], id);
    }
  }

  lemma ImmutableStays(db: Db, a: Item, after: Db, b: Item, ownerId: string, f: ListFilter)
    requires Immutable(f) && SameIdentity(a, b)
    ensures Matches(db, a, ownerId, f) <==> Matches(after, b, ownerId, f)
    ensures CursorOf(a) == CursorOf(b)
  {
  }

  // ---------------------------------------------------------------- the walk

  predicate ShowsId(s: seq<Item>, id: Uuid) {
    exists i :: i in s && i.id == id
  }

  lemma CollectedOf(visits: seq<ListVisit>, i: Item)
    requires visits != []
    ensures i in Collected(visits)
       <==> i in PageFrom(visits[0].listing, visits[0].limit).items || i in Collected(visits[1..])
  {
  }

  /** What the first page of a walk shows. */
  lemma PageFacts(ownerId: string, f: ListFilter, visits: seq<ListVisit>, i: Item)
    requires IsListWalk(ownerId, f, visits)
    requires i in PageFrom(visits[0].listing, visits[0].limit).items
    ensures i.id in visits[0].world.db.items && visits[0].world.db.items[i.id] == i
    ensures Matches(visits[0].world.db, i, ownerId, f) && Beyond(i, visits[0].after)
    ensures |visits| > 1 ==> !ListBefore(visits[1].after.value, CursorOf(i))
  {
    hide Matches;
    var v := visits[0];
    assert i in v.listing;
    if |visits| > 1 {
      var j :| 0 <= j < v.limit && v.listing[j] == i;
    }
  }

  /** Every item a walk shows lies beyond the cursor it started from, and has the identity it had at
      the start if it was there. */
  lemma {:induction false} CollectedLieBeyond(ownerId: string, f: ListFilter, visits: seq<ListVisit>, i: Item)
    requires IsListWalk(ownerId, f, visits) && WorldInv(visits[0].world, ownerId) && i in Collected(visits)
    ensures Beyond(i, visits[0].after)
    ensures i.id in visits[0].world.db.items ==> SameIdentity(visits[0].world.db.items[i.id], i)
  {
    hide WorldInv, Run, IsListing, ListBefore;
    CollectedOf(visits, i);
    if i in PageFrom(visits[0].listing, visits[0].limit).items {
      PageFacts(ownerId, f, visits, i);
    } else {
      RunKeepsInvariant(visits[0].world, ownerId, visits[0].steps);
      CollectedLieBeyond(ownerId, f, visits[1..], i);
      NextCursorLiesBeyond(ownerId, f, visits, i);
      if i.id in visits[0].world.db.items {
        RunKeepsIdentity(visits[0].world, ownerId, visits[0].steps, i.id);
      }
    }
  }

  lemma NextCursorLiesBeyond(ownerId: string, f: ListFilter, visits: seq<ListVisit>, i: Item)
    requires IsListWalk(ownerId, f, visits) && |visits| > 1 && Beyond(i, visits[1].after)
    ensures Beyond(i, visits[0].after)
  {
    var v := visits[0];
    assert v.listing[v.limit - 1] in v.listing;
  }

  /** Whatever other clients add and change meanwhile, no walk shows an item twice, whatever it
      filters on. */
  lemma {:induction false} WalkShowsNothingTwice(ownerId: string, f: ListFilter, visits: seq<ListVisit>)
    requires IsListWalk(ownerId, f, visits) && WorldInv(visits[0].world, ownerId)
    ensures forall j, k :: 0 <= j < k < |Collected(visits)| ==> Collected(visits)[j].id != Collected(visits)[k].id
  {
    hide WorldInv, Run;
    var page, rest := PageFrom(visits[0].listing, visits[0].limit).items, Collected(visits[1..]);
    if |visits| > 1 {
      RunKeepsInvariant(visits[0].world, ownerId, visits[0].steps);
      WalkShowsNothingTwice(ownerId, f, visits[1..]);
      forall a, b | a in page && b in rest ensures a.id != b.id {
        ShownOnOnePage(ownerId, f, visits, a, b);
      }
      DistinctPages(page, rest);
    }
  }

  lemma ShownOnOnePage(ownerId: string, f: ListFilter, visits: seq<ListVisit>, a: Item, b: Item)
    requires IsListWalk(ownerId, f, visits) && WorldInv(visits[0].world, ownerId) && |visits| > 1
    requires a in PageFrom(visits[0].listing, visits[0].limit).items && b in Collected(visits[1..])
    ensures a.id != b.id
  {
    hide WorldInv, Run, IsListing, ListBefore, Matches;
    PageFacts(ownerId, f, visits, a);
    RunKeepsInvariant(visits[0].world, ownerId, visits[0].steps);
    CollectedLieBeyond(ownerId, f, visits[1..], b);
    if a.id == b.id {
      RunKeepsIdentity(visits[0].world, ownerId, visits[0].steps, a.id);
    }
  }

  lemma DistinctPages(page: seq<Item>, rest: seq<Item>)
    requires forall j, k :: 0 <= j < k < |page| ==> page[j].id != page[k].id
    requires forall j, k :: 0 <= j < k < |rest| ==> rest[j].id != rest[k].id
    requires forall a, b :: a in page && b in rest ==> a.id != b.id
    ensures forall j, k :: 0 <= j < k < |page + rest| ==> (page + rest)[j].id != (page + rest)[k].id
  {
    forall j, k | 0 <= j < k < |page + rest| ensures (page + rest)[j].id != (page + rest)[k].id {
      if j < |page| <= k {
        assert page[j] in page && rest[k - |page|] in rest;
      }
    }
  }

  lemma {:induction false} WalkReaches(ownerId: string, f: ListFilter, visits: seq<ListVisit>, id: Uuid)
    requires IsListWalk(ownerId, f, visits) && WorldInv(visits[0].world, ownerId) && Immutable(f)
    requires id in visits[0].world.db.items
    requires Matches(visits[0].world.db, visits[0].world.db.items[id], ownerId, f)
    requires Beyond(visits[0].world.db.items[id], visits[0].after)
    ensures ShowsId(Collected(visits), id)
  {
    hide WorldInv, Run, ListBefore, Matches, Immutable;
    var v := visits[0];
    var i := v.world.db.items[id];
    RowHasId(v.world, ownerId, id);
    assert i in v.listing;
    if i in PageFrom(v.listing, v.limit).items {
      CollectedOf(visits, i);
    } else {
      var j :| 0 <= j < |v.listing| && v.listing[j] == i;
      var after := visits[1].world;
      RunKeepsIdentity(v.world, ownerId, v.steps, id);
      RunKeepsInvariant(v.world, ownerId, v.steps);
      ImmutableStays(v.world.db, i, after.db, after.db.items[id], ownerId, f);
      WalkReaches(ownerId, f, visits[1..], id);
      var shown :| shown in Collected(visits[1..]) && shown.id == id;
      CollectedOf(visits, shown);
    }
  }

  lemma RowHasId(w: World, ownerId: string, id: Uuid)
    requires WorldInv(w, ownerId) && id in w.db.items
    ensures w.db.items[id].id == id
  {
    hide DbInv, HistoryInv, SnapshotInv;
    RowIdentity(w.db, ownerId, id);
  }

  /** A walk that filters only on project or task shows every matching item that was there when it
      began exactly once, whatever steps other clients take between its pages. */
  lemma WalkShowsEachItemOnce(ownerId: string, f: ListFilter, visits: seq<ListVisit>, id: Uuid)
    requires IsListWalk(ownerId, f, visits) && WorldInv(visits[0].world, ownerId) && Immutable(f)
    requires visits[0].after.None?
    requires id in visits[0].world.db.items
    requires Matches(visits[0].world.db, visits[0].world.db.items[id], ownerId, f)
    ensures exists k :: 0 <= k < |Collected(visits)| && Collected(visits)[k].id == id
    ensures forall j, k :: 0 <= j < k < |Collected(visits)| ==>
      !(Collected(visits)[j].id == id && Collected(visits)[k].id == id)
  {
    hide WorldInv, IsListWalk, Collected;
    WalkReaches(ownerId, f, visits, id);
    WalkShowsNothingTwice(ownerId, f, visits);
    var i :| i in Collected(visits) && i.id == id;
    var k :| 0 <= k < |Collected(visits)| && Collected(visits)[k] == i;
  }

  // ---------------------------------------------------------------- what is listed, by name

  predicate IsOfType(trigger: Trigger, t: TriggerType) {
    match t
    case AtTimeType => trigger.AtTime?
    case AfterElapsedType => trigger.AfterElapsed?
    case IntervalType => trigger.Interval?
    case NextSessionType => trigger.NextSession?
    case NextContinuationType => trigger.NextContinuation?
    case GoalActiveType => trigger.GoalActive?
    case ConditionType => trigger.Condition?
  }

  /** Some link of the item has this type and value. */
  predicate Linked(db: Db, id: Uuid, linkType: LinkType, value: string) {
    id in db.links
    && exists k :: 0 <= k < |db.links[id]| && db.links[id][k].link.linkType == linkType
                && db.links[id][k].link.value == value
  }

  /** A listing shows exactly the items that meet every filter given and stand behind the cursor: created
      before it, or at the same millisecond with a higher identifier. */
  lemma ListsExactly(
      db: Db, ownerId: string, f: ListFilter, after: Option<ListCursor>, s: seq<Item>, id: Uuid)
    requires DbInv(db, ownerId) && IsListing(db, ownerId, f, after, s) && id in db.items
    ensures
      var row := db.items[id];
      row in s <==>
        && (f.projectId.Some? ==> row.projectId == f.projectId.value)
        && (f.taskId.Some? ==> row.taskId == Some(f.taskId.value))
        && (f.states == [] || exists k :: 0 <= k < |f.states| && f.states[k] == row.state)
        && (f.triggerTypes == []
            || exists k :: 0 <= k < |f.triggerTypes| && IsOfType(row.trigger, f.triggerTypes[k]))
        && (f.linkedGoalId.Some? ==> Linked(db, id, Goal, f.linkedGoalId.value))
        && (f.linkedMemoryHash.Some? ==> Linked(db, id, Memory, f.linkedMemoryHash.value))
        && (after.Some? ==>
              || row.createdAt < after.value.createdAt
              || (row.createdAt == after.value.createdAt && after.value.id < row.id))
  {
    hide DbInv, ItemInv;
    RowIdentity(db, ownerId, id);
    var row := db.items[id];
    CreatedIsStored(row);
    TypeIff(row.trigger, f.triggerTypes);
    if f.linkedGoalId.Some? {
      LinkIff(db, id, Goal, f.linkedGoalId.value);
    }
    if f.linkedMemoryHash.Some? {
      LinkIff(db, id, Memory, f.linkedMemoryHash.value);
    }
    hide StoredInv, HasLink, Linked, TypeOf, IsOfType;
  }

  lemma CreatedIsStored(row: Item)
    requires StoredInv(row)
    ensures Millis(row.createdAt) == row.createdAt
  {
  }

  lemma TypeIff(trigger: Trigger, types: seq<TriggerType>)
    ensures TypeOf(trigger) in types <==> exists k :: 0 <= k < |types| && IsOfType(trigger, types[k])
  {
    forall t: TriggerType ensures TypeOf(trigger) == t <==> IsOfType(trigger, t) {
    }
    hide TypeOf, IsOfType;
  }

  lemma LinkIff(db: Db, id: Uuid, linkType: LinkType, value: string)
    ensures HasLink(db, id, linkType, value) <==> Linked(db, id, linkType, value)
  {
    if HasLink(db, id, linkType, value) {
      var l :| l in db.links[id] && l.link == LinkInput(linkType, value);
      var k :| 0 <= k < |db.links[id]| && db.links[id][k] == l;
    }
    if Linked(db, id, linkType, value) {
      var k :| 0 <= k < |db.links[id]| && db.links[id][k].link.linkType == linkType
               && db.links[id][k].link.value == value;
      assert db.links[id][k] in db.links[id];
    }
  }

  /** Newer items come first, and of one millisecond the lower identifier. */
  lemma ListIsNewestFirst(
      db: Db, ownerId: string, f: ListFilter, after: Option<ListCursor>, s: seq<Item>, j: nat, k: nat)
    requires DbInv(db, ownerId) && IsListing(db, ownerId, f, after, s) && j < k < |s|
    ensures s[j].createdAt > s[k].createdAt || (s[j].createdAt == s[k].createdAt && s[j].id < s[k].id)
  {
    hide DbInv, ItemInv, Matches;
    assert s[j] in s && s[k] in s;
    RowIdentity(db, ownerId, s[j].id);
    RowIdentity(db, ownerId, s[k].id);
    CreatedIsStored(s[j]);
    CreatedIsStored(s[k]);
    hide StoredInv;
  }
}
