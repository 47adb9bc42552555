/** The scheduler's polls: what they select, and why polling at one instant comes to an end
    (src/scheduler/runner.rs, `poll_once`; src/remindi/repository.rs, `scheduler_candidates`). */
module Drain {
  import opened Wrappers
  import opened Model
  import opened Lifecycle
  import opened Operations
  import opened Store
  import opened StoreRuns

  // ---------------------------------------------------------------- candidates

  /** The WHERE clause of the candidate query; `now` enters as canonical text. */
  predicate Selects(row: Item, now: Instant) {
    var text := Millis(now);
    match row.state
    case Snoozed => row.snoozeUntil.Some? && row.snoozeUntil.value <= text
    case Due => row.dueSince.Some? && row.dueSince.value + Seconds(row.overdueAfterSeconds) <= text
    case Scheduled =>
      if row.trigger.IsTimed() then row.nextFireAt.Some? && row.nextFireAt.value <= text
      else
        && row.trigger.Condition?
        && (|| (row.nextEvaluationAt.Some? && row.nextEvaluationAt.value <= text)
            || (row.trigger.manualCheckAt.Some? && row.trigger.manualCheckAt.value <= text))
    case _ => false
  }

  /** What one poll may select: rows to be evaluated, each once, as many as the batch allows. */
  ghost predicate IsBatch(db: Db, now: Instant, limit: nat, rows: seq<Item>) {
    && (forall i :: i in rows ==> i.id in db.items && db.items[i.id] == i && Selects(i, now))
    && (forall j, k :: 0 <= j < k < |rows| ==> rows[j].id != rows[k].id)
    && |rows| <= limit
    && (|rows| < limit ==> forall id :: id in db.items && Selects(db.items[id], now) ==> db.items[id] in rows)
  }

  /** The context of an evaluation by the scheduler. */
  const SchedulerContext := CheckContext(None, None, Checkpoint, [])

  /** The scheduler asks the adapter of every condition trigger and of no other; an adapter answers
      with any of the four statuses, and a missing one counts as unknown. */
  predicate IsPolled(row: Item, e: Evaluating, now: Instant) {
    && e.now == now && e.context == SchedulerContext
    && (e.condition.Evaluated? <==> row.trigger.Condition?)
  }

  /** Commits the evaluations of a poll one after the other. */
  function ApplyPoll(db: Db, rows: seq<Item>, evaluations: seq<Evaluating>): Db
    requires |rows| == |evaluations|
  {
    if rows == [] then db
    else
      var n := |rows| - 1;
      CommitEvaluation(ApplyPoll(db, rows[..n], evaluations[..n]), rows[n], evaluations[n])
  }

  // ---------------------------------------------------------------- when a row is polled

  /** When a row has something for the scheduler to do, in terms of full instants: a snooze that is over,
      a grace that has run out, an anchor that has come, a condition that is to be asked or whose manual
      deadline has come. Context triggers are left to the checks. */
  predicate Awaits(row: Item, now: Instant) {
    match row.state
    case Snoozed => row.snoozeUntil.Some? && row.snoozeUntil.value <= now
    case Due => row.dueSince.Some? && row.dueSince.value + row.overdueAfterSeconds * 1_000_000_000 <= now
    case Scheduled =>
      (match row.trigger
       case AtTime(at) => at <= now
       case AfterElapsed(_) => row.nextFireAt.Some? && row.nextFireAt.value <= now
       case Interval(_, _) => row.nextFireAt.Some? && row.nextFireAt.value <= now
       case Condition(_, _, _, manual) =>
         || (row.nextEvaluationAt.Some? && row.nextEvaluationAt.value <= now)
         || (manual.Some? && manual.value <= now)
       case _ => false)
    case _ => false
  }

  lemma SelectsWhatAwaits(row: Item, now: Instant)
    requires StoredInv(row)
    ensures Selects(row, now) <==> Awaits(row, now)
  {
    SecondsKeepAlignment(if row.dueSince.Some? then row.dueSince.value else 0, row.overdueAfterSeconds);
  }

  /** A batch holds nothing but rows that wait for the scheduler, and a batch with room holds them all. */
  lemma BatchHoldsIff(db: Db, ownerId: string, now: Instant, limit: nat, rows: seq<Item>, id: Uuid)
    requires DbInv(db, ownerId) && IsBatch(db, now, limit, rows) && id in db.items
    ensures db.items[id] in rows ==> Awaits(db.items[id], now)
    ensures |rows| < limit && Awaits(db.items[id], now) ==> db.items[id] in rows
  {
    hide DbInv, Selects, Awaits, StoredInv, ItemInv;
    RowIdentity(db, ownerId, id);
    SelectsWhatAwaits(db.items[id], now);
  }

  /** A new condition is asked for the first time one poll interval after it was added, thirty seconds if
      none was given, or at its manual deadline if that is earlier. */
  lemma FirstAskedAt(r: Request, ownerId: string, id: Uuid, now: Instant, later: Instant)
    requires r.AddRequest? && r.newTrigger.Condition? && ValidRequest(r) && NormalizedRequest(r)
    ensures
      var row := Stored(NewItem(r, ownerId, id, now));
      var interval: nat :=
        if r.newTrigger.pollIntervalSeconds.Some? then r.newTrigger.pollIntervalSeconds.value else 30;
      Awaits(row, later) <==>
        || Millis(now + interval * 1_000_000_000) <= later
        || (r.newTrigger.manualCheckAt.Some? && r.newTrigger.manualCheckAt.value <= later)
  {
    hide ValidLinks, GoalLinkFits;
  }

  /** The row a commit leaves of a condition that was asked at `e.now` and does not fire. */
  predicate IsAskedRow(row: Item, e: Evaluating, next: Item) {
    && row.state.Scheduled? && row.trigger.Condition? && e.condition.Evaluated?
    && !Fires(row, e.now, e.context, e.condition)
    && Candidate(row, e).Some? && next == UpdatedRow(row, Candidate(row, e).value.0)
  }

  lemma AskedRow(row: Item, e: Evaluating, next: Item)
    requires StoredInv(row) && IsAskedRow(row, e, next)
    ensures
      var interval: nat := if row.trigger.pollIntervalSeconds.Some? then row.trigger.pollIntervalSeconds.value else 30;
      && next.state.Scheduled? && next.trigger == row.trigger && row.trigger.Condition?
      && next.nextEvaluationAt == Some(Millis(e.now + interval * 1_000_000_000))
  {
    ConditionIsAskedAgain(row, e.now, e.context, e.condition);
    CandidateKeeps(row, e);
    hide Evaluate, Fires;
  }

  /** After an answer that does not satisfy it, whatever it was, a condition rests for its poll interval,
      or until its manual deadline, and is then asked again in every batch with room. */
  lemma ConditionIsPolledAgain(
      row: Item, e: Evaluating, db: Db, ownerId: string, now: Instant, limit: nat, rows: seq<Item>)
    requires StoredInv(row) && row.id in db.items && IsAskedRow(row, e, db.items[row.id])
    requires DbInv(db, ownerId) && IsBatch(db, now, limit, rows)
    ensures
      var interval: nat := if row.trigger.pollIntervalSeconds.Some? then row.trigger.pollIntervalSeconds.value else 30;
      var again :=
        || Millis(e.now + interval * 1_000_000_000) <= now
        || (row.trigger.manualCheckAt.Some? && row.trigger.manualCheckAt.value <= now);
      && (!again ==> db.items[row.id] !in rows)
      && (again && |rows| < limit ==> db.items[row.id] in rows)
  {
    hide DbInv, IsAskedRow, IsBatch, StoredInv;
    AskedRow(row, e, db.items[row.id]);
    BatchHoldsIff(db, ownerId, now, limit, rows, row.id);
  }

  // ---------------------------------------------------------------- work

  /** How many transitions an item may still make at this instant. */
  function Weight(row: Item, now: Instant): nat {
    if !Selects(row, now) then 0 else if row.state.Scheduled? then 2 else 1
  }

  function Heavy(db: Db, now: Instant, n: nat): set<Uuid> {
    set id | id in db.items && Weight(db.items[id], now) >= n
  }

  function Work(db: Db, now: Instant): nat {
    |Heavy(db, now, 1)| + |Heavy(db, now, 2)|
  }

  /** A selected row always has something to commit: the comparison of stored text and the evaluator's
      comparison of instants agree. */
  lemma SelectedMoves(row: Item, e: Evaluating, now: Instant)
    requires StoredInv(row) && Selects(row, now) && IsPolled(row, e, now)
    ensures Candidate(row, e).Some?
  {
    EvaluationKeepsInvariant(row, e.now, e.context, e.condition);
  }

  /** Leaving aside scheduled items that wait for an adapter or for a check's context, the query
      selects exactly the rows whose evaluation would change something. */
  lemma SelectsExactlyWhatMoves(row: Item, e: Evaluating, now: Instant)
    requires StoredInv(row) && e.now == now
    requires row.state.Scheduled? ==> row.trigger.IsTimed()
    ensures Selects(row, now) <==> Candidate(row, e).Some?
  {
    EvaluationKeepsInvariant(row, e.now, e.context, e.condition);
  }

  /** And what it commits makes it lighter. */
  lemma EvaluationLowersWeight(row: Item, e: Evaluating, now: Instant)
    requires StoredInv(row) && Selects(row, now) && IsPolled(row, e, now)
    requires Candidate(row, e).Some?
    ensures Weight(UpdatedRow(row, Candidate(row, e).value.0), now) < Weight(row, now)
  {
    CandidateKeeps(row, e);
    if row.state.Scheduled? {
      if Candidate(row, e).value.0.state.Scheduled? {
        UnsatisfiedWaits(row, e, now);
      }
    } else {
      ReadyLowersWeight(row, e, now);
    }
  }

  /** A condition that was asked and is not satisfied is not asked again before its poll interval. */
  lemma UnsatisfiedWaits(row: Item, e: Evaluating, now: Instant)
    requires StoredInv(row) && row.state.Scheduled? && Selects(row, now) && IsPolled(row, e, now)
    requires Candidate(row, e).Some? && Candidate(row, e).value.0.state.Scheduled?
    ensures !Selects(UpdatedRow(row, Candidate(row, e).value.0), now)
  {
    var wait := Seconds(PollSeconds(row.trigger.pollIntervalSeconds));
    assert wait >= 1_000_000;
    assert Millis(now + wait) > now;
  }

  lemma ReadyLowersWeight(row: Item, e: Evaluating, now: Instant)
    requires StoredInv(row) && !row.state.Scheduled? && Selects(row, now) && IsPolled(row, e, now)
    requires Candidate(row, e).Some?
    ensures !Selects(UpdatedRow(row, Candidate(row, e).value.0), now)
  {
  }

  lemma LighterRow(db: Db, after: Db, id: Uuid, now: Instant)
    requires id in db.items && id in after.items && after.items == db.items[id := after.items[id]]
    requires Weight(after.items[id], now) < Weight(db.items[id], now)
    ensures Work(after, now) < Work(db, now)
  {
    hide Weight;
    forall n: nat ensures Heavy(after, now, n) <= Heavy(db, now, n) {
    }
    var n := Weight(db.items[id], now);
    assert n <= 2 by {
      WeightAtMostTwo(db.items[id], now);
    }
    assert id in Heavy(db, now, n) && id !in Heavy(after, now, n);
    SubsetCardinality(Heavy(after, now, 1), Heavy(db, now, 1));
    SubsetCardinality(Heavy(after, now, 2), Heavy(db, now, 2));
  }

  lemma WeightAtMostTwo(row: Item, now: Instant)
    ensures Weight(row, now) <= 2
  {
  }

  lemma SubsetCardinality(a: set<Uuid>, b: set<Uuid>)
    requires a <= b
    ensures |a| <= |b|
    ensures a != b ==> |a| < |b|
  {
    assert b == a + (b - a);
    if a != b {
      assert b - a != {};
    }
  }

  // ---------------------------------------------------------------- one poll

  /** What applying candidates does: it spends one unit of work at least for each, and each commit an
      item makes is paid for by its own weight. */
  ghost predicate Spent(db: Db, after: Db, now: Instant, commits: nat) {
    && after.items.Keys == db.items.Keys
    && Work(after, now) + commits <= Work(db, now)
    && forall id :: id in db.items ==> PaysForCommits(db, after, now, id)
  }

  predicate PaysForCommits(db: Db, after: Db, now: Instant, id: Uuid) {
    && id in db.items && id in after.items
    && db.items[id].version <= after.items[id].version
    && after.items[id].version + Weight(after.items[id], now) <= db.items[id].version + Weight(db.items[id], now)
  }

  lemma ApplyOne(db: Db, ownerId: string, row: Item, e: Evaluating, now: Instant)
    requires DbInv(db, ownerId) && row.id in db.items && db.items[row.id] == row
    requires Selects(row, now) && IsPolled(row, e, now)
    ensures
      var after := CommitEvaluation(db, row, e);
      && DbInv(after, ownerId)
      && Spent(db, after, now, 1)
      && row.id in after.items && after.items == db.items[row.id := after.items[row.id]]
  {
    hide DbInv, Selects, IsPolled, Candidate, UpdatedRow, ItemInv, StoredInv, Weight, Work, Stored, ValidLinks,
      GoalLinkFits, Appends, CommitEvaluation;
    RowIdentity(db, ownerId, row.id);
    SelectedMoves(row, e, now);
    EvaluationLowersWeight(row, e, now);
    CommitChangesOneRow(db, ownerId, row, e);
    var after := CommitEvaluation(db, row, e);
    RowChangeKeepsInvariant(db, after, row.id, ownerId);
    LighterRow(db, after, row.id, now);
    forall id | id in db.items ensures PaysForCommits(db, after, now, id) {
    }
  }

  lemma SpentTwice(db: Db, middle: Db, after: Db, now: Instant, m: nat, n: nat)
    requires Spent(db, middle, now, m) && Spent(middle, after, now, n)
    ensures Spent(db, after, now, m + n)
  {
    hide Weight, Work;
    forall id | id in db.items ensures PaysForCommits(db, after, now, id) {
      assert PaysForCommits(db, middle, now, id) && PaysForCommits(middle, after, now, id);
    }
  }

  lemma SpentNothing(db: Db, now: Instant)
    ensures Spent(db, db, now, 0)
  {
  }

  /** Applying a poll spends at least one unit of work for every candidate. */
  lemma {:induction false} PollSpendsWork(
      db: Db, ownerId: string, rows: seq<Item>, evaluations: seq<Evaluating>, now: Instant)
    requires DbInv(db, ownerId) && |rows| == |evaluations|
    requires forall i :: i in rows ==> i.id in db.items && db.items[i.id] == i && Selects(i, now)
    requires forall j, k :: 0 <= j < k < |rows| ==> rows[j].id != rows[k].id
    requires forall k :: 0 <= k < |rows| ==> IsPolled(rows[k], evaluations[k], now)
    ensures
      var after := ApplyPoll(db, rows, evaluations);
      && DbInv(after, ownerId)
      && Spent(db, after, now, |rows|)
      && forall id :: id in db.items && (forall i :: i in rows ==> i.id != id) ==>
           id in after.items && after.items[id] == db.items[id]
  {
    hide DbInv, Selects, IsPolled, CommitEvaluation, Spent;
    if rows == [] {
      SpentNothing(db, now);
    } else {
      var n := |rows| - 1;
      var init, row := rows[..n], rows[n];
      PollSpendsWork(db, ownerId, init, evaluations[..n], now);
      var before := ApplyPoll(db, init, evaluations[..n]);
      assert row in rows;
      forall i | i in init ensures i.id != row.id {
      }
      ApplyOne(before, ownerId, row, evaluations[n], now);
      SpentTwice(db, before, ApplyPoll(db, rows, evaluations), now, n, 1);
      assert rows == init + [row];
    }
  }

  // ---------------------------------------------------------------- polls among other writers

  /** The row has moved on from the snapshot, or is the snapshot. */
  predicate Fits(db: Db, row: Item) {
    row.id in db.items && (db.items[row.id].version == row.version ==> db.items[row.id] == row)
  }

  lemma StaleCommitIsIgnored(db: Db, row: Item, e: Evaluating)
    requires ItemInv(row) && row.id in db.items && db.items[row.id].version != row.version
    ensures CommitEvaluation(db, row, e) == db
  {
    CandidateKeeps(row, e);
  }

  lemma LateCommit(db: Db, ownerId: string, row: Item, e: Evaluating)
    requires DbInv(db, ownerId) && StoredInv(row) && Fits(db, row)
    ensures
      var after := CommitEvaluation(db, row, e);
      && DbInv(after, ownerId)
      && row.id in after.items && after.items == db.items[row.id := after.items[row.id]]
      && (db.items[row.id].version != row.version ==> after == db)
  {
    hide DbInv, ItemInv, StoredInv, Candidate, UpdatedRow, CommitEvaluation, ValidLinks, GoalLinkFits, Appends;
    StoredIsInvariant(row);
    if db.items[row.id].version == row.version {
      CommitChangesOneRow(db, ownerId, row, e);
      if Candidate(row, e).Some? {
        RowChangeKeepsInvariant(db, CommitEvaluation(db, row, e), row.id, ownerId);
      }
    } else {
      StaleCommitIsIgnored(db, row, e);
    }
    assert db.items == db.items[row.id := db.items[row.id]];
  }

  /** A selected row that has not moved on. */
  ghost predicate IsCurrent(db: Db, rows: seq<Item>, id: Uuid) {
    exists i :: i in rows && i.id == id && id in db.items && db.items[id].version == i.version
  }

  predicate SameRow(db: Db, after: Db, id: Uuid) {
    id in db.items && id in after.items && after.items[id] == db.items[id]
  }

  ghost predicate MovesOnlyCurrent(db: Db, after: Db, rows: seq<Item>) {
    && after.items.Keys == db.items.Keys
    && forall id :: id in db.items && !IsCurrent(db, rows, id) ==> SameRow(db, after, id)
  }

  lemma OneMoreCurrent(db: Db, before: Db, after: Db, init: seq<Item>, row: Item)
    requires MovesOnlyCurrent(db, before, init) && SameRow(db, before, row.id)
    requires row.id in after.items && after.items == before.items[row.id := after.items[row.id]]
    requires before.items[row.id].version != row.version ==> after == before
    ensures MovesOnlyCurrent(db, after, init + [row])
  {
    forall id | id in db.items && !IsCurrent(db, init + [row], id) ensures SameRow(db, after, id) {
      assert forall i :: i in init ==> i in init + [row];
      assert row in init + [row];
      assert SameRow(db, before, id);
    }
  }

  /** Applying a poll after others have written keeps the invariants, moves no row that has moved on
      since it was selected, and no row that was not selected. */
  lemma {:induction false} LatePollKeepsInvariant(
      db: Db, ownerId: string, rows: seq<Item>, evaluations: seq<Evaluating>)
    requires DbInv(db, ownerId) && |rows| == |evaluations|
    requires forall i :: i in rows ==> StoredInv(i) && Fits(db, i)
    requires forall j, k :: 0 <= j < k < |rows| ==> rows[j].id != rows[k].id
    ensures
      var after := ApplyPoll(db, rows, evaluations);
      DbInv(after, ownerId) && MovesOnlyCurrent(db, after, rows)
  {
    hide DbInv, StoredInv, CommitEvaluation, IsCurrent;
    if rows != [] {
      var n := |rows| - 1;
      var init, row := rows[..n], rows[n];
      LatePollKeepsInvariant(db, ownerId, init, evaluations[..n]);
      var before := ApplyPoll(db, init, evaluations[..n]);
      assert row in rows;
      NotAmong(db, init, row.id);
      assert SameRow(db, before, row.id);
      LateCommit(before, ownerId, row, evaluations[n]);
      OneMoreCurrent(db, before, ApplyPoll(db, rows, evaluations), init, row);
      assert rows == init + [row];
    }
  }

  lemma NotAmong(db: Db, rows: seq<Item>, id: Uuid)
    requires forall k :: 0 <= k < |rows| ==> rows[k].id != id
    ensures !IsCurrent(db, rows, id)
  {
  }

  /** What a poll does to each row it selected that is still as it was: exactly its evaluation. */
  lemma {:induction false} PollStoresEvaluations(
      db: Db, ownerId: string, rows: seq<Item>, evaluations: seq<Evaluating>, k: nat)
    requires DbInv(db, ownerId) && |rows| == |evaluations| && k < |rows|
    requires forall i :: i in rows ==> StoredInv(i) && Fits(db, i)
    requires forall j, l :: 0 <= j < l < |rows| ==> rows[j].id != rows[l].id
    requires rows[k].id in db.items && db.items[rows[k].id] == rows[k]
    ensures
      var after, row := ApplyPoll(db, rows, evaluations), rows[k];
      && row.id in after.items
      && after.items[row.id]
         == match Candidate(row, evaluations[k]) case None => row case Some(c) => UpdatedRow(row, c.0)
  {
    hide DbInv, StoredInv, ItemInv, CommitEvaluation, IsCurrent, Candidate, UpdatedRow, Appends, ValidLinks;
    hide GoalLinkFits;
    var n := |rows| - 1;
    var init, row := rows[..n], rows[n];
    LatePollKeepsInvariant(db, ownerId, init, evaluations[..n]);
    var before := ApplyPoll(db, init, evaluations[..n]);
    assert row in rows;
    NotAmong(db, init, row.id);
    assert SameRow(db, before, row.id);
    LateCommit(before, ownerId, row, evaluations[n]);
    if k == n {
      CommitChangesOneRow(before, ownerId, row, evaluations[n]);
    } else {
      PollStoresEvaluations(db, ownerId, init, evaluations[..n], k);
    }
  }

  // ---------------------------------------------------------------- repeated polls

  datatype Round = Round(db: Db, rows: seq<Item>, evaluations: seq<Evaluating>, limit: nat)

  /** Polls at one instant, with no other writer, each selecting something. The batch limit and the
      answers of the adapters are arbitrary. */
  ghost predicate AreBusyPolls(now: Instant, rounds: seq<Round>, last: Db) {
    if rounds == [] then true
    else
      var r := rounds[0];
      && r.rows != [] && |r.rows| == |r.evaluations|
      && IsBatch(r.db, now, r.limit, r.rows)
      && (forall k :: 0 <= k < |r.rows| ==> IsPolled(r.rows[k], r.evaluations[k], now))
      && (if |rounds| == 1 then last else rounds[1].db) == ApplyPoll(r.db, r.rows, r.evaluations)
      && AreBusyPolls(now, rounds[1..], last)
  }

  function Commits(rounds: seq<Round>): nat {
    if rounds == [] then 0 else |rounds[0].rows| + Commits(rounds[1..])
  }

  lemma {:induction false} PollsSpendWork(ownerId: string, now: Instant, rounds: seq<Round>, last: Db)
    requires rounds != [] && DbInv(rounds[0].db, ownerId) && AreBusyPolls(now, rounds, last)
    ensures DbInv(last, ownerId)
    ensures Spent(rounds[0].db, last, now, Commits(rounds))
    ensures |rounds| <= Commits(rounds)
  {
    hide DbInv, IsPolled, Spent, Selects, ApplyPoll;
    var r := rounds[0];
    PollSpendsWork(r.db, ownerId, r.rows, r.evaluations, now);
    if |rounds| > 1 {
      PollsSpendWork(ownerId, now, rounds[1..], last);
      SpentTwice(r.db, rounds[1].db, last, now, |r.rows|, Commits(rounds[1..]));
    } else {
      assert Commits(rounds[1..]) == 0;
    }
  }

  /** Polling at one instant comes to an end: polls that find something number at most the work there
      was at the start, all their commits together no more than it, and no item commits more than
      twice, whatever the adapters answer and however small the batches are. */
  lemma PollingDrains(ownerId: string, now: Instant, rounds: seq<Round>, last: Db, id: Uuid)
    requires rounds != [] && DbInv(rounds[0].db, ownerId) && AreBusyPolls(now, rounds, last)
    requires id in rounds[0].db.items
    ensures |rounds| <= Commits(rounds) <= Work(rounds[0].db, now)
    ensures id in last.items && last.items[id].version <= rounds[0].db.items[id].version + 2
  {
    hide DbInv, AreBusyPolls, Weight, Work;
    PollsSpendWork(ownerId, now, rounds, last);
    assert PaysForCommits(rounds[0].db, last, now, id);
    WeightAtMostTwo(rounds[0].db.items[id], now);
  }

  /** As long as there is work a poll with a positive limit selects something, and with none it selects
      nothing: so repeated polls end exactly with no candidate left. */
  lemma IdleExactlyWithoutWork(db: Db, now: Instant, limit: nat, rows: seq<Item>)
    requires IsBatch(db, now, limit, rows) && limit > 0
    ensures rows == [] <==> Work(db, now) == 0
    ensures rows == [] <==> forall id :: id in db.items ==> !Selects(db.items[id], now)
  {
    hide Selects;
    if rows == [] {
      assert Heavy(db, now, 1) == {} && Heavy(db, now, 2) == {};
    } else {
      assert rows[0] in rows && rows[0].id in Heavy(db, now, 1);
    }
  }
}
