/** The scheduler workload: polling under a lease until cancellation, a stop or the loss of the lease
    (src/scheduler/runner.rs). */
module SchedulerLoop {
  import opened Wrappers
  import opened Model
  import opened Lifecycle
  import opened Operations
  import opened Store
  import opened StoreRuns
  import opened StoreTheorems
  import opened Lease
  import opened Service
  import Drain

  datatype SchedulerConfig = SchedulerConfig(
    pollInterval: Instant,
    leaseDuration: Instant,
    adapterTimeout: Instant,
    adapterConcurrency: nat,
    candidateBatchSize: nat)

  /** A lease outlives two polls, and nothing is zero. */
  predicate ValidConfig(c: SchedulerConfig) {
    && c.pollInterval > 0
    && c.leaseDuration > 2 * c.pollInterval
    && c.adapterTimeout > 0
    && c.adapterConcurrency > 0
    && c.candidateBatchSize > 0
  }

  datatype PollReport = PollReport(selected: nat, applied: nat, conflicts: nat, failures: nat)

  datatype SchedulerError = InvalidConfiguration | LeaseProblem(e: LeaseError) | ServiceProblem | InvalidDesiredState

  datatype RunExit = CancelledExit | DesiredStopped | LeaseLost

  /** What an adapter says about an item: one of the four statuses, with a summary. */
  datatype Answer = Answer(status: ConditionStatus, summary: string)

  /** What one round of the loop meets: whether the workload was cancelled, the desired state if it can
      be read, a rival that tries to acquire the lease before the poll, the clock at the start of the poll
      and after the adapters have answered, whether the query fails, what the adapters answered, and what
      others make of the tables between the query and the commits. */
  datatype Tick = Tick(
    cancelled: bool,
    desired: Option<bool>,
    rival: Option<Client>,
    now: Instant,
    cancelledMeanwhile: bool,
    renewNow: Instant,
    eventNow: Instant,
    queryFails: bool,
    ask: Item -> Answer,
    others: Db -> Db)

  /** Others write what the service lets them write: invariants are kept, and rows move on. */
  ghost predicate Harmless(tick: Tick, ownerId: string) {
    forall db: Db :: DbInv(db, ownerId) ==> DbInv(tick.others(db), ownerId) && MovesOn(db, tick.others(db))
  }

  /** The settings count in whole seconds, as the runtime settings do. */
  predicate WholeSeconds(c: SchedulerConfig) {
    c.pollInterval % 1_000_000_000 == 0 && c.leaseDuration % 1_000_000_000 == 0
  }

  /** The row is this guard's, and its renewal was not due yet at that time. */
  predicate Fresh(row: Option<LeaseRow>, g: Guard, c: SchedulerConfig, since: Instant) {
    Lease.Wrote(row, g) && g.duration == c.leaseDuration && !RenewalDue(g, since)
  }

  /** With valid settings in whole seconds, a lease that was fresh when one poll began can be renewed one
      poll interval later and is fresh again then; until then no rival gets it. */
  lemma ValidConfigKeepsLease(
      c: SchedulerConfig, row: Option<LeaseRow>, g: Guard, rival: Client, since: Instant, next: Instant)
    requires ValidConfig(c) && WholeSeconds(c) && Fresh(row, g, c, since)
    requires next <= since + c.pollInterval && g.version + 1 <= I64_MAX
    ensures
      var renewed := RenewLease(row, ClientOf(g), g, next);
      && renewed.Success? && Fresh(Some(renewed.value.row), renewed.value.guard, c, next)
      && renewed.value.guard.version == g.version + 1
    ensures AcquireLease(row, rival, next) == Failure(AlreadyHeld)
  {
    PromptPollsKeepTheLease(
      row, g, c.leaseDuration / 1_000_000_000, c.pollInterval / 1_000_000_000, since, next);
    RenewedIsNotDue(row, ClientOf(g), g, next);
    RenewalExactlyWhenTakeoverRefused(row, g, rival, next);
  }

  /** The last reading at which a round that goes through leaves the lease fresh. */
  function RenewedAt(tick: Tick): Instant {
    if tick.queryFails then tick.now else tick.renewNow
  }

  /** Every round starts at most one poll interval after the last renewal, and its adapters answer within
      another. */
  predicate Prompt(ticks: seq<Tick>, since: Instant, c: SchedulerConfig) {
    ticks == []
    || (&& ticks[0].now <= since + c.pollInterval
        && ticks[0].renewNow <= ticks[0].now + c.pollInterval
        && Prompt(ticks[1..], RenewedAt(ticks[0]), c))
  }

  class Scheduler {
    const service: RemindiService
    const lease: SchedulerLease
    const config: SchedulerConfig
    const actor: Actor

    constructor (service: RemindiService, lease: SchedulerLease, config: SchedulerConfig, actor: Actor)
      ensures this.service == service && this.lease == lease && this.config == config && this.actor == actor
    {
      this.service, this.lease, this.config, this.actor := service, lease, config, actor;
    }

    /** The evaluation of a candidate: only a condition trigger is asked for. */
    function EvaluationOf(row: Item, tick: Tick): Evaluating {
      if row.trigger.Condition? then
        Evaluating(
          actor, tick.now, Drain.SchedulerContext, Evaluated(tick.ask(row).status), Some(tick.ask(row).summary),
          tick.eventNow)
      else Evaluating(actor, tick.now, Drain.SchedulerContext, NotEvaluated, None, tick.eventNow)
    }

    function EvaluationsOf(rows: seq<Item>, tick: Tick): seq<Evaluating> {
      seq(|rows|, k requires 0 <= k < |rows| => EvaluationOf(rows[k], tick))
    }

    /** Applies evaluated candidates one after the other. */
    method Apply(rows: seq<Item>, tick: Tick) returns (report: PollReport)
      modifies service.tables
      ensures service.tables.Value() == Drain.ApplyPoll(old(service.tables.Value()), rows, EvaluationsOf(rows, tick))
      ensures report.selected == |rows| && report.applied + report.failures == |rows| && report.conflicts == 0
    {
      hide CommitEvaluation, EvaluationOf;
      report := PollReport(|rows|, 0, 0, 0);
      var k := 0;
      while k < |rows|
        invariant 0 <= k <= |rows|
        invariant service.tables.Value()
               == Drain.ApplyPoll(old(service.tables.Value()), rows[..k], EvaluationsOf(rows[..k], tick))
        invariant report.selected == |rows| && report.applied + report.failures == k && report.conflicts == 0
      {
        var r := service.EvaluateOne(rows[k], EvaluationOf(rows[k], tick));
        report :=
          if r.Success? then report.(applied := report.applied + 1)
          else report.(failures := report.failures + 1);
        assert rows[..k + 1][..k] == rows[..k];
        assert EvaluationsOf(rows[..k + 1], tick)[..k] == EvaluationsOf(rows[..k], tick);
        k := k + 1;
      }
      assert rows[..k] == rows;
    }

    /** One bounded poll: renews when it is due, selects, asks the adapters, renews again, and only then
        applies; nothing is applied without the lease. */
    method PollOnce(guard: LeaseGuard, tick: Tick, ghost since: Instant)
      returns (r: Result<PollReport, SchedulerError>, ghost rows: seq<Item>)
      requires DbInv(service.tables.Value(), service.ownerId) && Harmless(tick, service.ownerId)
      modifies service.tables, lease.database, guard
      ensures DbInv(service.tables.Value(), service.ownerId)
      ensures Drain.IsBatch(old(service.tables.Value()), tick.now, config.candidateBatchSize, rows) || r.Failure?
      ensures r.Failure? || tick.cancelledMeanwhile ==>
        || service.tables.Value() == old(service.tables.Value())
        || service.tables.Value() == tick.others(old(service.tables.Value()))
      ensures r.Failure? ==> rows == [] && (r.error.LeaseProblem? || (r.error.ServiceProblem? && tick.queryFails))
      ensures
        && ValidConfig(config) && WholeSeconds(config) && lease.Value() == ClientOf(old(guard.Value()))
        && Fresh(old(lease.database.row), old(guard.Value()), config, since)
        && tick.now <= since + config.pollInterval && tick.renewNow <= tick.now + config.pollInterval
        && old(guard.version) + 2 <= I64_MAX ==>
        && (r.Success? || r.error.ServiceProblem?)
        && Lease.Wrote(lease.database.row, guard.Value()) && ClientOf(guard.Value()) == old(ClientOf(guard.Value()))
        && guard.version <= old(guard.version) + 2
        && (!tick.cancelledMeanwhile || tick.queryFails ==>
              Fresh(lease.database.row, guard.Value(), config, RenewedAt(tick)))
      ensures r.Success? && tick.cancelledMeanwhile ==> r.value == PollReport(|rows|, 0, 0, |rows|)
      ensures r.Success? && !tick.cancelledMeanwhile ==>
        && var found := tick.others(old(service.tables.Value()));
        && service.tables.Value() == Drain.ApplyPoll(found, rows, EvaluationsOf(rows, tick))
        && r.value.selected == |rows|
        && lease.database.row.Some? && Lease.Wrote(lease.database.row, guard.Value())
        && guard.expiresAt == tick.renewNow + lease.duration
        && (found == old(service.tables.Value()) ==>
              Drain.Spent(found, service.tables.Value(), tick.now, |rows|))
    {
      hide DbInv, Drain.IsBatch, Drain.ApplyPoll, Drain.Spent, KeyedById, Fresh, ValidConfig, WholeSeconds, RenewalDue,
        Lease.Wrote, MovesOn;
      rows := [];
      DbIsKeyed(service.tables.Value(), service.ownerId);
      if RenewalDue(guard.Value(), tick.now) {
        var early := Renew(guard, tick.now, since);
        if early.Failure? {
          return Failure(LeaseProblem(early.error)), rows;
        }
      } else {
        NotDueStaysFresh(lease.database.row, guard.Value(), since, tick.now);
      }
      FreshIsWritten(lease.database.row, guard.Value(), tick.now);
      if tick.queryFails {
        return Failure(ServiceProblem), rows;
      }
      var candidates := service.SchedulerCandidates(tick.now, config.candidateBatchSize);
      rows := candidates;
      ghost var selected := service.tables.Value();
      service.tables.LetOthersWrite(tick.others(service.tables.Value()));
      if tick.cancelledMeanwhile {
        return Success(PollReport(|candidates|, 0, 0, |candidates|)), rows;
      }
      var renewed := Renew(guard, tick.renewNow, tick.now);
      if renewed.Failure? {
        return Failure(LeaseProblem(renewed.error)), [];
      }
      FreshIsWritten(lease.database.row, guard.Value(), tick.renewNow);
      BatchKeepsInvariant(selected, service.tables.Value(), candidates, tick);
      if service.tables.Value() == selected {
        BatchIsSpent(selected, candidates, tick);
      }
      var report := Apply(candidates, tick);
      return Success(report), rows;
    }

    /** The lease was fresh within the last poll interval. */
    ghost predicate CanKeep(row: Option<LeaseRow>, g: Guard, since: Instant, next: Instant) {
      && ValidConfig(config) && WholeSeconds(config) && Fresh(row, g, config, since)
      && next <= since + config.pollInterval && g.version + 1 <= I64_MAX
    }

    lemma NotDueStaysFresh(row: Option<LeaseRow>, g: Guard, since: Instant, now: Instant)
      requires !RenewalDue(g, now)
      ensures Fresh(row, g, config, since) ==> Fresh(row, g, config, now)
    {
    }

    lemma FreshIsWritten(row: Option<LeaseRow>, g: Guard, since: Instant)
      ensures Fresh(row, g, config, since) ==> Lease.Wrote(row, g)
    {
    }

    /** A renewal; within a poll interval of the last one it succeeds. */
    method Renew(guard: LeaseGuard, now: Instant, ghost since: Instant) returns (r: Result<(), LeaseError>)
      modifies lease.database, guard
      ensures r.Success? ==>
        Lease.Wrote(lease.database.row, guard.Value()) && guard.expiresAt == now + lease.duration
      ensures CanKeep(old(lease.database.row), old(guard.Value()), since, now)
              && lease.Value() == ClientOf(old(guard.Value())) ==>
        && r.Success? && Fresh(lease.database.row, guard.Value(), config, now)
        && ClientOf(guard.Value()) == old(ClientOf(guard.Value())) && guard.version == old(guard.version) + 1
    {
      if CanKeep(lease.database.row, guard.Value(), since, now) && lease.Value() == ClientOf(guard.Value()) {
        ValidConfigKeepsLease(config, lease.database.row, guard.Value(), lease.Value(), since, now);
      }
      r := lease.Renew(guard, now);
    }

    lemma BatchKeepsInvariant(db: Db, found: Db, rows: seq<Item>, tick: Tick)
      requires DbInv(db, service.ownerId) && DbInv(found, service.ownerId) && MovesOn(db, found)
      requires Drain.IsBatch(db, tick.now, config.candidateBatchSize, rows)
      ensures DbInv(Drain.ApplyPoll(found, rows, EvaluationsOf(rows, tick)), service.ownerId)
    {
      hide DbInv, Drain.Selects, Drain.ApplyPoll, StoredInv;
      forall i | i in rows ensures StoredInv(i) && Drain.Fits(found, i) {
        assert i.id in db.items && db.items[i.id] == i;
        RowIdentity(db, service.ownerId, i.id);
        assert RowMovesOn(db, found, i.id);
      }
      Drain.LatePollKeepsInvariant(found, service.ownerId, rows, EvaluationsOf(rows, tick));
    }

    lemma BatchIsSpent(db: Db, rows: seq<Item>, tick: Tick)
      requires DbInv(db, service.ownerId) && Drain.IsBatch(db, tick.now, config.candidateBatchSize, rows)
      ensures
        var after := Drain.ApplyPoll(db, rows, EvaluationsOf(rows, tick));
        DbInv(after, service.ownerId) && Drain.Spent(db, after, tick.now, |rows|)
    {
      hide DbInv, Drain.Selects, Drain.ApplyPoll, Drain.Spent;
      Drain.PollSpendsWork(db, service.ownerId, rows, EvaluationsOf(rows, tick), tick.now);
    }

    /** A rival process tries to acquire the lease. */
    method LetRivalAcquire(rival: Option<Client>, now: Instant)
      modifies lease.database
      ensures rival.None? || AcquireLease(old(lease.database.row), rival.value, now).Failure? ==>
        lease.database.row == old(lease.database.row)
    {
      if rival.Some? {
        var attempt := AcquireLease(lease.database.row, rival.value, now);
        if attempt.Success? {
          lease.database.row := Some(attempt.value.row);
        }
      }
    }

    /** What keeps the lease through the coming rounds, whatever rivals try. */
    ghost predicate Steady(row: Option<LeaseRow>, g: Guard, ticks: seq<Tick>, since: Instant) {
      && ValidConfig(config) && WholeSeconds(config) && lease.Value() == ClientOf(g)
      && Fresh(row, g, config, since) && Prompt(ticks, since, config)
      && g.version + 2 * |ticks| + 2 <= I64_MAX
    }

    lemma SteadyOwns(row: Option<LeaseRow>, g: Guard, ticks: seq<Tick>, since: Instant)
      ensures Steady(row, g, ticks, since) ==>
        Owns(row, lease.holderId, g.version) && g.version <= I64_MAX && Lease.Wrote(row, g)
    {
    }

    /** The adapter's answer decides: a condition that is selected and still as it was becomes due when
        the answer is satisfied or its manual deadline has come, and otherwise records the answer. */
    lemma AnswersDecide(db: Db, rows: seq<Item>, tick: Tick, k: nat)
      requires DbInv(db, service.ownerId) && k < |rows|
      requires forall i :: i in rows ==> StoredInv(i) && Drain.Fits(db, i)
      requires forall j, l :: 0 <= j < l < |rows| ==> rows[j].id != rows[l].id
      requires rows[k].id in db.items && db.items[rows[k].id] == rows[k]
      requires rows[k].state.Scheduled? && rows[k].trigger.Condition?
      ensures
        var row := rows[k];
        var after := Drain.ApplyPoll(db, rows, EvaluationsOf(rows, tick));
        && row.id in after.items
        && var next := after.items[row.id];
        && next.lastConditionStatus == Some(tick.ask(row).status)
        && next.lastConditionDetail == Some(tick.ask(row).summary)
        && next.lastCheckedAt == Some(Millis(tick.now)) && next.version == row.version + 1
        && if tick.ask(row).status == Satisfied
              || (row.trigger.manualCheckAt.Some? && row.trigger.manualCheckAt.value <= tick.now)
           then next.state == Due && next.dueSince == Some(Millis(tick.now)) && next.nextEvaluationAt == None
           else next.state == Scheduled
    {
      hide DbInv, Drain.ApplyPoll, StoredInv;
      Drain.PollStoresEvaluations(db, service.ownerId, rows, EvaluationsOf(rows, tick), k);
      assert rows[k] in rows;
      ConditionAnswer(rows[k], EvaluationOf(rows[k], tick));
    }

    lemma ConditionAnswer(row: Item, e: Evaluating)
      requires StoredInv(row) && row.state.Scheduled? && row.trigger.Condition? && e.condition.Evaluated?
      ensures Candidate(row, e).Some?
      ensures
        var next := UpdatedRow(row, Candidate(row, e).value.0);
        && next.lastConditionStatus == Some(e.condition.status)
        && next.lastConditionDetail == e.detail
        && next.lastCheckedAt == Some(Millis(e.now)) && next.version == row.version + 1
        && if e.condition.status == Satisfied
              || (row.trigger.manualCheckAt.Some? && row.trigger.manualCheckAt.value <= e.now)
           then next.state == Due && next.dueSince == Some(Millis(e.now)) && next.nextEvaluationAt == None
           else next.state == Scheduled
    {
    }

    /** The loop, fed one tick after the other; running out of ticks is a cancellation. Unless the
        desired state cannot be read, or the version has run out, it ends with a row that is not this
        guard's, be it released or lost; and whatever the rounds do, the store keeps its invariants. A
        loop that starts with a fresh lease and polls promptly never loses it, whatever rivals try, and
        gives it back at the end. */
    method RunAcquired(guard: LeaseGuard, ticks: seq<Tick>, ghost since: Instant)
      returns (r: Result<RunExit, SchedulerError>)
      requires DbInv(service.tables.Value(), service.ownerId)
      requires forall k :: 0 <= k < |ticks| ==> Harmless(ticks[k], service.ownerId)
      modifies service.tables, lease.database, guard
      ensures DbInv(service.tables.Value(), service.ownerId)
      ensures r.Success? ==> !Owns(lease.database.row, lease.holderId, guard.version)
      ensures r.Failure? ==> r.error == InvalidDesiredState || r.error == LeaseProblem(InvalidData)
      ensures r == Failure(LeaseProblem(InvalidData)) ==> guard.version > I64_MAX
      ensures Steady(old(lease.database.row), old(guard.Value()), ticks, since) ==>
        && (r == Success(CancelledExit) || r == Success(DesiredStopped) || r == Failure(InvalidDesiredState))
        && (r.Success? ==> lease.database.row == None)
    {
      hide DbInv, Drain.IsBatch, Drain.Spent, Drain.ApplyPoll, ValidConfig, WholeSeconds, Fresh, RenewalDue, Harmless;
      var exit := CancelledExit;
      var k := 0;
      ghost var fresh_ := since;
      ghost var steady := Steady(lease.database.row, guard.Value(), ticks, since);
      while k < |ticks|
        invariant 0 <= k <= |ticks|
        invariant DbInv(service.tables.Value(), service.ownerId)
        invariant steady ==> Steady(lease.database.row, guard.Value(), ticks[k..], fresh_)
      {
        SteadyOwns(lease.database.row, guard.Value(), ticks[k..], fresh_);
        var tick := ticks[k];
        if tick.cancelled {
          break;
        }
        if tick.desired.None? {
          return Failure(InvalidDesiredState);
        }
        if !tick.desired.value {
          exit := DesiredStopped;
          break;
        }
        if steady && tick.rival.Some? {
          ValidConfigKeepsLease(config, lease.database.row, guard.Value(), tick.rival.value, fresh_, tick.now);
        }
        LetRivalAcquire(tick.rival, tick.now);
        ghost var rows;
        var poll;
        poll, rows := PollOnce(guard, tick, fresh_);
        if poll == Failure(LeaseProblem(Lost)) {
          exit := LeaseLost;
          break;
        }
        if tick.cancelledMeanwhile {
          break;
        }
        assert ticks[k..][1..] == ticks[k + 1..];
        fresh_ := RenewedAt(tick);
        k := k + 1;
      }
      SteadyOwns(lease.database.row, guard.Value(), ticks[k..], fresh_);
      var released := lease.Release(guard);
      return if released.Success? || released.error.Lost? then Success(exit) else Failure(LeaseProblem(released.error));
    }
  }

  /** A scheduler is built only from a valid configuration. */
  method OpenScheduler(service: RemindiService, table: LeaseTable, holderId: string, config: SchedulerConfig)
    returns (r: Result<Scheduler, SchedulerError>)
    ensures r.Success? <==> ValidConfig(config) && !Blank(holderId)
    ensures r.Success? ==>
      && r.value.config == config && r.value.service == service
      && r.value.lease.database == table && r.value.lease.Value() == Client(holderId, config.leaseDuration)
  {
    if !ValidConfig(config) {
      return Failure(SchedulerError.InvalidConfiguration);
    }
    var lease := OpenLease(table, holderId, config.leaseDuration);
    if lease.Failure? {
      return Failure(LeaseProblem(lease.error));
    }
    var scheduler := new Scheduler(service, lease.value, config, Actor(SchedulerActor, "scheduler:" + holderId, None));
    return Success(scheduler);
  }

  // ---------------------------------------------------------------- the workload

  /** The task and, once it has ended, its result. */
  datatype Task = Task(guard: LeaseGuard, result: Option<Result<RunExit, SchedulerError>>)

  /** Owns the one scheduler task. */
  class SchedulerWorkload {
    const lease: SchedulerLease
    var task: Option<Task>

    constructor (lease: SchedulerLease)
      ensures this.lease == lease && task.None?
    {
      this.lease := lease;
      task := None;
    }

    predicate Running()
      reads this
    {
      task.Some? && task.value.result.None?
    }

    /** The lease world, seen from this workload: the row is the stored one, and the guards of this holder
        are those of the running task: one, or none. */
    ghost predicate Shows(w: LeaseWorld)
      reads this, lease.database, if task.Some? then {task.value.guard} else {}
    {
      && w.row == lease.database.row && lease.duration > 0
      && (forall id :: id in w.guards && w.guards[id].holderId == lease.holderId ==>
            Running() && w.guards[id] == task.value.guard.Value())
      && (Running() ==> HasGuard(w, lease.holderId))
    }

    /** A running task is kept. The error of a finished one is returned before anything else. Otherwise
        the lease is acquired before the new task is spawned, and that acquisition is one the lease
        protocol allows: the holder has no guard outstanding. */
    method Start(desired: Option<bool>, now: Instant, ghost w: LeaseWorld, ghost id: nat)
      returns (r: Result<(), SchedulerError>, ghost next: LeaseWorld)
      requires Shows(w) && w.clock <= now && id !in w.guards
      modifies this, lease.database
      ensures Shows(next)
      ensures old(Running()) ==> r == Success(()) && task == old(task) && next == w
      ensures !old(Running()) && old(task).Some? && old(task).value.result.value.Failure? ==>
        r == Failure(old(task).value.result.value.error) && task.None? && next == w
      ensures !old(Running()) && (old(task).Some? ==> old(task).value.result.value.Success?) ==>
        if desired != Some(true) then r == Failure(InvalidDesiredState) && task.None? && next == w
        else
          && var step := AcquireStep(lease.Value(), id, now);
          && Enabled(w, step) && next == LeaseNext(w, step)
          && match AcquireLease(w.row, lease.Value(), now)
             case Failure(e) => r == Failure(LeaseProblem(e)) && task.None?
             case Success(held) => r == Success(()) && Running() && task.value.guard.Value() == held.guard
    {
      next := w;
      if task.Some? && task.value.result.None? {
        return Success(()), w;
      }
      if task.Some? {
        var finished := task.value.result.value;
        task := None;
        if finished.Failure? {
          return Failure(finished.error), w;
        }
      }
      if desired != Some(true) {
        return Failure(InvalidDesiredState), w;
      }
      next := LeaseNext(w, AcquireStep(lease.Value(), id, now));
      var guard := lease.Acquire(now);
      if guard.Failure? {
        return Failure(LeaseProblem(guard.error)), next;
      }
      task := Some(Task(guard.value, None));
      assert id in next.guards && next.guards[id].holderId == lease.holderId;
      return Success(()), next;
    }

    /** The running task ends: it has given its lease back, or died without. */
    method Finish(
        result: Result<RunExit, SchedulerError>, releases: bool, now: Instant, ghost w: LeaseWorld, ghost id: nat)
      returns (ghost next: LeaseWorld)
      requires Shows(w) && Running() && w.clock <= now
      requires id in w.guards && w.guards[id].holderId == lease.holderId
      requires forall other :: other in w.guards && w.guards[other].holderId == lease.holderId ==> other == id
      modifies this, lease.database
      ensures Shows(next) && !Running() && task == Some(Task(old(task).value.guard, Some(result)))
      ensures
        var step := if releases then ReleaseStep(id, now) else CrashStep(id, now);
        Enabled(w, step) && next == LeaseNext(w, step)
    {
      next := LeaseNext(w, if releases then ReleaseStep(id, now) else CrashStep(id, now));
      if releases {
        var released := lease.Release(task.value.guard);
      }
      task := Some(task.value.(result := Some(result)));
    }

    /** Cancels the task, waits for its end, and reports how it ended; without a task there is nothing to
        do, and a task that has ended already is reported as it is. */
    method Stop(
        result: Result<RunExit, SchedulerError>, releases: bool, now: Instant, ghost w: LeaseWorld, ghost id: nat)
      returns (r: Result<(), SchedulerError>, ghost next: LeaseWorld)
      requires Shows(w) && w.clock <= now
      requires Running() ==>
        && id in w.guards && w.guards[id].holderId == lease.holderId
        && forall other :: other in w.guards && w.guards[other].holderId == lease.holderId ==> other == id
      modifies this, lease.database
      ensures Shows(next) && task.None?
      ensures !old(Running()) ==> next == w
      ensures old(Running()) ==> next == LeaseNext(w, if releases then ReleaseStep(id, now) else CrashStep(id, now))
      ensures
        var ended := if old(Running()) then Some(result) else if old(task).Some? then old(task).value.result else None;
        r == if ended.Some? && ended.value.Failure? then Failure(ended.value.error) else Success(())
    {
      next := w;
      if task.None? {
        return Success(()), w;
      }
      if task.value.result.None? {
        next := Finish(result, releases, now, w, id);
      }
      var ended := task.value.result.value;
      task := None;
      return if ended.Failure? then Failure(ended.error) else Success(()), next;
    }
  }
}
