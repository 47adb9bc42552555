/** The scheduler lease: one row with holder, expiry and version, taken over when it has expired
    (src/scheduler/lease.rs). */
module Lease {
  import opened Wrappers
  import opened Model
  import opened Lifecycle

  datatype LeaseError = AlreadyHeld | Lost | InvalidConfiguration | InvalidData

  /** The row of `scheduler_leases`; its timestamps are canonical text. */
  datatype LeaseRow = LeaseRow(holderId: string, acquiredAt: Instant, expiresAt: Instant, version: nat)

  /** The value of a guard. */
  datatype Guard = Guard(holderId: string, version: nat, expiresAt: Instant, duration: Instant)

  /** Half the duration, or less, is left. */
  predicate RenewalDue(g: Guard, now: Instant) {
    now + g.duration / 2 >= g.expiresAt
  }

  /** A configured client. */
  datatype Client = Client(holderId: string, duration: Instant)

  datatype Held = Held(row: LeaseRow, guard: Guard)

  /** A new holder gets an absent row, or one whose expiry has passed; the version then goes on
      counting. */
  function AcquireLease(row: Option<LeaseRow>, c: Client, now: Instant): Result<Held, LeaseError> {
    var expiresAt := now + c.duration;
    if row.Some? && row.value.expiresAt > now then Failure(AlreadyHeld)
    else if row.Some? && row.value.version + 1 > I64_MAX then Failure(InvalidData)
    else
      var version := if row.Some? then row.value.version + 1 else 1;
      Success(Held(
        LeaseRow(c.holderId, Millis(now), Millis(expiresAt), version),
        Guard(c.holderId, version, expiresAt, c.duration)))
  }

  /** The row's WHERE clause of renewal and release. */
  predicate Owns(row: Option<LeaseRow>, holderId: string, version: nat) {
    row.Some? && row.value.holderId == holderId && row.value.version == version
  }

  /** A renewal needs a guard that has not expired, by its full expiry, and the row of this guard, not
      expired by its stored text. */
  function RenewLease(row: Option<LeaseRow>, c: Client, g: Guard, now: Instant): Result<Held, LeaseError> {
    if g.holderId != c.holderId || g.expiresAt <= now then Failure(Lost)
    else if g.version + 1 > I64_MAX then Failure(InvalidData)
    else if !Owns(row, c.holderId, g.version) || row.value.expiresAt <= Millis(now) then Failure(Lost)
    else
      var expiresAt := now + c.duration;
      Success(Held(
        row.value.(expiresAt := Millis(expiresAt), version := g.version + 1),
        g.(version := g.version + 1, expiresAt := expiresAt)))
  }

  /** Whether a release deletes the row. */
  function ReleaseLease(row: Option<LeaseRow>, c: Client, g: Guard): Option<LeaseError> {
    if g.version > I64_MAX then Some(InvalidData)
    else if Owns(row, c.holderId, g.version) then None
    else Some(Lost)
  }

  // ---------------------------------------------------------------- the objects

  class LeaseTable {
    var row: Option<LeaseRow>

    constructor ()
      ensures row == None
    {
      row := None;
    }
  }

  class LeaseGuard {
    const holderId: string
    var version: nat
    var expiresAt: Instant
    const duration: Instant

    function Value(): Guard
      reads this
    {
      Guard(holderId, version, expiresAt, duration)
    }

    constructor (g: Guard)
      ensures Value() == g
    {
      holderId, version, expiresAt, duration := g.holderId, g.version, g.expiresAt, g.duration;
    }

  }

  class SchedulerLease {
    const database: LeaseTable
    const holderId: string
    const duration: Instant

    function Value(): Client {
      Client(holderId, duration)
    }

    constructor (database: LeaseTable, holderId: string, duration: Instant)
      ensures this.database == database && Value() == Client(holderId, duration)
    {
      this.database, this.holderId, this.duration := database, holderId, duration;
    }

    method Acquire(now: Instant) returns (r: Result<LeaseGuard, LeaseError>)
      modifies database
      ensures match AcquireLease(old(database.row), Value(), now)
              case Failure(e) => r == Failure(e) && database.row == old(database.row)
              case Success(held) =>
                && r.Success? && fresh(r.value) && r.value.Value() == held.guard
                && database.row == Some(held.row)
    {
      var version := 1;
      if database.row.Some? {
        var current := database.row.value;
        if current.expiresAt > now {
          return Failure(AlreadyHeld);
        }
        if current.version + 1 > I64_MAX {
          return Failure(InvalidData);
        }
        version := current.version + 1;
      }
      database.row := Some(LeaseRow(holderId, Millis(now), Millis(now + duration), version));
      var guard := new LeaseGuard(Guard(holderId, version, now + duration, duration));
      return Success(guard);
    }

    method Renew(guard: LeaseGuard, now: Instant) returns (r: Result<(), LeaseError>)
      modifies database, guard
      ensures match RenewLease(old(database.row), Value(), old(guard.Value()), now)
              case Failure(e) =>
                r == Failure(e) && database.row == old(database.row) && guard.Value() == old(guard.Value())
              case Success(held) =>
                r == Success(()) && database.row == Some(held.row) && guard.Value() == held.guard
    {
      if guard.holderId != holderId || guard.expiresAt <= now {
        return Failure(Lost);
      }
      if guard.version + 1 > I64_MAX {
        return Failure(InvalidData);
      }
      if !Owns(database.row, holderId, guard.version) || database.row.value.expiresAt <= Millis(now) {
        return Failure(Lost);
      }
      database.row := Some(database.row.value.(expiresAt := Millis(now + duration), version := guard.version + 1));
      guard.version := guard.version + 1;
      guard.expiresAt := now + duration;
      return Success(());
    }

    method Release(guard: LeaseGuard) returns (r: Result<(), LeaseError>)
      modifies database
      ensures match ReleaseLease(old(database.row), Value(), guard.Value())
              case None => r == Success(()) && database.row == None
              case Some(e) => r == Failure(e) && database.row == old(database.row)
    {
      if guard.version > I64_MAX {
        return Failure(InvalidData);
      }
      if !Owns(database.row, holderId, guard.version) {
        return Failure(Lost);
      }
      database.row := None;
      return Success(());
    }
  }

  /** A lease client needs a holder and a positive duration. */
  method OpenLease(database: LeaseTable, holderId: string, duration: Instant)
    returns (r: Result<SchedulerLease, LeaseError>)
    ensures Blank(holderId) || duration <= 0 ==> r == Failure(InvalidConfiguration)
    ensures !Blank(holderId) && duration > 0 ==>
      r.Success? && fresh(r.value) && r.value.database == database && r.value.Value() == Client(holderId, duration)
  {
    if Blank(holderId) || duration <= 0 {
      return Failure(InvalidConfiguration);
    }
    var lease := new SchedulerLease(database, holderId, duration);
    return Success(lease);
  }

  // ---------------------------------------------------------------- the protocol

  /** The lease row, the guards that are outstanding, the guard that wrote the row if it is among
      them, and the time of the last step. */
  datatype LeaseWorld = LeaseWorld(
    row: Option<LeaseRow>, guards: map<nat, Guard>, writer: Option<nat>, clock: Instant)

  datatype LeaseStep =
    | AcquireStep(client: Client, fresh_: nat, now: Instant)
    | RenewStep(id: nat, now: Instant)
    | ReleaseStep(id: nat, now: Instant)
    | CrashStep(id: nat, now: Instant)

  const NoLease := LeaseWorld(None, map[], None, 0)

  function ClientOf(g: Guard): Client {
    Client(g.holderId, g.duration)
  }

  predicate HasGuard(w: LeaseWorld, holderId: string) {
    exists id :: id in w.guards && w.guards[id].holderId == holderId
  }

  /** When a step may be taken: the clock has not gone back, and a holder acquires only when it has no
      guard outstanding, which is how the scheduler workload starts its task. */
  predicate Enabled(w: LeaseWorld, s: LeaseStep) {
    && w.clock <= s.now
    && match s
       case AcquireStep(c, id, _) => id !in w.guards && c.duration > 0 && !HasGuard(w, c.holderId)
       case RenewStep(id, _) => id in w.guards
       case ReleaseStep(id, _) => id in w.guards
       case CrashStep(id, _) => id in w.guards
  }

  function NoWriter(w: LeaseWorld, id: nat): Option<nat> {
    if w.writer == Some(id) then None else w.writer
  }

  /** A released guard is given up whether or not the release found its row; so is one whose task
      died. */
  function LeaseNext(w: LeaseWorld, s: LeaseStep): LeaseWorld
    requires Enabled(w, s)
  {
    match s
    case AcquireStep(c, id, now) =>
      (match AcquireLease(w.row, c, now)
       case Success(held) => LeaseWorld(Some(held.row), w.guards[id := held.guard], Some(id), now)
       case Failure(_) => w.(clock := now))
    case RenewStep(id, now) =>
      (match RenewLease(w.row, ClientOf(w.guards[id]), w.guards[id], now)
       case Success(held) => LeaseWorld(Some(held.row), w.guards[id := held.guard], Some(id), now)
       case Failure(_) => w.(clock := now))
    case ReleaseStep(id, now) =>
      LeaseWorld(
        if ReleaseLease(w.row, ClientOf(w.guards[id]), w.guards[id]).None? then None else w.row,
        w.guards - {id}, NoWriter(w, id), now)
    case CrashStep(id, now) => LeaseWorld(w.row, w.guards - {id}, NoWriter(w, id), now)
  }

  predicate ValidRun(w: LeaseWorld, steps: seq<LeaseStep>)
    decreases |steps|
  {
    steps == [] || (Enabled(w, steps[0]) && ValidRun(LeaseNext(w, steps[0]), steps[1..]))
  }

  function LeaseRun(w: LeaseWorld, steps: seq<LeaseStep>): LeaseWorld
    requires ValidRun(w, steps)
    decreases |steps|
  {
    if steps == [] then w else LeaseRun(LeaseNext(w, steps[0]), steps[1..])
  }

  /** The stored expiry of a guard lies in the future. */
  predicate Live(g: Guard, now: Instant) {
    Millis(g.expiresAt) > now
  }

  /** The row is the one this guard wrote. */
  predicate Wrote(row: Option<LeaseRow>, g: Guard) {
    && row.Some? && row.value.holderId == g.holderId && row.value.version == g.version
    && row.value.expiresAt == Millis(g.expiresAt)
  }

  ghost predicate LeaseInv(w: LeaseWorld) {
    && (w.writer.Some? ==> w.writer.value in w.guards && Wrote(w.row, w.guards[w.writer.value]))
    && (forall id :: id in w.guards && w.row.Some? && w.row.value.holderId == w.guards[id].holderId ==>
          w.writer == Some(id))
    && (forall i, j :: i in w.guards && j in w.guards && w.guards[i].holderId == w.guards[j].holderId ==> i == j)
    && (forall id :: id in w.guards && Live(w.guards[id], w.clock) ==> w.writer == Some(id))
  }

  lemma StepKeepsLeaseInv(w: LeaseWorld, s: LeaseStep)
    requires LeaseInv(w) && Enabled(w, s)
    ensures LeaseInv(LeaseNext(w, s))
  {
    match s
    case AcquireStep(_, _, _) => AcquireKeepsLeaseInv(w, s);
    case RenewStep(_, _) => RenewKeepsLeaseInv(w, s);
    case ReleaseStep(_, _) => DropKeepsLeaseInv(w, s);
    case CrashStep(_, _) => DropKeepsLeaseInv(w, s);
  }

  lemma AcquireKeepsLeaseInv(w: LeaseWorld, s: LeaseStep)
    requires LeaseInv(w) && Enabled(w, s) && s.AcquireStep?
    ensures LeaseInv(LeaseNext(w, s))
  {
    hide Millis;
    forall j | j in w.guards ensures w.guards[j].holderId != s.client.holderId {
    }
  }

  lemma RenewKeepsLeaseInv(w: LeaseWorld, s: LeaseStep)
    requires LeaseInv(w) && Enabled(w, s) && s.RenewStep?
    ensures LeaseInv(LeaseNext(w, s))
  {
    hide Millis;
  }

  lemma DropKeepsLeaseInv(w: LeaseWorld, s: LeaseStep)
    requires LeaseInv(w) && Enabled(w, s) && (s.ReleaseStep? || s.CrashStep?)
    ensures LeaseInv(LeaseNext(w, s))
  {
    hide Millis;
  }

  lemma {:induction false} RunKeepsLeaseInv(w: LeaseWorld, steps: seq<LeaseStep>)
    requires LeaseInv(w) && ValidRun(w, steps)
    ensures LeaseInv(LeaseRun(w, steps))
    decreases |steps|
  {
    hide LeaseInv, LeaseNext;
    if steps != [] {
      StepKeepsLeaseInv(w, steps[0]);
      RunKeepsLeaseInv(LeaseNext(w, steps[0]), steps[1..]);
    }
  }

  // ---------------------------------------------------------------- what the protocol guarantees

  /** In every run with a monotone clock at most one guard has a stored expiry in the future. */
  lemma MutualExclusion(steps: seq<LeaseStep>, i: nat, j: nat)
    requires ValidRun(NoLease, steps)
    requires i in LeaseRun(NoLease, steps).guards && j in LeaseRun(NoLease, steps).guards
    requires Live(LeaseRun(NoLease, steps).guards[i], LeaseRun(NoLease, steps).clock)
    requires Live(LeaseRun(NoLease, steps).guards[j], LeaseRun(NoLease, steps).clock)
    ensures i == j
  {
    hide LeaseRun, ValidRun;
    RunKeepsLeaseInv(NoLease, steps);
  }

  /** At every instant the writer of the row may renew exactly when anybody else is refused: one test
      compares the stored text with the text of the clock, the other the parsed expiry with the clock
      itself. (At the last version numbers both fail.) */
  lemma RenewalExactlyWhenTakeoverRefused(row: Option<LeaseRow>, g: Guard, other: Client, now: Instant)
    requires Wrote(row, g) && g.version + 1 <= I64_MAX
    ensures RenewLease(row, ClientOf(g), g, now).Success? <==> AcquireLease(row, other, now) == Failure(AlreadyHeld)
    ensures RenewLease(row, ClientOf(g), g, now).Failure? <==> AcquireLease(row, other, now).Success?
  {
    StoredBoundComparison(row.value.expiresAt, now);
  }

  /** In every run, a guard that did not write the present row can neither renew nor delete it, although
      versions start again from one after a release. */
  lemma StaleGuardsAreHarmless(steps: seq<LeaseStep>, id: nat, now: Instant)
    requires ValidRun(NoLease, steps)
    requires id in LeaseRun(NoLease, steps).guards
    requires LeaseRun(NoLease, steps).writer != Some(id)
    ensures
      var w := LeaseRun(NoLease, steps);
      && RenewLease(w.row, ClientOf(w.guards[id]), w.guards[id], now).Failure?
      && ReleaseLease(w.row, ClientOf(w.guards[id]), w.guards[id]).Some?
  {
    hide LeaseRun, ValidRun;
    RunKeepsLeaseInv(NoLease, steps);
  }

  /** A row changes only by the hand of the guard that wrote it, or once its expiry has passed. */
  lemma RowChangesOnlyByItsWriter(w: LeaseWorld, s: LeaseStep)
    requires LeaseInv(w) && Enabled(w, s) && w.row.Some?
    requires LeaseNext(w, s).row != w.row
    ensures s.AcquireStep? ==> w.row.value.expiresAt <= s.now
    ensures !s.AcquireStep? ==> w.writer == Some(s.id)
  {
  }

  /** What an acquisition leaves, and how long it lasts: anyone else is refused until the stored expiry,
      the duration after the acquisition, and not from then on; and the version starts at one or goes on. */
  lemma AcquiredLeaseLasts(row: Option<LeaseRow>, c: Client, now: Instant, other: Client, t: Instant)
    requires AcquireLease(row, c, now).Success?
    ensures
      var held := AcquireLease(row, c, now).value;
      && held.row.holderId == c.holderId && held.guard.holderId == c.holderId
      && held.row.acquiredAt == Millis(now) && held.guard.expiresAt == now + c.duration
      && held.guard.duration == c.duration
      && held.row.version == (if row.Some? then row.value.version + 1 else 1) && held.guard.version == held.row.version
      && (row.Some? ==> row.value.expiresAt <= now)
      && (AcquireLease(Some(held.row), other, t) == Failure(AlreadyHeld) <==> t < Millis(now + c.duration))
      && (held.row.version < I64_MAX && Millis(now + c.duration) <= t ==>
            AcquireLease(Some(held.row), other, t).Success?)
  {
  }

  /** A renewal keeps holder and acquisition and lasts the duration from then; without it the lease is due
      for renewal from half its duration before its expiry on. */
  lemma RenewedLeaseLasts(row: Option<LeaseRow>, c: Client, g: Guard, now: Instant, other: Client, t: Instant)
    requires RenewLease(row, c, g, now).Success? && g.duration == c.duration
    ensures
      var held := RenewLease(row, c, g, now).value;
      && row.Some? && row.value.holderId == c.holderId == g.holderId && row.value.version == g.version
      && now < g.expiresAt
      && held.row == LeaseRow(c.holderId, row.value.acquiredAt, Millis(now + c.duration), g.version + 1)
      && held.guard == Guard(c.holderId, g.version + 1, now + c.duration, c.duration)
      && (AcquireLease(Some(held.row), other, t) == Failure(AlreadyHeld) <==> t < Millis(now + c.duration))
      && (RenewalDue(held.guard, t) <==> t >= now + c.duration - c.duration / 2)
  {
  }

  /** A release deletes exactly the row of this holder and version. */
  lemma ReleaseIff(row: Option<LeaseRow>, c: Client, g: Guard)
    requires g.version <= I64_MAX
    ensures ReleaseLease(row, c, g).None? <==>
      row.Some? && row.value.holderId == c.holderId && row.value.version == g.version
  {
  }

  /** As long as the row is not deleted, every change of it raises its version. */
  lemma VersionGrowsUntilRelease(w: LeaseWorld, s: LeaseStep)
    requires LeaseInv(w) && Enabled(w, s) && w.row.Some? && LeaseNext(w, s).row.Some?
    requires LeaseNext(w, s).row != w.row
    ensures LeaseNext(w, s).row.value.version == w.row.value.version + 1
  {
  }

  /** Holding two guards at once under one holder id is not harmless: once the version has started
      again, releasing the older guard deletes the row of the newer one. */
  lemma TwoGuardsOfOneHolderClash(c: Client, now: Instant)
    requires c.duration > 1_000_000
    ensures
      var first := AcquireLease(None, c, now);
      && first.Success?
      && var late := now + c.duration;
      var second := AcquireLease(Some(first.value.row), c, late);
      && second.Success?
      && ReleaseLease(Some(second.value.row), c, second.value.guard).None?
      && var third := AcquireLease(None, c, late);
      && third.Success? && Live(third.value.guard, late)
      && ReleaseLease(Some(third.value.row), c, first.value.guard).None?
  {
    var late := now + c.duration;
    assert Millis(late + c.duration) > late;
  }

  /** With settings in whole seconds and a lease longer than two polls, a guard that was renewed or not
      yet due when a poll began can still be renewed when the next poll begins. */
  lemma PromptPollsKeepTheLease(row: Option<LeaseRow>, g: Guard, lease: nat, poll: nat, now: Instant, next: Instant)
    requires g.duration == Seconds(lease) && lease > 2 * poll
    requires Wrote(row, g) && g.version + 1 <= I64_MAX
    requires !RenewalDue(g, now) && next <= now + Seconds(poll)
    ensures RenewLease(row, ClientOf(g), g, next).Success?
  {
    assert g.duration / 2 >= Seconds(poll) + 500_000_000;
  }

  lemma RenewedIsNotDue(row: Option<LeaseRow>, c: Client, g: Guard, now: Instant)
    requires c.duration > 1 && g.duration == c.duration && RenewLease(row, c, g, now).Success?
    ensures !RenewalDue(RenewLease(row, c, g, now).value.guard, now)
    ensures Wrote(Some(RenewLease(row, c, g, now).value.row), RenewLease(row, c, g, now).value.guard)
  {
  }
}
