/** The guarded restore: its journal, its swap, its rollback, and the recovery of an interrupted one
    (src/admin/backup.rs). */
module Restore {
  import opened Wrappers
  import opened Storage
  import opened Maintenance
  import opened Workloads

  datatype BackupError = Invalid | NotFound | Persistence | Io | RestoreConfirmation | RestoreFailed | WorkloadFailed

  datatype RestoreFault = NoFault | BeforeSwap | DuringReopen | AfterSwap

  const CONFIRMATION := "RESTORE REMINDI"

  /** A plain name of the form `remindi-….sqlite3`. */
  predicate SafeFileName(name: string) {
    && 0 < |name| <= 128
    && '/' !in name
    && "remindi-" <= name
    && |name| >= 8 && name[|name| - 8..] == ".sqlite3"
  }

  // ---------------------------------------------------------------- what a restore may leave behind

  /** The live database when the restore began, the backup to be restored, and the snapshot taken
      before the swap. */
  datatype Lineage = Lineage(original: Image, candidate: Image, snapshot: Image)

  /** The checks the recovery makes on a journal. */
  predicate JournalAccepted(j: Journal) {
    && SafeFileName(j.candidateFile)
    && (j.phase.Requested? || j.phase.CandidateVerified? || SafeFileName(j.preRestoreFile))
  }

  predicate HoldsSnapshot(d: DiskState, name: string, l: Lineage) {
    name in d.files && d.files[name] == BackupFile(l.snapshot, PreRestore)
  }

  /** What every disk a restore leaves behind satisfies, wherever it stopped: the live database is a
      whole one, and the journal, if there is one, says truly what a recovery will find. */
  predicate Safe(d: DiskState, l: Lineage) {
    && l.original <= l.snapshot
    && (l.original <= d.live || l.candidate <= d.live)
    && match d.journal
       case None => true
       case Some(j) =>
         && JournalAccepted(j)
         && match j.phase
            case Requested => l.original <= d.live
            case CandidateVerified => l.original <= d.live
            case Succeeded => l.candidate <= d.live
            case _ =>
              HoldsSnapshot(d, j.preRestoreFile, l) && (l.snapshot <= d.live || l.candidate <= d.live)
  }

  /** What a finished recovery makes of a disk. */
  function Target(d: DiskState): Image {
    if d.journal.None? || d.journal.value.phase.KeepsLive() || d.journal.value.preRestoreFile !in d.files then d.live
    else d.files[d.journal.value.preRestoreFile].image
  }

  /** What one attempt at recovery, finished, failed or cut short, may make of a disk. */
  predicate RecoveryStep(d: DiskState, e: DiskState) {
    && e.files == d.files && e.used == d.used
    && (e.journal == d.journal || e.journal.None?)
    && (e.live == d.live || e.live == Target(d))
    && (e.journal.None? ==> e.live == Target(d))
  }

  datatype Recovery = NothingToDo | Recovered | Refused(error: BackupError) | Died

  /** Startup repair, before the pool is opened. */
  method RecoverInterrupted(disk: Disk) returns (r: Recovery)
    modifies disk`live, disk`journal, disk`staged, disk`faults
    ensures r.Refused? || r.Died? ==>
      || old(disk.faults) < disk.faults
      || (&& old(disk.journal).Some?
          && var j := old(disk.journal).value;
          !JournalAccepted(j) || (!j.phase.KeepsLive() && j.preRestoreFile !in disk.files))
    ensures RecoveryStep(old(disk.State()), disk.State())
    ensures r == NothingToDo ==> old(disk.journal).None?
    ensures r == Recovered ==> old(disk.journal).Some?
    ensures r.NothingToDo? || r.Recovered? ==> disk.journal.None? && disk.live == Target(old(disk.State()))
    ensures old(disk.journal).Some? && !JournalAccepted(old(disk.journal).value) ==>
      !r.Recovered? && disk.State() == old(disk.State())
  {
    var o := disk.Attempt();
    if !o.Done? {
      return if o.Crashed? then Died else Refused(Io);
    }
    if disk.journal.None? {
      return NothingToDo;
    }
    var journal := disk.journal.value;
    if !JournalAccepted(journal) {
      return Refused(Invalid);
    }
    if journal.phase.Requested? || journal.phase.CandidateVerified? {
      o := disk.Attempt();
      if !o.Done? {
        return if o.Crashed? then Died else Refused(Invalid);
      }
    } else if !journal.phase.Succeeded? {
      o := disk.Attempt();
      if !o.Done? || journal.preRestoreFile !in disk.files {
        return if o.Crashed? then Died else Refused(Invalid);
      }
      o := disk.InstallDatabase(journal.preRestoreFile);
      if !o.Done? {
        return if o.Crashed? then Died else Refused(Io);
      }
      o := disk.Attempt();
      if !o.Done? {
        return if o.Crashed? then Died else Refused(Invalid);
      }
    }
    o := disk.UnlinkJournal();
    if !o.Done? {
      return if o.Crashed? then Died else Refused(Io);
    }
    return Recovered;
  }

  // ---------------------------------------------------------------- crash atomicity

  /** Attempts at recovery, one after the other. */
  predicate AreRecoveries(disks: seq<DiskState>) {
    && |disks| > 0
    && forall k :: 0 < k < |disks| ==> RecoveryStep(disks[k - 1], disks[k])
  }

  lemma RecoveryKeepsTarget(d: DiskState, e: DiskState)
    requires RecoveryStep(d, e)
    ensures Target(e) == Target(d)
    ensures e.journal.None? ==> e.live == Target(d)
  {
  }

  /** However often a recovery is cut short and run again, it aims at the same database. */
  lemma {:induction false} RecoveriesKeepTarget(disks: seq<DiskState>)
    requires AreRecoveries(disks)
    ensures Target(disks[|disks| - 1]) == Target(disks[0])
  {
    hide Target, RecoveryStep;
    if |disks| > 1 {
      RecoveriesKeepTarget(disks[..|disks| - 1]);
      RecoveryKeepsTarget(disks[|disks| - 2], disks[|disks| - 1]);
    }
  }

  /** Whatever a restore left behind, and after any number of recoveries cut short, once the journal is
      gone the live database is, as the journal's phase says, the untouched live database or exactly
      the snapshot: never a mixture. */
  lemma RecoveryIsAtomic(disks: seq<DiskState>, l: Lineage)
    requires AreRecoveries(disks) && Safe(disks[0], l)
    requires disks[|disks| - 1].journal.None?
    ensures
      var found, live := disks[0], disks[|disks| - 1].live;
      match found.journal
      case None => live == found.live && (l.original <= live || l.candidate <= live)
      case Some(j) =>
        match j.phase
        case Requested => live == found.live && l.original <= live
        case CandidateVerified => live == found.live && l.original <= live
        case Succeeded => live == found.live && l.candidate <= live
        case _ => live == l.snapshot && l.original <= live
  {
    RecoveriesKeepTarget(disks);
  }

  /** Between a restore that returned and the next startup other clients go on writing. */
  lemma WritingKeepsSafe(d: DiskState, e: DiskState, l: Lineage)
    requires Safe(d, l) && Evolves(d, e)
    ensures Safe(e, l)
  {
  }

  /** A recovery keeps all transactions of the live database exactly when the journal leaves it alone or
      the snapshot holds them. */
  lemma RecoveryKeepsWritesIff(d: DiskState, l: Lineage)
    requires Safe(d, l)
    ensures d.live <= Target(d) <==>
      d.journal.None? || d.journal.value.phase.KeepsLive() || d.live <= l.snapshot
  {
  }

  /** In a rollback phase it loses exactly the transactions that followed the snapshot. */
  lemma RecoveryLosesWhatFollowed(d: DiskState, l: Lineage, later: seq<Txn>)
    requires Safe(d, l) && d.live == l.snapshot + later
    ensures Target(d) ==
      if d.journal.None? || d.journal.value.phase.KeepsLive() then l.snapshot + later else l.snapshot
    ensures d.live <= Target(d) <==> d.journal.None? || d.journal.value.phase.KeepsLive() || later == []
  {
    RecoveryKeepsWritesIff(d, l);
  }

  /** A restore whose swap was completed and whose workloads run again, but whose success could not be
      recorded, is taken back at the next startup, with all that was written since: the live database is
      the snapshot again, and the candidate is gone unless the snapshot descends from it. */
  lemma UnrecordedSuccessIsReverted(disks: seq<DiskState>, l: Lineage)
    requires AreRecoveries(disks) && Safe(disks[0], l) && l.candidate <= disks[0].live
    requires disks[0].journal.Some? && !disks[0].journal.value.phase.KeepsLive()
    requires disks[|disks| - 1].journal.None?
    ensures
      var live := disks[|disks| - 1].live;
      live == l.snapshot && l.original <= live && (l.candidate <= live <==> l.candidate <= l.snapshot)
  {
    RecoveryIsAtomic(disks, l);
  }

  /** So a transaction committed after the snapshot is lost when the process dies before the restore is
      journaled as succeeded, and also long after a restore whose journal could not be unlinked. */
  lemma LaterWritesCanBeLost(l: Lineage, j: Journal, d: DiskState)
    requires Safe(d, l) && d.journal == Some(j) && !j.phase.KeepsLive()
    requires l.snapshot <= d.live
    ensures
      var written := d.(live := d.live + [Write(7)]);
      Safe(written, l) && Target(written) == l.snapshot && !(written.live <= Target(written))
  {
  }

  lemma PublishedStays(a: DiskState, b: DiskState, c: DiskState, name: string)
    requires Evolves(a, b) && Evolves(b, c) && name in b.files && Retained(b.files[name])
    ensures Evolves(a, c) && name in c.files && c.files[name] == b.files[name]
  {
    EvolvesIsTransitive(a, b, c);
  }

  lemma GrowthEvolves(a: DiskState, b: DiskState)
    requires a.files.Keys <= a.used && b == a.(live := b.live) && a.live <= b.live
    ensures Evolves(a, b)
  {
  }

  // ---------------------------------------------------------------- the restore

  /** The snapshot is on disk and the journal says to go back to it. */
  predicate Held(d: DiskState, j: Journal, l: Lineage) {
    && Safe(d, l)
    && d.files.Keys <= d.used
    && HoldsSnapshot(d, j.preRestoreFile, l)
    && j.candidateFile in d.used
    && (j.candidateFile in d.files ==> d.files[j.candidateFile].image == l.candidate)
    && JournalAccepted(j) && !j.phase.KeepsLive()
    && d.journal.Some? && !d.journal.value.phase.KeepsLive()
    && d.journal.value.preRestoreFile == j.preRestoreFile
  }

  lemma HeldFacts(d: DiskState, j: Journal, l: Lineage)
    requires Held(d, j, l)
    ensures Safe(d, l) && l.original <= l.snapshot
    ensures HoldsSnapshot(d, j.preRestoreFile, l)
    ensures j.candidateFile in d.used
    ensures j.candidateFile in d.files ==> d.files[j.candidateFile].image == l.candidate
  {
  }

  /** The live database may be replaced by, or grow from, a whole one. */
  lemma HeldLive(d: DiskState, e: DiskState, j: Journal, l: Lineage)
    requires Held(d, j, l) && e == d.(live := e.live)
    requires d.live <= e.live || l.candidate <= e.live || l.snapshot <= e.live
    ensures Held(e, j, l)
  {
  }

  lemma HeldSucceeds(d: DiskState, e: DiskState, j: Journal, l: Lineage)
    requires Held(d, j, l) && l.candidate <= d.live
    requires e == d || e == d.(journal := Some(j.(phase := Succeeded)))
    ensures Safe(e, l)
  {
  }

  lemma SucceededEvolves(d: DiskState, e: DiskState, l: Lineage)
    requires Safe(d, l) && d.journal.Some? && d.journal.value.phase.Succeeded? && Evolves(d, e)
    ensures Safe(e, l)
  {
  }

  lemma HeldEvolves(d: DiskState, e: DiskState, j: Journal, l: Lineage)
    requires Held(d, j, l) && Evolves(d, e)
    ensures Held(e, j, l)
  {
  }

  /** What a restore has done that matters to the gate and to the leases. */
  datatype Mark = Replaced(exclusive: bool, open: bool, idle: bool, rollback: bool) | Restarting(live: Image)

  /** The live file is replaced only under the exclusive gate with the pool absent, by the candidate only
      with both workloads stopped; and workloads are restarted only on a database without leases that
      descends from the candidate or the snapshot. */
  predicate SoundMark(m: Mark, l: Lineage) {
    match m
    case Replaced(exclusive, open, idle, rollback) => exclusive && !open && (rollback || idle)
    case Restarting(live) => LeaseFree(live) && (l.candidate <= live || l.snapshot <= live)
  }

  predicate Sound(trace: seq<Mark>, l: Lineage) {
    forall k :: 0 <= k < |trace| ==> SoundMark(trace[k], l)
  }

  /** Both workloads run exactly when they are wanted, and neither has failed. */
  predicate FollowsIntent(s: ControllerState) {
    && Settled(s.mcp) && Settled(s.scheduler)
    && (s.mcp.running <==> s.mcp.desired.DesiredRunning?)
    && (s.scheduler.running <==> s.scheduler.desired.DesiredRunning?)
  }

  /** The last thing done to the gate or the leases was to restart the workloads on this lineage. */
  predicate RestartedOn(trace: seq<Mark>, base: Image) {
    trace != [] && trace[|trace| - 1].Restarting? && base <= trace[|trace| - 1].live
  }

  datatype Prepared = Ready(journal: Journal) | Abandoned(error: BackupError) | PrepareDied

  /** How the part of a restore after the snapshot ended. */
  datatype Ending =
    | Restored
    | Unrecorded(error: BackupError)
    | RolledBack(error: BackupError)
    | Stuck(error: BackupError)
    | EndingDied

  datatype RestoreResult = Returned(result: Result<(), BackupError>) | ProcessDied

  class RestoreManager {
    const disk: Disk
    const database: DatabaseManager
    const workloads: WorkloadController
    /** What the running restore did to the gate and the leases, and the phases it wrote. */
    ghost var trace: seq<Mark>
    ghost var journaled: seq<RestorePhase>

    ghost predicate Valid()
      reads this, disk
    {
      database.disk == disk && disk.files.Keys <= disk.used
    }

    constructor (disk: Disk, database: DatabaseManager, workloads: WorkloadController)
      requires database.disk == disk && disk.files.Keys <= disk.used
      ensures this.disk == disk && this.database == database && this.workloads == workloads
      ensures Valid()
    {
      this.disk, this.database, this.workloads := disk, database, workloads;
      trace, journaled := [], [];
    }

    method Others()
      requires Valid()
      modifies disk
      ensures Valid() && Evolves(old(disk.State()), disk.State())
      ensures database.exclusive ==> disk.live == old(disk.live)
      ensures LeaseFree(old(disk.live)) ==> LeaseFree(disk.live)
      ensures disk.faults == old(disk.faults)
    {
      disk.Interfere(!database.exclusive && database.open);
      if LeaseFree(old(disk.live)) {
        QuietKeepsLeaseFree(old(disk.live), disk.live);
      }
    }

    method WriteJournal(j: Journal) returns (o: Outcome)
      modifies disk`journal, disk`faults, this`journaled
      ensures old(disk.faults) <= disk.faults && (!o.Done? ==> old(disk.faults) < disk.faults)
      ensures disk.journal == Some(j) || disk.journal == old(disk.journal)
      ensures o.Done? ==> disk.journal == Some(j)
      ensures journaled == old(journaled) + if o.Done? then [j.phase] else []
    {
      o := disk.WriteJournal(j);
      if o.Done? {
        journaled := journaled + [j.phase];
      }
    }

    /** Writes a later phase of a restore that holds its snapshot. */
    method Advance(j: Journal, phase: RestorePhase, ghost l: Lineage) returns (o: Outcome)
      requires Valid() && Held(disk.State(), j, l) && !phase.KeepsLive()
      modifies disk`journal, disk`faults, this`journaled
      ensures old(disk.faults) <= disk.faults && (!o.Done? ==> old(disk.faults) < disk.faults)
      ensures Valid() && Held(disk.State(), j, l)
      ensures o.Done? ==> disk.journal == Some(j.(phase := phase))
      ensures journaled == old(journaled) + if o.Done? then [phase] else []
    {
      o := WriteJournal(j.(phase := phase));
    }

    /** Other activity while the snapshot is held. */
    method Pause(j: Journal, ghost l: Lineage)
      requires Valid() && Held(disk.State(), j, l)
      modifies disk
      ensures Valid() && Held(disk.State(), j, l) && old(disk.live) <= disk.live
      ensures database.exclusive ==> disk.live == old(disk.live)
      ensures LeaseFree(old(disk.live)) ==> LeaseFree(disk.live)
      ensures disk.faults == old(disk.faults) && disk.journal == old(disk.journal)
      ensures j.candidateFile !in old(disk.files) ==> j.candidateFile !in disk.files
    {
      HeldFacts(disk.State(), j, l);
      hide Held, Safe;
      Others();
      HeldEvolves(old(disk.State()), disk.State(), j, l);
    }

    /** Takes a consistent copy of the live database into the backup directory and registers it; the
        retention that follows may remove uploaded and automatic backups. A generator that repeats an
        identifier counts as a step that failed. */
    method CreatePreRestore() returns (o: Outcome, name: string, ghost snapshot: Image)
      requires Valid()
      modifies disk
      ensures Valid() && Evolves(old(disk.State()), disk.State()) && old(disk.faults) <= disk.faults
      ensures o.Done? ==>
        && name !in old(disk.used) && SafeFileName(name)
        && name in disk.files && disk.files[name] == BackupFile(snapshot, PreRestore)
        && old(disk.live) <= snapshot <= disk.live && database.open
      ensures !o.Done? ==> old(disk.faults) < disk.faults || database.exclusive || !database.open
    {
      name := *;
      snapshot := disk.live;
      var copy := disk.live;
      var connected := database.Connection();
      if connected.Failure? {
        return Failed, name, snapshot;
      }
      o := disk.Attempt();
      if !o.Done? {
        return;
      }
      if name in disk.used || !SafeFileName(name) {
        disk.faults := disk.faults + 1;
        return Failed, name, snapshot;
      }
      o := Publish(name, copy);
    }

    /** Publishes the copy under its name, registers it, and lets retention run. */
    method Publish(name: string, copy: Image) returns (o: Outcome)
      requires Valid() && name !in disk.used && copy == disk.live
      modifies disk
      ensures Valid() && Evolves(old(disk.State()), disk.State()) && old(disk.faults) <= disk.faults
      ensures name in disk.files && disk.files[name] == BackupFile(copy, PreRestore)
      ensures !o.Done? ==> old(disk.faults) < disk.faults
    {
      ghost var start := disk.State();
      disk.files, disk.used := disk.files[name := BackupFile(copy, PreRestore)], disk.used + {name};
      ghost var published := disk.State();
      assert Evolves(start, published);
      hide LeaseFree, Evolves;
      Others();
      PublishedStays(start, published, disk.State(), name);
      o := disk.Attempt();
      if !o.Done? {
        return;
      }
      var registers: bool := *;
      if registers && database.open {
        published := disk.State();
        disk.live := disk.live + [Write(0)];
        GrowthEvolves(published, disk.State());
        PublishedStays(start, published, disk.State(), name);
      }
      published := disk.State();
      Others();
      PublishedStays(start, published, disk.State(), name);
      o := disk.Attempt();
    }

    /** Gives the restore up before the swap. */
    method Abandon(error: BackupError, ghost l: Lineage) returns (p: Prepared)
      requires Valid() && Safe(disk.State(), l) && l.original <= disk.live
      modifies disk`journal, disk`faults
      ensures Valid() && Safe(disk.State(), l) && !p.Ready? && old(disk.faults) <= disk.faults
      ensures disk.files == old(disk.files)
      ensures p.Abandoned? ==> p.error == error || p.error == Io
    {
      var o := disk.RemoveJournal();
      return match o case Crashed => PrepareDied case Failed => Abandoned(Io) case Done => Abandoned(error);
    }

    /** From the request to the journaled snapshot. `found` is the file name in the record of the
        requested backup, or the error of looking it up. */
    method Prepare(found: Result<string, BackupError>) returns (p: Prepared, ghost l: Lineage)
      requires Valid() && !database.exclusive
      modifies disk, this`journaled
      ensures Valid()
      ensures l.original == old(disk.live)
      ensures old(disk.live) <= disk.live && old(disk.faults) <= disk.faults
      ensures disk.journal == old(disk.journal) || Safe(disk.State(), l)
      ensures p.Ready? ==>
        && Held(disk.State(), p.journal, l) && disk.journal == Some(p.journal)
        && journaled == old(journaled) + [Requested, CandidateVerified, PreRestoreBackupVerified]
        && found.Success?
        && (found.value in old(disk.files) ==> l.candidate == old(disk.files)[found.value].image)
        && p.journal.candidateFile == found.value && database.open
      ensures found.Failure? ==> p == Abandoned(found.error)
      ensures found.Success? && !SafeFileName(found.value) ==> p == Abandoned(Invalid)
      ensures !p.Ready? ==>
        || old(disk.faults) < disk.faults || !database.open
        || found.Failure? || !SafeFileName(found.value)
        || !(found.value in old(disk.files) && found.value in disk.files)
    {
      l := Lineage(disk.live, disk.live, disk.live);
      Others();
      if found.Failure? {
        return Abandoned(found.error), l;
      }
      if !SafeFileName(found.value) {
        return Abandoned(Invalid), l;
      }
      var id: nat := *;
      var journal := Journal(id, Requested, found.value, "");
      var o := WriteJournal(journal);
      if !o.Done? {
        return if o.Crashed? then PrepareDied else Abandoned(Io), l;
      }
      Others();
      o := disk.Attempt();
      if o.Crashed? {
        return PrepareDied, l;
      }
      if o.Failed? || found.value !in disk.files {
        p := Abandon(Invalid, l);
        return;
      }
      l := l.(candidate := disk.files[found.value].image);
      journal := journal.(phase := CandidateVerified);
      o := WriteJournal(journal);
      if !o.Done? {
        return if o.Crashed? then PrepareDied else Abandoned(Io), l;
      }
      Others();
      p, l := TakeSnapshot(journal, l);
    }

    method TakeSnapshot(verified: Journal, ghost before: Lineage) returns (p: Prepared, ghost l: Lineage)
      requires Valid() && !database.exclusive
      requires disk.journal == Some(verified) && verified.phase.CandidateVerified? && JournalAccepted(verified)
      requires before.original <= disk.live && before.snapshot == before.original
      requires verified.candidateFile in disk.used
      requires verified.candidateFile in disk.files ==> disk.files[verified.candidateFile].image == before.candidate
      modifies disk, this`journaled
      ensures Valid()
      ensures l.original == before.original && l.candidate == before.candidate
      ensures old(disk.live) <= disk.live && old(disk.faults) <= disk.faults
      ensures Safe(disk.State(), l)
      ensures p.Ready? ==>
        && Held(disk.State(), p.journal, l) && disk.journal == Some(p.journal)
        && journaled == old(journaled) + [PreRestoreBackupVerified]
        && p.journal.candidateFile == verified.candidateFile && database.open
      ensures !p.Ready? ==> old(disk.faults) < disk.faults || !database.open
    {
      l := before;
      var o, name;
      ghost var snapshot;
      o, name, snapshot := CreatePreRestore();
      if o.Crashed? {
        return PrepareDied, l;
      }
      if o.Failed? {
        p := Abandon(Persistence, l);
        return;
      }
      l := l.(snapshot := snapshot);
      o := disk.Attempt();
      if o.Crashed? {
        return PrepareDied, l;
      }
      if o.Failed? {
        p := Abandon(Invalid, l);
        return;
      }
      var journal := verified.(phase := PreRestoreBackupVerified, preRestoreFile := name);
      o := WriteJournal(journal);
      if !o.Done? {
        return if o.Crashed? then PrepareDied else Abandoned(Io), l;
      }
      return Ready(journal), l;
    }

    /** Installs a backup over the live database. */
    method Install(source: string, ghost rollback: bool, ghost l: Lineage) returns (o: Outcome)
      requires Valid() && database.exclusive && !database.open && Sound(trace, l)
      requires rollback || workloads.state.Idle()
      modifies disk`live, disk`staged, disk`faults, this`trace
      ensures old(disk.faults) <= disk.faults
      ensures !o.Done? ==> old(disk.faults) < disk.faults || source !in disk.files
      ensures o.Crashed? ==> old(disk.faults) < disk.faults
      ensures Valid() && Sound(trace, l)
      ensures trace == old(trace) + [Replaced(true, false, workloads.state.Idle(), rollback)]
      ensures disk.live == old(disk.live) || (source in disk.files && disk.live == disk.files[source].image)
      ensures o.Done? ==> source in disk.files && disk.live == disk.files[source].image
    {
      trace := trace + [Replaced(database.exclusive, database.open, workloads.state.Idle(), rollback)];
      o := disk.InstallDatabase(source);
    }

    /** The swap: whatever fails is left to the rollback. */
    method Swap(journal: Journal, fault: RestoreFault, ghost l: Lineage) returns (o: Outcome)
      requires Valid() && database.exclusive && Held(disk.State(), journal, l) && Sound(trace, l)
      requires workloads.state.Idle()
      modifies disk, database`open, this`trace, this`journaled
      ensures Valid() && Held(disk.State(), journal, l) && Sound(trace, l)
      ensures old(disk.faults) <= disk.faults
      ensures !o.Done? ==>
        || old(disk.faults) < disk.faults
        || !old(database.open) || !fault.NoFault? || journal.candidateFile !in disk.files
      ensures o.Crashed? ==> old(disk.faults) < disk.faults
      ensures o.Done? ==>
        && l.candidate <= disk.live && LeaseFree(disk.live) && database.open && fault.NoFault?
        && journaled == old(journaled) + [WorkloadsQuiesced, LiveReplaced, ReplacementVerified]
        && trace == old(trace) + [Replaced(true, false, true, false)]
    {
      hide Held, Safe, Sound, LeaseFree;
      o := Advance(journal, WorkloadsQuiesced, l);
      if !o.Done? {
        return;
      }
      o := database.CheckpointAndClose();
      if !o.Done? {
        return;
      }
      if fault.BeforeSwap? {
        return Failed;
      }
      Pause(journal, l);
      HeldFacts(disk.State(), journal, l);
      ghost var before := disk.State();
      o := Install(journal.candidateFile, false, l);
      HeldLive(before, disk.State(), journal, l);
      if !o.Done? {
        return;
      }
      o := Advance(journal, LiveReplaced, l);
      if !o.Done? {
        return;
      }
      o := OpenReplacement(journal, fault, l);
    }

    /** Opens the replaced database and deletes the leases it brought along. */
    method OpenReplacement(journal: Journal, fault: RestoreFault, ghost l: Lineage) returns (o: Outcome)
      requires Valid() && database.exclusive && Held(disk.State(), journal, l) && l.candidate <= disk.live
      requires !fault.BeforeSwap?
      modifies disk, database`open, this`journaled
      ensures Valid() && Held(disk.State(), journal, l) && old(disk.faults) <= disk.faults
      ensures !o.Done? ==> old(disk.faults) < disk.faults || !fault.NoFault?
      ensures o.Crashed? ==> old(disk.faults) < disk.faults
      ensures o.Done? ==>
        && l.candidate <= disk.live && LeaseFree(disk.live) && database.open && fault.NoFault?
        && journaled == old(journaled) + [ReplacementVerified]
    {
      hide Held, Safe, LeaseFree;
      if fault.DuringReopen? {
        return Failed;
      }
      ghost var before := disk.State();
      o := database.Reopen();
      HeldLive(before, disk.State(), journal, l);
      if !o.Done? {
        return;
      }
      o := Advance(journal, ReplacementVerified, l);
      if !o.Done? {
        return;
      }
      if fault.AfterSwap? {
        return Failed;
      }
      before := disk.State();
      o := database.ClearSchedulerLeases();
      HeldLive(before, disk.State(), journal, l);
    }

    /** Reads the intent from the live database and restarts the workloads; a scheduler that starts
        writes its lease row. */
    method RestartWorkloads(ghost l: Lineage) returns (r: Result<(), WorkloadError>)
      requires Valid() && LeaseFree(disk.live) && Sound(trace, l)
      requires l.candidate <= disk.live || l.snapshot <= disk.live
      modifies disk`live, disk`faults, workloads, this`trace
      ensures Valid() && Sound(trace, l) && old(disk.faults) <= disk.faults
      ensures old(disk.live) <= disk.live
      ensures trace == old(trace) + [Restarting(old(disk.live))]
      ensures r.Success? ==> FollowsIntent(workloads.state)
      ensures old(workloads.errors) <= workloads.errors
      ensures r.Failure? && !database.exclusive && database.open ==>
        old(disk.faults) < disk.faults || old(workloads.errors) < workloads.errors
    {
      trace := trace + [Restarting(disk.live)];
      var loaded: Option<(DesiredState, DesiredState)> := None;
      var connected := database.Connection();
      if connected.Success? {
        var read := disk.Attempt();
        if read.Done? {
          var mcp, scheduler: DesiredState := *, *;
          loaded := Some((mcp, scheduler));
        }
      }
      r := workloads.RestartFromPersisted(loaded);
      var acquires: bool := *;
      if acquires && workloads.state.scheduler.running {
        disk.live := disk.live + [LeaseWrite];
      }
    }

    /** One row of the administrative audit. */
    method AppendAudit() returns (o: Outcome)
      requires Valid()
      modifies disk`live, disk`faults
      ensures Valid() && old(disk.live) <= disk.live && old(disk.faults) <= disk.faults
      ensures !o.Done? && !database.exclusive && database.open ==> old(disk.faults) < disk.faults
    {
      var connected := database.Connection();
      if connected.Failure? {
        return Failed;
      }
      o := disk.Attempt();
      if !o.Done? {
        return;
      }
      disk.live := disk.live + [Write(1)];
      o := disk.Attempt();
    }

    /** Puts the snapshot back, clears the leases, releases the gate and restarts the workloads. Errors
        of journal writes are ignored; any other error ends it where it is. */
    method RollBack(journal: Journal, ghost l: Lineage) returns (e: Ending)
      requires Valid() && database.exclusive && Held(disk.State(), journal, l) && Sound(trace, l)
      modifies disk, database`open, database`exclusive, workloads, this`trace, this`journaled
      ensures Valid() && Safe(disk.State(), l) && Sound(trace, l)
      ensures e.RolledBack? || e.Stuck? || e.EndingDied?
      ensures old(disk.faults) <= disk.faults && (!e.RolledBack? ==> old(disk.faults) < disk.faults)
      ensures journal.candidateFile !in old(disk.files) ==> journal.candidateFile !in disk.files
      ensures old(workloads.errors) <= workloads.errors
      ensures e.RolledBack? ==> l.snapshot <= disk.live && database.open && RestartedOn(trace, l.snapshot)
      ensures !e.EndingDied? ==> !database.exclusive
    {
      hide Held, Safe, Sound, LeaseFree;
      HeldFacts(disk.State(), journal, l);
      var o := database.CheckpointAndClose();
      if o.Crashed? {
        return EndingDied;
      }
      ghost var before := disk.State();
      o := Install(journal.preRestoreFile, true, l);
      HeldLive(before, disk.State(), journal, l);
      HeldFacts(disk.State(), journal, l);
      if !o.Done? {
        database.EndMaintenance();
        return if o.Crashed? then EndingDied else Stuck(Io);
      }
      o := Advance(journal, PreRestoreReinstalled, l);
      HeldFacts(disk.State(), journal, l);
      if o.Crashed? {
        return EndingDied;
      }
      o := ReopenSnapshot(journal, l);
      HeldFacts(disk.State(), journal, l);
      database.EndMaintenance();
      if !o.Done? {
        return if o.Crashed? then EndingDied else Stuck(RestoreFailed);
      }
      e := ReportRollback(journal, l);
    }

    /** Opens the snapshot that is live again and deletes the leases it holds. */
    method ReopenSnapshot(journal: Journal, ghost l: Lineage) returns (o: Outcome)
      requires Valid() && database.exclusive && Held(disk.State(), journal, l) && l.snapshot <= disk.live
      modifies disk, database`open, this`journaled
      ensures Valid() && Held(disk.State(), journal, l) && l.snapshot <= disk.live
      ensures o.Done? ==> database.open && LeaseFree(disk.live)
      ensures disk.files == old(disk.files)
      ensures old(disk.faults) <= disk.faults && (!o.Done? ==> old(disk.faults) < disk.faults)
    {
      hide Held, Safe, LeaseFree;
      ghost var before := disk.State();
      o := database.Reopen();
      HeldLive(before, disk.State(), journal, l);
      if !o.Done? {
        return;
      }
      o := Advance(journal, RollbackVerified, l);
      if o.Crashed? {
        return;
      }
      before := disk.State();
      o := database.ClearSchedulerLeases();
      HeldLive(before, disk.State(), journal, l);
    }

    method ReportRollback(journal: Journal, ghost l: Lineage) returns (e: Ending)
      requires Valid() && !database.exclusive && database.open && Held(disk.State(), journal, l) && Sound(trace, l)
      requires l.snapshot <= disk.live && LeaseFree(disk.live)
      modifies disk, workloads, this`trace, this`journaled
      ensures Valid() && Safe(disk.State(), l) && Sound(trace, l)
      ensures e.RolledBack? || e.Stuck? || e.EndingDied?
      ensures old(disk.faults) <= disk.faults && (!e.RolledBack? ==> old(disk.faults) < disk.faults)
      ensures journal.candidateFile !in old(disk.files) ==> journal.candidateFile !in disk.files
      ensures old(workloads.errors) <= workloads.errors
      ensures l.snapshot <= disk.live && RestartedOn(trace, l.snapshot)
    {
      hide Held, Safe, Sound, LeaseFree, FollowsIntent, Evolves;
      Pause(journal, l);
      ghost var before := disk.State();
      var restart := RestartWorkloads(l);
      HeldLive(before, disk.State(), journal, l);
      var o := Advance(journal, WorkloadsRestartedOrHeld, l);
      HeldFacts(disk.State(), journal, l);
      if o.Crashed? {
        return EndingDied;
      }
      Pause(journal, l);
      before := disk.State();
      o := AppendAudit();
      HeldLive(before, disk.State(), journal, l);
      HeldFacts(disk.State(), journal, l);
      if !o.Done? {
        return if o.Crashed? then EndingDied else Stuck(Persistence);
      }
      e := CloseRollback(journal, restart, l);
    }

    /** Journals the failure and removes the journal. */
    method CloseRollback(journal: Journal, restart: Result<(), WorkloadError>, ghost l: Lineage) returns (e: Ending)
      requires Valid() && Held(disk.State(), journal, l) && l.snapshot <= disk.live
      modifies disk, this`journaled
      ensures Valid() && Safe(disk.State(), l) && l.snapshot <= disk.live
      ensures e.RolledBack? || e.EndingDied?
      ensures e.RolledBack? ==> e.error == Io || e.error == if restart.Failure? then WorkloadFailed else RestoreFailed
      ensures old(disk.faults) <= disk.faults && (!e.RolledBack? ==> old(disk.faults) < disk.faults)
      ensures journal.candidateFile !in old(disk.files) ==> journal.candidateFile !in disk.files
    {
      hide Held, Safe, LeaseFree;
      var o := Advance(journal, FailedPhase, l);
      HeldFacts(disk.State(), journal, l);
      if o.Crashed? {
        return EndingDied;
      }
      Pause(journal, l);
      HeldFacts(disk.State(), journal, l);
      o := RemoveJournal(l);
      return match o
        case Crashed => EndingDied
        case Failed => RolledBack(Io)
        case Done => RolledBack(if restart.Failure? then WorkloadFailed else RestoreFailed);
    }

    /** After a swap that worked: the backup inventory, the workloads, the success record. */
    method Complete(journal: Journal, ghost l: Lineage) returns (e: Ending)
      requires Valid() && database.exclusive && database.open && Held(disk.State(), journal, l) && Sound(trace, l)
      requires l.candidate <= disk.live && LeaseFree(disk.live)
      modifies disk, database`open, database`exclusive, workloads, this`trace, this`journaled
      ensures Valid() && Safe(disk.State(), l) && Sound(trace, l)
      ensures e.Restored? || e.Unrecorded? ==>
        && l.candidate <= disk.live && database.open && FollowsIntent(workloads.state)
        && RestartedOn(trace, l.candidate) && |trace| == |old(trace)| + 1 && old(trace) <= trace
      ensures e.Restored? ==>
        && journaled == old(journaled) + [WorkloadsRestarted, Succeeded]
        && (disk.journal.None? || disk.journal.value.phase.Succeeded?)
      ensures e.RolledBack? ==> l.snapshot <= disk.live && database.open && RestartedOn(trace, l.snapshot)
      ensures !e.EndingDied? ==> !database.exclusive
      ensures e == Unrecorded(Persistence) ==>
        && disk.journal == Some(journal.(phase := WorkloadsRestarted))
        && HoldsSnapshot(disk.State(), journal.preRestoreFile, l)
      ensures old(disk.faults) <= disk.faults && old(workloads.errors) <= workloads.errors
      ensures e.Stuck? || e.Unrecorded? || e.EndingDied? ==> old(disk.faults) < disk.faults
      ensures !e.Restored? ==> old(disk.faults) < disk.faults || old(workloads.errors) < workloads.errors
    {
      hide Held, Safe, Sound, LeaseFree;
      database.EndMaintenance();
      Pause(journal, l);
      HeldFacts(disk.State(), journal, l);
      var o := disk.Attempt();
      if o.Crashed? {
        return EndingDied;
      }
      var completed := o.Done?;
      if completed {
        ghost var before := disk.State();
        var restart := RestartWorkloads(l);
        HeldLive(before, disk.State(), journal, l);
        completed := restart.Success?;
      }
      Pause(journal, l);
      if completed {
        e := RecordSuccess(journal, l);
      } else {
        e := TakeBack(journal, l);
      }
    }

    /** Stops what had started again and puts the snapshot back. */
    method TakeBack(journal: Journal, ghost l: Lineage) returns (e: Ending)
      requires Valid() && !database.exclusive && Held(disk.State(), journal, l) && Sound(trace, l)
      modifies disk, database`open, database`exclusive, workloads, this`trace, this`journaled
      ensures Valid() && Safe(disk.State(), l) && Sound(trace, l)
      ensures e.RolledBack? || e.Stuck? || e.EndingDied?
      ensures old(disk.faults) <= disk.faults && (!e.RolledBack? ==> old(disk.faults) < disk.faults)
      ensures old(workloads.errors) <= workloads.errors
      ensures e.RolledBack? ==> l.snapshot <= disk.live && database.open && RestartedOn(trace, l.snapshot)
      ensures !e.EndingDied? ==> !database.exclusive
    {
      hide Held, Safe, Sound, LeaseFree, RestartedOn, FollowsIntent;
      var ignored := workloads.QuiesceAgain();
      var o := Advance(journal, RollbackStarted, l);
      HeldFacts(disk.State(), journal, l);
      if o.Crashed? {
        return EndingDied;
      }
      Pause(journal, l);
      database.BeginMaintenance();
      e := RollBack(journal, l);
    }

    /** The journal goes, or stays as it is. */
    method RemoveJournal(ghost l: Lineage) returns (o: Outcome)
      requires Valid() && Safe(disk.State(), l)
      modifies disk`journal, disk`faults
      ensures Valid() && Safe(disk.State(), l)
      ensures old(disk.faults) <= disk.faults
      ensures disk.journal != None || !o.Done? ==> old(disk.faults) < disk.faults
      ensures disk.journal == None || disk.journal == old(disk.journal)
    {
      o := disk.RemoveJournal();
    }

    method RecordSuccess(journal: Journal, ghost l: Lineage) returns (e: Ending)
      requires Valid() && Held(disk.State(), journal, l) && l.candidate <= disk.live
      requires !database.exclusive && database.open
      modifies disk, this`journaled
      ensures Valid() && Safe(disk.State(), l) && l.candidate <= disk.live
      ensures e.Restored? || e.Unrecorded? || e.EndingDied?
      ensures e == Unrecorded(Persistence) ==>
        && disk.journal == Some(journal.(phase := WorkloadsRestarted))
        && HoldsSnapshot(disk.State(), journal.preRestoreFile, l)
      ensures old(disk.faults) <= disk.faults && (!e.Restored? ==> old(disk.faults) < disk.faults)
      ensures e.Restored? ==>
        && journaled == old(journaled) + [WorkloadsRestarted, Succeeded]
        && (disk.journal.None? || disk.journal.value.phase.Succeeded?)
    {
      hide Held, Safe, LeaseFree;
      var o := Advance(journal, WorkloadsRestarted, l);
      HeldFacts(disk.State(), journal, l);
      if !o.Done? {
        return if o.Crashed? then EndingDied else Unrecorded(Io);
      }
      Pause(journal, l);
      ghost var before := disk.State();
      o := AppendAudit();
      HeldLive(before, disk.State(), journal, l);
      HeldFacts(disk.State(), journal, l);
      if !o.Done? {
        return if o.Crashed? then EndingDied else Unrecorded(Persistence);
      }
      Pause(journal, l);
      before := disk.State();
      o := WriteJournal(journal.(phase := Succeeded));
      HeldSucceeds(before, disk.State(), journal, l);
      if !o.Done? {
        return if o.Crashed? then EndingDied else Unrecorded(Io);
      }
      before := disk.State();
      Others();
      SucceededEvolves(before, disk.State(), l);
      o := RemoveJournal(l);
      return match o case Crashed => EndingDied case Failed => Unrecorded(Io) case Done => Restored;
    }

    /** From the journaled snapshot on: workloads are stopped, the gate is taken, and the swap is
        completed or rolled back. */
    method SwapOrRollBack(journal: Journal, fault: RestoreFault, ghost l: Lineage) returns (e: Ending)
      requires workloads.state.Idle()
      requires Valid() && !database.exclusive && Held(disk.State(), journal, l) && Sound(trace, l)
      modifies disk, database`open, database`exclusive, workloads, this`trace, this`journaled
      ensures Valid() && Safe(disk.State(), l) && Sound(trace, l)
      ensures e.Restored? || e.Unrecorded? ==>
        && l.candidate <= disk.live && database.open && fault.NoFault? && FollowsIntent(workloads.state)
        && RestartedOn(trace, l.candidate)
        && |trace| == |old(trace)| + 2 && old(trace) + [Replaced(true, false, true, false)] <= trace
      ensures e.Restored? ==>
        && journaled == old(journaled)
             + [WorkloadsQuiesced, LiveReplaced, ReplacementVerified, WorkloadsRestarted, Succeeded]
        && (disk.journal.None? || disk.journal.value.phase.Succeeded?)
      ensures e.RolledBack? ==> l.snapshot <= disk.live && database.open && RestartedOn(trace, l.snapshot)
      ensures !e.EndingDied? ==> !database.exclusive
      ensures e == Unrecorded(Persistence) ==>
        && disk.journal == Some(journal.(phase := WorkloadsRestarted))
        && HoldsSnapshot(disk.State(), journal.preRestoreFile, l)
      ensures old(disk.faults) <= disk.faults && old(workloads.errors) <= workloads.errors
      ensures e.Stuck? || e.Unrecorded? || e.EndingDied? ==> old(disk.faults) < disk.faults
      ensures !e.Restored? ==>
        || old(disk.faults) < disk.faults || old(workloads.errors) < workloads.errors
        || !old(database.open) || !fault.NoFault? || journal.candidateFile !in disk.files
    {
      hide Held, Safe, Sound, LeaseFree;
      database.BeginMaintenance();
      var o := Swap(journal, fault, l);
      HeldFacts(disk.State(), journal, l);
      if o.Crashed? {
        return EndingDied;
      }
      if o.Done? {
        e := Complete(journal, l);
        return;
      }
      o := Advance(journal, RollbackStarted, l);
      HeldFacts(disk.State(), journal, l);
      if o.Crashed? {
        return EndingDied;
      }
      e := RollBack(journal, l);
    }

    /** One guarded restore; the operation lock keeps a second one out. */
    method RestoreBackup(confirmation: string, found: Result<string, BackupError>, fault: RestoreFault)
      returns (r: RestoreResult, ghost l: Lineage, ghost ending: Option<Ending>)
      requires Valid() && !database.exclusive
      modifies disk, database`open, database`exclusive, workloads, this`trace, this`journaled
      ensures Valid()
      ensures l.original == old(disk.live)
      ensures Sound(trace, l)
      ensures Safe(disk.State(), l) || (disk.journal == old(disk.journal) && old(disk.live) <= disk.live)
      ensures r.Returned? ==> !database.exclusive
      ensures r == Returned(Success(())) <==> ending == Some(Restored)
      ensures r == Returned(Success(())) ==>
        && l.candidate <= disk.live && database.open && FollowsIntent(workloads.state)
        && |trace| == 2 && trace[0] == Replaced(true, false, true, false) && RestartedOn(trace, l.candidate)
        && (disk.journal.None? || disk.journal.value.phase.Succeeded?)
        && journaled == [
             Requested, CandidateVerified, PreRestoreBackupVerified, WorkloadsQuiesced, LiveReplaced,
             ReplacementVerified, WorkloadsRestarted, Succeeded]
      ensures confirmation != CONFIRMATION ==>
        r == Returned(Failure(RestoreConfirmation)) && disk.State() == old(disk.State())
      ensures confirmation == CONFIRMATION && found.Failure? ==> r == Returned(Failure(found.error))
      ensures confirmation == CONFIRMATION && found.Success? && !SafeFileName(found.value) ==>
        r == Returned(Failure(Invalid))
      ensures ending.None? ==> l.original <= disk.live
      ensures ending.Some? ==> found.Success? && confirmation == CONFIRMATION
      ensures ending.Some? && found.value in old(disk.files) ==> l.candidate == old(disk.files)[found.value].image
      ensures !fault.NoFault? ==> ending != Some(Restored)
      ensures ending.Some? && ending.value.RolledBack? ==>
        l.snapshot <= disk.live && database.open && RestartedOn(trace, l.snapshot)
      ensures ending.Some? && ending.value.Unrecorded? ==> l.candidate <= disk.live && database.open
      ensures ending == Some(Unrecorded(Persistence)) ==>
        && r == Returned(Failure(Persistence)) && Safe(disk.State(), l)
        && disk.journal.Some? && disk.journal.value.phase.WorkloadsRestarted?
        && HoldsSnapshot(disk.State(), disk.journal.value.preRestoreFile, l)
      ensures ending.Some? && disk.faults == old(disk.faults) ==> ending.value.Restored? || ending.value.RolledBack?
      ensures
        && confirmation == CONFIRMATION && fault.NoFault? && old(database.open)
        && found.Success? && SafeFileName(found.value)
        && found.value in old(disk.files) && found.value in disk.files
        && disk.faults == old(disk.faults) && workloads.errors == old(workloads.errors) ==>
          r == Returned(Success(()))
    {
      hide Held, Safe, LeaseFree, SoundMark, FollowsIntent, RestartedOn, Settled;
      ending, trace, journaled := None, [], [];
      if confirmation != CONFIRMATION {
        return Returned(Failure(RestoreConfirmation)), Lineage(disk.live, disk.live, disk.live), None;
      }
      var p;
      p, l := Prepare(found);
      if !p.Ready? {
        return if p.PrepareDied? then ProcessDied else Returned(Failure(p.error)), l, None;
      }
      Pause(p.journal, l);
      var quiesced := workloads.QuiesceForMaintenance();
      HeldFacts(disk.State(), p.journal, l);
      if quiesced.Failure? {
        p := Abandon(WorkloadFailed, l);
        return if p.PrepareDied? then ProcessDied else Returned(Failure(p.error)), l, None;
      }
      Pause(p.journal, l);
      var e := SwapOrRollBack(p.journal, fault, l);
      return
        (match e
         case Restored => Returned(Success(()))
         case EndingDied => ProcessDied
         case _ => Returned(Failure(e.error))),
        l,
        Some(e);
    }
  }
}
