/** What a restore finds on disk: the live database, the backup directory, the journal and a staged
    copy. Every durable step may fail before or after it took effect, and the process may die before
    or after it (src/admin/backup.rs). */
module Storage {
  import opened Wrappers

  // ---------------------------------------------------------------- database files

  /** One committed transaction: a migration, a write of the scheduler lease row, the deletion of all
      lease rows, or anything else. */
  datatype Txn = Migrate | LeaseWrite | ClearLeases | Write(n: nat)

  /** The contents of a database file: the transactions committed to it. A copy of a file has the same
      contents; one database descends from another when it holds its transactions and more. */
  type Image = seq<Txn>

  /** No scheduler lease is stored. */
  predicate LeaseFree(image: Image) {
    image == []
    || var last := image[|image| - 1];
       last.ClearLeases? || (!last.LeaseWrite? && LeaseFree(image[..|image| - 1]))
  }

  predicate Quiet(txns: seq<Txn>) {
    forall k :: 0 <= k < |txns| ==> !txns[k].LeaseWrite?
  }

  /** `after` is `before` with further transactions, none of them a lease write. */
  predicate ExtendsQuietly(before: Image, after: Image) {
    before <= after && Quiet(after[|before|..])
  }

  lemma {:induction false} QuietKeepsLeaseFree(before: Image, after: Image)
    requires LeaseFree(before) && ExtendsQuietly(before, after)
    ensures LeaseFree(after)
    decreases |after|
  {
    if before != after {
      var init := after[..|after| - 1];
      assert after[|before|..][|after| - 1 - |before|] == after[|after| - 1];
      forall k | 0 <= k < |init[|before|..]| ensures !init[|before|..][k].LeaseWrite? {
        assert init[|before|..][k] == after[|before|..][k];
      }
      QuietKeepsLeaseFree(before, init);
    }
  }

  datatype BackupSource = Manual | Automatic | Upload | PreRestore

  datatype BackupFile = BackupFile(image: Image, source: BackupSource)

  /** Retention expires only automatic and uploaded backups. */
  predicate Retained(f: BackupFile) {
    f.source.Manual? || f.source.PreRestore?
  }

  // ---------------------------------------------------------------- the journal

  datatype RestorePhase =
    | Requested
    | CandidateVerified
    | PreRestoreBackupVerified
    | WorkloadsQuiesced
    | LiveReplaced
    | ReplacementVerified
    | WorkloadsRestarted
    | Succeeded
    | RollbackStarted
    | PreRestoreReinstalled
    | RollbackVerified
    | WorkloadsRestartedOrHeld
    | FailedPhase
  {
    /** A recovery that finds the journal in this phase leaves the live database alone. */
    predicate KeepsLive() {
      Requested? || CandidateVerified? || Succeeded?
    }
  }

  datatype Journal = Journal(operationId: nat, phase: RestorePhase, candidateFile: string, preRestoreFile: string)

  /** What survives the process. `used` are the backup names that were ever given out: they carry fresh
      identifiers, so a removed name does not come back with other contents. */
  datatype DiskState = DiskState(
    live: Image, files: map<string, BackupFile>, used: set<string>, journal: Option<Journal>)

  /** What other activity may do to the backup directory: add files under new names, and remove files
      that are not retained. */
  predicate FilesEvolve(d: DiskState, e: DiskState) {
    && d.used <= e.used && e.files.Keys <= e.used
    && (forall n :: n in e.files ==> n !in d.used || (n in d.files && d.files[n] == e.files[n]))
    && (forall n :: n in d.files && Retained(d.files[n]) ==> n in e.files && e.files[n] == d.files[n])
  }

  /** What other activity may do to the disk. */
  predicate Evolves(d: DiskState, e: DiskState) {
    d.live <= e.live && e.journal == d.journal && FilesEvolve(d, e)
  }

  lemma EvolvesIsTransitive(a: DiskState, b: DiskState, c: DiskState)
    requires Evolves(a, b) && Evolves(b, c)
    ensures Evolves(a, c)
  {
  }

  datatype Outcome = Done | Failed | Crashed

  /** A copy in progress is torn until all of it is written. */
  datatype Staged = Torn | Complete(image: Image)

  class Disk {
    var live: Image
    var files: map<string, BackupFile>
    var used: set<string>
    var journal: Option<Journal>
    var staged: Option<Staged>
    /** How many steps did not come to their end, by failing or by the death of the process. */
    ghost var faults: nat

    function State(): DiskState
      reads this
    {
      DiskState(live, files, used, journal)
    }

    /** A step that may fail, or be the last one of the process. */
    method Attempt() returns (o: Outcome)
      modifies this`faults
      ensures faults == old(faults) + if o.Done? then 0 else 1
    {
      var fails, dies: bool := *, *;
      if fails || dies {
        faults := faults + 1;
      }
      return if dies then Crashed else if fails then Failed else Done;
    }

    /** Other clients and other administrative activity between two steps: transactions on the live
        database while it is open, and backups that come and go. A running scheduler renews a lease row
        that is there; it writes a first one only when it is started. */
    method Interfere(open: bool)
      requires files.Keys <= used
      modifies this
      ensures Evolves(old(State()), State())
      ensures !open ==> live == old(live)
      ensures LeaseFree(old(live)) ==> ExtendsQuietly(old(live), live)
      ensures staged == old(staged) && faults == old(faults)
    {
      var txns: seq<Txn> := *;
      if open && (Quiet(txns) || !LeaseFree(live)) {
        live := live + txns;
      }
      var others: map<string, BackupFile>, names: set<string> := *, *;
      if FilesEvolve(State(), State().(files := others, used := names)) {
        files, used := others, names;
      }
    }

    /** Writes a temporary file, then renames it over the journal: a reader sees the old journal or the
        new one. */
    method WriteJournal(j: Journal) returns (o: Outcome)
      modifies this`journal, this`faults
      ensures journal == Some(j) || journal == old(journal)
      ensures o.Done? ==> journal == Some(j)
      ensures old(faults) <= faults && (!o.Done? ==> old(faults) < faults)
    {
      o := Attempt();
      if !o.Done? {
        return;
      }
      journal := Some(j);
      o := Attempt();
    }

    /** Unlinks the journal; an error of the unlinking is only logged, so even a success may leave the
        journal behind. */
    method RemoveJournal() returns (o: Outcome)
      modifies this`journal, this`faults
      ensures journal == None || journal == old(journal)
      ensures old(faults) <= faults && (journal != None || !o.Done? ==> old(faults) < faults)
    {
      o := Attempt();
      if o.Crashed? {
        return;
      }
      if o.Done? {
        journal := None;
      }
      o := Attempt();
    }

    /** Unlinks the journal and reports errors; used by the recovery. */
    method UnlinkJournal() returns (o: Outcome)
      modifies this`journal, this`faults
      ensures journal == None || journal == old(journal)
      ensures o.Done? ==> journal == None
      ensures old(faults) <= faults && (!o.Done? ==> old(faults) < faults)
    {
      o := Attempt();
      if !o.Done? {
        return;
      }
      journal := None;
      o := Attempt();
    }

    /** Copies a backup beside the live database and renames the complete copy over it: whatever fails,
        and wherever the process dies, the live database is the old one or all of the backup. */
    method InstallDatabase(source: string) returns (o: Outcome)
      modifies this`live, this`staged, this`faults
      ensures live == old(live) || (source in files && live == files[source].image)
      ensures o.Done? ==> source in files && live == files[source].image
      ensures old(faults) <= faults && (!o.Done? ==> old(faults) < faults || source !in files)
      ensures o.Crashed? ==> old(faults) < faults
    {
      staged := None;
      o := Attempt();
      if !o.Done? {
        return;
      }
      if source !in files {
        return Failed;
      }
      staged := Some(Torn);
      o := Attempt();
      if !o.Done? {
        return;
      }
      staged := Some(Complete(files[source].image));
      o := Attempt();
      if !o.Done? {
        return;
      }
      live := staged.value.image;
      staged := None;
      o := Attempt();
    }
  }
}
