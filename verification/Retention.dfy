/** Retention of backups: what it expires and what it never touches (src/admin/backup.rs,
    `apply_retention`). */
module Retention {
  import opened Storage

  datatype BackupRecord = BackupRecord(id: string, fileName: string, source: BackupSource, ready: bool)

  predicate Expirable(r: BackupRecord) {
    r.ready && (r.source.Automatic? || r.source.Upload?)
  }

  /** How many of the records may be expired. */
  function Expirables(records: seq<BackupRecord>): nat {
    if records == [] then 0
    else Expirables(records[..|records| - 1]) + if Expirable(records[|records| - 1]) then 1 else 0
  }

  /** The `k`-th record, counted from the newest, is beyond the first `keep` expirable ones. */
  predicate Surplus(records: seq<BackupRecord>, keep: nat, k: nat)
    requires k < |records|
  {
    Expirable(records[k]) && Expirables(records[..k]) >= keep
  }

  /** The rows of the retention query, newest first: LIMIT -1 OFFSET keep. */
  function SurplusRows(records: seq<BackupRecord>, keep: nat, n: nat): (rows: seq<nat>)
    requires n <= |records|
    ensures forall k: nat :: k in rows <==> k < n && Surplus(records, keep, k)
    ensures forall i, j :: 0 <= i < j < |rows| ==> rows[i] < rows[j]
  {
    if n == 0 then []
    else
      var rest := SurplusRows(records, keep, n - 1);
      assert forall j :: 0 <= j < |rest| ==> rest[j] in rest;
      rest + if Surplus(records, keep, n - 1) then [n - 1] else []
  }

  /** The records after retention. */
  function Retire(records: seq<BackupRecord>, keep: nat): (r: seq<BackupRecord>)
    ensures |r| == |records|
  {
    seq(|records|, k requires 0 <= k < |records| =>
      if Surplus(records, keep, k) then records[k].(ready := false) else records[k])
  }

  /** File names are unique, and a record's file is of the record's source. */
  predicate Consistent(records: seq<BackupRecord>, files: map<string, BackupFile>) {
    && (forall j, k :: 0 <= j < k < |records| ==> records[j].fileName != records[k].fileName)
    && (forall k :: 0 <= k < |records| && records[k].fileName in files ==>
          files[records[k].fileName].source == records[k].source)
  }

  /** One of the rows is the record of this file. */
  ghost predicate Names(records: seq<BackupRecord>, rows: seq<nat>, name: string) {
    exists k :: k in rows && k < |records| && records[k].fileName == name
  }

  lemma OneMoreName(records: seq<BackupRecord>, rows: seq<nat>, k: nat, name: string)
    requires k < |records|
    ensures Names(records, rows + [k], name) <==> Names(records, rows, name) || records[k].fileName == name
  {
    if Names(records, rows, name) {
      var j :| j in rows && j < |records| && records[j].fileName == name;
      assert j in rows + [k];
    }
    assert k in rows + [k];
  }

  class BackupManager {
    /** The records, newest first. */
    var records: seq<BackupRecord>
    var files: map<string, BackupFile>

    ghost predicate Valid()
      reads this
    {
      Consistent(records, files)
    }

    method ApplyRetention(keep: nat) returns (expired: nat)
      requires Valid()
      modifies this
      ensures Valid()
      ensures records == Retire(old(records), keep)
      ensures files.Keys <= old(files).Keys && forall n :: n in files ==> files[n] == old(files)[n]
      ensures forall n :: n in old(files) ==>
        (n !in files <==> Names(old(records), SurplusRows(old(records), keep, |old(records)|), n))
      ensures expired == |SurplusRows(old(records), keep, |old(records)|)|
    {
      hide Expired, Names, Surplus, Consistent, Retire;
      var rows := SurplusRows(records, keep, |records|);
      var i := 0;
      NothingExpired(records, files);
      while i < |rows|
        invariant 0 <= i <= |rows|
        invariant Expired(old(records), old(files), rows[..i], records, files)
      {
        var k := rows[i];
        assert k in rows;
        ExpiredLength(old(records), old(files), rows[..i], records, files);
        ExpireOneMore(old(records), old(files), rows[..i], records, files, k);
        records := records[k := records[k].(ready := false)];
        files := files - {records[k].fileName};
        assert rows[..i + 1] == rows[..i] + [k];
        i := i + 1;
      }
      assert rows[..i] == rows;
      AllExpired(old(records), old(files), keep, records, files);
      return |rows|;
    }
  }

  /** The records of the rows are expired, and their files are gone. */
  ghost predicate Expired(
      before: seq<BackupRecord>, stored: map<string, BackupFile>, rows: seq<nat>,
      records: seq<BackupRecord>, files: map<string, BackupFile>)
  {
    && |records| == |before|
    && (forall k :: 0 <= k < |records| ==>
          records[k] == if k in rows then before[k].(ready := false) else before[k])
    && files.Keys <= stored.Keys && (forall n :: n in files ==> files[n] == stored[n])
    && (forall n :: n in stored ==> (n !in files <==> Names(before, rows, n)))
  }

  lemma NothingExpired(records: seq<BackupRecord>, files: map<string, BackupFile>)
    ensures Expired(records, files, [], records, files)
  {
  }

  lemma AllExpired(
      before: seq<BackupRecord>, stored: map<string, BackupFile>, keep: nat,
      records: seq<BackupRecord>, files: map<string, BackupFile>)
    requires Consistent(before, stored)
    requires Expired(before, stored, SurplusRows(before, keep, |before|), records, files)
    ensures Consistent(records, files) && records == Retire(before, keep)
    ensures files.Keys <= stored.Keys && forall n :: n in files ==> files[n] == stored[n]
    ensures forall n :: n in stored ==> (n !in files <==> Names(before, SurplusRows(before, keep, |before|), n))
  {
    hide Names, Surplus;
  }

  lemma ExpiredLength(
      before: seq<BackupRecord>, stored: map<string, BackupFile>, rows: seq<nat>,
      records: seq<BackupRecord>, files: map<string, BackupFile>)
    requires Expired(before, stored, rows, records, files)
    ensures |records| == |before|
  {
  }

  lemma ExpireOneMore(
      before: seq<BackupRecord>, stored: map<string, BackupFile>, rows: seq<nat>,
      records: seq<BackupRecord>, files: map<string, BackupFile>, k: nat)
    requires Expired(before, stored, rows, records, files) && k < |records|
    ensures Expired(
      before, stored, rows + [k], records[k := records[k].(ready := false)], files - {records[k].fileName})
  {
    hide Names;
    forall n ensures Names(before, rows + [k], n) <==> Names(before, rows, n) || before[k].fileName == n {
      OneMoreName(before, rows, k, n);
    }
  }

  lemma {:induction false} RetiredCount(records: seq<BackupRecord>, keep: nat, n: nat)
    requires n <= |records|
    ensures Expirables(Retire(records, keep)[..n])
         == if Expirables(records[..n]) <= keep then Expirables(records[..n]) else keep
  {
    if n > 0 {
      RetiredCount(records, keep, n - 1);
      var after := Retire(records, keep);
      assert records[..n][..n - 1] == records[..n - 1] && after[..n][..n - 1] == after[..n - 1];
    }
  }

  /** Retention leaves the newest `keep` of the expirable backups, or all of them if there are fewer,
      and doing it again expires nothing more. */
  lemma RetentionKeepsTheNewest(records: seq<BackupRecord>, keep: nat)
    ensures Expirables(Retire(records, keep)) == if Expirables(records) <= keep then Expirables(records) else keep
    ensures forall k :: 0 <= k < |records| && Expirable(records[k]) ==>
      (Retire(records, keep)[k].ready <==> Expirables(records[..k]) < keep)
    ensures Retire(Retire(records, keep), keep) == Retire(records, keep)
  {
    var after := Retire(records, keep);
    RetiredCount(records, keep, |records|);
    assert records[..|records|] == records && after[..|after|] == after;
    forall k: nat | k < |records| ensures Retire(after, keep)[k] == after[k] {
      RetiredCount(records, keep, k);
    }
  }

  /** A manual backup or a pre-restore snapshot is never removed: an interrupted restore finds its
      snapshot, while an uploaded candidate may go. */
  lemma RetentionSparesSnapshots(
      records: seq<BackupRecord>, files: map<string, BackupFile>, keep: nat, name: string, k: nat)
    requires Consistent(records, files) && name in files && Retained(files[name])
    requires k < |records| && records[k].fileName == name
    ensures !Surplus(records, keep, k) && Retire(records, keep)[k] == records[k]
  {
  }

  lemma SnapshotIsNotCounted(records: seq<BackupRecord>, snapshot: BackupRecord, n: nat)
    requires snapshot.source.PreRestore? && n <= |records|
    ensures Expirables(([snapshot] + records)[..n + 1]) == Expirables(records[..n])
  {
    if n == 0 {
      assert ([snapshot] + records)[..1] == [snapshot];
      assert Expirables([snapshot]) == Expirables([snapshot][..0]);
    } else {
      SnapshotIsNotCounted(records, snapshot, n - 1);
      var all := [snapshot] + records;
      assert all[..n + 1][..n] == all[..n] && records[..n][..n - 1] == records[..n - 1];
    }
  }

  /** The retention that follows a pre-restore snapshot expires a backup exactly when as many newer ones as
      it keeps may be expired: the snapshot itself pushes nothing out. */
  lemma SnapshotPushesNothingOut(records: seq<BackupRecord>, snapshot: BackupRecord, keep: nat, k: nat)
    requires snapshot.source.PreRestore? && k < |records|
    ensures Surplus([snapshot] + records, keep, k + 1) <==> Surplus(records, keep, k)
  {
    SnapshotIsNotCounted(records, snapshot, k);
    assert ([snapshot] + records)[k + 1] == records[k];
  }

  /** So a restore can lose its own candidate only where an earlier retention left a surplus: after one
      with at most the same count it cannot. */
  lemma KeptCandidateStays(records: seq<BackupRecord>, snapshot: BackupRecord, before: nat, keep: nat, k: nat)
    requires snapshot.source.PreRestore? && k < |records| && before <= keep
    ensures !Surplus([snapshot] + Retire(records, before), keep, k + 1)
  {
    SnapshotPushesNothingOut(Retire(records, before), snapshot, keep, k);
    RetiredCount(records, before, k);
    if Expirable(Retire(records, before)[k]) {
      assert Expirables(records[..k]) < before;
    }
  }

  /** A run in which it does: retention kept an automatic backup and an older upload, the count was lowered
      to one, and the retention of the restore's own snapshot expires the uploaded candidate. */
  lemma UploadedCandidateCanGo(newer: BackupRecord, candidate: BackupRecord, snapshot: BackupRecord)
    requires newer.ready && newer.source.Automatic? && candidate.ready && candidate.source.Upload?
    requires snapshot.ready && snapshot.source.PreRestore?
    ensures
      var kept := Retire([newer, candidate], 2);
      && kept == [newer, candidate]
      && var after := Retire([snapshot] + kept, 1);
      after == [snapshot, newer, candidate.(ready := false)]
  {
    var records := [newer, candidate];
    assert records[..0] == [] && records[..1] == [newer];
    assert Expirables([newer]) == 1 by {
      assert [newer][..0] == [];
    }
    var all := [snapshot] + records;
    SnapshotPushesNothingOut(records, snapshot, 1, 0);
    SnapshotPushesNothingOut(records, snapshot, 1, 1);
    assert all == [snapshot, newer, candidate];
  }
}
