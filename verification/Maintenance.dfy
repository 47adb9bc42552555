/** The database manager: the maintenance gate and the pool (src/db/manager.rs). */
module Maintenance {
  import opened Wrappers
  import opened Storage

  datatype DatabaseError = MaintenanceActive | Closed | Sql

  class DatabaseManager {
    const disk: Disk
    /** The write half of the gate is held. */
    var exclusive: bool
    /** A pool is present. */
    var open: bool

    constructor (disk: Disk)
      ensures this.disk == disk && !exclusive && open
    {
      this.disk := disk;
      exclusive, open := false, true;
    }

    /** A client's connection: refused while maintenance holds the gate or the pool is absent. */
    method Connection() returns (r: Result<(), DatabaseError>)
      modifies disk`faults
      ensures old(disk.faults) <= disk.faults
      ensures r == Failure(Sql) ==> old(disk.faults) < disk.faults
      ensures !exclusive && open ==> r.Success? || r == Failure(Sql)
      ensures exclusive ==> r == Failure(MaintenanceActive)
      ensures !exclusive && !open ==> r == Failure(Closed)
      ensures r.Success? ==> !exclusive && open
    {
      if exclusive {
        return Failure(MaintenanceActive);
      }
      if !open {
        return Failure(Closed);
      }
      var o := disk.Attempt();
      return if o.Failed? then Failure(Sql) else Success(());
    }

    /** Waits for the gate: taking it twice would wait for ever. */
    method BeginMaintenance()
      requires !exclusive
      modifies this`exclusive
      ensures exclusive
    {
      exclusive := true;
    }

    /** Dropping the maintenance guard. */
    method EndMaintenance()
      requires exclusive
      modifies this`exclusive
      ensures !exclusive
    {
      exclusive := false;
    }

    /** Takes the pool before anything can fail: whatever happens it is absent afterwards, and without
        one there is nothing to close. */
    method CheckpointAndClose() returns (o: Outcome)
      requires exclusive
      modifies this`open, disk`faults
      ensures !o.Crashed? ==> !open
      ensures o.Done? ==> old(open)
      ensures old(disk.faults) <= disk.faults && (!o.Done? && old(open) ==> old(disk.faults) < disk.faults)
      ensures o.Crashed? ==> old(disk.faults) < disk.faults
    {
      if !open {
        return Failed;
      }
      open := false;
      o := disk.Attempt();
    }

    /** Opens the live path and migrates it; a failure may come after a migration was committed. */
    method Reopen() returns (o: Outcome)
      requires exclusive
      modifies this`open, disk`live, disk`faults
      ensures old(disk.faults) <= disk.faults && (!o.Done? ==> old(disk.faults) < disk.faults)
      ensures disk.live == old(disk.live) || disk.live == old(disk.live) + [Migrate]
      ensures o.Done? ==> open
      ensures !o.Done? ==> open == old(open)
    {
      o := disk.Attempt();
      if !o.Done? {
        return;
      }
      var migrates: bool := *;
      if migrates {
        disk.live := disk.live + [Migrate];
      }
      o := disk.Attempt();
      if o.Done? {
        open := true;
      }
    }

    method ClearSchedulerLeases() returns (o: Outcome)
      requires exclusive
      modifies disk`live, disk`faults
      ensures old(disk.faults) <= disk.faults && (!o.Done? && open ==> old(disk.faults) < disk.faults)
      ensures disk.live == old(disk.live) || disk.live == old(disk.live) + [ClearLeases]
      ensures o.Done? ==> open && LeaseFree(disk.live)
    {
      if !open {
        return Failed;
      }
      o := disk.Attempt();
      if !o.Done? {
        return;
      }
      disk.live := disk.live + [ClearLeases];
      o := disk.Attempt();
    }
  }
}
