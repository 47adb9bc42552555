/** The controller of the two in-process workloads (src/admin/workloads.rs). */
module Workloads {
  import opened Wrappers

  datatype Component = Mcp | Scheduler

  datatype Action = Start | Stop | Restart

  datatype DesiredState = DesiredRunning | DesiredStopped

  datatype ActualState = Starting | Running | Stopping | Stopped | FailedState

  /** What the controller records of a workload, and the runtime's own flag. */
  datatype Status = Status(desired: DesiredState, actual: ActualState, lastError: Option<string>, running: bool)

  datatype WorkloadError =
    | TransitionConflict
    | Database
    | TransitionFailed(component: Component, message: string)

  datatype ControllerState = ControllerState(mcp: Status, scheduler: Status) {
    function Of(c: Component): Status {
      if c.Mcp? then mcp else scheduler
    }

    function With(c: Component, s: Status): ControllerState {
      if c.Mcp? then this.(mcp := s) else this.(scheduler := s)
    }

    predicate Idle() {
      !mcp.running && !scheduler.running
    }
  }

  /** The controller's record agrees with the runtime. */
  predicate Truthful(s: Status) {
    && (s.actual.Running? ==> s.running && s.lastError.None?)
    && (s.actual.Stopped? ==> !s.running && s.lastError.None?)
    && (s.actual.FailedState? ==> s.lastError.Some?)
  }

  /** After a finished action a workload is running, stopped, or failed with its error. */
  predicate Settled(s: Status) {
    Truthful(s) && !s.actual.Starting? && !s.actual.Stopping?
  }

  /** The length of a text in UTF-8. */
  function Bytes(s: string): nat {
    if s == "" then 0 else Bytes(s[..|s| - 1]) + CharBytes(s[|s| - 1])
  }

  function CharBytes(c: char): nat {
    var n := c as int;
    if n < 0x80 then 1 else if n < 0x800 then 2 else if n < 0x1_0000 then 3 else 4
  }

  /** The longest beginning of whole characters that fits into 512 bytes. */
  function BoundError(message: string): (r: string)
    ensures r <= message && Bytes(r) <= 512
    ensures forall n :: |r| < n <= |message| ==> Bytes(message[..n]) > 512
  {
    assert message[..|message|] == message;
    if Bytes(message) <= 512 then message
    else
      var shorter := message[..|message| - 1];
      assert forall n :: 0 <= n < |message| ==> shorter[..n] == message[..n];
      BoundError(shorter)
  }

  // ---------------------------------------------------------------- what a runtime is asked

  datatype Act = Act(component: Component, start: bool)

  function Asked(c: Component, action: Action): seq<Act> {
    match action
    case Start => [Act(c, true)]
    case Stop => [Act(c, false)]
    case Restart => [Act(c, false), Act(c, true)]
  }

  function AskedAll(components: seq<Component>, action: Action): seq<Act> {
    if components == [] then []
    else AskedAll(components[..|components| - 1], action) + Asked(components[|components| - 1], action)
  }

  /** A runtime is asked only for what it does not do already. */
  function Turned(c: Component, running: bool, wanted: bool): seq<Act> {
    if running == wanted then [] else [Act(c, wanted)]
  }

  function Stops(s: ControllerState): seq<Act> {
    Turned(Mcp, s.mcp.running, false) + Turned(Scheduler, s.scheduler.running, false)
  }

  function StartsBackward(stopped: seq<Component>): seq<Act> {
    if stopped == [] then []
    else [Act(stopped[|stopped| - 1], true)] + StartsBackward(stopped[..|stopped| - 1])
  }

  class WorkloadController {
    var state: ControllerState
    /** How many starts and stops of a runtime have failed. */
    ghost var errors: nat
    /** What the runtimes were asked, in order. */
    ghost var acted: seq<Act>

    constructor (state: ControllerState)
      ensures this.state == state
    {
      this.state := state;
    }

    method SetActual(c: Component, actual: ActualState, lastError: Option<string>)
      modifies this
      ensures errors == old(errors) && acted == old(acted)
      ensures state == old(state).With(c, old(state).Of(c).(actual := actual, lastError := lastError))
    {
      state := state.With(c, state.Of(c).(actual := actual, lastError := lastError));
    }

    method SetDesired(c: Component, desired: DesiredState)
      modifies this
      ensures errors == old(errors) && acted == old(acted)
      ensures state == old(state).With(c, old(state).Of(c).(desired := desired))
    {
      state := state.With(c, state.Of(c).(desired := desired));
    }

    /** The runtime itself: a start that succeeds leaves it running, a stop that succeeds leaves it
        stopped, and after an error it may be either. */
    method RunRuntime(c: Component, start: bool) returns (error: Option<string>)
      modifies this
      ensures errors == old(errors) + if error.Some? then 1 else 0
      ensures acted == old(acted) + [Act(c, start)]
      ensures state == old(state).With(c, old(state).Of(c).(running := state.Of(c).running))
      ensures error.None? ==> state.Of(c).running == start
    {
      error := *;
      acted := acted + [Act(c, start)];
      var left: bool := *;
      if error.Some? {
        errors := errors + 1;
      }
      state := state.With(c, state.Of(c).(running := if error.None? then start else left));
    }

    method Fail(c: Component, message: string) returns (r: Result<(), WorkloadError>)
      modifies this
      ensures errors == old(errors) && acted == old(acted)
      ensures r == Failure(TransitionFailed(c, BoundError(message)))
      ensures state == old(state).With(
        c, old(state).Of(c).(actual := FailedState, lastError := Some(BoundError(message))))
    {
      SetActual(c, FailedState, Some(BoundError(message)));
      return Failure(TransitionFailed(c, BoundError(message)));
    }

    method ApplyAction(c: Component, action: Action) returns (r: Result<(), WorkloadError>)
      modifies this
      ensures old(errors) <= errors && (r.Failure? ==> old(errors) < errors)
      ensures state == old(state).With(c, state.Of(c)) && state.Of(c).desired == old(state).Of(c).desired
      ensures Settled(state.Of(c))
      ensures match r
              case Success(_) => state.Of(c).actual == (if action.Stop? then Stopped else Running)
              case Failure(e) =>
                && e.TransitionFailed? && e.component == c && state.Of(c).actual == FailedState
                && state.Of(c).lastError == Some(e.message) && Bytes(e.message) <= 512
      ensures
        || acted == old(acted) + Asked(c, action)
        || (r.Failure? && action.Restart? && acted == old(acted) + [Act(c, false)])
    {
      var error: Option<string>;
      if action.Start? {
        SetActual(c, Starting, None);
        error := RunRuntime(c, true);
      } else {
        SetActual(c, Stopping, None);
        error := RunRuntime(c, false);
        if action.Restart? {
          if error.Some? {
            r := Fail(c, error.value);
            return;
          }
          SetActual(c, Starting, None);
          error := RunRuntime(c, true);
        }
      }
      if error.Some? {
        r := Fail(c, error.value);
        return;
      }
      SetActual(c, if action.Stop? then Stopped else Running, None);
      return Success(());
    }

    method ReconcileComponent(c: Component, desired: DesiredState) returns (r: Result<(), WorkloadError>)
      modifies this
      ensures old(errors) <= errors && (r.Failure? ==> old(errors) < errors)
      ensures state == old(state).With(c, state.Of(c)) && state.Of(c).desired == old(state).Of(c).desired
      ensures Settled(state.Of(c))
      ensures match r
              case Success(_) =>
                && state.Of(c).actual == (if desired.DesiredRunning? then Running else Stopped)
                && (state.Of(c).running <==> desired.DesiredRunning?)
              case Failure(e) => e.TransitionFailed? && e.component == c && state.Of(c).actual == FailedState
      ensures acted == old(acted) + Turned(c, old(state).Of(c).running, desired.DesiredRunning?)
    {
      if desired.DesiredRunning? && !state.Of(c).running {
        r := ApplyAction(c, Start);
      } else if desired.DesiredStopped? && state.Of(c).running {
        r := ApplyAction(c, Stop);
      } else {
        SetActual(c, if desired.DesiredRunning? then Running else Stopped, None);
        r := Success(());
      }
    }

    /** Persists the intent, then carries the action out in order; the transition lock decides whether
        it may start, and a failed write leaves everything as it was. */
    method Transition(components: seq<Component>, action: Action, locked: bool, persisted: bool)
      returns (r: Result<(), WorkloadError>)
      requires components in {[Mcp], [Scheduler], [Mcp, Scheduler]}
      modifies this
      ensures !locked && persisted && r.Failure? ==> old(errors) < errors
      ensures locked ==> r == Failure(TransitionConflict) && state == old(state) && acted == old(acted)
      ensures !locked && !persisted ==> r == Failure(Database) && state == old(state) && acted == old(acted)
      ensures r.Success? ==> acted == old(acted) + AskedAll(components, action)
      ensures !locked && persisted ==>
        forall c :: c in components ==>
          state.Of(c).desired == (if action.Stop? then DesiredStopped else DesiredRunning)
      ensures r.Success? ==>
        forall c :: c in components ==>
          Settled(state.Of(c)) && state.Of(c).actual == (if action.Stop? then Stopped else Running)
      ensures forall c :: c !in components ==> state.Of(c) == old(state).Of(c)
    {
      if locked {
        return Failure(TransitionConflict);
      }
      if !persisted {
        return Failure(Database);
      }
      SetIntent(components, if action.Stop? then DesiredStopped else DesiredRunning);
      r := ActOnEach(components, action);
    }

    method SetIntent(components: seq<Component>, desired: DesiredState)
      modifies this
      ensures errors == old(errors) && acted == old(acted)
      ensures forall c :: c in components ==> state.Of(c).desired == desired
      ensures forall c :: c !in components ==> state.Of(c) == old(state).Of(c)
    {
      var k := 0;
      while k < |components|
        invariant 0 <= k <= |components|
        invariant errors == old(errors) && acted == old(acted)
        invariant forall c :: c in components[..k] ==> state.Of(c).desired == desired
        invariant forall c :: c !in components ==> state.Of(c) == old(state).Of(c)
      {
        SetDesired(components[k], desired);
        assert components[..k + 1] == components[..k] + [components[k]];
        k := k + 1;
      }
    }

    /** Acts on one component after the other and ends at the first that fails. */
    method ActOnEach(components: seq<Component>, action: Action) returns (r: Result<(), WorkloadError>)
      modifies this
      ensures old(errors) <= errors && (r.Failure? ==> old(errors) < errors)
      ensures r.Success? ==> acted == old(acted) + AskedAll(components, action)
      ensures r.Success? ==> forall c :: c in components ==> Done(c, action)
      ensures forall c: Component :: state.Of(c).desired == old(state).Of(c).desired
      ensures forall c :: c !in components ==> state.Of(c) == old(state).Of(c)
    {
      hide Settled, Asked;
      var k := 0;
      while k < |components|
        invariant 0 <= k <= |components|
        invariant old(errors) <= errors
        invariant acted == old(acted) + AskedAll(components[..k], action)
        invariant forall c :: c in components[..k] ==> Done(c, action)
        invariant forall c: Component :: state.Of(c).desired == old(state).Of(c).desired
        invariant forall c :: c !in components ==> state.Of(c) == old(state).Of(c)
      {
        r := ActOn(components[k], action);
        if r.Failure? {
          return;
        }
        assert components[..k + 1] == components[..k] + [components[k]];
        assert components[..k + 1][..k] == components[..k];
        k := k + 1;
      }
      assert components[..k] == components;
      return Success(());
    }

    method ActOn(c: Component, action: Action) returns (r: Result<(), WorkloadError>)
      modifies this
      ensures old(errors) <= errors && (r.Failure? ==> old(errors) < errors)
      ensures r.Success? ==> Done(c, action) && acted == old(acted) + Asked(c, action)
      ensures state.Of(c).desired == old(state).Of(c).desired
      ensures forall d :: d != c ==> state.Of(d) == old(state).Of(d)
    {
      r := ApplyAction(c, action);
    }

    predicate Done(c: Component, action: Action)
      reads this
    {
      Settled(state.Of(c)) && state.Of(c).actual == if action.Stop? then Stopped else Running
    }

    /** Stops what runs, without touching the intent. When one stop fails, what was already stopped is
        started again, in reverse order, and the errors of that are dropped. */
    method QuiesceForMaintenance() returns (r: Result<(), WorkloadError>)
      modifies this
      ensures old(errors) <= errors && (r.Failure? ==> old(errors) < errors)
      ensures r.Success? ==> state.Idle() && acted == old(acted) + Stops(old(state))
      ensures r.Failure? ==>
        || (old(state).mcp.running && acted == old(acted) + [Act(Mcp, false)])
        || acted == old(acted) + Stops(old(state)) + Turned(Mcp, false, old(state).mcp.running)
      ensures r.Failure? ==> forall c: Component ::
        state.Of(c) == old(state).Of(c) || (Settled(state.Of(c)) && !state.Of(c).actual.Stopped?)
      ensures forall c: Component :: state.Of(c).desired == old(state).Of(c).desired
    {
      var stopped: seq<Component> := [];
      var all := [Mcp, Scheduler];
      var k := 0;
      while k < 2
        invariant 0 <= k <= 2
        invariant forall c :: c in stopped ==> c in all[..k]
        invariant k > 0 ==> !state.mcp.running && (Mcp in stopped || state.mcp == old(state).mcp)
        invariant k > 1 ==>
          !state.scheduler.running && (Scheduler in stopped || state.scheduler == old(state).scheduler)
        invariant old(errors) <= errors
        invariant k == 0 ==> acted == old(acted) && stopped == []
        invariant k == 1 ==>
          && acted == old(acted) + Turned(Mcp, old(state).mcp.running, false)
          && stopped == if old(state).mcp.running then [Mcp] else []
        invariant k == 2 ==> acted == old(acted) + Stops(old(state))
        invariant k == 0 ==> state.mcp == old(state).mcp
        invariant k <= 1 ==> state.scheduler == old(state).scheduler
        invariant forall c: Component :: state.Of(c).desired == old(state).Of(c).desired
      {
        if state.Of(all[k]).running {
          r := ApplyAction(all[k], Stop);
          if r.Failure? {
            StartAgain(stopped, all[k]);
            return;
          }
          stopped := stopped + [all[k]];
        }
        k := k + 1;
      }
      return Success(());
    }

    /** Starts the listed workloads, last first, whatever becomes of each. */
    method StartAgain(stopped: seq<Component>, failed: Component)
      requires failed !in stopped
      modifies this
      ensures old(errors) <= errors && acted == old(acted) + StartsBackward(stopped)
      ensures forall c :: c in stopped ==> Settled(state.Of(c)) && !state.Of(c).actual.Stopped?
      ensures forall c :: c !in stopped ==> state.Of(c) == old(state).Of(c)
      ensures forall c: Component :: state.Of(c).desired == old(state).Of(c).desired
    {
      var j := |stopped|;
      assert stopped[..j] == stopped;
      while j > 0
        invariant 0 <= j <= |stopped|
        invariant old(errors) <= errors
        invariant acted + StartsBackward(stopped[..j]) == old(acted) + StartsBackward(stopped)
        invariant forall c :: c in stopped[j..] ==> Settled(state.Of(c)) && !state.Of(c).actual.Stopped?
        invariant forall c :: c !in stopped ==> state.Of(c) == old(state).Of(c)
        invariant forall c: Component :: state.Of(c).desired == old(state).Of(c).desired
      {
        j := j - 1;
        assert stopped[..j + 1][..j] == stopped[..j];
        var ignored := ApplyAction(stopped[j], Start);
      }
    }

    /** Reads the intent stored in the database now live and brings both workloads in line with it;
        `loaded` is what the read gave. */
    method RestartFromPersisted(loaded: Option<(DesiredState, DesiredState)>) returns (r: Result<(), WorkloadError>)
      modifies this
      ensures old(errors) <= errors && (loaded.Some? && r.Failure? ==> old(errors) < errors)
      ensures loaded.None? ==> r == Failure(Database) && state == old(state) && acted == old(acted)
      ensures r.Success? && loaded.Some? ==>
        acted == old(acted) + Turned(Mcp, old(state).mcp.running, loaded.value.0.DesiredRunning?)
          + Turned(Scheduler, old(state).scheduler.running, loaded.value.1.DesiredRunning?)
      ensures r.Success? ==>
        && loaded.Some?
        && state.mcp.desired == loaded.value.0 && state.scheduler.desired == loaded.value.1
        && Settled(state.mcp) && Settled(state.scheduler)
        && (state.mcp.running <==> loaded.value.0.DesiredRunning?)
        && (state.scheduler.running <==> loaded.value.1.DesiredRunning?)
    {
      if loaded.None? {
        return Failure(Database);
      }
      SetDesired(Mcp, loaded.value.0);
      SetDesired(Scheduler, loaded.value.1);
      r := ReconcileComponent(Mcp, loaded.value.0);
      if r.Failure? {
        return;
      }
      r := ReconcileComponent(Scheduler, loaded.value.1);
    }

    /** Stops what had started again. */
    method QuiesceAgain() returns (r: Result<(), WorkloadError>)
      modifies this
      ensures old(errors) <= errors && (r.Failure? ==> old(errors) < errors)
      ensures r.Success? ==> state.Idle() && acted == old(acted) + Stops(old(state))
      ensures forall c: Component :: state.Of(c).desired == old(state).Of(c).desired
    {
      if state.mcp.running {
        r := ApplyAction(Mcp, Stop);
        if r.Failure? {
          return;
        }
      }
      if state.scheduler.running {
        r := ApplyAction(Scheduler, Stop);
        if r.Failure? {
          return;
        }
      }
      return Success(());
    }
  }
}
