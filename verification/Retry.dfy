/** Idempotent retries: the stored response of a successful mutation answers every repeat of it, so
    repeats can be struck from a run (src/remindi/service.rs, `replay` and `store_idempotency`). */
module Retry {
  import opened Wrappers
  import opened Model
  import opened Operations
  import opened Store
  import opened StoreRuns

  /** `b` repeats `a`: same actor, tool and key, and the same request once both are normalized. */
  predicate Repeats(a: Call, b: Call) {
    KeyOf(a) == KeyOf(b) && Normalize(a.request) == Normalize(b.request)
  }

  /** `b` reuses the key of `a` for something else. */
  predicate ReusesKey(a: Call, b: Call) {
    KeyOf(a) == KeyOf(b) && Normalize(b.request) != Normalize(a.request)
  }

  /** The answer a call stored. */
  ghost predicate Remembers(db: Db, call: Call, response: Item) {
    && KeyOf(call) in db.idempotency
    && db.idempotency[KeyOf(call)].request == Normalize(call.request)
    && db.idempotency[KeyOf(call)].response == response
  }

  /** A successful call, fresh or itself a repeat, leaves its answer behind. */
  lemma SuccessIsRemembered(db: Db, ownerId: string, call: Call)
    requires DbInv(db, ownerId) && Execute(db, ownerId, call).result.Success?
    ensures Remembers(Execute(db, ownerId, call).db, call, Execute(db, ownerId, call).result.value)
  {
    hide ValidRequest, TimelyRequest, DbInv, Add, Mutate, Wrote, Normalize;
    ExecuteOutcome(db, ownerId, call);
  }

  /** No step of a run forgets or changes a stored answer. */
  lemma StepKeepsAnswers(w: World, ownerId: string, step: Step, key: IdempotencyKey)
    requires WorldInv(w, ownerId) && key in w.db.idempotency
    ensures key in Next(w, ownerId, step).db.idempotency
    ensures Next(w, ownerId, step).db.idempotency[key] == w.db.idempotency[key]
  {
    hide DbInv, HistoryInv, SnapshotInv, Execute, Wrote, Candidate, UpdatedRow, Normalize;
    match step
    case CallTool(call) => ExecuteOutcome(w.db, ownerId, call);
    case ReadSnapshot(_) =>
    case CommitSnapshot(_, _) =>
  }

  lemma {:induction false} RunKeepsAnswers(w: World, ownerId: string, steps: seq<Step>, key: IdempotencyKey)
    requires WorldInv(w, ownerId) && key in w.db.idempotency
    ensures key in Run(w, ownerId, steps).db.idempotency
    ensures Run(w, ownerId, steps).db.idempotency[key] == w.db.idempotency[key]
  {
    hide WorldInv, Next;
    if steps != [] {
      var init := steps[..|steps| - 1];
      RunKeepsAnswers(w, ownerId, init, key);
      RunKeepsInvariant(w, ownerId, init);
      StepKeepsAnswers(Run(w, ownerId, init), ownerId, steps[|steps| - 1], key);
    }
  }

  /** The clock checks a request has passed once it passes again later, under the same limits. */
  lemma TimelyStaysTimely(r: Request, limits: Limits, now: Instant, later: Instant)
    requires TimelyRequest(r, limits, now) && now <= later
    ensures TimelyRequest(r, limits, later)
  {
  }

  /** What a repeat of a call that succeeded earlier does, whatever happened in between: it changes
      nothing, and it returns the answer of that call exactly when it still passes the clock checks,
      which are made before the stored answer is looked up. */
  lemma RetryAnswer(w: World, ownerId: string, first: Call, steps: seq<Step>, again: Call)
    requires WorldInv(w, ownerId)
    requires Execute(w.db, ownerId, first).result.Success?
    requires Repeats(first, again)
    ensures
      var later := Run(Next(w, ownerId, CallTool(first)), ownerId, steps).db;
      Execute(later, ownerId, again) == Outcome(
        later,
        if TimelyRequest(Normalize(again.request), again.limits, again.now) then Execute(w.db, ownerId, first).result
        else Failure(Validation))
  {
    hide WorldInv, Run, Add, Mutate, ValidRequest, TimelyRequest, Normalize, DbInv, Remembers;
    var answer := Execute(w.db, ownerId, first).result.value;
    WorldHasDbInv(w, ownerId);
    SuccessIsRemembered(w.db, ownerId, first);
    var after := Next(w, ownerId, CallTool(first));
    CallKeepsInvariant(w, ownerId, first);
    NextExecutes(w, ownerId, first);
    AnswerFields(after.db, first, answer);
    RunKeepsAnswers(after, ownerId, steps, KeyOf(first));
  }

  /** With the same limits and a clock that has not gone back, a retry returns the original answer
      and changes nothing, even after the item has moved on. */
  lemma RetryReturnsTheOriginalAnswer(w: World, ownerId: string, first: Call, steps: seq<Step>, again: Call)
    requires WorldInv(w, ownerId)
    requires Execute(w.db, ownerId, first).result.Success?
    requires Repeats(first, again) && first.now <= again.now && again.limits == first.limits
    ensures
      var later := Run(Next(w, ownerId, CallTool(first)), ownerId, steps).db;
      Execute(later, ownerId, again) == Outcome(later, Execute(w.db, ownerId, first).result)
  {
    hide WorldInv, Run, Add, Mutate, ValidRequest, TimelyRequest, Normalize, Next;
    RetryAnswer(w, ownerId, first, steps, again);
    TimelyStaysTimely(Normalize(first.request), first.limits, first.now, again.now);
  }

  lemma AnswerFields(db: Db, call: Call, response: Item)
    requires Remembers(db, call, response)
    ensures KeyOf(call) in db.idempotency
    ensures Replay(db.idempotency[KeyOf(call)], Normalize(call.request)) == Success(response)
    ensures db.idempotency[KeyOf(call)].request == Normalize(call.request)
  {
  }

  lemma WorldHasDbInv(w: World, ownerId: string)
    requires WorldInv(w, ownerId)
    ensures DbInv(w.db, ownerId)
  {
  }

  lemma NextExecutes(w: World, ownerId: string, call: Call)
    ensures Next(w, ownerId, CallTool(call)).db == Execute(w.db, ownerId, call).db
  {
    hide Execute;
  }

  /** Using the key of an earlier successful call for a different request is always refused and
      changes nothing. */
  lemma ReusedKeyIsRefused(w: World, ownerId: string, first: Call, steps: seq<Step>, other: Call)
    requires WorldInv(w, ownerId)
    requires Execute(w.db, ownerId, first).result.Success?
    requires ReusesKey(first, other)
    ensures
      var later := Run(Next(w, ownerId, CallTool(first)), ownerId, steps).db;
      var o := Execute(later, ownerId, other);
      && o.db == later
      && (o.result == Failure(IdempotencyKeyReused) || o.result == Failure(Validation))
      && (!(Lifecycle.Blank(other.actor.actorId)) && ValidRequest(Normalize(other.request))
          && TimelyRequest(Normalize(other.request), other.limits, other.now)
          ==> o.result == Failure(IdempotencyKeyReused))
  {
    hide WorldInv, Run, Add, Mutate, ValidRequest, TimelyRequest, Normalize, DbInv, Remembers, Lifecycle.Blank;
    WorldHasDbInv(w, ownerId);
    SuccessIsRemembered(w.db, ownerId, first);
    CallKeepsInvariant(w, ownerId, first);
    NextExecutes(w, ownerId, first);
    var after := Next(w, ownerId, CallTool(first));
    AnswerFields(after.db, first, Execute(w.db, ownerId, first).result.value);
    RunKeepsAnswers(after, ownerId, steps, KeyOf(first));
  }

  // ---------------------------------------------------------------- erasing retries

  /** The calls of a run that had succeeded before its last step. */
  function Succeeded(w: World, ownerId: string, steps: seq<Step>): set<Call> {
    if steps == [] then {}
    else
      var init, last := steps[..|steps| - 1], steps[|steps| - 1];
      Succeeded(w, ownerId, init)
      + if last.CallTool? && Execute(Run(w, ownerId, init).db, ownerId, last.call).result.Success? then {last.call}
        else {}
  }

  /** The step repeats a call that succeeded earlier in the run. */
  predicate IsRetry(w: World, ownerId: string, before: seq<Step>, step: Step) {
    step.CallTool? && exists first :: first in Succeeded(w, ownerId, before) && Repeats(first, step.call)
  }

  /** The run with its retries struck out. */
  function EraseRetries(w: World, ownerId: string, steps: seq<Step>): seq<Step> {
    if steps == [] then []
    else
      var init, last := steps[..|steps| - 1], steps[|steps| - 1];
      EraseRetries(w, ownerId, init) + if IsRetry(w, ownerId, init, last) then [] else [last]
  }

  lemma {:induction false} SucceededIsRemembered(w: World, ownerId: string, steps: seq<Step>, call: Call)
    requires WorldInv(w, ownerId) && call in Succeeded(w, ownerId, steps)
    ensures KeyOf(call) in Run(w, ownerId, steps).db.idempotency
  {
    hide WorldInv, Next, Execute, DbInv, Remembers, KeyOf;
    var init, last := steps[..|steps| - 1], steps[|steps| - 1];
    var before := Run(w, ownerId, init);
    RunKeepsInvariant(w, ownerId, init);
    if call in Succeeded(w, ownerId, init) {
      SucceededIsRemembered(w, ownerId, init, call);
      StepKeepsAnswers(before, ownerId, last, KeyOf(call));
    } else {
      WorldHasDbInv(before, ownerId);
      SuccessIsRemembered(before.db, ownerId, call);
      NextExecutes(before, ownerId, call);
      AnswerFields(Next(before, ownerId, last).db, call, Execute(before.db, ownerId, call).result.value);
    }
  }

  /** A call under a remembered key writes nothing. */
  lemma RememberedKeyWritesNothing(w: World, ownerId: string, call: Call)
    requires KeyOf(call) in w.db.idempotency
    ensures Next(w, ownerId, CallTool(call)) == w
  {
    hide ValidRequest, TimelyRequest, Add, Mutate, Normalize;
  }

  /** Striking every retry from a run leaves its final state, history and snapshots included. */
  lemma {:induction false} RetriesCanBeErased(w: World, ownerId: string, steps: seq<Step>)
    requires WorldInv(w, ownerId)
    ensures Run(w, ownerId, EraseRetries(w, ownerId, steps)) == Run(w, ownerId, steps)
  {
    hide WorldInv, Next, Succeeded, KeyOf;
    if steps != [] {
      var init, last := steps[..|steps| - 1], steps[|steps| - 1];
      RetriesCanBeErased(w, ownerId, init);
      var kept := EraseRetries(w, ownerId, init);
      if IsRetry(w, ownerId, init, last) {
        var first :| first in Succeeded(w, ownerId, init) && Repeats(first, last.call);
        SucceededIsRemembered(w, ownerId, init, first);
        RememberedKeyWritesNothing(Run(w, ownerId, init), ownerId, last.call);
        assert EraseRetries(w, ownerId, steps) == kept;
      } else {
        assert EraseRetries(w, ownerId, steps) == kept + [last];
        assert (kept + [last])[..|kept|] == kept;
      }
    }
  }

  /** Trimmed texts and cut instants aside, the requests may differ: the same actor sending one request
      again with other white space around its texts sends a repeat. */
  lemma SameNormalizedRequestRepeats(a: Call, b: Call)
    requires a.actor.actorId == b.actor.actorId && Normalize(a.request) == Normalize(b.request)
    ensures Repeats(a, b)
  {
    NormalizationNormalizes(a.request);
    NormalizationNormalizes(b.request);
  }
}
