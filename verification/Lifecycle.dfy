/** What the state machine and the evaluator do to an item, as functions of the item's value
    (src/remindi/state_machine.rs, src/triggers/evaluator.rs), and the invariant they keep. */
module Lifecycle {
  import opened Wrappers
  import opened Model
  import Recurrence

  // ---------------------------------------------------------------- state machine

  /** Only white space. */
  predicate Blank(s: string) {
    forall k :: 0 <= k < |s| ==> IsWhite(s[k])
  }

  function ClearSnooze(i: Item): Item {
    i.(snoozeUntil := None, snoozedFromState := None)
  }

  function SnoozeItem(i: Item, until: Instant, reason: string, now: Instant): Result<Item, DomainError> {
    if i.state.IsTerminal() then Failure(TerminalState)
    else if !i.state.IsReady() then Failure(SnoozeRequiresReadyState)
    else if Blank(reason) then Failure(ReasonRequired)
    else if until <= now then Failure(SnoozeMustBeFuture)
    else Success(i.(
      snoozedFromState := Some(i.state),
      snoozeUntil := Some(until),
      state := Snoozed,
      snoozeCount := i.snoozeCount + 1,
      version := i.version + 1,
      updatedAt := now))
  }

  function CompleteItem(i: Item, summary: string, now: Instant): Result<Item, DomainError> {
    if i.state.IsTerminal() then Failure(TerminalState)
    else if summary == "" then Failure(CompletionEvidenceRequired)
    else Success(ClearSnooze(i).(
      state := Completed,
      completedAt := Some(now),
      version := i.version + 1,
      updatedAt := now))
  }

  function CancelItem(i: Item, reason: string, now: Instant): Result<Item, DomainError> {
    if i.state.IsTerminal() then Failure(TerminalState)
    else if Blank(reason) then Failure(ReasonRequired)
    else Success(ClearSnooze(i).(
      state := Cancelled,
      cancelledAt := Some(now),
      version := i.version + 1,
      updatedAt := now))
  }

  function ReplaceTrigger(i: Item, trigger: Trigger, nextFireAt: Option<Instant>, now: Instant)
    : Result<Item, DomainError>
  {
    if i.state.IsTerminal() then Failure(TerminalState)
    else if ValidateTrigger(trigger).Some? then Failure(ValidateTrigger(trigger).value)
    else
      var replaced := i.(
        trigger := trigger,
        nextFireAt := nextFireAt,
        originalNextFireAt := nextFireAt,
        nextEvaluationAt := None,
        version := i.version + 1,
        updatedAt := now);
      Success(
        if i.state.Snoozed? then ClearSnooze(replaced).(dueSince := None, state := Scheduled)
        else replaced)
  }

  // ---------------------------------------------------------------- evaluator

  datatype CheckContext = CheckContext(
    sessionId: Option<string>,
    taskLineageId: Option<string>,
    lifecycleEvent: LifecycleEvent,
    activeGoalIds: seq<string>)

  datatype ConditionEvaluation = NotEvaluated | Evaluated(status: ConditionStatus)

  datatype Evaluation = Evaluation(item: Item, readiness: Option<Readiness>, events: seq<EventType>)

  const I64_MAX: int := 0x7FFF_FFFF_FFFF_FFFF

  function GraceSeconds(i: Item): nat {
    if i.overdueAfterSeconds <= I64_MAX then i.overdueAfterSeconds else I64_MAX
  }

  /** The grace period after `due_since` has run out. */
  predicate GraceExpired(i: Item, now: Instant) {
    i.dueSince.Some? && now >= i.dueSince.value + Seconds(GraceSeconds(i))
  }

  function PollSeconds(poll: Option<nat>): nat {
    var seconds := if poll.Some? then poll.value else 30;
    if seconds <= I64_MAX then seconds else 86_400
  }

  predicate Nonempty(s: Option<string>) {
    s.Some? && s.value != ""
  }

  predicate ContextSatisfies(i: Item, context: CheckContext) {
    match i.trigger
    case NextSession => Nonempty(context.sessionId) && context.sessionId != i.sourceSessionId
    case NextContinuation =>
      && context.lifecycleEvent.Continuation?
      && Nonempty(context.sessionId)
      && context.sessionId != i.sourceSessionId
      && context.taskLineageId == i.sourceTaskLineageId
      && i.sourceTaskLineageId.Some?
    case GoalActive(goal) => goal in context.activeGoalIds
    case _ => false
  }

  /** The manual deadline of a condition has passed without the condition being satisfied. */
  predicate ManualDue(i: Item, now: Instant, condition: ConditionEvaluation)
    requires i.trigger.Condition?
  {
    && condition != Evaluated(Satisfied)
    && i.trigger.manualCheckAt.Some?
    && now >= i.trigger.manualCheckAt.value
  }

  /** Bookkeeping an evaluation of a condition trigger leaves on the item. */
  function RecordCondition(i: Item, now: Instant, condition: ConditionEvaluation): Item
    requires i.trigger.Condition?
  {
    var manual := ManualDue(i, now, condition);
    i.(
      lastConditionStatus := if condition.NotEvaluated? then None else Some(condition.status),
      nextEvaluationAt :=
        if condition.Evaluated? then
          if condition.status.Satisfied? || manual then None
          else Some(now + Seconds(PollSeconds(i.trigger.pollIntervalSeconds)))
        else if manual then None
        else i.nextEvaluationAt)
  }

  function BecomeDue(i: Item, readiness: Readiness, events: seq<EventType>, now: Instant): Evaluation {
    Evaluation(
      i.(state := Due, dueSince := Some(now), updatedAt := now, version := i.version + 1),
      Some(readiness),
      events + [BecameDue])
  }

  function EvaluateScheduled(i: Item, now: Instant, context: CheckContext, condition: ConditionEvaluation)
    : Result<Evaluation, DomainError>
  {
    if i.trigger.IsTimed() then
      Success(
        if i.nextFireAt.Some? && now >= i.nextFireAt.value then BecomeDue(i, ReadyDue, [], now)
        else Evaluation(i, None, []))
    else if i.trigger.Condition? then
      if !i.trigger.parameters.JsonObject? then Failure(ConditionParametersMustBeObject)
      else
        var manual := ManualDue(i, now, condition);
        var recorded := RecordCondition(i, now, condition);
        var events := if condition.Evaluated? then [ConditionEvaluated] else [];
        Success(
          if condition == Evaluated(Satisfied) || manual then
            BecomeDue(recorded, if manual then ManualVerification else ReadyDue, events, now)
          else Evaluation(recorded, None, events))
    else
      Success(
        if ContextSatisfies(i, context) then BecomeDue(i, ReadyDue, [], now)
        else Evaluation(i, None, []))
  }

  function EvaluateSnoozed(i: Item, now: Instant): Result<Evaluation, DomainError> {
    if i.snoozeUntil.None? then Failure(SnoozeRequiresReadyState)
    else if now < i.snoozeUntil.value then Success(Evaluation(i, None, []))
    else
      var overdue := GraceExpired(i, now);
      Success(Evaluation(
        ClearSnooze(i).(
          state := if overdue then Overdue else Due,
          updatedAt := now,
          version := i.version + 1),
        Some(if overdue then ReadyOverdue else ReadyDue),
        [if overdue then BecameOverdue else BecameDue]))
  }

  function EvaluateDue(i: Item, now: Instant): Evaluation {
    if GraceExpired(i, now) then
      Evaluation(
        i.(state := Overdue, updatedAt := now, version := i.version + 1),
        Some(ReadyOverdue),
        [BecameOverdue])
    else Evaluation(i, Some(ReadyDue), [])
  }

  /** One deterministic evaluation: never completes an item and never advances a recurrence. */
  function Evaluate(item: Item, now: Instant, context: CheckContext, condition: ConditionEvaluation)
    : Result<Evaluation, DomainError>
  {
    var i := item.(lastCheckedAt := Some(now));
    match item.state
    case Completed => Failure(TerminalState)
    case Cancelled => Failure(TerminalState)
    case Snoozed => EvaluateSnoozed(i, now)
    case Overdue => Success(Evaluation(i, Some(ReadyOverdue), []))
    case Due => Success(EvaluateDue(i, now))
    case Scheduled => EvaluateScheduled(i, now, context, condition)
  }

  // ---------------------------------------------------------------- stored items

  /** The item as its row stores it: every timestamp column holds canonical text. */
  function Stored(i: Item): Item {
    i.(
      nextFireAt := MillisOption(i.nextFireAt),
      nextEvaluationAt := MillisOption(i.nextEvaluationAt),
      originalNextFireAt := MillisOption(i.originalNextFireAt),
      dueSince := MillisOption(i.dueSince),
      snoozeUntil := MillisOption(i.snoozeUntil),
      lastCheckedAt := MillisOption(i.lastCheckedAt),
      createdAt := Millis(i.createdAt),
      updatedAt := Millis(i.updatedAt),
      completedAt := MillisOption(i.completedAt),
      cancelledAt := MillisOption(i.cancelledAt))
  }

  /** The CHECK constraints of the item table. */
  predicate SchemaChecks(i: Item) {
    && i.version >= 1
    && i.occurrenceNo >= 1
    && (i.snoozedFromState.Some? ==> i.snoozedFromState.value.IsReady())
    && (i.state.Completed? <==> i.completedAt.Some?)
    && (i.state.Cancelled? <==> i.cancelledAt.Some?)
    && (i.state.Snoozed? <==> i.snoozeUntil.Some?)
    && (i.state.Snoozed? <==> i.snoozedFromState.Some?)
  }

  /** The schedule columns fit the trigger. */
  predicate ScheduleFits(i: Item) {
    && ValidateTrigger(i.trigger).None?
    && NormalizedTrigger(i.trigger)
    && (i.recurrence.Some? ==> Recurrence.ValidateForTrigger(i.recurrence.value, i.trigger).None?)
    && (i.trigger.IsTimed() <==> i.nextFireAt.Some?)
    && i.originalNextFireAt == i.nextFireAt
    && (i.trigger.AtTime? ==> i.nextFireAt == Some(i.trigger.at))
    && (!i.trigger.Condition? ==> i.nextEvaluationAt.None?)
    && (i.trigger.Condition? && i.state.Scheduled? ==> i.nextEvaluationAt.Some?)
  }

  /** The whole-run invariant of one item. `due_since` is set exactly from the first readiness of
      an occurrence on. */
  predicate ItemInv(i: Item) {
    && SchemaChecks(i)
    && ScheduleFits(i)
    && (i.state.Scheduled? ==> i.dueSince.None?)
    && (i.state.Due? || i.state.Overdue? || i.state.Snoozed? ==> i.dueSince.Some?)
    && i.overdueAfterSeconds <= 31_536_000
  }

  /** An item as it may stand in the table. */
  predicate StoredInv(i: Item) {
    ItemInv(i) && Stored(i) == i
  }

  /** Storing an item keeps its invariant: cutting the timestamps breaks nothing. */
  lemma StoringKeepsInvariant(i: Item)
    requires ItemInv(i)
    ensures StoredInv(Stored(i))
  {
  }

  /** What every evaluation of a live item keeps: the invariant, the trigger, the schedule anchor
      and the occurrence. It reports readiness exactly when it leaves the item due or overdue, and
      raises the version by one exactly when it changes the state. */
  ghost predicate Keeps(i: Item, e: Evaluation) {
    && ItemInv(e.item)
    && e.item.id == i.id && e.item.ownerId == i.ownerId && e.item.projectId == i.projectId
    && e.item.taskId == i.taskId && e.item.createdAt == i.createdAt && e.item.priority == i.priority
    && e.item.trigger == i.trigger && e.item.recurrence == i.recurrence
    && e.item.nextFireAt == i.nextFireAt && e.item.occurrenceNo == i.occurrenceNo
    && e.item.overdueAfterSeconds == i.overdueAfterSeconds
    && !e.item.state.IsTerminal()
    && (e.readiness.Some? <==> e.item.state.IsReady())
    && (e.item.state.Overdue? <==> e.readiness == Some(ReadyOverdue))
    && e.item.version == (if e.item.state == i.state then i.version else i.version + 1)
    && (e.item.state != i.state ==> e.events != [])
  }

  lemma ConditionEvaluationKeeps(i: Item, now: Instant, context: CheckContext, condition: ConditionEvaluation)
    requires ItemInv(i) && i.state.Scheduled? && i.trigger.Condition?
    ensures
      var r := EvaluateScheduled(i, now, context, condition);
      && r.Success?
      && Keeps(i, r.value)
      && (condition.NotEvaluated? && r.value.item.state == i.state ==> r.value.events == [])
  {
  }

  lemma ScheduledEvaluationKeeps(i: Item, now: Instant, context: CheckContext, condition: ConditionEvaluation)
    requires ItemInv(i) && i.state.Scheduled?
    ensures
      var r := EvaluateScheduled(i, now, context, condition);
      && r.Success?
      && Keeps(i, r.value)
      && (condition.NotEvaluated? && r.value.item.state == i.state ==> r.value.events == [])
  {
    if i.trigger.Condition? {
      ConditionEvaluationKeeps(i, now, context, condition);
    }
  }

  lemma ReadyEvaluationKeeps(i: Item, now: Instant)
    requires ItemInv(i)
    ensures i.state.Snoozed? ==> EvaluateSnoozed(i, now).Success? && Keeps(i, EvaluateSnoozed(i, now).value)
    ensures i.state.Due? ==> Keeps(i, EvaluateDue(i, now))
  {
  }

  /** An evaluation of an item fails only when the item is terminal; otherwise it keeps the
      invariant and everything that is not readiness. */
  lemma EvaluationKeepsInvariant(i: Item, now: Instant, context: CheckContext, condition: ConditionEvaluation)
    requires ItemInv(i)
    ensures
      var r := Evaluate(i, now, context, condition);
      && (r.Success? <==> !i.state.IsTerminal())
      && (r.Success? ==> Keeps(i, r.value))
      && (r.Success? && condition.NotEvaluated? && r.value.item.state == i.state ==> r.value.events == [])
  {
    var checked := i.(lastCheckedAt := Some(now));
    if i.state.Scheduled? {
      ScheduledEvaluationKeeps(checked, now, context, condition);
    } else {
      ReadyEvaluationKeeps(checked, now);
    }
  }

  // ---------------------------------------------------------------- when items are ready

  /** A manual deadline of a condition trigger that has come. */
  predicate DeadlinePassed(trigger: Trigger, now: Instant)
    requires trigger.Condition?
  {
    trigger.manualCheckAt.Some? && trigger.manualCheckAt.value <= now
  }

  /** A session that is named and is not the one the item was added in. */
  predicate OtherSession(i: Item, context: CheckContext) {
    && context.sessionId.Some? && |context.sessionId.value| > 0
    && (i.sourceSessionId.None? || i.sourceSessionId.value != context.sessionId.value)
  }

  /** When a scheduled item fires, kind by kind: a timed trigger at its anchor; the next session in a
      session other than the one that asked; the next continuation in a continuation of the same lineage
      in another session; a goal while it is among the active ones; a condition when the adapter says so
      or its manual deadline has come. */
  predicate Fires(i: Item, now: Instant, context: CheckContext, condition: ConditionEvaluation) {
    match i.trigger
    case AtTime(at) => at <= now
    case AfterElapsed(_) => i.nextFireAt.Some? && i.nextFireAt.value <= now
    case Interval(_, _) => i.nextFireAt.Some? && i.nextFireAt.value <= now
    case NextSession => OtherSession(i, context)
    case NextContinuation =>
      && context.lifecycleEvent == Continuation
      && OtherSession(i, context)
      && i.sourceTaskLineageId.Some? && context.taskLineageId.Some?
      && i.sourceTaskLineageId.value == context.taskLineageId.value
    case GoalActive(goal) => exists k :: 0 <= k < |context.activeGoalIds| && context.activeGoalIds[k] == goal
    case Condition(_, _, _, _) => condition == Evaluated(Satisfied) || DeadlinePassed(i.trigger, now)
  }

  /** An evaluation makes a scheduled item due exactly when it fires; only a deadline that came without
      the condition being satisfied asks for a manual verification. */
  lemma ScheduledItemIsDueIff(i: Item, now: Instant, context: CheckContext, condition: ConditionEvaluation)
    requires ItemInv(i) && i.state.Scheduled?
    ensures
      var r := Evaluate(i, now, context, condition);
      && r.Success?
      && if Fires(i, now, context, condition) then
           && r.value.item.state.Due? && r.value.item.dueSince == Some(now)
           && r.value.readiness == Some(
                if i.trigger.Condition? && condition != Evaluated(Satisfied) then ManualVerification else ReadyDue)
         else
           r.value.item.state.Scheduled? && r.value.item.dueSince.None? && r.value.readiness.None?
    ensures Evaluate(i, now, context, condition).value.events
      == (if i.trigger.Condition? && condition.Evaluated? then [ConditionEvaluated] else [])
         + (if Fires(i, now, context, condition) then [BecameDue] else [])
  {
    ScheduledIsDueIff(i.(lastCheckedAt := Some(now)), now, context, condition);
  }

  lemma ScheduledIsDueIff(i: Item, now: Instant, context: CheckContext, condition: ConditionEvaluation)
    requires ItemInv(i) && i.state.Scheduled?
    ensures
      var r := EvaluateScheduled(i, now, context, condition);
      && r.Success?
      && if Fires(i, now, context, condition) then
           && r.value.item.state.Due? && r.value.item.dueSince == Some(now)
           && r.value.readiness == Some(
                if i.trigger.Condition? && condition != Evaluated(Satisfied) then ManualVerification else ReadyDue)
         else
           r.value.item.state.Scheduled? && r.value.item.dueSince.None? && r.value.readiness.None?
  {
    if !i.trigger.IsTimed() && !i.trigger.Condition? {
      ContextFires(i, now, context, condition);
    }
  }

  lemma ContextFires(i: Item, now: Instant, context: CheckContext, condition: ConditionEvaluation)
    requires !i.trigger.IsTimed() && !i.trigger.Condition?
    ensures ContextSatisfies(i, context) <==> Fires(i, now, context, condition)
  {
  }

  /** A ready item stays ready, a snoozed one is from its deadline on; and it is overdue from the instant
      its grace, in seconds since its first readiness, has run out. */
  lemma ReadyItemIsOverdueIff(i: Item, now: Instant, context: CheckContext, condition: ConditionEvaluation)
    requires ItemInv(i) && (i.state.IsReady() || i.state.Snoozed?)
    ensures
      var r := Evaluate(i, now, context, condition);
      && r.Success? && i.dueSince.Some? && (i.state.Snoozed? ==> i.snoozeUntil.Some?)
      && if i.state.Snoozed? && now < i.snoozeUntil.value then
           r.value.readiness.None? && r.value.item.state.Snoozed?
         else if i.state.Overdue? || i.dueSince.value + i.overdueAfterSeconds * 1_000_000_000 <= now then
           r.value.readiness == Some(ReadyOverdue) && r.value.item.state.Overdue?
         else
           r.value.readiness == Some(ReadyDue) && r.value.item.state.Due?
    ensures
      var v := Evaluate(i, now, context, condition).value;
      && v.item.dueSince == i.dueSince
      && v.events ==
           if v.item.state == i.state then []
           else if v.item.state.Overdue? then [BecameOverdue]
           else [BecameDue]
  {
  }

  /** What asking a condition that does not fire leaves behind: the answer, and the instant to ask again,
      one poll interval later, thirty seconds if none was given. */
  lemma ConditionIsAskedAgain(i: Item, now: Instant, context: CheckContext, condition: ConditionEvaluation)
    requires ItemInv(i) && i.state.Scheduled? && i.trigger.Condition? && condition.Evaluated?
    requires !Fires(i, now, context, condition)
    ensures
      var r := Evaluate(i, now, context, condition);
      var interval: nat := if i.trigger.pollIntervalSeconds.Some? then i.trigger.pollIntervalSeconds.value else 30;
      && r.Success? && r.value.item.state.Scheduled?
      && r.value.item.lastConditionStatus == Some(condition.status)
      && r.value.item.nextEvaluationAt == Some(now + interval * 1_000_000_000)
      && r.value.events == [ConditionEvaluated]
  {
  }

  // ---------------------------------------------------------------- snooze transparency

  /** Snoozing a due item and evaluating it once the deadline has passed gives the state and the
      readiness that evaluating the unsnoozed item gives at that time. */
  lemma SnoozeIsTransparentForDueItems(
      i: Item, until: Instant, reason: string, t: Instant,
      now: Instant, context: CheckContext, condition: ConditionEvaluation)
    requires StoredInv(i) && i.state.Due?
    requires SnoozeItem(i, until, reason, t).Success?
    requires now >= until
    ensures
      var snoozed := Evaluate(Stored(SnoozeItem(i, until, reason, t).value), now, context, condition);
      var plain := Evaluate(i, now, context, condition);
      && snoozed.Success? && plain.Success?
      && snoozed.value.item.state == plain.value.item.state
      && snoozed.value.readiness == plain.value.readiness
      && snoozed.value.item.dueSince == plain.value.item.dueSince
      && snoozed.value.item.nextFireAt == plain.value.item.nextFireAt
  {
  }

  /** An overdue item comes back from a snooze overdue exactly when its grace, as it now is, has
      run out. Raising the grace while an item is overdue is the one way to lose that. */
  lemma SnoozedOverdueComesBack(
      i: Item, until: Instant, reason: string, t: Instant,
      now: Instant, context: CheckContext, condition: ConditionEvaluation)
    requires StoredInv(i) && i.state.Overdue?
    requires SnoozeItem(i, until, reason, t).Success?
    requires now >= until
    ensures
      var back := Evaluate(Stored(SnoozeItem(i, until, reason, t).value), now, context, condition);
      && back.Success?
      && (back.value.item.state.Overdue? <==> GraceExpired(i, now))
      && (back.value.readiness == Some(ReadyOverdue) <==> GraceExpired(i, now))
      && (back.value.item.state.Due? <==> !GraceExpired(i, now))
  {
  }
}
