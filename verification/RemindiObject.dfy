/** The mutable item: the `&mut self` methods of src/remindi/state_machine.rs and the evaluator of
    src/triggers/evaluator.rs, each proved against its function in Lifecycle. */
module RemindiObject {
  import opened Wrappers
  import opened Model
  import opened Lifecycle

  class Remindi {
    const id: Uuid
    const ownerId: string
    const projectId: string
    const taskId: Option<string>
    var message: string
    var instructions: Option<string>
    var state: RemindiState
    var priority: Priority
    var trigger: Trigger
    var recurrence: Option<RecurrenceSpec>
    var nextFireAt: Option<Instant>
    var nextEvaluationAt: Option<Instant>
    var originalNextFireAt: Option<Instant>
    var dueSince: Option<Instant>
    var snoozeUntil: Option<Instant>
    var snoozedFromState: Option<RemindiState>
    var overdueAfterSeconds: nat
    var occurrenceNo: nat
    const sourceSessionId: Option<string>
    const sourceTaskLineageId: Option<string>
    var lastCheckedAt: Option<Instant>
    var lastConditionStatus: Option<ConditionStatus>
    var lastConditionDetail: Option<string>
    var snoozeCount: nat
    var version: nat
    const createdAt: Instant
    var updatedAt: Instant
    var completedAt: Option<Instant>
    var cancelledAt: Option<Instant>

    function Value(): Item
      reads this
    {
      Item(id, ownerId, projectId, taskId, message, instructions, state, priority, trigger, recurrence,
           nextFireAt, nextEvaluationAt, originalNextFireAt, dueSince, snoozeUntil, snoozedFromState,
           overdueAfterSeconds, occurrenceNo, sourceSessionId, sourceTaskLineageId, lastCheckedAt,
           lastConditionStatus, lastConditionDetail, snoozeCount, version, createdAt, updatedAt,
           completedAt, cancelledAt)
    }

    constructor (i: Item)
      ensures Value() == i
    {
      id, ownerId, projectId, taskId := i.id, i.ownerId, i.projectId, i.taskId;
      message, instructions, state, priority := i.message, i.instructions, i.state, i.priority;
      trigger, recurrence := i.trigger, i.recurrence;
      nextFireAt, nextEvaluationAt, originalNextFireAt := i.nextFireAt, i.nextEvaluationAt, i.originalNextFireAt;
      dueSince, snoozeUntil, snoozedFromState := i.dueSince, i.snoozeUntil, i.snoozedFromState;
      overdueAfterSeconds, occurrenceNo := i.overdueAfterSeconds, i.occurrenceNo;
      sourceSessionId, sourceTaskLineageId := i.sourceSessionId, i.sourceTaskLineageId;
      lastCheckedAt, lastConditionStatus := i.lastCheckedAt, i.lastConditionStatus;
      lastConditionDetail, snoozeCount, version := i.lastConditionDetail, i.snoozeCount, i.version;
      createdAt, updatedAt, completedAt, cancelledAt := i.createdAt, i.updatedAt, i.completedAt, i.cancelledAt;
    }

    method ClearSnoozeFields()
      modifies this
      ensures Value() == ClearSnooze(old(Value()))
    {
      snoozeUntil := None;
      snoozedFromState := None;
    }

    /** The version step every change of an item ends with. */
    method Touch(now: Instant)
      modifies this`version, this`updatedAt
      ensures Value() == old(Value()).(version := old(version) + 1, updatedAt := now)
    {
      version := version + 1;
      updatedAt := now;
    }

    method MarkSnoozed(until: Instant)
      modifies this
      ensures Value() == old(Value()).(
        snoozedFromState := Some(old(state)),
        snoozeUntil := Some(until),
        state := Snoozed,
        snoozeCount := old(snoozeCount) + 1)
    {
      snoozedFromState := Some(state);
      snoozeUntil := Some(until);
      state := Snoozed;
      snoozeCount := snoozeCount + 1;
    }

    method InstallTrigger(newTrigger: Trigger, fireAt: Option<Instant>)
      modifies this
      ensures Value() == old(Value()).(
        trigger := newTrigger,
        nextFireAt := fireAt,
        originalNextFireAt := fireAt,
        nextEvaluationAt := None)
    {
      trigger := newTrigger;
      nextFireAt := fireAt;
      originalNextFireAt := fireAt;
      nextEvaluationAt := None;
    }

    /** Takes a snoozed item back to a fresh schedule. */
    method ResetSnooze()
      modifies this
      ensures Value() == ClearSnooze(old(Value())).(dueSince := None, state := Scheduled)
    {
      dueSince := None;
      snoozeUntil := None;
      snoozedFromState := None;
      state := Scheduled;
    }

    method MarkDue(now: Instant)
      modifies this
      ensures Value() == old(Value()).(state := Due, dueSince := Some(now))
    {
      state := Due;
      dueSince := Some(now);
    }

    method Snooze(until: Instant, reason: string, now: Instant) returns (r: Result<EventType, DomainError>)
      modifies this
      ensures match SnoozeItem(old(Value()), until, reason, now)
              case Success(i) => r == Success(SnoozedEvent) && Value() == i
              case Failure(e) => r == Failure(e) && Value() == old(Value())
    {
      if state.IsTerminal() {
        return Failure(TerminalState);
      }
      if !state.IsReady() {
        return Failure(SnoozeRequiresReadyState);
      }
      if Blank(reason) {
        return Failure(ReasonRequired);
      }
      if until <= now {
        return Failure(SnoozeMustBeFuture);
      }
      MarkSnoozed(until);
      Touch(now);
      return Success(SnoozedEvent);
    }

    method Complete(summary: string, now: Instant) returns (r: Result<EventType, DomainError>)
      modifies this
      ensures match CompleteItem(old(Value()), summary, now)
              case Success(i) => r == Success(CompletedEvent) && Value() == i
              case Failure(e) => r == Failure(e) && Value() == old(Value())
    {
      if state.IsTerminal() {
        return Failure(TerminalState);
      }
      if summary == "" {
        return Failure(CompletionEvidenceRequired);
      }
      ClearSnoozeFields();
      state := Completed;
      completedAt := Some(now);
      Touch(now);
      return Success(CompletedEvent);
    }

    method Cancel(reason: string, now: Instant) returns (r: Result<EventType, DomainError>)
      modifies this
      ensures match CancelItem(old(Value()), reason, now)
              case Success(i) => r == Success(CancelledEvent) && Value() == i
              case Failure(e) => r == Failure(e) && Value() == old(Value())
    {
      if state.IsTerminal() {
        return Failure(TerminalState);
      }
      if Blank(reason) {
        return Failure(ReasonRequired);
      }
      ClearSnoozeFields();
      state := Cancelled;
      cancelledAt := Some(now);
      Touch(now);
      return Success(CancelledEvent);
    }

    method Replace(newTrigger: Trigger, fireAt: Option<Instant>, now: Instant)
      returns (r: Result<EventType, DomainError>)
      modifies this
      ensures match ReplaceTrigger(old(Value()), newTrigger, fireAt, now)
              case Success(i) => r == Success(UpdatedEvent) && Value() == i
              case Failure(e) => r == Failure(e) && Value() == old(Value())
    {
      if state.IsTerminal() {
        return Failure(TerminalState);
      }
      var invalid := ValidateTrigger(newTrigger);
      if invalid.Some? {
        return Failure(invalid.value);
      }
      InstallTrigger(newTrigger, fireAt);
      if state.Snoozed? {
        ResetSnooze();
      }
      Touch(now);
      return Success(UpdatedEvent);
    }

    /** The evaluator. On a failure the item keeps its value but for the check time, which even a
        failed evaluation of a live item has already set. */
    method EvaluateInPlace(now: Instant, context: CheckContext, condition: ConditionEvaluation)
      returns (r: Result<(Option<Readiness>, seq<EventType>), DomainError>)
      modifies this
      ensures match Evaluate(old(Value()), now, context, condition)
              case Success(e) => r == Success((e.readiness, e.events)) && Value() == e.item
              case Failure(e) =>
                && r == Failure(e)
                && Value() == if e.TerminalState? then old(Value()) else old(Value()).(lastCheckedAt := Some(now))
    {
      if state.IsTerminal() {
        return Failure(TerminalState);
      }
      lastCheckedAt := Some(now);
      if state.Snoozed? {
        r := EvaluateSnoozeInPlace(now);
        return;
      }
      if state.Overdue? {
        return Success((Some(ReadyOverdue), []));
      }
      if state.Due? {
        var due := EvaluateDueInPlace(now);
        return Success(due);
      }
      var satisfaction := TriggerSatisfaction(now, context, condition);
      if satisfaction.Failure? {
        return Failure(satisfaction.error);
      }
      var (satisfied, readiness, events) := satisfaction.value;
      if !satisfied {
        return Success((None, events));
      }
      MarkDue(now);
      Touch(now);
      return Success((Some(readiness), events + [BecameDue]));
    }

    method TriggerSatisfaction(now: Instant, context: CheckContext, condition: ConditionEvaluation)
      returns (r: Result<(bool, Readiness, seq<EventType>), DomainError>)
      modifies this
      ensures match EvaluateScheduled(old(Value()), now, context, condition)
              case Failure(e) => r == Failure(e) && Value() == old(Value()) && !e.TerminalState?
              case Success(e) =>
                && r.Success?
                && (r.value.0 <==> e.readiness.Some?)
                && e == if r.value.0 then BecomeDue(Value(), r.value.1, r.value.2, now)
                        else Evaluation(Value(), None, r.value.2)
    {
      if trigger.IsTimed() {
        return Success((nextFireAt.Some? && now >= nextFireAt.value, ReadyDue, []));
      }
      if trigger.Condition? {
        if !trigger.parameters.JsonObject? {
          return Failure(ConditionParametersMustBeObject);
        }
        lastConditionStatus := if condition.NotEvaluated? then None else Some(condition.status);
        var satisfied := condition == Evaluated(Satisfied);
        var manual := !satisfied && trigger.manualCheckAt.Some? && now >= trigger.manualCheckAt.value;
        if condition.Evaluated? {
          if satisfied || manual {
            nextEvaluationAt := None;
          } else {
            nextEvaluationAt := Some(now + Seconds(PollSeconds(trigger.pollIntervalSeconds)));
          }
        } else if manual {
          nextEvaluationAt := None;
        }
        return Success((
          satisfied || manual,
          if manual then ManualVerification else ReadyDue,
          if condition.Evaluated? then [ConditionEvaluated] else []));
      }
      return Success((ContextSatisfies(Value(), context), ReadyDue, []));
    }

    method EvaluateSnoozeInPlace(now: Instant) returns (r: Result<(Option<Readiness>, seq<EventType>), DomainError>)
      modifies this
      ensures match EvaluateSnoozed(old(Value()), now)
              case Success(e) => r == Success((e.readiness, e.events)) && Value() == e.item
              case Failure(e) => r == Failure(e) && Value() == old(Value()) && !e.TerminalState?
    {
      if snoozeUntil.None? {
        return Failure(SnoozeRequiresReadyState);
      }
      if now < snoozeUntil.value {
        return Success((None, []));
      }
      ClearSnoozeFields();
      var overdue := GraceExpired(Value(), now);
      state := if overdue then Overdue else Due;
      Touch(now);
      return Success((
        Some(if overdue then ReadyOverdue else ReadyDue),
        [if overdue then BecameOverdue else BecameDue]));
    }

    method EvaluateDueInPlace(now: Instant) returns (r: (Option<Readiness>, seq<EventType>))
      modifies this
      ensures r == (EvaluateDue(old(Value()), now).readiness, EvaluateDue(old(Value()), now).events)
      ensures Value() == EvaluateDue(old(Value()), now).item
    {
      if GraceExpired(Value(), now) {
        state := Overdue;
        updatedAt := now;
        version := version + 1;
        return (Some(ReadyOverdue), [BecameOverdue]);
      }
      return (Some(ReadyDue), []);
    }
  }
}
