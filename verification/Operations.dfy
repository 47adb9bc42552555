/** Requests, their validation, and what each mutation does to the item it names
    (src/remindi/service.rs). */
module Operations {
  import opened Wrappers
  import opened Model
  import opened Lifecycle
  import opened Evidence
  import Recurrence

  datatype ServiceError =
    | Validation
    | NotFound
    | InvalidState
    | VersionConflict(currentVersion: nat)
    | IdempotencyKeyReused
    | Internal

  function MapDomain(e: DomainError): ServiceError {
    if e.TerminalState? || e.SnoozeRequiresReadyState? || e.FinalOccurrence? then InvalidState else Validation
  }

  datatype Actor = Actor(actorType: ActorType, actorId: string, requestId: Option<string>)

  datatype LinkInput = LinkInput(linkType: LinkType, value: string)

  datatype Request =
    | AddRequest(
        projectId: string,
        taskId: Option<string>,
        message: string,
        instructions: Option<string>,
        priority: Priority,
        newTrigger: Trigger,
        newRecurrence: Option<RecurrenceSpec>,
        newOverdueAfterSeconds: nat,
        newLinks: seq<LinkInput>,
        sessionId: Option<string>,
        taskLineageId: Option<string>,
        key: string)
    | CompleteRequest(
        id: Uuid, expectedVersion: nat, evidence: EvidenceInput, completionNote: Option<string>, key: string)
    | SnoozeRequest(id: Uuid, expectedVersion: nat, snoozeUntil: Instant, reason: string, key: string)
    | CancelRequest(id: Uuid, expectedVersion: nat, reason: string, key: string)
    | UpdateRequest(
        id: Uuid,
        expectedVersion: nat,
        messageChange: Option<string>,
        instructionsChange: Option<Option<string>>,
        priorityChange: Option<Priority>,
        triggerChange: Option<Trigger>,
        recurrenceChange: Option<Option<RecurrenceSpec>>,
        overdueChange: Option<nat>,
        linksChange: Option<seq<LinkInput>>,
        occurrenceDisposition: Option<OccurrenceDisposition>,
        reason: string,
        key: string)

  /** The tool a request belongs to; part of its idempotency key. */
  datatype Tool = RemindiAdd | RemindiComplete | RemindiSnooze | RemindiCancel | RemindiUpdate

  function ToolOf(r: Request): Tool {
    match r
    case AddRequest(_, _, _, _, _, _, _, _, _, _, _, _) => RemindiAdd
    case CompleteRequest(_, _, _, _, _) => RemindiComplete
    case SnoozeRequest(_, _, _, _, _) => RemindiSnooze
    case CancelRequest(_, _, _, _) => RemindiCancel
    case UpdateRequest(_, _, _, _, _, _, _, _, _, _, _, _) => RemindiUpdate
  }

  // ---------------------------------------------------------------- validation

  predicate ValidLinks(links: seq<LinkInput>) {
    && |links| <= 100
    && (forall k :: 0 <= k < |links| ==> !Blank(links[k].value) && |links[k].value| <= 2048)
    && (forall j, k :: 0 <= j < k < |links| ==> links[j] != links[k])
  }

  function GoalLinks(links: seq<LinkInput>): seq<LinkInput> {
    if links == [] then []
    else if links[0].linkType.Goal? then [links[0]] + GoalLinks(links[1..])
    else GoalLinks(links[1..])
  }

  /** A goal trigger carries exactly one goal link, and it names the goal. */
  predicate GoalLinkFits(trigger: Trigger, links: seq<LinkInput>) {
    trigger.GoalActive? ==> GoalLinks(links) == [LinkInput(Goal, trigger.goalId)]
  }

  predicate HasUpdate(r: Request)
    requires r.UpdateRequest?
  {
    || r.messageChange.Some?
    || r.instructionsChange.Some?
    || r.priorityChange.Some?
    || r.triggerChange.Some?
    || r.recurrenceChange.Some?
    || r.overdueChange.Some?
    || r.linksChange.Some?
    || r.occurrenceDisposition.Some?
  }

  function TrimOption(s: Option<string>): Option<string> {
    match s case None => None case Some(t) => Some(Trim(t))
  }

  /** A session or lineage of white space counts as absent. */
  function TrimContext(s: Option<string>): Option<string> {
    if s.Some? && Trim(s.value) != "" then Some(Trim(s.value)) else None
  }

  /** Trims the texts of a request and cuts its instants to milliseconds; the idempotency hash is taken
      after this. Evidence is hashed as it was sent. */
  function Normalize(r: Request): Request {
    match r
    case AddRequest(project, task, message, _, _, trigger, recurrence, _, _, session, lineage, _) =>
      r.(projectId := Trim(project), taskId := TrimOption(task), message := Trim(message),
         sessionId := TrimContext(session), taskLineageId := TrimContext(lineage),
         newTrigger := NormalizeTrigger(trigger),
         newRecurrence := if recurrence.Some? then Some(NormalizeRecurrence(recurrence.value)) else None)
    case SnoozeRequest(_, _, until, reason, _) => r.(snoozeUntil := Millis(until), reason := Trim(reason))
    case CancelRequest(id, version, reason, key) => CancelRequest(id, version, Trim(reason), key)
    case UpdateRequest(_, _, message, _, _, trigger, recurrence, _, _, _, reason, _) =>
      r.(messageChange := TrimOption(message),
         reason := Trim(reason),
         triggerChange := if trigger.Some? then Some(NormalizeTrigger(trigger.value)) else None,
         recurrenceChange :=
           if recurrence.Some? && recurrence.value.Some? then
             Some(Some(NormalizeRecurrence(recurrence.value.value)))
           else recurrence)
    case CompleteRequest(_, _, _, _, _) => r
  }

  /** 8 to 128 letters, digits, dots, underscores, colons and hyphens. */
  predicate ValidKey(key: string) {
    && 8 <= |key| <= 128
    && forall k :: 0 <= k < |key| ==>
         || 'a' <= key[k] <= 'z' || 'A' <= key[k] <= 'Z' || '0' <= key[k] <= '9'
         || key[k] in {'.', '_', ':', '-'}
  }

  /** A text that has to be there, after trimming. */
  predicate Required(s: string, maximum: nat) {
    0 < |s| <= maximum
  }

  predicate AtMost(s: Option<string>, maximum: nat) {
    s.Some? ==> |s.value| <= maximum
  }

  /** The checks that do not depend on the clock or the stored item, made on the normalized
      request. */
  predicate ValidRequest(r: Request) {
    && ValidKey(r.key)
    && match r
       case AddRequest(
              project, task, message, instructions, _, trigger, recurrence, overdue, links, session, lineage, _) =>
         && Required(project, 512) && Required(message, 8192)
         && (task.Some? ==> Required(task.value, 512))
         && AtMost(instructions, 32_768) && AtMost(session, 512) && AtMost(lineage, 512)
         && ValidateTrigger(trigger).None?
         && (recurrence.Some? ==> Recurrence.ValidateForTrigger(recurrence.value, trigger).None?)
         && overdue <= 31_536_000
         && ValidLinks(links)
         && GoalLinkFits(trigger, links)
       case CompleteRequest(_, version, evidence, note, _) =>
         && version >= 1 && AtMost(note, 4096)
         && ValidEvidence(evidence)
       case SnoozeRequest(_, version, _, reason, _) => version >= 1 && Required(reason, 4096)
       case CancelRequest(_, version, reason, _) => version >= 1 && Required(reason, 4096)
       case UpdateRequest(_, version, message, instructions, _, trigger, _, overdue, links, _, reason, _) =>
         && version >= 1 && Required(reason, 4096) && HasUpdate(r)
         && (message.Some? ==> Required(message.value, 8192))
         && (instructions.Some? ==> AtMost(instructions.value, 32_768))
         && (trigger.Some? ==> ValidateTrigger(trigger.value).None?)
         && (overdue.Some? ==> overdue.value <= 31_536_000)
         && (links.Some? ==> ValidLinks(links.value))
         && (trigger.Some? && trigger.value.GoalActive? ==>
               links.Some? && GoalLinkFits(trigger.value, links.value))
  }

  /** The two limits a call passes in from the runtime settings. */
  datatype Limits = Limits(maximumFutureSkew: nat, maximumSnoozeHorizon: nat)

  /** The checks against the clock, made before a repeat of the request is looked up. */
  predicate TimelyRequest(r: Request, limits: Limits, now: Instant) {
    match r
    case CompleteRequest(_, _, evidence, _, _) => evidence.observedAt <= now + limits.maximumFutureSkew
    case SnoozeRequest(_, _, until, _, _) => until <= now + limits.maximumSnoozeHorizon
    case _ => true
  }

  // ---------------------------------------------------------------- operations

  function InitialNextFireAt(trigger: Trigger, now: Instant): Option<Instant> {
    match trigger
    case AtTime(at) => Some(at)
    case AfterElapsed(n) => Some(now + Seconds(n))
    case Interval(first, _) => Some(first)
    case _ => None
  }

  function Earlier(a: Instant, b: Instant): Instant {
    if a <= b then a else b
  }

  function InitialNextEvaluationAt(trigger: Trigger, now: Instant): Option<Instant> {
    match trigger
    case Condition(_, _, poll, manual) =>
      var seconds := if poll.Some? then poll.value else 30;
      if seconds > I64_MAX then manual
      else if manual.Some? then Some(Earlier(now + Seconds(seconds), manual.value))
      else Some(now + Seconds(seconds))
    case _ => None
  }

  /** The item an add request creates. */
  function NewItem(r: Request, ownerId: string, id: Uuid, now: Instant): Item
    requires r.AddRequest?
  {
    Item(
      id, ownerId, r.projectId, r.taskId, r.message, r.instructions, Scheduled, r.priority, r.newTrigger,
      r.newRecurrence, InitialNextFireAt(r.newTrigger, now), InitialNextEvaluationAt(r.newTrigger, now),
      InitialNextFireAt(r.newTrigger, now), None, None, None, r.newOverdueAfterSeconds, 1, r.sessionId,
      r.taskLineageId, None, None, None, 0, 1, now, now, None, None)
  }

  /** What a mutation hands to the transaction that stores it. */
  datatype Applied = Applied(
    item: Item,
    eventType: EventType,
    evidence: Option<EvidenceInput>,
    links: Option<seq<LinkInput>>)

  /** The plain field changes of an update. */
  function ChangeFields(i: Item, r: Request): Item
    requires r.UpdateRequest?
  {
    i.(
      message := if r.messageChange.Some? then r.messageChange.value else i.message,
      instructions := if r.instructionsChange.Some? then r.instructionsChange.value else i.instructions,
      priority := if r.priorityChange.Some? then r.priorityChange.value else i.priority,
      overdueAfterSeconds := if r.overdueChange.Some? then r.overdueChange.value else i.overdueAfterSeconds)
  }

  function ChangeTrigger(i: Item, r: Request, now: Instant): Result<Item, ServiceError>
    requires r.UpdateRequest?
  {
    if r.triggerChange.None? then Success(i)
    else
      var trigger := r.triggerChange.value;
      match ReplaceTrigger(i, trigger, InitialNextFireAt(trigger, now), now)
      case Failure(e) => Failure(MapDomain(e))
      case Success(replaced) => Success(replaced.(nextEvaluationAt := InitialNextEvaluationAt(trigger, now)))
  }

  function ChangeRecurrence(i: Item, r: Request): Result<Item, ServiceError>
    requires r.UpdateRequest?
  {
    var changed := if r.recurrenceChange.Some? then i.(recurrence := r.recurrenceChange.value) else i;
    if changed.recurrence.Some?
       && Recurrence.ValidateForTrigger(changed.recurrence.value, changed.trigger).Some?
    then Failure(MapDomain(Recurrence.ValidateForTrigger(changed.recurrence.value, changed.trigger).value))
    else Success(changed)
  }

  function AdvanceOccurrence(i: Item, disposition: OccurrenceDisposition, now: Instant): Result<Item, ServiceError> {
    if i.recurrence.None? || i.nextFireAt.None? then Failure(InvalidState)
    else
      match Recurrence.AdvanceSpec(i.recurrence.value, i.nextFireAt.value, i.occurrenceNo, now)
      case Failure(e) => Failure(MapDomain(e))
      case Success(a) => Success(i.(
        nextFireAt := Some(a.nextFireAt),
        originalNextFireAt := Some(a.nextFireAt),
        occurrenceNo := a.occurrenceNo,
        dueSince := None,
        state := Scheduled))
  }

  /** Raises the version once, whichever parts of the update ran. */
  function BumpOnce(i: Item, priorVersion: nat, now: Instant): Item {
    if i.version == priorVersion then i.(version := i.version + 1, updatedAt := now) else i
  }

  function ApplyUpdate(i: Item, r: Request, now: Instant): Result<Applied, ServiceError>
    requires r.UpdateRequest?
  {
    if i.state.IsTerminal() then Failure(InvalidState)
    else if r.occurrenceDisposition.Some? && !i.state.IsReady() then Failure(InvalidState)
    else
      var triggered := ChangeTrigger(ChangeFields(i, r), r, now);
      if triggered.Failure? then Failure(triggered.error)
      else
        var recurring := ChangeRecurrence(triggered.value, r);
        if recurring.Failure? then Failure(recurring.error)
        else
          var advanced :=
            if r.occurrenceDisposition.Some? then
              AdvanceOccurrence(recurring.value, r.occurrenceDisposition.value, now)
            else Success(recurring.value);
          if advanced.Failure? then Failure(advanced.error)
          else
            var done := BumpOnce(advanced.value, i.version, now);
            if r.linksChange.Some? && !GoalLinkFits(done.trigger, r.linksChange.value) then Failure(Validation)
            else Success(Applied(
              done,
              if r.occurrenceDisposition.Some? then OccurrenceAdvanced else UpdatedEvent,
              None,
              r.linksChange))
  }

  /** What a mutation does to the item it names; `r` is normalized. */
  function ApplyOperation(i: Item, r: Request, now: Instant): Result<Applied, ServiceError>
    requires !r.AddRequest?
  {
    match r
    case CompleteRequest(_, _, evidence, _, _) =>
      (match CompleteItem(i, ValidatedEvidence(evidence).summary, now)
       case Failure(e) => Failure(MapDomain(e))
       case Success(done) => Success(Applied(done, CompletedEvent, Some(ValidatedEvidence(evidence)), None)))
    case SnoozeRequest(_, _, until, reason, _) =>
      (match SnoozeItem(i, until, reason, now)
       case Failure(e) => Failure(MapDomain(e))
       case Success(done) => Success(Applied(done, SnoozedEvent, None, None)))
    case CancelRequest(_, _, reason, _) =>
      (match CancelItem(i, reason, now)
       case Failure(e) => Failure(MapDomain(e))
       case Success(done) => Success(Applied(done, CancelledEvent, None, None)))
    case UpdateRequest(_, _, _, _, _, _, _, _, _, _, _, _) => ApplyUpdate(i, r, now)
  }

  // ---------------------------------------------------------------- what operations keep

  predicate NormalizedRequest(r: Request) {
    match r
    case AddRequest(_, _, _, _, _, trigger, _, _, _, _, _, _) => NormalizedTrigger(trigger)
    case SnoozeRequest(_, _, until, _, _) => Aligned(until)
    case UpdateRequest(_, _, _, _, _, trigger, _, _, _, _, _, _) => trigger.Some? ==> NormalizedTrigger(trigger.value)
    case _ => true
  }

  lemma NormalizationNormalizes(r: Request)
    ensures NormalizedRequest(Normalize(r))
    ensures ToolOf(Normalize(r)) == ToolOf(r) && Normalize(r).key == r.key
    ensures Normalize(Normalize(r)) == Normalize(r)
  {
    hide Trim;
    forall s: string ensures Trim(Trim(s)) == Trim(s) {
      TrimTrims(s);
    }
  }

  lemma NewItemInvariant(r: Request, ownerId: string, id: Uuid, now: Instant)
    requires r.AddRequest? && ValidRequest(r) && NormalizedRequest(r)
    ensures ItemInv(NewItem(r, ownerId, id, now))
  {
  }

  /** Everything a row's identity consists of: no operation and no evaluation changes it. */
  predicate SameIdentity(a: Item, b: Item) {
    && a.id == b.id && a.ownerId == b.ownerId && a.projectId == b.projectId && a.taskId == b.taskId
    && a.createdAt == b.createdAt
  }

  /** A successful mutation starts from a live item, keeps the item invariant and the identity,
      raises the version by exactly one, and hands over evidence exactly when it completes. */
  ghost predicate OperationKeeps(i: Item, a: Applied) {
    && !i.state.IsTerminal()
    && ItemInv(a.item)
    && SameIdentity(i, a.item)
    && a.item.version == i.version + 1
    && (a.evidence.Some? <==> a.item.state.Completed?)
    && (a.links.None? && a.item.trigger.GoalActive? ==> a.item.trigger == i.trigger)
    && (a.links.Some? ==> ValidLinks(a.links.value) && GoalLinkFits(a.item.trigger, a.links.value))
  }

  lemma ChangeTriggerKeeps(i: Item, r: Request, now: Instant)
    requires ItemInv(i.(recurrence := None)) && r.UpdateRequest? && ValidRequest(r) && NormalizedRequest(r)
    requires ChangeTrigger(i, r, now).Success?
    ensures
      var c := ChangeTrigger(i, r, now).value;
      && ItemInv(c.(recurrence := None))
      && SameIdentity(i, c) && c.recurrence == i.recurrence && !c.state.IsTerminal() == !i.state.IsTerminal()
      && c.version == (if r.triggerChange.Some? then i.version + 1 else i.version)
      && c.trigger == (if r.triggerChange.Some? then r.triggerChange.value else i.trigger)
      && c.occurrenceNo == i.occurrenceNo
      && (i.state.IsReady() ==> c.state == i.state)
      && (c.state.Completed? <==> i.state.Completed?)
  {
  }

  lemma AdvanceOccurrenceKeeps(i: Item, disposition: OccurrenceDisposition, now: Instant)
    requires ItemInv(i) && i.state.IsReady()
    requires AdvanceOccurrence(i, disposition, now).Success?
    ensures
      var a := AdvanceOccurrence(i, disposition, now).value;
      && ItemInv(a) && SameIdentity(i, a) && a.state.Scheduled?
      && a.version == i.version && a.trigger == i.trigger && a.recurrence == i.recurrence
      && i.trigger.Interval? && i.nextFireAt.Some? && a.nextFireAt.Some?
      && a.occurrenceNo > i.occurrenceNo
      && a.nextFireAt.value - i.nextFireAt.value
         == (a.occurrenceNo - i.occurrenceNo) * Seconds(i.trigger.everySeconds)
  {
    Recurrence.AdvanceConservation(i.recurrence.value, i.nextFireAt.value, i.occurrenceNo, now);
  }

  lemma ChangeFieldsKeeps(i: Item, r: Request)
    requires ItemInv(i) && r.UpdateRequest? && ValidRequest(r)
    ensures ItemInv(ChangeFields(i, r).(recurrence := None))
    ensures SameIdentity(i, ChangeFields(i, r))
    ensures
      var c := ChangeFields(i, r);
      c.state == i.state && c.version == i.version && c.trigger == i.trigger && c.recurrence == i.recurrence
  {
  }

  lemma ChangeRecurrenceKeeps(i: Item, r: Request)
    requires ItemInv(i.(recurrence := None)) && r.UpdateRequest?
    requires ChangeRecurrence(i, r).Success?
    ensures ItemInv(ChangeRecurrence(i, r).value)
    ensures
      var c := ChangeRecurrence(i, r).value;
      c == i.(recurrence := c.recurrence)
  {
  }

  /** The end of an update: one version step, and links that fit the trigger. */
  lemma FinishKeeps(i: Item, a: Item, r: Request, now: Instant)
    requires ItemInv(a) && r.UpdateRequest? && ValidRequest(r)
    requires !i.state.IsTerminal() && SameIdentity(i, a) && !a.state.IsTerminal()
    requires a.version == i.version || a.version == i.version + 1
    requires a.trigger == if r.triggerChange.Some? then r.triggerChange.value else i.trigger
    requires r.linksChange.Some? ==> GoalLinkFits(a.trigger, r.linksChange.value)
    ensures
      var event := if r.occurrenceDisposition.Some? then OccurrenceAdvanced else UpdatedEvent;
      OperationKeeps(i, Applied(BumpOnce(a, i.version, now), event, None, r.linksChange))
  {
    hide ValidLinks, GoalLinkFits;
  }

  lemma UpdateKeepsInvariant(i: Item, r: Request, now: Instant)
    requires ItemInv(i) && r.UpdateRequest? && ValidRequest(r) && NormalizedRequest(r)
    requires ApplyUpdate(i, r, now).Success?
    ensures OperationKeeps(i, ApplyUpdate(i, r, now).value)
  {
    hide ItemInv, ValidRequest, NormalizedRequest, ChangeFields, ChangeTrigger, ChangeRecurrence, AdvanceOccurrence,
      GoalLinkFits, OperationKeeps;
    var fields := ChangeFields(i, r);
    ChangeFieldsKeeps(i, r);
    ChangeTriggerKeeps(fields, r, now);
    var triggered := ChangeTrigger(fields, r, now).value;
    ChangeRecurrenceKeeps(triggered, r);
    var recurring := ChangeRecurrence(triggered, r).value;
    if r.occurrenceDisposition.Some? {
      var disposition := r.occurrenceDisposition.value;
      AdvanceOccurrenceKeeps(recurring, disposition, now);
      FinishKeeps(i, AdvanceOccurrence(recurring, disposition, now).value, r, now);
    } else {
      FinishKeeps(i, recurring, r, now);
    }
  }

  lemma OperationKeepsInvariant(i: Item, r: Request, now: Instant)
    requires ItemInv(i) && !r.AddRequest? && ValidRequest(r) && NormalizedRequest(r)
    requires ApplyOperation(i, r, now).Success?
    ensures OperationKeeps(i, ApplyOperation(i, r, now).value)
  {
    if r.UpdateRequest? {
      UpdateKeepsInvariant(i, r, now);
    }
  }
}
