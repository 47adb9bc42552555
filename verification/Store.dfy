/** The tables and the transactions over them, as functions of the tables' contents
    (src/remindi/service.rs, src/remindi/repository.rs). */
module Store {
  import opened Wrappers
  import opened Model
  import opened Lifecycle
  import opened Operations
  import opened Evidence

  datatype Event = Event(
    remindiId: Uuid,
    eventType: EventType,
    actor: Actor,
    occurredAt: Instant,
    priorVersion: Option<nat>,
    newVersion: nat)

  datatype CompletionEvidence = CompletionEvidence(
    evidenceType: EvidenceType,
    summary: string,
    referenceUri: Option<string>,
    contentHash: Option<string>,
    observedAt: Instant,
    recordedAt: Instant,
    recordedBy: string,
    metadata: Option<Json>)

  datatype StoredLink = StoredLink(link: LinkInput, createdAt: Instant)

  datatype IdempotencyKey = IdempotencyKey(actorId: string, tool: Tool, key: string)

  /** The stored request stands for its hash. */
  datatype IdempotencyRecord = IdempotencyRecord(request: Request, response: Item, createdAt: Instant)

  /** The database. An event's sequence number is its place in `events`. */
  datatype Db = Db(
    items: map<Uuid, Item>,
    events: seq<Event>,
    evidence: map<Uuid, CompletionEvidence>,
    idempotency: map<IdempotencyKey, IdempotencyRecord>,
    links: map<Uuid, seq<StoredLink>>)

  const EmptyDb := Db(map[], [], map[], map[], map[])

  /** One request with what the service reads from outside while serving it: the limits in force,
      the identifier the generator would hand out, and the clock readings of the operation, of the
      transaction and of the event. */
  datatype Call = Call(
    actor: Actor,
    request: Request,
    limits: Limits,
    newId: Uuid,
    now: Instant,
    transactionNow: Instant,
    eventNow: Instant)

  datatype Outcome = Outcome(db: Db, result: Result<Item, ServiceError>)

  // ---------------------------------------------------------------- rows

  function Find(db: Db, ownerId: string, id: Uuid): Option<Item> {
    if id in db.items && db.items[id].ownerId == ownerId then Some(db.items[id]) else None
  }

  /** The row after the UPDATE of a compare-and-swap: the columns it does not set keep their
      values. */
  function UpdatedRow(row: Item, item: Item): Item {
    Stored(item).(
      id := row.id, ownerId := row.ownerId, projectId := row.projectId, taskId := row.taskId,
      createdAt := row.createdAt)
  }

  /** Whether the UPDATE's WHERE clause matches a row. */
  predicate CasMatches(db: Db, item: Item, expectedVersion: nat) {
    Find(db, item.ownerId, item.id).Some? && db.items[item.id].version == expectedVersion
  }

  function PutItem(db: Db, item: Item): Db
    requires item.id in db.items
  {
    db.(items := db.items[item.id := UpdatedRow(db.items[item.id], item)])
  }

  function StoredLinks(links: seq<LinkInput>, now: Instant): seq<StoredLink> {
    seq(|links|, k requires 0 <= k < |links| => StoredLink(links[k], Millis(now)))
  }

  function LinkInputs(links: seq<StoredLink>): seq<LinkInput> {
    seq(|links|, k requires 0 <= k < |links| => links[k].link)
  }

  function EvidenceRow(e: EvidenceInput, recordedAt: Instant, actorId: string): CompletionEvidence {
    CompletionEvidence(
      e.evidenceType, e.summary, e.referenceUri, e.contentHash, Millis(e.observedAt), Millis(recordedAt), actorId,
      e.metadata)
  }

  /** The event rows of one change, all carrying the same pair of versions. */
  function EventRows(id: Uuid, types: seq<EventType>, actor: Actor, at: Instant, prior: Option<nat>, new_: nat)
    : seq<Event>
  {
    seq(|types|, k requires 0 <= k < |types| => Event(id, types[k], actor, Millis(at), prior, new_))
  }

  // ---------------------------------------------------------------- mutations

  function KeyOf(call: Call): IdempotencyKey {
    IdempotencyKey(call.actor.actorId, ToolOf(call.request), call.request.key)
  }

  /** The stored response of an earlier call under the same key, or the refusal of a reused key. */
  function Replay(record: IdempotencyRecord, request: Request): Result<Item, ServiceError> {
    if record.request == request then Success(record.response) else Failure(IdempotencyKeyReused)
  }

  function Remember(db: Db, call: Call, request: Request, response: Item): Db {
    db.(idempotency := db.idempotency[
      KeyOf(call) := IdempotencyRecord(request, response, Millis(call.transactionNow))])
  }

  function Add(db: Db, ownerId: string, call: Call, request: Request): Outcome
    requires request.AddRequest?
  {
    var item := NewItem(request, ownerId, call.newId, call.now);
    if item.id in db.items || !SchemaChecks(Stored(item)) then Outcome(db, Failure(Internal))
    else
      var written := db.(
        items := db.items[item.id := Stored(item)],
        links := db.links[item.id := StoredLinks(request.newLinks, call.now)],
        events := db.events + EventRows(item.id, [CreatedEvent], call.actor, call.eventNow, None, 1));
      Outcome(Remember(written, call, request, item), Success(item))
  }

  /** The writes of a mutation whose operation succeeded; a constraint that fails rolls the whole
      transaction back. */
  function WriteMutation(db: Db, call: Call, request: Request, prior: Item, applied: Applied): Outcome
    requires CasMatches(db, applied.item, prior.version)
  {
    var item := applied.item;
    if !SchemaChecks(UpdatedRow(db.items[item.id], item)) then Outcome(db, Failure(Internal))
    else if applied.evidence.Some? && item.id in db.evidence then Outcome(db, Failure(Internal))
    else
      var updated := PutItem(db, item);
      var written := updated.(
        links :=
          if applied.links.Some? then
            updated.links[item.id := StoredLinks(applied.links.value, call.now)]
          else updated.links,
        evidence :=
          if applied.evidence.Some? then
            updated.evidence[item.id :=
              EvidenceRow(applied.evidence.value, call.transactionNow, call.actor.actorId)]
          else updated.evidence,
        events := updated.events + EventRows(
          item.id, [applied.eventType], call.actor, call.eventNow, Some(prior.version), item.version));
      Outcome(Remember(written, call, request, item), Success(item))
  }

  function Mutate(db: Db, ownerId: string, call: Call, request: Request): Outcome
    requires !request.AddRequest?
  {
    match Find(db, ownerId, request.id)
    case None => Outcome(db, Failure(NotFound))
    case Some(item) =>
      if item.version != request.expectedVersion then Outcome(db, Failure(VersionConflict(item.version)))
      else
        match ApplyOperation(item, request, call.now)
        case Failure(e) => Outcome(db, Failure(e))
        case Success(applied) =>
          if CasMatches(db, applied.item, item.version) then WriteMutation(db, call, request, item, applied)
          else Outcome(db, Failure(VersionConflict(item.version)))
  }

  /** One mutating tool call, from validation to commit. */
  function Execute(db: Db, ownerId: string, call: Call): Outcome {
    var request := Normalize(call.request);
    if Blank(call.actor.actorId) || !ValidRequest(request) || !TimelyRequest(request, call.limits, call.now) then
      Outcome(db, Failure(Validation))
    else if KeyOf(call) in db.idempotency then Outcome(db, Replay(db.idempotency[KeyOf(call)], request))
    else if request.AddRequest? then Add(db, ownerId, call, request)
    else Mutate(db, ownerId, call, request)
  }

  // ---------------------------------------------------------------- evaluations

  /** An evaluation of a snapshot, ready to be committed; `detail` comes from the adapter. */
  datatype Evaluating = Evaluating(
    actor: Actor,
    now: Instant,
    context: CheckContext,
    condition: ConditionEvaluation,
    detail: Option<string>,
    eventNow: Instant)

  /** What an evaluation of a snapshot asks to store: nothing when it produced no event. The version
      goes up even when only the condition bookkeeping changed. */
  function Candidate(prior: Item, e: Evaluating): Option<(Item, seq<EventType>)> {
    match Evaluate(prior, e.now, e.context, e.condition)
    case Failure(_) => None
    case Success(r) =>
      if r.events == [] then None
      else
        var detailed := if e.condition.Evaluated? then r.item.(lastConditionDetail := e.detail) else r.item;
        Some((
          if detailed.version == prior.version then detailed.(version := prior.version + 1, updatedAt := e.now)
          else detailed,
          r.events))
  }

  /** The row is still at the snapshot's version, and the new row breaks no constraint. */
  predicate Persists(db: Db, prior: Item, candidate: Item) {
    CasMatches(db, candidate, prior.version) && SchemaChecks(UpdatedRow(db.items[candidate.id], candidate))
  }

  /** Commits an evaluated snapshot unless the row moved on since the snapshot was read. */
  function PersistEvaluated(db: Db, prior: Item, candidate: Item, events: seq<EventType>, e: Evaluating): Db {
    if Persists(db, prior, candidate) then
      var updated := PutItem(db, candidate);
      updated.(events := updated.events + EventRows(
        candidate.id, events, e.actor, e.eventNow, Some(prior.version), candidate.version))
    else db
  }

  /** Evaluates a snapshot and commits the outcome. */
  function CommitEvaluation(db: Db, prior: Item, e: Evaluating): Db {
    match Candidate(prior, e)
    case None => db
    case Some(c) => PersistEvaluated(db, prior, c.0, c.1, e)
  }
}
