/** The versioned, idempotent store of the demo adapter: its records and what each mutation does to them
    (demo-adapter.ts). */
module DemoStore {
  import opened Prelude
  import opened TaskReview

  // ---- Records ----

  datatype Item = Item(
    id: string, workspaceId: string, boardId: string, title: string, description: string, kind: string,
    priority: string, status: Status, planning: Option<string>, dueDate: Option<string>, assignees: seq<Person>,
    decisionState: Option<string>, approvalState: Option<string>, review: Option<Review>,
    version: nat, createdAt: int, updatedAt: int)

  datatype Evidence = Evidence(id: string, itemId: string, author: string, body: string, createdAt: int)

  datatype Quote = Quote(id: string, body: string)

  /** A history entry; `review` is the review kept in its metadata. */
  datatype Entry = Entry(id: string, kind: string, reasonCode: string, actor: Option<Person>, evidence: seq<Quote>,
                         itemVersion: nat, occurredAt: int, review: Option<Review>)

  datatype Attention = Attention(id: string, workspaceId: Option<string>, resolvedAt: Option<int>,
                                 dismissedAt: Option<int>, snoozedUntil: Option<string>,
                                 actionReason: Option<string>, version: nat)

  datatype Waiting = Waiting(id: string, workspaceId: string, portfolioId: string, entityId: string, title: string,
                             followUpOwner: Person, waitingSince: int, nextFollowUp: Option<string>,
                             note: Option<string>, resolvedAt: Option<int>, version: nat)

  datatype Event = Event(id: string, workspaceId: string, calendarId: string, title: string, startAt: string,
                         endAt: string, location: string, version: nat, createdAt: int, updatedAt: int)

  datatype Stored = Stored(verb: string, route: string, fingerprint: string, responseStatus: int, value: Value,
                           expiresAt: int)

  /** The records every mutation works on. */
  datatype Records = Records(
    items: map<string, Item>, evidence: map<string, seq<Evidence>>, history: map<string, seq<Entry>>,
    attention: map<string, Attention>, waiting: map<string, Waiting>, events: map<string, Event>)

  datatype Db = Db(records: Records, replies: map<string, Stored>)

  // ---- Calls ----

  datatype Access = Access(organizationId: string, userId: string, role: string)

  /** id0 and id1 are what newId() yields first and second during the call. */
  datatype Context = Context(access: Access, now: int, idempotencyKey: Option<string>, verb: string, route: string,
                             fingerprint: string, responseStatus: int, id0: string, id1: string)

  datatype Permission = MayCreateItem | MayUpdateItem | MayCreateEvent | MayUpdateEvent

  /** The permission check and the fixed demo directories. */
  datatype Env = Env(
    can: (Access, Permission, Option<string>) -> bool,
    userFor: string -> Option<Person>,
    portfolioOf: string -> Option<string>,
    boardWorkspace: string -> Option<string>,
    calendarWorkspace: string -> Option<string>)

  datatype NewItem = NewItem(workspaceId: string, boardId: string, title: string, description: string, kind: string,
                             priority: string, status: Status, planning: Option<string>, dueDate: Option<string>,
                             assigneeIds: seq<string>, decisionState: Option<string>, approvalState: Option<string>)

  /** `dueDate: Some(None)` is an explicit null. */
  datatype ItemPatch = ItemPatch(review: Patch, priority: Option<string>, dueDate: Option<Option<string>>,
                                 assigneeIds: Option<seq<string>>)

  datatype TransitionKind = Decision | Approval | Resolve

  datatype NewWaiting = NewWaiting(workspaceId: string, entityId: string, title: string, followUpOwnerId: string,
                                   nextFollowUp: Option<string>, note: Option<string>)

  datatype AttentionVerb = ResolveSignal | DismissSignal | SnoozeSignal

  datatype AttentionInput = AttentionInput(action: AttentionVerb, reason: Option<string>, snoozedUntil: Option<string>)

  datatype WaitingInput = WaitingInput(resolve: bool, nextFollowUp: Option<string>, note: Option<string>)

  datatype EventInput = EventInput(calendarId: string, title: string, startAt: string, endAt: string, location: string)

  datatype EventPatch = EventPatch(calendarId: Option<string>, title: Option<string>, startAt: Option<string>,
                                   endAt: Option<string>, location: Option<string>)

  /** What an accepted mutation does to one item. */
  datatype ItemOp =
    | Update(patch: ItemPatch)
    | ReviewOp(command: Command)
    | AddEvidence(body: string)
    | Assign(assigneeIds: seq<string>)
    | SetBlocked(blocked: bool)
    | Transition(kind: TransitionKind, state: string, evidence: Option<string>)

  datatype Op =
    | CreateItem(input: NewItem)
    | ChangeItem(id: string, expected: nat, op: ItemOp)
    | CreateWaiting(expected: nat, waiting: NewWaiting)
    | ActOnAttention(id: string, expected: nat, attention: AttentionInput)
    | ActOnWaiting(id: string, expected: nat, action: WaitingInput)
    | CreateEvent(workspaceId: string, event: EventInput)
    | UpdateEvent(id: string, expected: nat, change: EventPatch)
    | DeleteEvent(id: string, expected: nat)

  datatype Call = Call(ctx: Context, op: Op)

  datatype Error =
    | NotFound | Denied | VersionConflict(current: Option<nat>) | Constraint(why: Option<Refusal>) | KeyReused

  datatype Value =
    | ItemValue(item: Item)
    | EvidenceValue(evidence: Evidence, itemVersion: nat)
    | TransitionValue(moved: Item, proof: Option<Evidence>)
    | WaitingValue(waiting: Waiting)
    | AttentionValue(signal: Attention)
    | EventValue(event: Event)

  // ---- One item ----

  function SubjectOf(i: Item): Subject {
    Subject(i.kind == "task", i.status, i.version, i.review, i.title, i.description, i.planning)
  }

  function Users(env: Env, ids: seq<string>): Option<seq<Person>> {
    if ids == [] then Some([])
    else
      match (env.userFor(ids[0]), Users(env, ids[1..]))
      case (Some(p), Some(rest)) => Some([p] + rest)
      case (_, _) => None
  }

  /** The people of the given ids that exist, as flatMap keeps them. */
  function KnownUsers(env: Env, ids: seq<string>): seq<Person> {
    if ids == [] then []
    else
      (match env.userFor(ids[0])
       case Some(p) => [p]
       case None => []) + KnownUsers(env, ids[1..])
  }

  function NonEmpty(text: Option<string>): Option<string> { if text == Some("") then None else text }

  /** The change to one item: its new state, and what is appended to its evidence and history. */
  datatype Change = Change(item: Item, evidence: Option<Evidence>, entry: Option<Entry>, value: Value)

  function Bumped(i: Item, now: int): Item { i.(version := i.version + 1, updatedAt := now) }

  /** The status after an update: the requested one, or back to working when revised work loses its review. */
  function StatusAfter(i: Item, requested: Option<Status>, review: Option<Review>): Status {
    match requested
    case Some(s) => s
    case None =>
      if review.Some? && review.value.state == Invalidated && !(i.review.Some? && i.review.value.state == Invalidated)
         && (i.status == InReview || i.status == Done)
      then Working
      else i.status
  }

  function PatchedItem(i: Item, p: ItemPatch, people: seq<Person>, review: Option<Review>, now: int): Item {
    Bumped(i, now).(
      assignees := if p.assigneeIds.Some? then people else i.assignees,
      title := p.review.title.GetOr(i.title),
      planning := if p.review.planning.Some? then p.review.planning else i.planning,
      description := p.review.description.GetOr(i.description),
      status := StatusAfter(i, p.review.status, review),
      priority := p.priority.GetOr(i.priority),
      dueDate := p.dueDate.GetOr(i.dueDate),
      review := if review.Some? then review else i.review)
  }

  function UpdateChange(env: Env, ctx: Context, i: Item, p: ItemPatch): Result<Change, Error> {
    match ReviewForTaskChange(SubjectOf(i), p.review, ctx.now)
    case Err(why) => Err(Constraint(Some(why)))
    case Ok(review) =>
      match Users(env, p.assigneeIds.GetOr([]))
      case None => Err(NotFound)
      case Some(people) =>
        var item := PatchedItem(i, p, people, review, ctx.now);
        Ok(Change(item, None,
                  Some(Entry(ctx.id0, "item_updated", "item_updated", env.userFor(ctx.access.userId), [],
                             item.version, ctx.now, review)),
                  ItemValue(item)))
  }

  function MayCancel(ctx: Context, i: Item): bool {
    || (i.review.Some? && i.review.value.requestedBy.id == ctx.access.userId)
    || (exists k :: 0 <= k < |i.assignees| && i.assignees[k].id == ctx.access.userId)
    || ctx.access.role in {"owner", "admin"}
  }

  function ActorOf(env: Env, ctx: Context): Person {
    env.userFor(ctx.access.userId).GetOr(Person(ctx.access.userId, "Demo reviewer"))
  }

  function ReasonOf(c: Command): string {
    match c
    case Request(_, _, _) => "review_request"
    case Respond(_, _, _) => "review_respond"
    case Cancel(_, _) => "review_cancel"
  }

  function ReviewChange(env: Env, ctx: Context, i: Item, c: Command): Result<Change, Error> {
    if c.Cancel? && !MayCancel(ctx, i) then Err(Constraint(None))
    else
      var actor := ActorOf(env, ctx);
      match ApplyTaskReview(SubjectOf(i), c, actor, ctx.now, ctx.id0,
                            if c.Request? then KnownUsers(env, c.reviewerIds) else [])
      case Err(why) => Err(Constraint(Some(why)))
      case Ok(applied) =>
        var item := Bumped(i, ctx.now).(review := Some(applied.review), status := applied.status);
        Ok(Change(item, None,
                  Some(Entry(ctx.id1, "item_updated", ReasonOf(c), Some(actor), [], item.version, ctx.now,
                             Some(applied.review))),
                  ItemValue(item)))
  }

  const OWNER_NAME := "Mohammed Zaman"

  function SelfOf(ctx: Context): Person { Person(ctx.access.userId, OWNER_NAME) }

  function NewEvidence(ctx: Context, id: string, body: string): Evidence {
    Evidence(ctx.id0, id, ctx.access.userId, body, ctx.now)
  }

  function EvidenceChange(ctx: Context, id: string, i: Item, body: string): Change {
    var item, e := Bumped(i, ctx.now), NewEvidence(ctx, id, body);
    Change(item, Some(e),
           Some(Entry(ctx.id1, "evidence.added", "evidence_added", Some(SelfOf(ctx)), [Quote(e.id, e.body)],
                      item.version, ctx.now, None)),
           EvidenceValue(e, item.version))
  }

  function AssignChange(env: Env, ctx: Context, i: Item, ids: seq<string>): Result<Change, Error> {
    match Users(env, ids)
    case None => Err(NotFound)
    case Some(people) =>
      var item := Bumped(i, ctx.now).(assignees := people);
      Ok(Change(item, None, None, ItemValue(item)))
  }

  function BlockChange(ctx: Context, i: Item, blocked: bool): Change {
    var item := Bumped(i, ctx.now).(status := if blocked then Blocked else Working);
    Change(item, None,
           Some(Entry(ctx.id0, if blocked then "item.blocked" else "item.unblocked",
                      if blocked then "blocked" else "unblocked", Some(SelfOf(ctx)), [], item.version, ctx.now, None)),
           ItemValue(item))
  }

  function KindName(k: TransitionKind): string {
    match k
    case Decision => "decision"
    case Approval => "approval"
    case Resolve => "resolve"
  }

  function TransitionedItem(i: Item, kind: TransitionKind, state: string, now: int): Item {
    Bumped(i, now).(
      decisionState := if kind == Decision then Some(state) else i.decisionState,
      approvalState := if kind == Approval then Some(state) else i.approvalState,
      status := if kind == Resolve then Done else i.status)
  }

  function Transitioned(ctx: Context, id: string, i: Item, kind: TransitionKind, state: string,
                        body: Option<string>): Change {
    var item := TransitionedItem(i, kind, state, ctx.now);
    var proof := match NonEmpty(body)
      case Some(b) => Some(NewEvidence(ctx, id, b))
      case None => None;
    Change(item, proof,
           Some(Entry(if proof.Some? then ctx.id1 else ctx.id0, "item." + KindName(kind), KindName(kind) + "_" + state,
                      Some(SelfOf(ctx)), if proof.Some? then [Quote(proof.value.id, proof.value.body)] else [],
                      item.version, ctx.now, None)),
           TransitionValue(item, proof))
  }

  function TransitionChange(ctx: Context, id: string, i: Item, kind: TransitionKind, state: string,
                            body: Option<string>): Result<Change, Error> {
    if kind != Resolve && i.kind != KindName(kind) then Err(NotFound)
    else
      var completion :=
        if kind == Resolve then ReviewForTaskChange(SubjectOf(i), Patch(None, None, None, Some(Done)), ctx.now)
        else Ok(None);
      match completion
      case Err(why) => Err(Constraint(Some(why)))
      case Ok(_) => Ok(Transitioned(ctx, id, i, kind, state, body))
  }

  function ItemChange(env: Env, ctx: Context, id: string, i: Item, op: ItemOp): Result<Change, Error> {
    match op
    case Update(p) => UpdateChange(env, ctx, i, p)
    case ReviewOp(c) => ReviewChange(env, ctx, i, c)
    case AddEvidence(body) => Ok(EvidenceChange(ctx, id, i, body))
    case Assign(ids) => AssignChange(env, ctx, i, ids)
    case SetBlocked(blocked) => Ok(BlockChange(ctx, i, blocked))
    case Transition(kind, state, body) => TransitionChange(ctx, id, i, kind, state, body)
  }

  // ---- The whole store ----

  function Appended<T>(m: map<string, seq<T>>, id: string, more: Option<T>): map<string, seq<T>> {
    match more
    case None => m
    case Some(x) => m[id := (if id in m then m[id] else []) + [x]]
  }

  function ApplyChange(r: Records, id: string, c: Change): Records {
    r.(items := r.items[id := c.item], evidence := Appended(r.evidence, id, c.evidence),
       history := Appended(r.history, id, c.entry))
  }

  function ChangeItemIn(env: Env, r: Records, ctx: Context, id: string, expected: nat, op: ItemOp)
    : Result<(Records, Value), Error>
  {
    if id !in r.items then Err(NotFound)
    else
      var i := r.items[id];
      if !env.can(ctx.access, MayUpdateItem, Some(i.workspaceId)) then Err(Denied)
      else if i.version != expected then Err(VersionConflict(Some(i.version)))
      else
        match ItemChange(env, ctx, id, i, op)
        case Err(e) => Err(e)
        case Ok(c) => Ok((ApplyChange(r, id, c), c.value))
  }

  function CreateItemIn(env: Env, r: Records, ctx: Context, n: NewItem): Result<(Records, Value), Error> {
    if !env.can(ctx.access, MayCreateItem, Some(n.workspaceId)) then Err(Denied)
    else if env.portfolioOf(n.workspaceId).None? || env.boardWorkspace(n.boardId) != Some(n.workspaceId) then
      Err(NotFound)
    else
      match Users(env, n.assigneeIds)
      case None => Err(NotFound)
      case Some(people) =>
        var item := Item(ctx.id0, n.workspaceId, n.boardId, n.title, n.description, n.kind, n.priority, n.status,
                         n.planning, n.dueDate, people, n.decisionState, n.approvalState, None, 0, ctx.now, ctx.now);
        Ok((r.(items := r.items[item.id := item]), ItemValue(item)))
  }

  function CreateWaitingIn(env: Env, r: Records, ctx: Context, expected: nat, n: NewWaiting)
    : Result<(Records, Value), Error>
  {
    if env.portfolioOf(n.workspaceId).None? then Err(NotFound)
    else if !env.can(ctx.access, MayCreateItem, Some(n.workspaceId)) then Err(Denied)
    else if n.entityId !in r.items then Err(NotFound)
    else if r.items[n.entityId].version != expected then Err(VersionConflict(Some(r.items[n.entityId].version)))
    else
      match env.userFor(n.followUpOwnerId)
      case None => Err(NotFound)
      case Some(owner) =>
        var w := Waiting(ctx.id0, n.workspaceId, env.portfolioOf(n.workspaceId).value, n.entityId, n.title, owner,
                         ctx.now, NonEmpty(n.nextFollowUp), NonEmpty(n.note), None, 0);
        Ok((r.(items := r.items[n.entityId := Bumped(r.items[n.entityId], ctx.now)], waiting := r.waiting[w.id := w]),
            WaitingValue(w)))
  }

  function ActedAttention(s: Attention, a: AttentionInput, now: int): Attention {
    s.(resolvedAt := if a.action == ResolveSignal then Some(now) else s.resolvedAt,
       dismissedAt := if a.action == DismissSignal then Some(now) else s.dismissedAt,
       snoozedUntil :=
         if a.action == SnoozeSignal && NonEmpty(a.snoozedUntil).Some? then a.snoozedUntil else s.snoozedUntil,
       actionReason := if NonEmpty(a.reason).Some? then a.reason else s.actionReason,
       version := s.version + 1)
  }

  function ActOnAttentionIn(env: Env, r: Records, ctx: Context, id: string, expected: nat, a: AttentionInput)
    : Result<(Records, Value), Error>
  {
    if id !in r.attention then Err(NotFound)
    else
      var s := r.attention[id];
      if !env.can(ctx.access, MayUpdateItem, NonEmpty(s.workspaceId)) then Err(Denied)
      else if s.version != expected then Err(VersionConflict(Some(s.version)))
      else
        var updated := ActedAttention(s, a, ctx.now);
        Ok((r.(attention := r.attention[id := updated]), AttentionValue(updated)))
  }

  function ActedWaiting(w: Waiting, a: WaitingInput, now: int): Waiting {
    w.(resolvedAt := if a.resolve then Some(now) else w.resolvedAt,
       nextFollowUp := if NonEmpty(a.nextFollowUp).Some? then a.nextFollowUp else w.nextFollowUp,
       note := if NonEmpty(a.note).Some? then a.note else w.note,
       version := w.version + 1)
  }

  function ActOnWaitingIn(env: Env, r: Records, ctx: Context, id: string, expected: nat, a: WaitingInput)
    : Result<(Records, Value), Error>
  {
    if id !in r.waiting then Err(NotFound)
    else
      var w := r.waiting[id];
      if !env.can(ctx.access, MayUpdateItem, Some(w.workspaceId)) then Err(Denied)
      else if w.version != expected then Err(VersionConflict(Some(w.version)))
      else
        var updated := ActedWaiting(w, a, ctx.now);
        Ok((r.(waiting := r.waiting[id := updated]), WaitingValue(updated)))
  }

  function CreateEventIn(env: Env, r: Records, ctx: Context, workspaceId: string, n: EventInput)
    : Result<(Records, Value), Error>
  {
    if !env.can(ctx.access, MayCreateEvent, Some(workspaceId)) then Err(Denied)
    else if env.calendarWorkspace(n.calendarId) != Some(workspaceId) then Err(NotFound)
    else
      var e := Event(ctx.id0, workspaceId, n.calendarId, n.title, n.startAt, n.endAt, n.location, 0, ctx.now, ctx.now);
      Ok((r.(events := r.events[e.id := e]), EventValue(e)))
  }

  function PatchedEvent(e: Event, p: EventPatch, now: int): Event {
    e.(calendarId := p.calendarId.GetOr(e.calendarId), title := p.title.GetOr(e.title),
       startAt := p.startAt.GetOr(e.startAt), endAt := p.endAt.GetOr(e.endAt),
       location := p.location.GetOr(e.location), version := e.version + 1, updatedAt := now)
  }

  function ChangeEventIn(env: Env, r: Records, ctx: Context, id: string, expected: nat, change: Option<EventPatch>)
    : Result<(Records, Value), Error>
  {
    if id !in r.events then Err(NotFound)
    else
      var e := r.events[id];
      if !env.can(ctx.access, MayUpdateEvent, Some(e.workspaceId)) then Err(Denied)
      else if e.version != expected then Err(VersionConflict(None))
      else
        match change
        case Some(p) =>
          var updated := PatchedEvent(e, p, ctx.now);
          Ok((r.(events := r.events[id := updated]), EventValue(updated)))
        case None => Ok((r.(events := r.events - {id}), EventValue(e.(version := e.version + 1))))
  }

  /** What a mutation does when it runs: the new records and its value, or the error it throws. */
  function Mutate(env: Env, r: Records, c: Call): Result<(Records, Value), Error> {
    match c.op
    case CreateItem(n) => CreateItemIn(env, r, c.ctx, n)
    case ChangeItem(id, expected, op) => ChangeItemIn(env, r, c.ctx, id, expected, op)
    case CreateWaiting(expected, n) => CreateWaitingIn(env, r, c.ctx, expected, n)
    case ActOnAttention(id, expected, a) => ActOnAttentionIn(env, r, c.ctx, id, expected, a)
    case ActOnWaiting(id, expected, a) => ActOnWaitingIn(env, r, c.ctx, id, expected, a)
    case CreateEvent(workspaceId, n) => CreateEventIn(env, r, c.ctx, workspaceId, n)
    case UpdateEvent(id, expected, p) => ChangeEventIn(env, r, c.ctx, id, expected, Some(p))
    case DeleteEvent(id, expected) => ChangeEventIn(env, r, c.ctx, id, expected, None)
  }

  // ---- Idempotency ----

  const KEEP_MS := 86_400_000

  datatype Reply = Fresh(value: Value) | Replayed(value: Value) | Failed(error: Error)

  /** The key of the reply map; no key, or an empty one, means no idempotency. */
  function ReplyKey(ctx: Context): Option<string> {
    match NonEmpty(ctx.idempotencyKey)
    case None => None
    case Some(k) => Some(ctx.access.organizationId + ":" + ctx.access.userId + ":" + k)
  }

  predicate SameRequest(s: Stored, ctx: Context) {
    && s.verb == ctx.verb && s.route == ctx.route
    && s.fingerprint == ctx.fingerprint && s.responseStatus == ctx.responseStatus
  }

  function Live(db: Db, ctx: Context): Option<Stored> {
    match ReplyKey(ctx)
    case Some(k) => if k in db.replies && db.replies[k].expiresAt > ctx.now then Some(db.replies[k]) else None
    case None => None
  }

  function Remember(replies: map<string, Stored>, ctx: Context, v: Value): map<string, Stored> {
    match ReplyKey(ctx)
    case None => replies
    case Some(k) => replies[k := Stored(ctx.verb, ctx.route, ctx.fingerprint, ctx.responseStatus, v, ctx.now + KEEP_MS)]
  }

  /** withIdempotency around a mutation. */
  function Handle(env: Env, db: Db, c: Call): (Db, Reply) {
    match Live(db, c.ctx)
    case Some(s) => (db, if SameRequest(s, c.ctx) then Replayed(s.value) else Failed(KeyReused))
    case None =>
      match Mutate(env, db.records, c)
      case Err(e) => (db, Failed(e))
      case Ok((records, v)) => (Db(records, Remember(db.replies, c.ctx, v)), Fresh(v))
  }
}
