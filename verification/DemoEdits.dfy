/** What an edit of the demo store puts where, and what it does to the review of an item. */
module DemoEdits {
  import opened Prelude
  import opened TaskReview
  import opened DemoStore
  import opened DemoRuns
  import opened DemoInvariants

  // ---- The people named by ids ----

  /** The people are those of the ids, in order. */
  ghost predicate PeopleOf(env: Env, ids: seq<string>, people: seq<Person>) {
    |people| == |ids| && forall k :: 0 <= k < |ids| ==> env.userFor(ids[k]) == Some(people[k])
  }

  lemma {:induction false} UsersAre(env: Env, ids: seq<string>)
    ensures Users(env, ids).Some? <==> forall k :: 0 <= k < |ids| ==> env.userFor(ids[k]).Some?
    ensures Users(env, ids).Some? ==> PeopleOf(env, ids, Users(env, ids).value)
  {
    if ids != [] {
      UsersAre(env, ids[1..]);
      assert forall k :: 0 <= k < |ids[1..]| ==> ids[1..][k] == ids[k + 1];
    }
  }

  // ---- Field by field ----

  /** A created item carries its input, starts at version 0 without a review, and is the only thing added. */
  lemma CreatedItemCarriesInput(env: Env, r: Records, ctx: Context, n: NewItem)
    requires CreateItemIn(env, r, ctx, n).Ok?
    ensures var (after, v) := CreateItemIn(env, r, ctx, n).value;
      && v.ItemValue? && after == r.(items := r.items[v.item.id := v.item])
      && var i := v.item;
         && i.id == ctx.id0 && i.workspaceId == n.workspaceId && i.boardId == n.boardId
         && i.title == n.title && i.description == n.description && i.kind == n.kind && i.priority == n.priority
         && i.status == n.status && i.planning == n.planning && i.dueDate == n.dueDate
         && PeopleOf(env, n.assigneeIds, i.assignees)
         && i.decisionState == n.decisionState && i.approvalState == n.approvalState && i.review == None
         && i.version == 0 && i.createdAt == ctx.now && i.updatedAt == ctx.now
  {
    UsersAre(env, n.assigneeIds);
  }

  /** A field the patch gives is the new value's, one it leaves out stays. */
  ghost predicate Patched<T>(given: Option<T>, before: T, after: T) {
    match given
    case Some(x) => after == x
    case None => after == before
  }

  lemma UpdatedItemCarriesPatch(env: Env, r: Records, ctx: Context, id: string, expected: nat, p: ItemPatch)
    requires ChangeItemIn(env, r, ctx, id, expected, Update(p)).Ok?
    ensures var (after, v) := ChangeItemIn(env, r, ctx, id, expected, Update(p)).value;
      && id in r.items && v.ItemValue? && after.items == r.items[id := v.item] && after.evidence == r.evidence
      && var i, n := r.items[id], v.item;
         && Patched(p.review.title, i.title, n.title) && Patched(p.review.description, i.description, n.description)
         && Patched(p.priority, i.priority, n.priority) && Patched(p.dueDate, i.dueDate, n.dueDate)
         && n.planning == (if p.review.planning.Some? then p.review.planning else i.planning)
         && (p.review.status.Some? ==> n.status == p.review.status.value)
         && (p.assigneeIds.None? ==> n.assignees == i.assignees)
         && (p.assigneeIds.Some? ==> PeopleOf(env, p.assigneeIds.value, n.assignees))
         && n.version == i.version + 1 && n.updatedAt == ctx.now
  {
    UsersAre(env, p.assigneeIds.GetOr([]));
  }

  /** Added evidence is the caller's text, last in its item's list; the item moves on by one. */
  lemma AddedEvidenceCarriesInput(env: Env, r: Records, ctx: Context, id: string, expected: nat, body: string)
    requires ChangeItemIn(env, r, ctx, id, expected, AddEvidence(body)).Ok?
    ensures var (after, v) := ChangeItemIn(env, r, ctx, id, expected, AddEvidence(body)).value;
      var e := Evidence(ctx.id0, id, ctx.access.userId, body, ctx.now);
      && id in r.items && v == EvidenceValue(e, r.items[id].version + 1)
      && after.evidence == r.evidence[id := Get(r.evidence, id) + [e]]
      && after.items == r.items[id := r.items[id].(version := r.items[id].version + 1, updatedAt := ctx.now)]
  {
  }

  /** A transition sets the state of its kind, and adds the text as evidence unless there is none or it is empty. */
  lemma TransitionCarriesInput(env: Env, r: Records, ctx: Context, id: string, expected: nat, kind: TransitionKind,
                               state: string, body: Option<string>)
    requires ChangeItemIn(env, r, ctx, id, expected, Transition(kind, state, body)).Ok?
    ensures var (after, v) := ChangeItemIn(env, r, ctx, id, expected, Transition(kind, state, body)).value;
      && id in r.items && v.TransitionValue? && after.items == r.items[id := v.moved]
      && (v.proof == if body in {None, Some("")} then None
                     else Some(Evidence(ctx.id0, id, ctx.access.userId, body.value, ctx.now)))
      && after.evidence ==
           (if v.proof.Some? then r.evidence[id := Get(r.evidence, id) + [v.proof.value]] else r.evidence)
      && var i, n := r.items[id], v.moved;
         && n.decisionState == (if kind == Decision then Some(state) else i.decisionState)
         && n.approvalState == (if kind == Approval then Some(state) else i.approvalState)
         && n.status == (if kind == Resolve then Done else i.status)
         && (kind == Decision ==> i.kind == "decision") && (kind == Approval ==> i.kind == "approval")
         && (kind == Resolve && i.review.Some? ==> i.review.value.state in {Cancelled, Open(Approved)})
  {
  }

  /** A created waiting entry carries its input; empty optional texts are dropped; its item moves on by one. */
  lemma CreatedWaitingCarriesInput(env: Env, r: Records, ctx: Context, expected: nat, n: NewWaiting)
    requires CreateWaitingIn(env, r, ctx, expected, n).Ok?
    ensures var (after, v) := CreateWaitingIn(env, r, ctx, expected, n).value;
      && n.entityId in r.items && v.WaitingValue? && after.waiting == r.waiting[v.waiting.id := v.waiting]
      && after.items == r.items[n.entityId := r.items[n.entityId].(version := expected + 1, updatedAt := ctx.now)]
      && var w := v.waiting;
         && w.id == ctx.id0 && w.workspaceId == n.workspaceId && env.portfolioOf(n.workspaceId) == Some(w.portfolioId)
         && w.entityId == n.entityId && w.title == n.title && env.userFor(n.followUpOwnerId) == Some(w.followUpOwner)
         && w.waitingSince == ctx.now && w.resolvedAt == None && w.version == 0
         && w.nextFollowUp == (if n.nextFollowUp == Some("") then None else n.nextFollowUp)
         && w.note == (if n.note == Some("") then None else n.note)
  {
  }

  /** An action on a signal stamps what it does, and replaces a text only by one that is not empty. */
  lemma ActedSignal(env: Env, r: Records, ctx: Context, id: string, expected: nat, a: AttentionInput)
    requires ActOnAttentionIn(env, r, ctx, id, expected, a).Ok?
    ensures var (after, v) := ActOnAttentionIn(env, r, ctx, id, expected, a).value;
      && id in r.attention && v.AttentionValue? && after == r.(attention := r.attention[id := v.signal])
      && var s, n := r.attention[id], v.signal;
         && n.id == s.id && n.workspaceId == s.workspaceId && n.version == s.version + 1
         && (if a.action == ResolveSignal then n.resolvedAt == Some(ctx.now) else n.resolvedAt == s.resolvedAt)
         && (if a.action == DismissSignal then n.dismissedAt == Some(ctx.now) else n.dismissedAt == s.dismissedAt)
         && (if a.action == SnoozeSignal && a.snoozedUntil !in {None, Some("")} then n.snoozedUntil == a.snoozedUntil
             else n.snoozedUntil == s.snoozedUntil)
         && (if a.reason !in {None, Some("")} then n.actionReason == a.reason else n.actionReason == s.actionReason)
  {
  }

  lemma ActedWaitingEntry(env: Env, r: Records, ctx: Context, id: string, expected: nat, a: WaitingInput)
    requires ActOnWaitingIn(env, r, ctx, id, expected, a).Ok?
    ensures var (after, v) := ActOnWaitingIn(env, r, ctx, id, expected, a).value;
      && id in r.waiting && v.WaitingValue? && after == r.(waiting := r.waiting[id := v.waiting])
      && var w, n := r.waiting[id], v.waiting;
         && n == w.(resolvedAt := n.resolvedAt, nextFollowUp := n.nextFollowUp, note := n.note,
                    version := w.version + 1)
         && (if a.resolve then n.resolvedAt == Some(ctx.now) else n.resolvedAt == w.resolvedAt)
         && (if a.nextFollowUp !in {None, Some("")} then n.nextFollowUp == a.nextFollowUp
             else n.nextFollowUp == w.nextFollowUp)
         && (if a.note !in {None, Some("")} then n.note == a.note else n.note == w.note)
  {
  }

  lemma CreatedEventCarriesInput(env: Env, r: Records, ctx: Context, workspaceId: string, n: EventInput)
    requires CreateEventIn(env, r, ctx, workspaceId, n).Ok?
    ensures var (after, v) := CreateEventIn(env, r, ctx, workspaceId, n).value;
      && v.EventValue? && after == r.(events := r.events[v.event.id := v.event])
      && var e := v.event;
         && e.id == ctx.id0 && e.workspaceId == workspaceId && e.calendarId == n.calendarId && e.title == n.title
         && e.startAt == n.startAt && e.endAt == n.endAt && e.location == n.location
         && e.version == 0 && e.createdAt == ctx.now && e.updatedAt == ctx.now
  {
  }

  lemma UpdatedEventCarriesPatch(env: Env, r: Records, ctx: Context, id: string, expected: nat, p: EventPatch)
    requires ChangeEventIn(env, r, ctx, id, expected, Some(p)).Ok?
    ensures var (after, v) := ChangeEventIn(env, r, ctx, id, expected, Some(p)).value;
      && id in r.events && v.EventValue? && after == r.(events := r.events[id := v.event])
      && var e, n := r.events[id], v.event;
         && n.id == e.id && n.workspaceId == e.workspaceId && n.createdAt == e.createdAt
         && Patched(p.calendarId, e.calendarId, n.calendarId) && Patched(p.title, e.title, n.title)
         && Patched(p.startAt, e.startAt, n.startAt) && Patched(p.endAt, e.endAt, n.endAt)
         && Patched(p.location, e.location, n.location)
         && n.version == e.version + 1 && n.updatedAt == ctx.now
  {
  }

  /** A deleted event is gone, and the answer shows it one version on. */
  lemma DeletedEventReads(env: Env, r: Records, ctx: Context, id: string, expected: nat)
    requires ChangeEventIn(env, r, ctx, id, expected, None).Ok?
    ensures var (after, v) := ChangeEventIn(env, r, ctx, id, expected, None).value;
      && id in r.events && after == r.(events := r.events - {id})
      && v == EventValue(r.events[id].(version := expected + 1))
  {
  }

  // ---- What is refused ----

  /** How a change of an item is refused before it is looked at, in this order. */
  lemma ItemRefusals(env: Env, r: Records, ctx: Context, id: string, expected: nat, op: ItemOp)
    ensures var result := ChangeItemIn(env, r, ctx, id, expected, op);
      if id !in r.items then result == Err(NotFound)
      else if !env.can(ctx.access, MayUpdateItem, Some(r.items[id].workspaceId)) then result == Err(Denied)
      else if r.items[id].version != expected then result == Err(VersionConflict(Some(r.items[id].version)))
      else
        match op
        case AddEvidence(_) => result.Ok?
        case SetBlocked(_) => result.Ok?
        case Assign(ids) =>
          result.Ok? || (result == Err(NotFound) && exists k :: 0 <= k < |ids| && env.userFor(ids[k]).None?)
        case _ => true
  {
    if op.Assign? { UsersAre(env, op.assigneeIds); }
  }

  /** Nothing runs without its permission, and nothing is created outside the workspace of its board, portfolio or
      calendar. */
  lemma AcceptedIsPermitted(env: Env, r: Records, c: Call)
    requires Mutate(env, r, c).Ok?
    ensures match c.op
      case CreateItem(n) =>
        && env.can(c.ctx.access, MayCreateItem, Some(n.workspaceId))
        && env.portfolioOf(n.workspaceId).Some? && env.boardWorkspace(n.boardId) == Some(n.workspaceId)
      case ChangeItem(id, _, _) => id in r.items && env.can(c.ctx.access, MayUpdateItem, Some(r.items[id].workspaceId))
      case CreateWaiting(_, n) =>
        env.can(c.ctx.access, MayCreateItem, Some(n.workspaceId)) && env.portfolioOf(n.workspaceId).Some?
      case ActOnAttention(id, _, _) =>
        id in r.attention && env.can(c.ctx.access, MayUpdateItem,
          if r.attention[id].workspaceId == Some("") then None else r.attention[id].workspaceId)
      case ActOnWaiting(id, _, _) =>
        id in r.waiting && env.can(c.ctx.access, MayUpdateItem, Some(r.waiting[id].workspaceId))
      case CreateEvent(workspaceId, n) =>
        && env.can(c.ctx.access, MayCreateEvent, Some(workspaceId))
        && env.calendarWorkspace(n.calendarId) == Some(workspaceId)
      case UpdateEvent(id, _, _) =>
        id in r.events && env.can(c.ctx.access, MayUpdateEvent, Some(r.events[id].workspaceId))
      case DeleteEvent(id, _) =>
        id in r.events && env.can(c.ctx.access, MayUpdateEvent, Some(r.events[id].workspaceId))
  {
  }

  // ---- Who may do what with a review, and what the history says ----

  /** A review is cancelled only by its requester, an assignee, an owner or an admin; the reviewers of a round are the
      known users of the ids given; the actor is the user, or a stand-in with that id. */
  lemma ReviewActors(env: Env, r: Records, ctx: Context, id: string, expected: nat, c: Command)
    requires ChangeItemIn(env, r, ctx, id, expected, ReviewOp(c)).Ok?
    ensures var (after, v) := ChangeItemIn(env, r, ctx, id, expected, ReviewOp(c)).value;
      && id in r.items && v.ItemValue? && after.items == r.items[id := v.item] && v.item.review.Some?
      && var i, review := r.items[id], v.item.review.value;
         && (c.Cancel? ==>
               || (i.review.Some? && i.review.value.requestedBy.id == ctx.access.userId)
               || (exists k :: 0 <= k < |i.assignees| && i.assignees[k].id == ctx.access.userId)
               || ctx.access.role == "owner" || ctx.access.role == "admin")
         && (c.Request? ==>
               && review.requestedBy == (match env.userFor(ctx.access.userId)
                                         case Some(p) => p
                                         case None => Person(ctx.access.userId, "Demo reviewer"))
               && review.id == ctx.id0 && |review.reviewers| == |c.reviewerIds|
               && forall k :: 0 <= k < |c.reviewerIds| ==>
                    && review.reviewers[k].id == c.reviewerIds[k]
                    && IsUser(env, c.reviewerIds, Person(c.reviewerIds[k], review.reviewers[k].name)))
  {
    if c.Request? {
      var people := KnownUsers(env, c.reviewerIds);
      RequestOpensRound(SubjectOf(r.items[id]), c, ActorOf(env, ctx), ctx.now, ctx.id0, people);
      forall p | p in people ensures IsUser(env, c.reviewerIds, p) { KnownUsersAre(env, c.reviewerIds, p); }
    }
  }

  ghost predicate IsUser(env: Env, ids: seq<string>, p: Person) { exists x :: x in ids && env.userFor(x) == Some(p) }

  lemma {:induction false} KnownUsersAre(env: Env, ids: seq<string>, p: Person)
    ensures p in KnownUsers(env, ids) <==> IsUser(env, ids, p)
  {
    if ids != [] {
      KnownUsersAre(env, ids[1..], p);
      assert forall x :: x in ids <==> x == ids[0] || x in ids[1..];
    }
  }

  /** Who is refused a cancellation. */
  lemma CancelRefusedIff(env: Env, ctx: Context, i: Item, c: Command)
    requires c.Cancel?
    ensures ReviewChange(env, ctx, i, c) == Err(Constraint(None)) <==>
      && (i.review.Some? ==> i.review.value.requestedBy.id != ctx.access.userId)
      && (forall k :: 0 <= k < |i.assignees| ==> i.assignees[k].id != ctx.access.userId)
      && ctx.access.role != "owner" && ctx.access.role != "admin"
  {
  }

  ghost predicate Says(entry: Option<Entry>, kind: string, reasonCode: string) {
    entry.Some? && entry.value.kind == kind && entry.value.reasonCode == reasonCode
  }

  /** The kind and reason of the history entry each change writes; assigning writes none. */
  lemma HistoryReads(env: Env, ctx: Context, id: string, i: Item, op: ItemOp)
    requires ItemChange(env, ctx, id, i, op).Ok?
    ensures var entry := ItemChange(env, ctx, id, i, op).value.entry;
      && (entry.Some? ==> entry.value.occurredAt == ctx.now && entry.value.itemVersion == i.version + 1)
      && match op
         case Update(_) => Says(entry, "item_updated", "item_updated")
         case ReviewOp(Request(_, _, _)) => Says(entry, "item_updated", "review_request")
         case ReviewOp(Respond(_, _, _)) => Says(entry, "item_updated", "review_respond")
         case ReviewOp(Cancel(_, _)) => Says(entry, "item_updated", "review_cancel")
         case AddEvidence(_) => Says(entry, "evidence.added", "evidence_added")
         case Assign(_) => entry == None
         case SetBlocked(true) => Says(entry, "item.blocked", "blocked")
         case SetBlocked(false) => Says(entry, "item.unblocked", "unblocked")
         case Transition(Decision, state, _) => Says(entry, "item.decision", "decision_" + state)
         case Transition(Approval, state, _) => Says(entry, "item.approval", "approval_" + state)
         case Transition(Resolve, state, _) => Says(entry, "item.resolve", "resolve_" + state)
  {
    assert "item." + "decision" == "item.decision" && "decision" + "_" == "decision_";
    assert "item." + "approval" == "item.approval" && "approval" + "_" == "approval_";
    assert "item." + "resolve" == "item.resolve" && "resolve" + "_" == "resolve_";
  }

  // ---- Reviews and the text they are about ----

  ghost predicate SameText(a: Item, b: Item) {
    a.title == b.title && a.description == b.description && a.planning == b.planning
  }

  ghost predicate OpenReview(i: Item) { i.review.Some? && i.review.value.state.Open? }

  /** An accepted update that changes title, description or planning, or reopens finished work, leaves the item with
      no open review; one that keeps the text and does not reopen leaves the review alone; and changed work is
      finished only when it has no review or a cancelled one. */
  lemma UpdateEndsReview(env: Env, r: Records, ctx: Context, id: string, expected: nat, p: ItemPatch)
    requires ChangeItemIn(env, r, ctx, id, expected, Update(p)).Ok?
    ensures id in r.items && id in ChangeItemIn(env, r, ctx, id, expected, Update(p)).value.0.items
    ensures var i, n := r.items[id], ChangeItemIn(env, r, ctx, id, expected, Update(p)).value.0.items[id];
      && (!SameText(i, n) || (i.status == Done && p.review.status.Some? && n.status != Done) ==> !OpenReview(n))
      && (SameText(i, n) && (i.status == Done ==> n.status == Done) ==> n.review == i.review)
      && (!SameText(i, n) && p.review.status == Some(Done) ==> n.review.None? || n.review.value.state == Cancelled)
      && (i.review.Some? && n.review != i.review ==> EndedBy(n.review, i.review, ctx.now))
      && (n.status != i.status && p.review.status.None? ==>
            n.status == Working && i.status in {InReview, Done} && !OpenReview(n))
      && (n.review != i.review && p.review.status.None? && i.status in {InReview, Done} ==> n.status == Working)
  {
    var i := r.items[id];
    if i.review.Some? { RevisionEndsReview(SubjectOf(i), p.review, ctx.now); }
    CompletionAcceptedIff(SubjectOf(i), p.review, ctx.now);
  }

  /** An item whose review is still open after a change either had that review, over the same text, or was just sent
      for it. */
  lemma ChangeKeepsReviewedText(env: Env, ctx: Context, id: string, i: Item, op: ItemOp)
    requires ItemChange(env, ctx, id, i, op).Ok?
    ensures var n := ItemChange(env, ctx, id, i, op).value.item;
      OpenReview(n) ==>
        || (op.ReviewOp? && op.command.Request?)
        || (OpenReview(i) && i.review.value.id == n.review.value.id && SameText(i, n))
  {
    match op
    case Update(p) => if i.review.Some? { RevisionEndsReview(SubjectOf(i), p.review, ctx.now); }
    case ReviewOp(c) =>
      if c.Respond? {
        AnswerDecides(SubjectOf(i), c, ActorOf(env, ctx), ctx.now, ctx.id0, []);
      }
    case _ =>
  }

  lemma ChangeInKeepsReviewedText(env: Env, r: Records, ctx: Context, x: string, expected: nat, op: ItemOp, id: string)
    requires ChangeItemIn(env, r, ctx, x, expected, op).Ok? && id in r.items
    ensures var after := ChangeItemIn(env, r, ctx, x, expected, op).value.0.items;
      id in after &&
      (OpenReview(after[id]) ==>
        || (x == id && op.ReviewOp? && op.command.Request?)
        || (OpenReview(r.items[id]) && r.items[id].review.value.id == after[id].review.value.id
            && SameText(r.items[id], after[id])))
  {
    ChangeKeepsReviewedText(env, ctx, x, r.items[x], op);
  }

  ghost predicate SendsForReview(c: Call, id: string) {
    c.op.ChangeItem? && c.op.id == id && c.op.op.ReviewOp? && c.op.op.command.Request?
  }

  lemma MutateKeepsReviewedText(env: Env, r: Records, c: Call, id: string)
    requires Mutate(env, r, c).Ok? && id in Mutate(env, r, c).value.0.items
    ensures var n := Mutate(env, r, c).value.0.items[id];
      OpenReview(n) ==>
        || SendsForReview(c, id)
        || (id in r.items && OpenReview(r.items[id]) && r.items[id].review.value.id == n.review.value.id
            && SameText(r.items[id], n))
  {
    match c.op
    case ChangeItem(x, expected, op) => ChangeInKeepsReviewedText(env, r, c.ctx, x, expected, op, id);
    case CreateItem(n) => CreatedItem(env, r, c.ctx, n);
    case CreateWaiting(expected, n) => CreatedWaitingCarriesInput(env, r, c.ctx, expected, n);
    case _ =>
      if c.op.ActOnAttention? || c.op.ActOnWaiting? {
        ActionsKeepItems(env, r, c);
      } else {
        EventsKeepItems(env, r, c);
      }
  }

  /** Whatever happens in a run, an open review — an approval included — is about the text as it stands: title,
      description and planning are those the item had when this round was requested. */
  lemma {:induction false} OpenReviewIsAboutCurrentText(env: Env, db: Db, calls: seq<Call>, id: string)
    returns (at: nat)
    requires forall x :: x in db.records.items ==> db.records.items[x].review == None
    requires id in Run(env, db, calls).records.items && OpenReview(Run(env, db, calls).records.items[id])
    ensures at < |calls| && SendsForReview(calls[at], id) && ReplyAt(env, db, calls, at).Fresh?
    ensures var sent, now := Run(env, db, calls[..at + 1]).records.items, Run(env, db, calls).records.items[id];
      id in sent && OpenReview(sent[id]) && sent[id].review.value.id == now.review.value.id && SameText(sent[id], now)
  {
    var n := |calls| - 1;
    assert calls[..n + 1] == calls;
    LastCallKeepsReviewedText(env, db, calls, id);
    if ReplyAt(env, db, calls, n).Fresh? && SendsForReview(calls[n], id) {
      at := n;
    } else {
      at := OpenReviewIsAboutCurrentText(env, db, calls[..n], id);
      assert calls[..n][..at + 1] == calls[..at + 1] && calls[..n][..at] == calls[..at];
    }
  }

  lemma LastCallKeepsReviewedText(env: Env, db: Db, calls: seq<Call>, id: string)
    requires calls != [] && id in Run(env, db, calls).records.items
    requires OpenReview(Run(env, db, calls).records.items[id])
    ensures var n := |calls| - 1;
      var before, now := Run(env, db, calls[..n]).records.items, Run(env, db, calls).records.items[id];
      || (ReplyAt(env, db, calls, n).Fresh? && SendsForReview(calls[n], id))
      || (id in before && OpenReview(before[id]) && before[id].review.value.id == now.review.value.id
          && SameText(before[id], now))
  {
    var n := |calls| - 1;
    assert calls[..n + 1] == calls;
    RunStep(env, db, calls, n);
    var before := Run(env, db, calls[..n]);
    if ReplyAt(env, db, calls, n).Fresh? {
      HandleFresh(env, before, calls[n]);
      MutateKeepsReviewedText(env, before.records, calls[n], id);
    }
  }
}
