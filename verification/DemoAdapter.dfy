/** The demo adapter's mutators over their shared maps (demo-adapter.ts), each proved against its
    specification in DemoStore. */
module DemoAdapter {
  import opened Prelude
  import opened TaskReview
  import opened DemoStore
  import opened DemoRuns

  /** The method did what the specification says: the new records and value, or an error and no change. */
  ghost predicate Did(before: Records, spec: Result<(Records, Value), Error>, after: Records, r: Result<Value, Error>) {
    match spec
    case Ok((records, v)) => r == Ok(v) && after == records
    case Err(e) => r == Err(e) && after == before
  }

  /** Past the guards, a change of an item is applied as it stands. */
  lemma ChangeApplies(env: Env, r: Records, ctx: Context, id: string, expected: nat, op: ItemOp, c: Change)
    requires id in r.items && env.can(ctx.access, MayUpdateItem, Some(r.items[id].workspaceId))
    requires r.items[id].version == expected && ItemChange(env, ctx, id, r.items[id], op) == Ok(c)
    ensures ChangeItemIn(env, r, ctx, id, expected, op) == Ok((ApplyChange(r, id, c), c.value))
  {
  }

  class Adapter {
    const env: Env
    var itemStore: map<string, Item>
    var evidenceStore: map<string, seq<Evidence>>
    var historyStore: map<string, seq<Entry>>
    var attentionStore: map<string, Attention>
    var waitingStore: map<string, Waiting>
    var calendarEventStore: map<string, Event>
    var idempotencyStore: map<string, Stored>

    function Contents(): Records
      reads this
    {
      Records(itemStore, evidenceStore, historyStore, attentionStore, waitingStore, calendarEventStore)
    }

    function State(): Db
      reads this
    {
      Db(Contents(), idempotencyStore)
    }

    constructor (env: Env, items: map<string, Item>, attention: map<string, Attention>, waiting: map<string, Waiting>)
      ensures this.env == env
      ensures State() == Db(Records(items, map[], map[], attention, waiting, map[]), map[])
    {
      this.env := env;
      itemStore, attentionStore, waitingStore := items, attention, waiting;
      evidenceStore, historyStore, calendarEventStore, idempotencyStore := map[], map[], map[], map[];
    }

    /** The loops over assignee ids. */
    method ResolveUsers(ids: seq<string>) returns (people: Option<seq<Person>>)
      ensures people == Users(env, ids)
    {
      var found: seq<Person> := [];
      var i := 0;
      assert ids[0..] == ids && (Users(env, ids).Some? ==> [] + Users(env, ids).value == Users(env, ids).value);
      while i < |ids|
        invariant i <= |ids|
        invariant Users(env, ids) ==
          (match Users(env, ids[i..])
           case None => None
           case Some(rest) => Some(found + rest))
      {
        assert ids[i..][0] == ids[i] && ids[i..][1..] == ids[i + 1..];
        match env.userFor(ids[i]) {
          case None => return None;
          case Some(p) =>
            ghost var rest := Users(env, ids[i + 1..]);
            assert rest.Some? ==> found + ([p] + rest.value) == (found + [p]) + rest.value;
            found := found + [p];
        }
        i := i + 1;
      }
      assert ids[|ids|..] == [] && found + [] == found;
      people := Some(found);
    }

    method AppendHistory(id: string, entry: Entry)
      modifies this`historyStore
      ensures historyStore == Appended(old(historyStore), id, Some(entry))
    {
      var entries := if id in historyStore then historyStore[id] else [];
      historyStore := historyStore[id := entries + [entry]];
    }

    method AppendEvidence(id: string, evidence: Evidence)
      modifies this`evidenceStore
      ensures evidenceStore == Appended(old(evidenceStore), id, Some(evidence))
    {
      var all := if id in evidenceStore then evidenceStore[id] else [];
      evidenceStore := evidenceStore[id := all + [evidence]];
    }

    /** The lookup, access check and version check every item mutator starts with. */
    method RequireItem(ctx: Context, id: string, expected: nat) returns (r: Result<Item, Error>)
      ensures match r
        case Err(e) => forall op :: ChangeItemIn(env, Contents(), ctx, id, expected, op) == Err(e)
        case Ok(i) =>
          && id in itemStore && i == itemStore[id]
          && env.can(ctx.access, MayUpdateItem, Some(i.workspaceId)) && i.version == expected
    {
      if id !in itemStore { return Err(NotFound); }
      var item := itemStore[id];
      if !env.can(ctx.access, MayUpdateItem, Some(item.workspaceId)) { return Err(Denied); }
      if item.version != expected { return Err(VersionConflict(Some(item.version))); }
      r := Ok(item);
    }

    method CreateItem(ctx: Context, n: NewItem) returns (r: Result<Value, Error>)
      modifies this
      ensures Did(old(Contents()), CreateItemIn(env, old(Contents()), ctx, n), Contents(), r)
      ensures idempotencyStore == old(idempotencyStore)
    {
      if !env.can(ctx.access, MayCreateItem, Some(n.workspaceId)) { return Err(Denied); }
      if env.portfolioOf(n.workspaceId) == None || env.boardWorkspace(n.boardId) != Some(n.workspaceId) {
        return Err(NotFound);
      }
      var people := ResolveUsers(n.assigneeIds);
      if people.None? { return Err(NotFound); }
      var item := Item(ctx.id0, n.workspaceId, n.boardId, n.title, n.description, n.kind, n.priority, n.status,
                       n.planning, n.dueDate, people.value, n.decisionState, n.approvalState, None, 0,
                       ctx.now, ctx.now);
      itemStore := itemStore[item.id := item];
      r := Ok(ItemValue(item));
    }

    method UpdateItem(ctx: Context, id: string, expected: nat, p: ItemPatch) returns (r: Result<Value, Error>)
      modifies this
      ensures Did(old(Contents()), ChangeItemIn(env, old(Contents()), ctx, id, expected, Update(p)), Contents(), r)
      ensures idempotencyStore == old(idempotencyStore)
    {
      var found := RequireItem(ctx, id, expected);
      if found.Err? { return Err(found.error); }
      var existing := found.value;
      var review := ReviewForTaskChange(SubjectOf(existing), p.review, ctx.now);
      if review.Err? { return Err(Constraint(Some(review.error))); }
      var people := ResolveUsers(p.assigneeIds.GetOr([]));
      if people.None? { return Err(NotFound); }
      var updated := ApplyPatch(existing, p, people.value, review.value, ctx.now);
      itemStore := itemStore[id := updated];
      AppendHistory(id, Entry(ctx.id0, "item_updated", "item_updated", env.userFor(ctx.access.userId), [],
                              updated.version, ctx.now, review.value));
      r := Ok(ItemValue(updated));
    }

    /** The field-by-field edit of updateItem. */
    method ApplyPatch(existing: Item, p: ItemPatch, people: seq<Person>, review: Option<Review>, now: int)
      returns (updated: Item)
      ensures updated == PatchedItem(existing, p, people, review, now)
    {
      var assignees, title, description := existing.assignees, existing.title, existing.description;
      var planning, status := existing.planning, existing.status;
      var priority, dueDate := existing.priority, existing.dueDate;
      if p.review.status.Some? { status := p.review.status.value; }
      if review.Some? && review.value.state == Invalidated
         && !(existing.review.Some? && existing.review.value.state == Invalidated)
         && existing.status in {InReview, Done} && p.review.status.None?
      {
        status := Working;
      }
      assert status == StatusAfter(existing, p.review.status, review);
      if p.assigneeIds.Some? { assignees := people; }
      if p.review.title.Some? { title := p.review.title.value; }
      assert title == p.review.title.GetOr(existing.title);
      if p.review.planning.Some? { planning := p.review.planning; }
      if p.review.description.Some? { description := p.review.description.value; }
      assert description == p.review.description.GetOr(existing.description);
      if p.priority.Some? { priority := p.priority.value; }
      assert priority == p.priority.GetOr(existing.priority);
      if p.dueDate.Some? { dueDate := p.dueDate.value; }
      assert dueDate == p.dueDate.GetOr(existing.dueDate);
      updated := existing.(version := existing.version + 1, updatedAt := now, assignees := assignees, title := title,
                           planning := planning, description := description, status := status, priority := priority,
                           dueDate := dueDate, review := if review.Some? then review else existing.review);
    }

    method ReviewTask(ctx: Context, id: string, expected: nat, c: Command) returns (r: Result<Value, Error>)
      modifies this
      ensures Did(old(Contents()), ChangeItemIn(env, old(Contents()), ctx, id, expected, ReviewOp(c)), Contents(), r)
      ensures idempotencyStore == old(idempotencyStore)
    {
      var found := RequireItem(ctx, id, expected);
      if found.Err? { return Err(found.error); }
      var item := found.value;
      if c.Cancel? && !MayCancel(ctx, item) { return Err(Constraint(None)); }
      var actor := ActorOf(env, ctx);
      var people := if c.Request? then KnownUsers(env, c.reviewerIds) else [];
      var applied := ApplyTaskReview(SubjectOf(item), c, actor, ctx.now, ctx.id0, people);
      if applied.Err? { return Err(Constraint(Some(applied.error))); }
      var updated := item.(review := Some(applied.value.review), status := applied.value.status,
                           version := item.version + 1, updatedAt := ctx.now);
      itemStore := itemStore[id := updated];
      AppendHistory(id, Entry(ctx.id1, "item_updated", ReasonOf(c), Some(actor), [], updated.version, ctx.now,
                              updated.review));
      r := Ok(ItemValue(updated));
    }

    method AddItemEvidence(ctx: Context, id: string, expected: nat, body: string) returns (r: Result<Value, Error>)
      modifies this
      ensures Did(old(Contents()), ChangeItemIn(env, old(Contents()), ctx, id, expected, AddEvidence(body)),
                  Contents(), r)
      ensures idempotencyStore == old(idempotencyStore)
    {
      var found := RequireItem(ctx, id, expected);
      if found.Err? { return Err(found.error); }
      var item := found.value;
      var evidence := Evidence(ctx.id0, id, ctx.access.userId, body, ctx.now);
      var version := item.version + 1;
      itemStore := itemStore[id := item.(version := version, updatedAt := ctx.now)];
      AppendEvidence(id, evidence);
      AppendHistory(id, Entry(ctx.id1, "evidence.added", "evidence_added", Some(SelfOf(ctx)),
                              [Quote(evidence.id, evidence.body)], version, ctx.now, None));
      r := Ok(EvidenceValue(evidence, version));
      ChangeApplies(env, old(Contents()), ctx, id, expected, AddEvidence(body), EvidenceChange(ctx, id, item, body));
    }

    method AssignItem(ctx: Context, id: string, expected: nat, ids: seq<string>) returns (r: Result<Value, Error>)
      modifies this
      ensures Did(old(Contents()), ChangeItemIn(env, old(Contents()), ctx, id, expected, Assign(ids)), Contents(), r)
      ensures idempotencyStore == old(idempotencyStore)
    {
      var found := RequireItem(ctx, id, expected);
      if found.Err? { return Err(found.error); }
      var people := ResolveUsers(ids);
      if people.None? { return Err(NotFound); }
      var item := found.value;
      var updated := item.(assignees := people.value, version := item.version + 1, updatedAt := ctx.now);
      itemStore := itemStore[id := updated];
      r := Ok(ItemValue(updated));
    }

    method SetItemBlocked(ctx: Context, id: string, expected: nat, blocked: bool) returns (r: Result<Value, Error>)
      modifies this
      ensures Did(old(Contents()), ChangeItemIn(env, old(Contents()), ctx, id, expected, SetBlocked(blocked)),
                  Contents(), r)
      ensures idempotencyStore == old(idempotencyStore)
    {
      var found := RequireItem(ctx, id, expected);
      if found.Err? { return Err(found.error); }
      var item := found.value;
      var updated := item.(status := if blocked then Blocked else Working, version := item.version + 1,
                           updatedAt := ctx.now);
      itemStore := itemStore[id := updated];
      var kind, reason := "item.unblocked", "unblocked";
      if blocked { kind, reason := "item.blocked", "blocked"; }
      AppendHistory(id, Entry(ctx.id0, kind, reason, Some(SelfOf(ctx)), [], updated.version, ctx.now, None));
      r := Ok(ItemValue(updated));
      ChangeApplies(env, old(Contents()), ctx, id, expected, SetBlocked(blocked), BlockChange(ctx, item, blocked));
    }

    /** transitionDemoItem */
    method TransitionItem(ctx: Context, id: string, expected: nat, kind: TransitionKind, state: string,
                          body: Option<string>)
      returns (r: Result<Value, Error>)
      modifies this
      ensures Did(old(Contents()), ChangeItemIn(env, old(Contents()), ctx, id, expected, Transition(kind, state, body)),
                  Contents(), r)
      ensures idempotencyStore == old(idempotencyStore)
    {
      var found := RequireItem(ctx, id, expected);
      if found.Err? { return Err(found.error); }
      var item := found.value;
      if kind != Resolve && item.kind != KindName(kind) { return Err(NotFound); }
      if kind == Resolve {
        var completion := ReviewForTaskChange(SubjectOf(item), Patch(None, None, None, Some(Done)), ctx.now);
        if completion.Err? { return Err(Constraint(Some(completion.error))); }
      }
      var v := ApplyTransition(ctx, id, item, kind, state, body);
      r := Ok(v);
      ChangeApplies(env, old(Contents()), ctx, id, expected, Transition(kind, state, body),
                    Transitioned(ctx, id, item, kind, state, body));
    }

    /** The writes of an allowed transition. */
    method ApplyTransition(ctx: Context, id: string, item: Item, kind: TransitionKind, state: string,
                           body: Option<string>) returns (v: Value)
      modifies this
      ensures Contents() == ApplyChange(old(Contents()), id, Transitioned(ctx, id, item, kind, state, body))
      ensures v == Transitioned(ctx, id, item, kind, state, body).value
      ensures idempotencyStore == old(idempotencyStore)
    {
      var updated := item.(version := item.version + 1, updatedAt := ctx.now);
      match kind {
        case Decision => updated := updated.(decisionState := Some(state));
        case Approval => updated := updated.(approvalState := Some(state));
        case Resolve => updated := updated.(status := Done);
      }
      assert updated == TransitionedItem(item, kind, state, ctx.now);
      var evidence: Option<Evidence> := None;
      if body.Some? && body.value != "" {
        evidence := Some(Evidence(ctx.id0, id, ctx.access.userId, body.value, ctx.now));
      }
      itemStore := itemStore[id := updated];
      var quotes, entryId := [], ctx.id0;
      if evidence.Some? {
        AppendEvidence(id, evidence.value);
        quotes, entryId := [Quote(evidence.value.id, evidence.value.body)], ctx.id1;
      }
      AppendHistory(id, Entry(entryId, "item." + KindName(kind), KindName(kind) + "_" + state, Some(SelfOf(ctx)),
                              quotes, updated.version, ctx.now, None));
      v := TransitionValue(updated, evidence);
    }

    method CreateWaiting(ctx: Context, expected: nat, n: NewWaiting) returns (r: Result<Value, Error>)
      modifies this
      ensures Did(old(Contents()), CreateWaitingIn(env, old(Contents()), ctx, expected, n), Contents(), r)
      ensures idempotencyStore == old(idempotencyStore)
    {
      var portfolio := env.portfolioOf(n.workspaceId);
      if portfolio.None? { return Err(NotFound); }
      if !env.can(ctx.access, MayCreateItem, Some(n.workspaceId)) { return Err(Denied); }
      if n.entityId !in itemStore { return Err(NotFound); }
      var item := itemStore[n.entityId];
      if item.version != expected { return Err(VersionConflict(Some(item.version))); }
      var owner := env.userFor(n.followUpOwnerId);
      if owner.None? { return Err(NotFound); }
      var waiting := Waiting(ctx.id0, n.workspaceId, portfolio.value, n.entityId, n.title, owner.value, ctx.now,
                             NonEmpty(n.nextFollowUp), NonEmpty(n.note), None, 0);
      itemStore := itemStore[n.entityId := item.(version := item.version + 1, updatedAt := ctx.now)];
      waitingStore := waitingStore[waiting.id := waiting];
      r := Ok(WaitingValue(waiting));
    }

    method ActOnAttention(ctx: Context, id: string, expected: nat, a: AttentionInput) returns (r: Result<Value, Error>)
      modifies this
      ensures Did(old(Contents()), ActOnAttentionIn(env, old(Contents()), ctx, id, expected, a), Contents(), r)
      ensures idempotencyStore == old(idempotencyStore)
    {
      if id !in attentionStore { return Err(NotFound); }
      var signal := attentionStore[id];
      if !env.can(ctx.access, MayUpdateItem, NonEmpty(signal.workspaceId)) { return Err(Denied); }
      if signal.version != expected { return Err(VersionConflict(Some(signal.version))); }
      var updated := signal.(version := signal.version + 1);
      if a.action == ResolveSignal { updated := updated.(resolvedAt := Some(ctx.now)); }
      if a.action == DismissSignal { updated := updated.(dismissedAt := Some(ctx.now)); }
      if a.action == SnoozeSignal && NonEmpty(a.snoozedUntil).Some? {
        updated := updated.(snoozedUntil := a.snoozedUntil);
      }
      if NonEmpty(a.reason).Some? { updated := updated.(actionReason := a.reason); }
      attentionStore := attentionStore[id := updated];
      r := Ok(AttentionValue(updated));
    }

    method ActOnWaiting(ctx: Context, id: string, expected: nat, a: WaitingInput) returns (r: Result<Value, Error>)
      modifies this
      ensures Did(old(Contents()), ActOnWaitingIn(env, old(Contents()), ctx, id, expected, a), Contents(), r)
      ensures idempotencyStore == old(idempotencyStore)
    {
      if id !in waitingStore { return Err(NotFound); }
      var waiting := waitingStore[id];
      if !env.can(ctx.access, MayUpdateItem, Some(waiting.workspaceId)) { return Err(Denied); }
      if waiting.version != expected { return Err(VersionConflict(Some(waiting.version))); }
      var updated := waiting.(version := waiting.version + 1);
      if a.resolve { updated := updated.(resolvedAt := Some(ctx.now)); }
      if NonEmpty(a.nextFollowUp).Some? { updated := updated.(nextFollowUp := a.nextFollowUp); }
      if NonEmpty(a.note).Some? { updated := updated.(note := a.note); }
      waitingStore := waitingStore[id := updated];
      r := Ok(WaitingValue(updated));
    }

    method CreateCalendarEvent(ctx: Context, workspaceId: string, n: EventInput) returns (r: Result<Value, Error>)
      modifies this
      ensures Did(old(Contents()), CreateEventIn(env, old(Contents()), ctx, workspaceId, n), Contents(), r)
      ensures idempotencyStore == old(idempotencyStore)
    {
      if !env.can(ctx.access, MayCreateEvent, Some(workspaceId)) { return Err(Denied); }
      if env.calendarWorkspace(n.calendarId) != Some(workspaceId) { return Err(NotFound); }
      var event := Event(ctx.id0, workspaceId, n.calendarId, n.title, n.startAt, n.endAt, n.location, 0, ctx.now,
                         ctx.now);
      calendarEventStore := calendarEventStore[event.id := event];
      r := Ok(EventValue(event));
    }

    method UpdateCalendarEvent(ctx: Context, id: string, expected: nat, p: EventPatch) returns (r: Result<Value, Error>)
      modifies this
      ensures Did(old(Contents()), ChangeEventIn(env, old(Contents()), ctx, id, expected, Some(p)), Contents(), r)
      ensures idempotencyStore == old(idempotencyStore)
    {
      if id !in calendarEventStore { return Err(NotFound); }
      var existing := calendarEventStore[id];
      if !env.can(ctx.access, MayUpdateEvent, Some(existing.workspaceId)) { return Err(Denied); }
      if existing.version != expected { return Err(VersionConflict(None)); }
      var updated := existing.(version := existing.version + 1, updatedAt := ctx.now);
      if p.calendarId.Some? { updated := updated.(calendarId := p.calendarId.value); }
      if p.title.Some? { updated := updated.(title := p.title.value); }
      if p.startAt.Some? { updated := updated.(startAt := p.startAt.value); }
      if p.endAt.Some? { updated := updated.(endAt := p.endAt.value); }
      if p.location.Some? { updated := updated.(location := p.location.value); }
      calendarEventStore := calendarEventStore[id := updated];
      r := Ok(EventValue(updated));
    }

    method DeleteCalendarEvent(ctx: Context, id: string, expected: nat) returns (r: Result<Value, Error>)
      modifies this
      ensures Did(old(Contents()), ChangeEventIn(env, old(Contents()), ctx, id, expected, None), Contents(), r)
      ensures idempotencyStore == old(idempotencyStore)
    {
      if id !in calendarEventStore { return Err(NotFound); }
      var existing := calendarEventStore[id];
      if !env.can(ctx.access, MayUpdateEvent, Some(existing.workspaceId)) { return Err(Denied); }
      if existing.version != expected { return Err(VersionConflict(None)); }
      calendarEventStore := calendarEventStore - {id};
      r := Ok(EventValue(existing.(version := existing.version + 1)));
    }

    method Dispatch(c: Call) returns (r: Result<Value, Error>)
      modifies this
      ensures Did(old(Contents()), Mutate(env, old(Contents()), c), Contents(), r)
      ensures idempotencyStore == old(idempotencyStore)
    {
      match c.op {
        case CreateItem(n) => r := CreateItem(c.ctx, n);
        case ChangeItem(id, expected, op) =>
          match op {
            case Update(p) => r := UpdateItem(c.ctx, id, expected, p);
            case ReviewOp(command) => r := ReviewTask(c.ctx, id, expected, command);
            case AddEvidence(body) => r := AddItemEvidence(c.ctx, id, expected, body);
            case Assign(ids) => r := AssignItem(c.ctx, id, expected, ids);
            case SetBlocked(blocked) => r := SetItemBlocked(c.ctx, id, expected, blocked);
            case Transition(kind, state, body) => r := TransitionItem(c.ctx, id, expected, kind, state, body);
          }
        case CreateWaiting(expected, n) => r := CreateWaiting(c.ctx, expected, n);
        case ActOnAttention(id, expected, a) => r := ActOnAttention(c.ctx, id, expected, a);
        case ActOnWaiting(id, expected, a) => r := ActOnWaiting(c.ctx, id, expected, a);
        case CreateEvent(workspaceId, n) => r := CreateCalendarEvent(c.ctx, workspaceId, n);
        case UpdateEvent(id, expected, p) => r := UpdateCalendarEvent(c.ctx, id, expected, p);
        case DeleteEvent(id, expected) => r := DeleteCalendarEvent(c.ctx, id, expected);
      }
    }

    /** withIdempotency around the mutator of a call. */
    method WithIdempotency(c: Call) returns (reply: Reply)
      modifies this
      ensures (State(), reply) == Handle(env, old(State()), c)
    {
      var key: Option<string> := None;
      if c.ctx.idempotencyKey.Some? && c.ctx.idempotencyKey.value != "" {
        key := Some(c.ctx.access.organizationId + ":" + c.ctx.access.userId + ":" + c.ctx.idempotencyKey.value);
      }
      assert key == ReplyKey(c.ctx);
      if key.Some? && key.value in idempotencyStore {
        var existing := idempotencyStore[key.value];
        if existing.expiresAt > c.ctx.now {
          if existing.verb != c.ctx.verb || existing.route != c.ctx.route || existing.fingerprint != c.ctx.fingerprint
             || existing.responseStatus != c.ctx.responseStatus
          {
            return Failed(KeyReused);
          }
          return Replayed(existing.value);
        }
      }
      var value := Dispatch(c);
      if value.Err? { return Failed(value.error); }
      if key.Some? {
        idempotencyStore := idempotencyStore[key.value :=
          Stored(c.ctx.verb, c.ctx.route, c.ctx.fingerprint, c.ctx.responseStatus, value.value,
                 c.ctx.now + 86_400_000)];
      }
      reply := Fresh(value.value);
    }
  }

  /** A whole run on the adapter: its state and its answers are those of the specification's run. */
  method ServeAll(adapter: Adapter, calls: seq<Call>) returns (replies: seq<Reply>)
    modifies adapter
    ensures adapter.State() == Run(adapter.env, old(adapter.State()), calls)
    ensures |replies| == |calls|
    ensures forall n :: 0 <= n < |calls| ==> replies[n] == ReplyAt(adapter.env, old(adapter.State()), calls, n)
  {
    replies := [];
    for n := 0 to |calls|
      invariant |replies| == n && adapter.State() == Run(adapter.env, old(adapter.State()), calls[..n])
      invariant forall k :: 0 <= k < n ==> replies[k] == ReplyAt(adapter.env, old(adapter.State()), calls, k)
    {
      RunStep(adapter.env, old(adapter.State()), calls, n);
      var reply := adapter.WithIdempotency(calls[n]);
      replies := replies + [reply];
    }
    assert calls[..|calls|] == calls;
  }
}
