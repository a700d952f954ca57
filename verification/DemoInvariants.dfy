/** What every reachable state of the demo store keeps: history, evidence and reviews stay in step. */
module DemoInvariants {
  import opened Prelude
  import opened TaskReview
  import opened DemoStore
  import opened DemoRuns
  import opened DemoVersions

  function Get<T>(m: map<string, seq<T>>, id: string): seq<T> { if id in m then m[id] else [] }

  /** History entries carry strictly rising item versions, within 1 to the item's version. */
  ghost predicate Rising(h: seq<Entry>, version: nat) {
    && (forall i :: 0 <= i < |h| ==> 1 <= h[i].itemVersion <= version)
    && (forall i, k :: 0 <= i < k < |h| ==> h[i].itemVersion < h[k].itemVersion)
  }

  function QuotesIn(h: seq<Entry>): seq<Quote> {
    if h == [] then [] else QuotesIn(h[..|h| - 1]) + h[|h| - 1].evidence
  }

  function QuotesOf(e: seq<Evidence>): seq<Quote> {
    if e == [] then [] else QuotesOf(e[..|e| - 1]) + [Quote(e[|e| - 1].id, e[|e| - 1].body)]
  }

  function LatestReview(h: seq<Entry>): Option<Review> {
    if h == [] then None
    else if h[|h| - 1].review.Some? then h[|h| - 1].review
    else LatestReview(h[..|h| - 1])
  }

  /** How the quotes and the latest review are read off history and evidence. */
  lemma HistoryFolds(h: seq<Entry>, n: Entry, e: seq<Evidence>, x: Evidence)
    ensures QuotesIn([]) == [] && QuotesIn(h + [n]) == QuotesIn(h) + n.evidence
    ensures QuotesOf([]) == [] && QuotesOf(e + [x]) == QuotesOf(e) + [Quote(x.id, x.body)]
    ensures LatestReview([]) == None && LatestReview(h + [n]) == if n.review.Some? then n.review else LatestReview(h)
  {
    assert (h + [n])[..|h|] == h && (e + [x])[..|e|] == e;
  }

  /** One item with its history and evidence. */
  ghost predicate ItemInStep(i: Item, h: seq<Entry>, e: seq<Evidence>) {
    && Rising(h, i.version)
    && QuotesIn(h) == QuotesOf(e)
    && LatestReview(h) == i.review
    && SettledIfDone(i.status, i.review)
  }

  ghost predicate InStep(r: Records) {
    && r.history.Keys <= r.items.Keys && r.evidence.Keys <= r.items.Keys
    && forall id :: id in r.items ==> ItemInStep(r.items[id], Get(r.history, id), Get(r.evidence, id))
  }

  function Grown<T>(s: seq<T>, more: Option<T>): seq<T> { if more.Some? then s + [more.value] else s }

  /** What an item change appends, in the terms of the invariant. */
  ghost predicate Coherent(i: Item, c: Change) {
    && c.item.version == i.version + 1
    && (c.entry.Some? ==> c.entry.value.itemVersion == c.item.version)
    && (match (c.entry, c.evidence)
        case (Some(n), Some(e)) => n.evidence == [Quote(e.id, e.body)]
        case (Some(n), None) => n.evidence == []
        case (None, e) => e == None)
    && c.item.review == (if c.entry.Some? && c.entry.value.review.Some? then c.entry.value.review else i.review)
    && SettledIfDone(c.item.status, c.item.review)
  }

  lemma UpdateCoherent(env: Env, ctx: Context, i: Item, p: ItemPatch)
    requires SettledIfDone(i.status, i.review) && UpdateChange(env, ctx, i, p).Ok?
    ensures Coherent(i, UpdateChange(env, ctx, i, p).value)
  {
    ChangeKeepsSettled(SubjectOf(i), p.review, ctx.now);
  }

  lemma ReviewCoherent(env: Env, ctx: Context, i: Item, c: Command)
    requires SettledIfDone(i.status, i.review) && ReviewChange(env, ctx, i, c).Ok?
    ensures Coherent(i, ReviewChange(env, ctx, i, c).value)
  {
    ApplyKeepsHonest(SubjectOf(i), c, ActorOf(env, ctx), ctx.now, ctx.id0,
                     if c.Request? then KnownUsers(env, c.reviewerIds) else []);
  }

  lemma TransitionCoherent(ctx: Context, id: string, i: Item, kind: TransitionKind, state: string, body: Option<string>)
    requires SettledIfDone(i.status, i.review) && TransitionChange(ctx, id, i, kind, state, body).Ok?
    ensures Coherent(i, TransitionChange(ctx, id, i, kind, state, body).value)
  {
    if kind == Resolve { ChangeKeepsSettled(SubjectOf(i), Patch(None, None, None, Some(Done)), ctx.now); }
  }

  lemma ItemChangeCoherent(env: Env, ctx: Context, id: string, i: Item, op: ItemOp)
    requires SettledIfDone(i.status, i.review) && ItemChange(env, ctx, id, i, op).Ok?
    ensures Coherent(i, ItemChange(env, ctx, id, i, op).value)
  {
    match op
    case Update(p) => UpdateCoherent(env, ctx, i, p);
    case ReviewOp(c) => ReviewCoherent(env, ctx, i, c);
    case Transition(kind, state, body) => TransitionCoherent(ctx, id, i, kind, state, body);
    case _ =>
  }

  lemma ChangeInStep(i: Item, h: seq<Entry>, e: seq<Evidence>, c: Change)
    requires ItemInStep(i, h, e) && Coherent(i, c)
    ensures ItemInStep(c.item, Grown(h, c.entry), Grown(e, c.evidence))
  {
    if c.entry.Some? { assert Grown(h, c.entry)[..|h|] == h; }
    if c.evidence.Some? { assert Grown(e, c.evidence)[..|e|] == e; }
  }

  lemma AppendedGets<T>(m: map<string, seq<T>>, id: string, more: Option<T>, other: string)
    ensures Get(Appended(m, id, more), other) == if other == id then Grown(Get(m, id), more) else Get(m, other)
    ensures Appended(m, id, more).Keys <= m.Keys + {id}
  {
  }

  lemma ApplyChangeInStep(r: Records, id: string, c: Change)
    requires InStep(r) && id in r.items && Coherent(r.items[id], c)
    ensures InStep(ApplyChange(r, id, c))
  {
    var after := ApplyChange(r, id, c);
    AppendedGets(r.history, id, c.entry, id);
    AppendedGets(r.evidence, id, c.evidence, id);
    forall x | x in after.items
      ensures ItemInStep(after.items[x], Get(after.history, x), Get(after.evidence, x))
    {
      AppendedGets(r.history, id, c.entry, x);
      AppendedGets(r.evidence, id, c.evidence, x);
      if x == id { ChangeInStep(r.items[id], Get(r.history, id), Get(r.evidence, id), c); }
    }
  }

  /** Replacing one item by one the invariant accepts with the same history and evidence. */
  lemma ItemReplaced(r: Records, id: string, i: Item)
    requires InStep(r) && ItemInStep(i, Get(r.history, id), Get(r.evidence, id))
    ensures InStep(r.(items := r.items[id := i]))
  {
  }

  lemma SameItemsInStep(r: Records, after: Records)
    requires InStep(r) && SameItems(r, after)
    ensures InStep(after)
  {
  }

  ghost predicate SameItems(r: Records, after: Records) {
    after.items == r.items && after.history == r.history && after.evidence == r.evidence
  }

  lemma ActionsKeepItems(env: Env, r: Records, c: Call)
    requires Mutate(env, r, c).Ok? && (c.op.ActOnAttention? || c.op.ActOnWaiting?)
    ensures SameItems(r, Mutate(env, r, c).value.0)
  {
  }

  lemma EventsKeepItems(env: Env, r: Records, c: Call)
    requires Mutate(env, r, c).Ok? && (c.op.CreateEvent? || c.op.UpdateEvent? || c.op.DeleteEvent?)
    ensures SameItems(r, Mutate(env, r, c).value.0)
  {
  }

  lemma NewItemInStep(r: Records, i: Item)
    requires InStep(r) && i.id !in r.items && i.review == None
    ensures InStep(r.(items := r.items[i.id := i]))
  {
    assert i.id !in r.history && i.id !in r.evidence;
    assert ItemInStep(i, [], []);
    ItemReplaced(r, i.id, i);
  }

  lemma CreatedItem(env: Env, r: Records, ctx: Context, n: NewItem)
    requires CreateItemIn(env, r, ctx, n).Ok?
    ensures var (after, v) := CreateItemIn(env, r, ctx, n).value;
      v.ItemValue? && v.item.id == ctx.id0 && v.item.review == None && after == r.(items := r.items[ctx.id0 := v.item])
  {
  }

  lemma ChangeItemInStep(env: Env, r: Records, ctx: Context, id: string, expected: nat, op: ItemOp)
    requires InStep(r) && ChangeItemIn(env, r, ctx, id, expected, op).Ok?
    ensures InStep(ChangeItemIn(env, r, ctx, id, expected, op).value.0)
  {
    ItemChangeCoherent(env, ctx, id, r.items[id], op);
    ApplyChangeInStep(r, id, ItemChange(env, ctx, id, r.items[id], op).value);
  }

  lemma CreateWaitingInStep(env: Env, r: Records, ctx: Context, expected: nat, n: NewWaiting)
    requires InStep(r) && CreateWaitingIn(env, r, ctx, expected, n).Ok?
    ensures InStep(CreateWaitingIn(env, r, ctx, expected, n).value.0)
  {
    var i := Bumped(r.items[n.entityId], ctx.now);
    assert ItemInStep(r.items[n.entityId], Get(r.history, n.entityId), Get(r.evidence, n.entityId));
    ItemReplaced(r, n.entityId, i);
    SameItemsInStep(r.(items := r.items[n.entityId := i]), CreateWaitingIn(env, r, ctx, expected, n).value.0);
  }

  /** Every mutation keeps history, evidence and reviews in step, given an unused id for a new item. */
  lemma MutateInStep(env: Env, r: Records, c: Call)
    requires InStep(r) && Mutate(env, r, c).Ok?
    requires c.op.CreateItem? ==> c.ctx.id0 !in r.items
    ensures InStep(Mutate(env, r, c).value.0)
  {
    match c.op
    case CreateItem(n) =>
      CreatedItem(env, r, c.ctx, n);
      NewItemInStep(r, CreateItemIn(env, r, c.ctx, n).value.1.item);
    case ChangeItem(id, expected, op) => ChangeItemInStep(env, r, c.ctx, id, expected, op);
    case CreateWaiting(expected, n) => CreateWaitingInStep(env, r, c.ctx, expected, n);
    case _ =>
      if c.op.ActOnAttention? || c.op.ActOnWaiting? {
        ActionsKeepItems(env, r, c);
      } else {
        EventsKeepItems(env, r, c);
      }
      SameItemsInStep(r, Mutate(env, r, c).value.0);
  }

  /** New items get ids no item has when they are created. */
  ghost predicate NewItemIdsUnused(env: Env, db: Db, calls: seq<Call>) {
    forall n :: 0 <= n < |calls| && calls[n].op.CreateItem? ==>
      calls[n].ctx.id0 !in Run(env, db, calls[..n]).records.items
  }

  lemma FreshIdsAreUnused(env: Env, db: Db, calls: seq<Call>)
    requires FreshIds(db.records, calls)
    ensures NewItemIdsUnused(env, db, calls)
  {
    forall n | 0 <= n < |calls| && calls[n].op.CreateItem?
      ensures calls[n].ctx.id0 !in Run(env, db, calls[..n]).records.items
    {
      assert Creates(calls[n]) == Some(ItemT(calls[n].ctx.id0));
      UnbornHasNoHistory(env, db, calls, ItemT(calls[n].ctx.id0), n);
    }
  }

  lemma {:induction false} RunInStep(env: Env, db: Db, calls: seq<Call>)
    requires InStep(db.records) && NewItemIdsUnused(env, db, calls)
    ensures InStep(Run(env, db, calls).records)
  {
    if calls != [] {
      var n := |calls| - 1;
      forall k | 0 <= k < n ensures calls[..n][..k] == calls[..k] {}
      RunInStep(env, db, calls[..n]);
      var before := Run(env, db, calls[..n]);
      if Live(before, calls[n].ctx).None? && Mutate(env, before.records, calls[n]).Ok? {
        MutateInStep(env, before.records, calls[n]);
      }
    }
  }

  /** From the demo fixture — no history, no evidence, no reviews — every run keeps each item's history versions
      strictly rising within its version, the evidence quoted in its history equal to its evidence list, and its
      review equal to the last one its history recorded. */
  lemma HistoryAndEvidenceInStep(env: Env, db: Db, calls: seq<Call>, id: string)
    requires db.records.history == map[] && db.records.evidence == map[]
    requires forall x :: x in db.records.items ==> db.records.items[x].review == None
    requires FreshIds(db.records, calls) && id in Run(env, db, calls).records.items
    ensures var r := Run(env, db, calls).records;
      var h := if id in r.history then r.history[id] else [];
      && (forall i :: 0 <= i < |h| ==> 1 <= h[i].itemVersion <= r.items[id].version)
      && (forall i, k :: 0 <= i < k < |h| ==> h[i].itemVersion < h[k].itemVersion)
      && QuotesIn(Get(r.history, id)) == QuotesOf(Get(r.evidence, id))
      && LatestReview(Get(r.history, id)) == r.items[id].review
  {
    FreshIdsAreUnused(env, db, calls);
    RunInStep(env, db, calls);
  }

  /** And no reviewed task is ever done unless its review was cancelled or every one of its reviewers approved. */
  lemma DoneOnlyWhenReviewed(env: Env, db: Db, calls: seq<Call>, id: string)
    requires db.records.history == map[] && db.records.evidence == map[]
    requires forall x :: x in db.records.items ==> db.records.items[x].review == None
    requires FreshIds(db.records, calls) && id in Run(env, db, calls).records.items
    ensures var i := Run(env, db, calls).records.items[id];
      i.status == Done && i.review.Some? ==>
        || i.review.value.state == Cancelled
        || (i.review.value.reviewers != [] && forall k :: 0 <= k < |i.review.value.reviewers| ==>
              i.review.value.reviewers[k].verdict == Approved)
  {
    FreshIdsAreUnused(env, db, calls);
    RunInStep(env, db, calls);
  }

  // ---- What a change leaves alone ----

  /** Each kind of change touches the fields named here and no other. */
  lemma ChangeTouchesOnly(env: Env, ctx: Context, id: string, i: Item, op: ItemOp)
    requires ItemChange(env, ctx, id, i, op).Ok?
    ensures var n := ItemChange(env, ctx, id, i, op).value.item;
      var kept := n.(version := i.version, updatedAt := i.updatedAt);
      match op
      case AddEvidence(_) => kept == i
      case Assign(ids) => kept.(assignees := i.assignees) == i && |n.assignees| == |ids|
      case SetBlocked(b) => kept.(status := i.status) == i && n.status == if b then Blocked else Working
      case ReviewOp(_) => kept.(review := i.review, status := i.status) == i
      case Transition(Decision, s, _) => kept.(decisionState := i.decisionState) == i && n.decisionState == Some(s)
      case Transition(Approval, s, _) => kept.(approvalState := i.approvalState) == i && n.approvalState == Some(s)
      case Transition(Resolve, _, _) => kept.(status := i.status) == i && n.status == Done
      case Update(p) =>
        && n.decisionState == i.decisionState && n.approvalState == i.approvalState && SameIdentity(i, n)
        && (p.assigneeIds.None? ==> n.assignees == i.assignees)
        && (p.review.status.None? && n.status != i.status ==> n.status == Working && n.review != i.review)
  {
    match op
    case Assign(ids) => UsersLength(env, ids);
    case _ =>
  }

  lemma {:induction false} UsersLength(env: Env, ids: seq<string>)
    ensures Users(env, ids).Some? ==> |Users(env, ids).value| == |ids|
  {
    if ids != [] { UsersLength(env, ids[1..]); }
  }

  ghost predicate SameIdentity(a: Item, b: Item) {
    && a.id == b.id && a.workspaceId == b.workspaceId && a.boardId == b.boardId
    && a.kind == b.kind && a.createdAt == b.createdAt
  }

  /** An item as it was and as it is later. */
  ghost predicate Continues(before: Records, after: Records, id: string) {
    id in before.items ==>
      && id in after.items && SameIdentity(before.items[id], after.items[id])
      && before.items[id].version <= after.items[id].version
  }

  lemma ItemChangeContinues(env: Env, ctx: Context, id: string, i: Item, op: ItemOp)
    requires ItemChange(env, ctx, id, i, op).Ok?
    ensures SameIdentity(i, ItemChange(env, ctx, id, i, op).value.item)
  {
  }

  lemma MutateContinues(env: Env, r: Records, c: Call, id: string)
    requires Mutate(env, r, c).Ok? && (c.op.CreateItem? ==> c.ctx.id0 !in r.items)
    ensures Continues(r, Mutate(env, r, c).value.0, id)
  {
    match c.op
    case ChangeItem(x, expected, op) =>
      ItemChangeContinues(env, c.ctx, x, r.items[x], op);
      ItemChangeBumps(env, c.ctx, x, r.items[x], op);
    case CreateItem(n) => CreatedItem(env, r, c.ctx, n);
    case CreateWaiting(_, _) =>
    case _ =>
      if c.op.ActOnAttention? || c.op.ActOnWaiting? {
        ActionsKeepItems(env, r, c);
      } else {
        EventsKeepItems(env, r, c);
      }
  }

  /** Items never vanish or change identity, and their versions never fall, between any two points of a run. */
  lemma {:induction false} ItemsContinue(env: Env, db: Db, calls: seq<Call>, id: string, i: nat, j: nat)
    requires FreshIds(db.records, calls) && i <= j <= |calls|
    ensures Continues(Run(env, db, calls[..i]).records, Run(env, db, calls[..j]).records, id)
  {
    if i < j {
      ItemsContinue(env, db, calls, id, i, j - 1);
      FreshIdsAreUnused(env, db, calls);
      RunStep(env, db, calls, j - 1);
      var before := Run(env, db, calls[..j - 1]);
      if Live(before, calls[j - 1].ctx).None? && Mutate(env, before.records, calls[j - 1]).Ok? {
        MutateContinues(env, before.records, calls[j - 1], id);
      }
    }
  }
}
