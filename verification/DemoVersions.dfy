/** Optimistic versions over whole runs of the demo store: no update is lost. */
module DemoVersions {
  import opened Prelude
  import opened DemoStore
  import opened DemoRuns

  /** A versioned record of one of the four versioned maps. */
  datatype Target = ItemT(id: string) | AttentionT(id: string) | WaitingT(id: string) | EventT(id: string)

  function VersionOf(r: Records, t: Target): Option<nat> {
    match t
    case ItemT(id) => if id in r.items then Some(r.items[id].version) else None
    case AttentionT(id) => if id in r.attention then Some(r.attention[id].version) else None
    case WaitingT(id) => if id in r.waiting then Some(r.waiting[id].version) else None
    case EventT(id) => if id in r.events then Some(r.events[id].version) else None
  }

  /** The record a mutation is guarded on, with the version its caller expects. */
  function Guard(op: Op): Option<(Target, nat)> {
    match op
    case ChangeItem(id, v, _) => Some((ItemT(id), v))
    case CreateWaiting(v, n) => Some((ItemT(n.entityId), v))
    case ActOnAttention(id, v, _) => Some((AttentionT(id), v))
    case ActOnWaiting(id, v, _) => Some((WaitingT(id), v))
    case UpdateEvent(id, v, _) => Some((EventT(id), v))
    case DeleteEvent(id, v) => Some((EventT(id), v))
    case _ => None
  }

  /** The record a mutation creates under a new id. */
  function Creates(c: Call): Option<Target> {
    match c.op
    case CreateItem(_) => Some(ItemT(c.ctx.id0))
    case CreateWaiting(_, _) => Some(WaitingT(c.ctx.id0))
    case CreateEvent(_, _) => Some(EventT(c.ctx.id0))
    case _ => None
  }

  lemma ItemChangeBumps(env: Env, ctx: Context, id: string, i: Item, op: ItemOp)
    requires ItemChange(env, ctx, id, i, op).Ok?
    ensures ItemChange(env, ctx, id, i, op).value.item.version == i.version + 1
  {
  }

  /** One record's version around an accepted mutation. */
  ghost predicate Bumps(r: Records, after: Records, c: Call, t: Target) {
    if Guard(c.op).Some? && Guard(c.op).value.0 == t then
      && VersionOf(r, t) == Some(Guard(c.op).value.1)
      && VersionOf(after, t) == if c.op.DeleteEvent? then None else Some(Guard(c.op).value.1 + 1)
    else VersionOf(after, t) == if Creates(c) == Some(t) then Some(0) else VersionOf(r, t)
  }

  lemma ChangeItemVersions(env: Env, r: Records, c: Call, t: Target)
    requires c.op.ChangeItem? && Mutate(env, r, c).Ok?
    ensures Bumps(r, Mutate(env, r, c).value.0, c, t)
  {
    var i := r.items[c.op.id];
    ItemChangeBumps(env, c.ctx, c.op.id, i, c.op.op);
    var change := ItemChange(env, c.ctx, c.op.id, i, c.op.op).value;
    assert Mutate(env, r, c).value.0 == ApplyChange(r, c.op.id, change);
  }

  lemma CreationVersions(env: Env, r: Records, c: Call, t: Target)
    requires (c.op.CreateItem? || c.op.CreateWaiting? || c.op.CreateEvent?) && Mutate(env, r, c).Ok?
    ensures Bumps(r, Mutate(env, r, c).value.0, c, t)
  {
    match c.op
    case CreateItem(n) => assert Mutate(env, r, c) == CreateItemIn(env, r, c.ctx, n);
    case CreateWaiting(expected, n) => assert Mutate(env, r, c) == CreateWaitingIn(env, r, c.ctx, expected, n);
    case CreateEvent(w, n) => assert Mutate(env, r, c) == CreateEventIn(env, r, c.ctx, w, n);
  }

  lemma ActionVersions(env: Env, r: Records, c: Call, t: Target)
    requires (c.op.ActOnAttention? || c.op.ActOnWaiting?) && Mutate(env, r, c).Ok?
    ensures Bumps(r, Mutate(env, r, c).value.0, c, t)
  {
  }

  lemma EventVersions(env: Env, r: Records, c: Call, t: Target)
    requires (c.op.UpdateEvent? || c.op.DeleteEvent?) && Mutate(env, r, c).Ok?
    ensures Bumps(r, Mutate(env, r, c).value.0, c, t)
  {
  }

  /** An accepted mutation found the version it expected, moves it on by one, starts what it creates at
      zero, and leaves every other version alone. */
  lemma MutateVersions(env: Env, r: Records, c: Call, t: Target)
    requires Mutate(env, r, c).Ok?
    ensures Bumps(r, Mutate(env, r, c).value.0, c, t)
  {
    match c.op
    case ChangeItem(_, _, _) => ChangeItemVersions(env, r, c, t);
    case CreateItem(_) => CreationVersions(env, r, c, t);
    case CreateWaiting(_, _) => CreationVersions(env, r, c, t);
    case CreateEvent(_, _) => CreationVersions(env, r, c, t);
    case ActOnAttention(_, _, _) => ActionVersions(env, r, c, t);
    case ActOnWaiting(_, _, _) => ActionVersions(env, r, c, t);
    case UpdateEvent(_, _, _) => EventVersions(env, r, c, t);
    case DeleteEvent(_, _) => EventVersions(env, r, c, t);
  }

  /** newId() returns neither the id of a stored record of that kind nor one it returned before. */
  ghost predicate FreshIds(r: Records, calls: seq<Call>) {
    && (forall n :: 0 <= n < |calls| && Creates(calls[n]).Some? ==> VersionOf(r, Creates(calls[n]).value) == None)
    && (forall m, n :: 0 <= m < n < |calls| && Creates(calls[n]).Some? ==> Creates(calls[m]) != Creates(calls[n]))
  }

  /** The expected version of a call, if it is guarded on this record. */
  function Expected(op: Op, t: Target): seq<nat> {
    if Guard(op).Some? && Guard(op).value.0 == t then [Guard(op).value.1] else []
  }

  /** The expected versions of the effective mutations of one record, in order. */
  function Accepted(env: Env, db: Db, calls: seq<Call>, t: Target): seq<nat> {
    if calls == [] then []
    else
      var n := |calls| - 1;
      Accepted(env, db, calls[..n], t) + (if ReplyAt(env, db, calls, n).Fresh? then Expected(calls[n].op, t) else [])
  }

  function UpTo(n: nat): seq<nat> { seq(n, i => i) }

  ghost predicate VersionsTell(env: Env, db: Db, calls: seq<Call>, t: Target) {
    var a, v := Accepted(env, db, calls, t), VersionOf(Run(env, db, calls).records, t);
    a == UpTo(|a|) && (v.Some? ==> v.value == |a|)
  }

  /** The n-th call as one record sees it. */
  ghost predicate StepOf(before: Option<nat>, after: Option<nat>, effective: bool, expected: seq<nat>, created: bool) {
    if !effective then after == before
    else if expected != [] then before == Some(expected[0]) && (after == None || after == Some(expected[0] + 1))
    else after == if created then Some(0) else before
  }

  lemma StepAt(env: Env, db: Db, calls: seq<Call>, n: nat, t: Target)
    requires n < |calls|
    ensures var effective, e := ReplyAt(env, db, calls, n).Fresh?, Expected(calls[n].op, t);
      && StepOf(VersionOf(Run(env, db, calls[..n]).records, t), VersionOf(Run(env, db, calls[..n + 1]).records, t),
                effective, e, Creates(calls[n]) == Some(t))
      && Accepted(env, db, calls[..n + 1], t) == Accepted(env, db, calls[..n], t) + (if effective then e else [])
  {
    RunStep(env, db, calls, n);
    assert calls[..n + 1][..n] == calls[..n];
    var before := Run(env, db, calls[..n]);
    if Live(before, calls[n].ctx).None? && Mutate(env, before.records, calls[n]).Ok? {
      MutateVersions(env, before.records, calls[n], t);
    }
  }

  lemma {:induction false} UnbornHasNoHistory(env: Env, db: Db, calls: seq<Call>, t: Target, n: nat)
    requires n <= |calls| && VersionOf(db.records, t) == None && forall k :: 0 <= k < n ==> Creates(calls[k]) != Some(t)
    ensures VersionOf(Run(env, db, calls[..n]).records, t) == None && Accepted(env, db, calls[..n], t) == []
  {
    if n > 0 {
      UnbornHasNoHistory(env, db, calls, t, n - 1);
      StepAt(env, db, calls, n - 1, t);
    }
  }

  lemma UpToNext(n: nat)
    ensures UpTo(n) + [n] == UpTo(n + 1) && |UpTo(n)| == n
  {
  }

  /** One step keeps the version equal to the number of accepted mutations. */
  lemma StepTells(a: seq<nat>, before: Option<nat>, after: Option<nat>, effective: bool, expected: seq<nat>,
                  created: bool)
    requires a == UpTo(|a|) && (before.Some? ==> before.value == |a|) && |expected| <= 1
    requires StepOf(before, after, effective, expected, created) && (effective && created && expected == [] ==> a == [])
    ensures var a' := a + (if effective then expected else []);
      a' == UpTo(|a'|) && (after.Some? ==> after.value == |a'|)
  {
    UpToNext(|a|);
    assert a + [] == a;
    if effective && expected != [] { assert expected == [|a|]; }
  }

  lemma CallTells(env: Env, db: Db, calls: seq<Call>, t: Target, n: nat)
    requires n < |calls| && VersionsTell(env, db, calls[..n], t)
    requires Creates(calls[n]) == Some(t) ==> Accepted(env, db, calls[..n], t) == []
    ensures VersionsTell(env, db, calls[..n + 1], t)
  {
    StepAt(env, db, calls, n, t);
    StepTells(Accepted(env, db, calls[..n], t),
              VersionOf(Run(env, db, calls[..n]).records, t), VersionOf(Run(env, db, calls[..n + 1]).records, t),
              ReplyAt(env, db, calls, n).Fresh?, Expected(calls[n].op, t), Creates(calls[n]) == Some(t));
  }

  /** For every item, signal, waiting entry and calendar event, in every run from version zero: the expected
      versions of its effective mutations are exactly 0, 1, 2, … in that order, and the version it shows is
      their number. */
  lemma {:induction false} NoLostUpdate(env: Env, db: Db, calls: seq<Call>, t: Target, n: nat)
    requires VersionOf(db.records, t) in {None, Some(0)} && FreshIds(db.records, calls) && n <= |calls|
    ensures VersionsTell(env, db, calls[..n], t)
    ensures var a, v := Accepted(env, db, calls[..n], t), VersionOf(Run(env, db, calls[..n]).records, t);
      (forall i :: 0 <= i < |a| ==> a[i] == i) && (v.Some? ==> v.value == |a|)
  {
    if n > 0 {
      NoLostUpdate(env, db, calls, t, n - 1);
      if Creates(calls[n - 1]) == Some(t) { UnbornHasNoHistory(env, db, calls, t, n - 1); }
      CallTells(env, db, calls, t, n - 1);
    }
  }

  /** Hence no two writers ever succeed on the same version of a record, and they succeed in version order. */
  lemma NoTwoWritersOnOneVersion(env: Env, db: Db, calls: seq<Call>, t: Target, i: nat, j: nat)
    requires VersionOf(db.records, t) in {None, Some(0)} && FreshIds(db.records, calls)
    requires i < j < |calls| && ReplyAt(env, db, calls, i).Fresh? && ReplyAt(env, db, calls, j).Fresh?
    requires Guard(calls[i].op).Some? && Guard(calls[j].op).Some?
    requires Guard(calls[i].op).value.0 == Guard(calls[j].op).value.0 == t
    ensures Guard(calls[i].op).value.1 < Guard(calls[j].op).value.1
  {
    AcceptedAt(env, db, calls, t, i);
    AcceptedAt(env, db, calls, t, j);
    AcceptedGrows(env, db, calls, t, i + 1, j);
  }

  lemma AcceptedAt(env: Env, db: Db, calls: seq<Call>, t: Target, n: nat)
    requires VersionOf(db.records, t) in {None, Some(0)} && FreshIds(db.records, calls)
    requires n < |calls| && ReplyAt(env, db, calls, n).Fresh?
    requires Guard(calls[n].op).Some? && Guard(calls[n].op).value.0 == t
    ensures Guard(calls[n].op).value.1 == |Accepted(env, db, calls[..n], t)|
    ensures |Accepted(env, db, calls[..n + 1], t)| == |Accepted(env, db, calls[..n], t)| + 1
  {
    NoLostUpdate(env, db, calls, t, n);
    StepAt(env, db, calls, n, t);
  }

  lemma AcceptedStep(env: Env, db: Db, calls: seq<Call>, t: Target, n: nat)
    requires n < |calls|
    ensures |Accepted(env, db, calls[..n], t)| <= |Accepted(env, db, calls[..n + 1], t)|
  {
    assert calls[..n + 1][..n] == calls[..n];
  }

  lemma {:induction false} AcceptedGrows(env: Env, db: Db, calls: seq<Call>, t: Target, i: nat, j: nat)
    requires i <= j <= |calls|
    ensures |Accepted(env, db, calls[..i], t)| <= |Accepted(env, db, calls[..j], t)|
    decreases j - i
  {
    if i < j {
      AcceptedStep(env, db, calls, t, i);
      AcceptedGrows(env, db, calls, t, i + 1, j);
    }
  }
}
