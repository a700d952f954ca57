/** Whole runs of the demo store: retries, versions, history, evidence and reviews. */
module DemoRuns {
  import opened Prelude
  import opened JsText
  import opened DemoStore

  function Run(env: Env, db: Db, calls: seq<Call>): Db {
    if calls == [] then db
    else Handle(env, Run(env, db, calls[..|calls| - 1]), calls[|calls| - 1]).0
  }

  /** The answer to the n-th call of a run. */
  function ReplyAt(env: Env, db: Db, calls: seq<Call>, n: nat): Reply
    requires n < |calls|
  {
    Handle(env, Run(env, db, calls[..n]), calls[n]).1
  }

  lemma RunStep(env: Env, db: Db, calls: seq<Call>, n: nat)
    requires n < |calls|
    ensures Handle(env, Run(env, db, calls[..n]), calls[n])
      == (Run(env, db, calls[..n + 1]), ReplyAt(env, db, calls, n))
  {
    assert calls[..n + 1][..n] == calls[..n];
  }

  // ---- Retry refinement ----

  /** The calls that took effect: answered freshly, neither replayed, refused nor failed. */
  function Effective(env: Env, db: Db, calls: seq<Call>): seq<Call> {
    if calls == [] then []
    else
      var n := |calls| - 1;
      Effective(env, db, calls[..n]) + (if ReplyAt(env, db, calls, n).Fresh? then [calls[n]] else [])
  }

  function Values(env: Env, db: Db, calls: seq<Call>): seq<Value> {
    if calls == [] then []
    else
      var n := |calls| - 1;
      var reply := ReplyAt(env, db, calls, n);
      Values(env, db, calls[..n]) + (if reply.Fresh? then [reply.value] else [])
  }

  /** Running mutations one after the other with no idempotency at all; None once one of them throws. */
  function Plain(env: Env, r: Records, calls: seq<Call>): Option<(Records, seq<Value>)> {
    if calls == [] then Some((r, []))
    else
      match Plain(env, r, calls[..|calls| - 1])
      case None => None
      case Some((before, values)) =>
        match Mutate(env, before, calls[|calls| - 1])
        case Err(_) => None
        case Ok((after, v)) => Some((after, values + [v]))
  }

  lemma PlainAppend(env: Env, r: Records, calls: seq<Call>, c: Call, before: Records, values: seq<Value>)
    requires Plain(env, r, calls) == Some((before, values)) && Mutate(env, before, c).Ok?
    ensures Plain(env, r, calls + [c])
      == Some((Mutate(env, before, c).value.0, values + [Mutate(env, before, c).value.1]))
  {
    assert (calls + [c])[..|calls|] == calls;
  }

  lemma HandleFresh(env: Env, db: Db, c: Call)
    requires Handle(env, db, c).1.Fresh?
    ensures Mutate(env, db.records, c) == Ok((Handle(env, db, c).0.records, Handle(env, db, c).1.value))
  {
  }

  /** However retries, key reuse and failures are mixed in, the records and the values handed out are those
      of running just the effective calls, plainly and without failure. */
  lemma {:induction false} RetryRefinement(env: Env, db: Db, calls: seq<Call>)
    ensures Plain(env, db.records, Effective(env, db, calls))
      == Some((Run(env, db, calls).records, Values(env, db, calls)))
  {
    if calls != [] {
      var n := |calls| - 1;
      RetryRefinement(env, db, calls[..n]);
      var kept := Effective(env, db, calls[..n]);
      if ReplyAt(env, db, calls, n).Fresh? {
        HandleFresh(env, Run(env, db, calls[..n]), calls[n]);
        PlainAppend(env, db.records, kept, calls[n], Run(env, db, calls[..n]).records, Values(env, db, calls[..n]));
      } else {
        assert Effective(env, db, calls) == kept && Values(env, db, calls) == Values(env, db, calls[..n]);
      }
    }
  }

  /** Dropping the calls without effect changes nothing, the remembered replies included. */
  lemma {:induction false} OnlyEffectiveCallsMatter(env: Env, db: Db, calls: seq<Call>)
    ensures Run(env, db, Effective(env, db, calls)) == Run(env, db, calls)
  {
    if calls != [] {
      var n := |calls| - 1;
      OnlyEffectiveCallsMatter(env, db, calls[..n]);
      var kept := Effective(env, db, calls[..n]);
      if ReplyAt(env, db, calls, n).Fresh? {
        assert (kept + [calls[n]])[..|kept|] == kept;
      } else {
        assert Effective(env, db, calls) == kept;
      }
    }
  }

  // ---- Calls without a key ----

  /** A call without a key, or with an empty one, just runs, and leaves the remembered replies alone. */
  lemma KeylessJustRuns(env: Env, db: Db, c: Call)
    requires c.ctx.idempotencyKey in {None, Some("")}
    ensures Handle(env, db, c) ==
      match Mutate(env, db.records, c)
      case Ok((records, v)) => (Db(records, db.replies), Fresh(v))
      case Err(e) => (db, Failed(e))
  {
  }

  // ---- Live keys ----

  predicate Keyed(ctx: Context) { ctx.idempotencyKey.Some? && ctx.idempotencyKey.value != "" }

  /** Two calls with a key whose joined organization, user and key read the same. */
  predicate SharesKey(a: Context, b: Context) {
    && Keyed(a) && Keyed(b)
    && a.access.organizationId + ":" + a.access.userId + ":" + a.idempotencyKey.value
       == b.access.organizationId + ":" + b.access.userId + ":" + b.idempotencyKey.value
  }

  lemma SharesKeyIff(a: Context, b: Context)
    ensures ReplyKey(a).Some? <==> Keyed(a)
    ensures SharesKey(a, b) <==> ReplyKey(a).Some? && ReplyKey(b) == ReplyKey(a)
  {
  }

  predicate SameCall(a: Context, b: Context) {
    a.verb == b.verb && a.route == b.route && a.fingerprint == b.fingerprint && a.responseStatus == b.responseStatus
  }

  function Recorded(ctx: Context, v: Value): Stored {
    Stored(ctx.verb, ctx.route, ctx.fingerprint, ctx.responseStatus, v, ctx.now + KEEP_MS)
  }

  /** One call's effect on the record of one key. */
  lemma HandleRecord(env: Env, db: Db, c: Call, k: string)
    ensures var (db', reply) := Handle(env, db, c);
      if reply.Fresh? && ReplyKey(c.ctx) == Some(k)
      then k in db'.replies && db'.replies[k] == Recorded(c.ctx, reply.value)
           && (k in db.replies ==> db.replies[k].expiresAt <= c.ctx.now)
      else (k in db'.replies <==> k in db.replies) && (k in db.replies ==> db'.replies[k] == db.replies[k])
  {
  }

  lemma RecordStays(env: Env, db: Db, calls: seq<Call>, i: nat, m: nat)
    requires i < m <= |calls| && ReplyAt(env, db, calls, i).Fresh? && ReplyKey(calls[i].ctx).Some?
    requires forall x :: i < x < m && ReplyKey(calls[x].ctx) == ReplyKey(calls[i].ctx) ==>
      calls[x].ctx.now < calls[i].ctx.now + KEEP_MS
    ensures var k, db' := ReplyKey(calls[i].ctx).value, Run(env, db, calls[..m]);
      k in db'.replies && db'.replies[k] == Recorded(calls[i].ctx, ReplyAt(env, db, calls, i).value)
  {
    RunStep(env, db, calls, i);
    var k, s := ReplyKey(calls[i].ctx).value, Recorded(calls[i].ctx, ReplyAt(env, db, calls, i).value);
    FreshIsRecorded(env, Run(env, db, calls[..i]), calls[i], k);
    RecordKept(env, db, calls, i + 1, m, k, s);
  }

  lemma {:induction false} RecordKept(env: Env, db: Db, calls: seq<Call>, from: nat, m: nat, k: string, s: Stored)
    requires from <= m <= |calls|
    requires var replies := Run(env, db, calls[..from]).replies; k in replies && replies[k] == s
    requires forall x :: from <= x < m && ReplyKey(calls[x].ctx) == Some(k) ==> calls[x].ctx.now < s.expiresAt
    ensures var replies := Run(env, db, calls[..m]).replies; k in replies && replies[k] == s
  {
    if from < m {
      RecordKept(env, db, calls, from, m - 1, k, s);
      RunStep(env, db, calls, m - 1);
      LiveRecordKept(env, Run(env, db, calls[..m - 1]), calls[m - 1], k, s);
    }
  }

  lemma FreshIsRecorded(env: Env, db: Db, c: Call, k: string)
    requires Handle(env, db, c).1.Fresh? && ReplyKey(c.ctx) == Some(k)
    ensures var (db', reply) := Handle(env, db, c); k in db'.replies && db'.replies[k] == Recorded(c.ctx, reply.value)
  {
    HandleRecord(env, db, c, k);
  }

  lemma LiveRecordKept(env: Env, db: Db, c: Call, k: string, s: Stored)
    requires k in db.replies && db.replies[k] == s && (ReplyKey(c.ctx) == Some(k) ==> c.ctx.now < s.expiresAt)
    ensures var db' := Handle(env, db, c).0; k in db'.replies && db'.replies[k] == s
  {
    HandleRecord(env, db, c, k);
  }

  /** While a record is live — every use of its key stamped less than 86,400,000 ms after the success, as any
      non-decreasing clock gives until it expires — the same request gets the first value again and every
      other request is refused. */
  lemma ReplayWhileLive(env: Env, db: Db, calls: seq<Call>, i: nat, j: nat)
    requires i < j < |calls| && ReplyAt(env, db, calls, i).Fresh? && SharesKey(calls[i].ctx, calls[j].ctx)
    requires forall x :: i < x <= j && SharesKey(calls[i].ctx, calls[x].ctx) ==>
      calls[x].ctx.now < calls[i].ctx.now + 86_400_000
    ensures ReplyAt(env, db, calls, j) ==
      if SameCall(calls[i].ctx, calls[j].ctx) then Replayed(ReplyAt(env, db, calls, i).value) else Failed(KeyReused)
  {
    forall x | 0 <= x < |calls|
      ensures SharesKey(calls[i].ctx, calls[x].ctx) <==>
        ReplyKey(calls[i].ctx).Some? && ReplyKey(calls[x].ctx) == ReplyKey(calls[i].ctx)
    {
      SharesKeyIff(calls[i].ctx, calls[x].ctx);
    }
    RecordStays(env, db, calls, i, j);
  }

  /** Conversely, in a run from no remembered replies, every replay and every refusal goes back to a success
      under the same key, still live. */
  lemma {:induction false} ReplayHasOrigin(env: Env, db: Db, calls: seq<Call>, j: nat) returns (i: nat)
    requires j < |calls| && db.replies == map[]
    requires var r := ReplyAt(env, db, calls, j); r.Replayed? || r == Failed(KeyReused)
    ensures i < j && ReplyAt(env, db, calls, i).Fresh?
    ensures SharesKey(calls[i].ctx, calls[j].ctx) && calls[j].ctx.now < calls[i].ctx.now + 86_400_000
    ensures ReplyAt(env, db, calls, j) ==
      if SameCall(calls[i].ctx, calls[j].ctx) then Replayed(ReplyAt(env, db, calls, i).value) else Failed(KeyReused)
  {
    NeverKeyReused(env, Run(env, db, calls[..j]).records, calls[j]);
    i := OriginOf(env, db, calls, j, ReplyKey(calls[j].ctx).value);
    SharesKeyIff(calls[i].ctx, calls[j].ctx);
  }

  lemma NeverKeyReused(env: Env, r: Records, c: Call)
    ensures Mutate(env, r, c) != Err(KeyReused)
  {
  }

  lemma {:induction false} OriginOf(env: Env, db: Db, calls: seq<Call>, m: nat, k: string) returns (i: nat)
    requires m <= |calls| && db.replies == map[] && k in Run(env, db, calls[..m]).replies
    ensures i < m && ReplyAt(env, db, calls, i).Fresh? && ReplyKey(calls[i].ctx) == Some(k)
    ensures Run(env, db, calls[..m]).replies[k] == Recorded(calls[i].ctx, ReplyAt(env, db, calls, i).value)
  {
    RunStep(env, db, calls, m - 1);
    HandleRecord(env, Run(env, db, calls[..m - 1]), calls[m - 1], k);
    if ReplyAt(env, db, calls, m - 1).Fresh? && ReplyKey(calls[m - 1].ctx) == Some(k) {
      i := m - 1;
    } else {
      i := OriginOf(env, db, calls, m - 1, k);
    }
  }

  /** As long as organization and user ids hold no colon, two calls share a key exactly when one caller gave the
      same key, not empty, in both. */
  lemma ReplyKeyIsPerCaller(a: Context, b: Context)
    requires ':' !in a.access.organizationId && ':' !in b.access.organizationId
    requires ':' !in a.access.userId && ':' !in b.access.userId
    ensures SharesKey(a, b) <==>
      && Keyed(a) && a.idempotencyKey == b.idempotencyKey
      && a.access.organizationId == b.access.organizationId && a.access.userId == b.access.userId
  {
    if SharesKey(a, b) {
      var ka, kb := a.idempotencyKey.value, b.idempotencyKey.value;
      var ta, tb := a.access.userId + ":" + ka, b.access.userId + ":" + kb;
      assert a.access.organizationId + ":" + a.access.userId + ":" + ka == a.access.organizationId + ":" + ta;
      assert b.access.organizationId + ":" + b.access.userId + ":" + kb == b.access.organizationId + ":" + tb;
      JoinInjective(a.access.organizationId, ta, b.access.organizationId, tb);
      JoinInjective(a.access.userId, ka, b.access.userId, kb);
    }
  }
}
