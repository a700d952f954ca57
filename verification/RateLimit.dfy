/** The per-process request limiter and the policy table that feeds it (operations.ts). */
module RateLimit {
  import opened Prelude
  import opened JsText

  const MINUTE := 60_000

  datatype Policy = Policy(bucket: string, limit: nat, windowMs: nat)

  /** rateLimitPolicy */
  function RateLimitPolicy(verb: string, path: string): Option<Policy> {
    if verb == "OPTIONS" || path == "/api/v1/health" || path == "/api/v1/readyz" || path == "/openapi.json" then None
    else if "/api/superadmin/auth/" <= path then
      if verb == "GET" then Some(Policy("superadmin-auth-read", 60, MINUTE))
      else Some(Policy("superadmin-auth-sensitive", 10, 15 * MINUTE))
    else if "/api/superadmin/" <= path then
      if verb == "GET" then Some(Policy("superadmin-read", 120, MINUTE))
      else Some(Policy("superadmin-mutation", 30, MINUTE))
    else if path == "/api/auth/profile" && verb == "POST" then Some(Policy("profile-mutation", 20, MINUTE))
    else if "/api/auth/" <= path then
      if verb == "GET" then Some(Policy("auth-read", 120, MINUTE))
      else Some(Policy("auth-sensitive", 10, 15 * MINUTE))
    else if "/api/v1/" <= path then
      if verb in {"POST", "PUT", "PATCH", "DELETE"} then Some(Policy("api-mutation", 120, MINUTE))
      else Some(Policy("api-read", 600, MINUTE))
    else None
  }

  // Which policy a request falls under, by its verb and the start of its path.

  lemma ApiPolicy(verb: string, rest: string)
    requires verb != "OPTIONS" && rest != "health" && rest != "readyz"
    ensures RateLimitPolicy(verb, "/api/v1/" + rest) == Some(
      if verb in {"POST", "PUT", "PATCH", "DELETE"} then Policy("api-mutation", 120, 60_000)
      else Policy("api-read", 600, 60_000))
  {
    var path := "/api/v1/" + rest;
    assert path[8..] == rest && path[..8] == "/api/v1/" && path[5] == 'v' && path[1] == 'a';
    assert "/api/v1/health"[8..] == "health" && "/api/v1/readyz"[8..] == "readyz" && "/openapi.json"[1] == 'o';
    assert "/api/superadmin/auth/"[5] == 's' && "/api/superadmin/"[5] == 's';
    assert "/api/auth/profile"[5] == 'a' && "/api/auth/"[5] == 'a';
  }

  lemma SuperadminAuthPolicy(verb: string, rest: string)
    requires verb != "OPTIONS"
    ensures RateLimitPolicy(verb, "/api/superadmin/auth/" + rest) == Some(
      if verb == "GET" then Policy("superadmin-auth-read", 60, 60_000)
      else Policy("superadmin-auth-sensitive", 10, 900_000))
  {
    var path := "/api/superadmin/auth/" + rest;
    assert path[5] == 's' && path[1] == 'a' && "/openapi.json"[1] == 'o';
    assert "/api/v1/health"[5] == 'v' && "/api/v1/readyz"[5] == 'v';
  }

  lemma SuperadminPolicy(verb: string, rest: string)
    requires verb != "OPTIONS" && !("auth/" <= rest)
    ensures RateLimitPolicy(verb, "/api/superadmin/" + rest) == Some(
      if verb == "GET" then Policy("superadmin-read", 120, 60_000) else Policy("superadmin-mutation", 30, 60_000))
  {
    var path := "/api/superadmin/" + rest;
    assert path[5] == 's' && path[1] == 'a' && path[16..] == rest && "/openapi.json"[1] == 'o';
    assert "/api/v1/health"[5] == 'v' && "/api/v1/readyz"[5] == 'v';
    assert "/api/superadmin/auth/"[16..] == "auth/";
  }

  lemma AuthPolicy(verb: string, rest: string)
    requires verb != "OPTIONS"
    ensures RateLimitPolicy(verb, "/api/auth/" + rest) == Some(
      if rest == "profile" && verb == "POST" then Policy("profile-mutation", 20, 60_000)
      else if verb == "GET" then Policy("auth-read", 120, 60_000)
      else Policy("auth-sensitive", 10, 900_000))
  {
    var path := "/api/auth/" + rest;
    assert path[5] == 'a' && path[1] == 'a' && path[10..] == rest && "/openapi.json"[1] == 'o';
    assert "/api/v1/health"[5] == 'v' && "/api/v1/readyz"[5] == 'v';
    assert "/api/superadmin/auth/"[5] == 's' && "/api/superadmin/"[5] == 's' && "/api/auth/profile"[10..] == "profile";
    if rest == "profile" { assert path == "/api/auth/profile"; }
  }

  /** And which fall under none. */
  lemma NoPolicy(verb: string, path: string)
    requires verb == "OPTIONS" || path in {"/api/v1/health", "/api/v1/readyz", "/openapi.json"}
      || !("/api/superadmin/" <= path || "/api/auth/" <= path || "/api/v1/" <= path)
    ensures RateLimitPolicy(verb, path) == None
  {
    if "/api/superadmin/auth/" <= path {
      assert path[..16] == "/api/superadmin/auth/"[..16] == "/api/superadmin/";
    }
    if path == "/api/auth/profile" {
      assert path[..10] == "/api/auth/";
    }
  }

  /** The policy table, looked up by the length of the bucket name. */
  function TableEntry(n: nat): Policy {
    if n == 20 then Policy("superadmin-auth-read", 60, MINUTE)
    else if n == 25 then Policy("superadmin-auth-sensitive", 10, 15 * MINUTE)
    else if n == 15 then Policy("superadmin-read", 120, MINUTE)
    else if n == 19 then Policy("superadmin-mutation", 30, MINUTE)
    else if n == 16 then Policy("profile-mutation", 20, MINUTE)
    else if n == 9 then Policy("auth-read", 120, MINUTE)
    else if n == 14 then Policy("auth-sensitive", 10, 15 * MINUTE)
    else if n == 12 then Policy("api-mutation", 120, MINUTE)
    else Policy("api-read", 600, MINUTE)
  }

  lemma PolicyIsTableEntry(verb: string, path: string)
    requires RateLimitPolicy(verb, path).Some?
    ensures var p := RateLimitPolicy(verb, path).value; p == TableEntry(|p.bucket|)
  {
    assert |"superadmin-auth-read"| == 20 && |"superadmin-auth-sensitive"| == 25 && |"superadmin-read"| == 15;
    assert |"superadmin-mutation"| == 19 && |"profile-mutation"| == 16 && |"auth-read"| == 9;
    assert |"auth-sensitive"| == 14 && |"api-mutation"| == 12 && |"api-read"| == 8;
  }

  lemma AdminNamesHaveNoColon()
    ensures ':' !in "superadmin-auth-read" && ':' !in "superadmin-auth-sensitive"
    ensures ':' !in "superadmin-read" && ':' !in "superadmin-mutation"
  {
  }

  lemma NamesHaveNoColon()
    ensures ':' !in "profile-mutation" && ':' !in "auth-read" && ':' !in "auth-sensitive"
    ensures ':' !in "api-mutation" && ':' !in "api-read"
  {
  }

  lemma TableEntrySound(n: nat)
    ensures var p := TableEntry(n); ':' !in p.bucket && p.limit > 0 && p.windowMs >= MINUTE
  {
    AdminNamesHaveNoColon();
    NamesHaveNoColon();
  }

  /** One bucket has one limit and one window, and no bucket name contains a colon. */
  lemma PolicyFixedPerBucket(p: Policy, p': Policy, verb: string, path: string, verb': string, path': string)
    requires RateLimitPolicy(verb, path) == Some(p) && RateLimitPolicy(verb', path') == Some(p')
    ensures p.bucket == p'.bucket ==> p == p'
    ensures ':' !in p.bucket && p.limit > 0 && p.windowMs >= MINUTE
  {
    PolicyIsTableEntry(verb, path);
    PolicyIsTableEntry(verb', path');
    TableEntrySound(|p.bucket|);
  }

  // ---- The store ----

  datatype Input = Input(bucket: string, key: string, limit: nat, windowMs: nat, now: int) {
    /** The joined key of the `windows` map. */
    function Id(): string { bucket + ":" + key }
  }

  datatype Window = Window(count: nat, resetAtMs: int)

  datatype Decision = Decision(allowed: bool, limit: nat, remaining: nat, resetAt: int)

  /** What one request does to the window stored under its own key. */
  function Count(stored: Option<Window>, i: Input): Window {
    if stored.None? || stored.value.resetAtMs <= i.now then Window(1, i.now + i.windowMs)
    else Window(stored.value.count + 1, stored.value.resetAtMs)
  }

  function Decide(w: Window, i: Input): Decision {
    Decision(w.count <= i.limit, i.limit, Max(0, i.limit - w.count), w.resetAtMs)
  }

  function Lookup(windows: map<string, Window>, id: string): Option<Window> {
    if id in windows then Some(windows[id]) else None
  }

  class MemoryRateLimitStore {
    var windows: map<string, Window>

    constructor ()
      ensures windows == map[]
    {
      windows := map[];
    }

    method Consume(i: Input) returns (d: Decision)
      modifies this
      ensures windows == old(windows)[i.Id() := Count(Lookup(old(windows), i.Id()), i)]
      ensures d == Decide(Count(Lookup(old(windows), i.Id()), i), i)
    {
      var id := i.bucket + ":" + i.key;
      var window;
      if id !in windows || windows[id].resetAtMs <= i.now {
        window := Window(0, i.now + i.windowMs);
      } else {
        window := windows[id];
      }
      window := window.(count := window.count + 1);
      windows := windows[id := window];
      var remaining := if i.limit >= window.count then i.limit - window.count else 0;
      d := Decision(window.count <= i.limit, i.limit, remaining, window.resetAtMs);
    }
  }

  // ---- Runs of the store ----

  function Windows(inputs: seq<Input>): map<string, Window>
  {
    if inputs == [] then map[]
    else
      var before := Windows(inputs[..|inputs| - 1]);
      var i := inputs[|inputs| - 1];
      before[i.Id() := Count(Lookup(before, i.Id()), i)]
  }

  /** The decision on the n-th request of a run. */
  function DecisionAt(inputs: seq<Input>, n: nat): Decision
    requires n < |inputs|
  {
    Decide(Windows(inputs[..n + 1])[inputs[n].Id()], inputs[n])
  }

  method ServeAll(inputs: seq<Input>) returns (decisions: seq<Decision>)
    ensures |decisions| == |inputs|
    ensures forall n :: 0 <= n < |inputs| ==> decisions[n] == DecisionAt(inputs, n)
  {
    var store := new MemoryRateLimitStore();
    decisions := [];
    for n := 0 to |inputs|
      invariant |decisions| == n && store.windows == Windows(inputs[..n])
      invariant forall k :: 0 <= k < n ==> decisions[k] == DecisionAt(inputs, k)
    {
      var d := store.Consume(inputs[n]);
      assert inputs[..n + 1][..n] == inputs[..n];
      decisions := decisions + [d];
    }
    assert inputs[..|inputs|] == inputs;
  }

  /** The index of the last request before n for the same key, if any. */
  function Previous(inputs: seq<Input>, n: nat, id: string): Option<nat>
    requires n <= |inputs|
    ensures var p := Previous(inputs, n, id);
      match p
      case Some(k) => k < n && inputs[k].Id() == id && forall j :: k < j < n ==> inputs[j].Id() != id
      case None => forall j :: 0 <= j < n ==> inputs[j].Id() != id
  {
    if n == 0 then None
    else if inputs[n - 1].Id() == id then Some(n - 1)
    else Previous(inputs, n - 1, id)
  }

  /** The request that opened the window the n-th request falls in. */
  function Opener(inputs: seq<Input>, n: nat): (o: nat)
    requires n < |inputs|
    ensures o <= n && inputs[o].Id() == inputs[n].Id()
  {
    match Previous(inputs, n, inputs[n].Id())
    case None => n
    case Some(k) =>
      var o := Opener(inputs, k);
      if inputs[o].now + inputs[o].windowMs <= inputs[n].now then n else o
  }

  /** How many requests of the n-th request's key lie in inputs[from..n]. */
  function SameKey(inputs: seq<Input>, from: nat, n: nat, id: string): nat
    requires from <= n <= |inputs|
  {
    if from == n then 0
    else SameKey(inputs, from, n - 1, id) + (if inputs[n - 1].Id() == id then 1 else 0)
  }

  lemma {:induction false} WindowUntouched(inputs: seq<Input>, k: nat, n: nat, id: string)
    requires k <= n <= |inputs| && forall j :: k <= j < n ==> inputs[j].Id() != id
    ensures Lookup(Windows(inputs[..n]), id) == Lookup(Windows(inputs[..k]), id)
  {
    if k < n {
      WindowUntouched(inputs, k, n - 1, id);
      assert inputs[..n][..n - 1] == inputs[..n - 1] && inputs[..n][n - 1] == inputs[n - 1];
    }
  }

  lemma {:induction false} SameKeySkip(inputs: seq<Input>, from: nat, k: nat, n: nat, id: string)
    requires from <= k <= n <= |inputs| && forall j :: k <= j < n ==> inputs[j].Id() != id
    ensures SameKey(inputs, from, n, id) == SameKey(inputs, from, k, id)
  {
    if k < n { SameKeySkip(inputs, from, k, n - 1, id); }
  }

  lemma {:induction false} WindowClosedForm(inputs: seq<Input>, n: nat)
    requires n < |inputs|
    ensures var o, id := Opener(inputs, n), inputs[n].Id();
      && id in Windows(inputs[..n + 1])
      && Windows(inputs[..n + 1])[id] == Window(SameKey(inputs, o, n + 1, id), inputs[o].now + inputs[o].windowMs)
    decreases n
  {
    var id := inputs[n].Id();
    assert inputs[..n + 1][..n] == inputs[..n] && inputs[..n + 1][n] == inputs[n];
    match Previous(inputs, n, id)
    case None =>
      WindowUntouched(inputs, 0, n, id);
      assert inputs[..0] == [];
    case Some(k) =>
      WindowUntouched(inputs, k + 1, n, id);
      WindowClosedForm(inputs, k);
      SameKeySkip(inputs, Opener(inputs, k), k + 1, n, id);
  }

  /** A request is refused exactly when `limit` requests of its key were already seen in its own window;
      requests of other keys play no part. */
  lemma RefusedIffWindowFull(inputs: seq<Input>, n: nat) returns (o: nat, seen: nat)
    requires n < |inputs|
    ensures o == Opener(inputs, n) && seen == SameKey(inputs, o, n, inputs[n].Id())
    ensures DecisionAt(inputs, n) == Decision(seen < inputs[n].limit, inputs[n].limit,
                                              Max(0, inputs[n].limit - 1 - seen), inputs[o].now + inputs[o].windowMs)
  {
    o := Opener(inputs, n);
    seen := SameKey(inputs, o, n, inputs[n].Id());
    WindowClosedForm(inputs, n);
    DecideWith(seen, inputs[o].now + inputs[o].windowMs, inputs[n]);
  }

  /** The requests of a key admitted in inputs[from..n]. */
  function AdmittedIn(inputs: seq<Input>, from: nat, n: nat, id: string): nat
    requires from <= n <= |inputs|
  {
    if from == n then 0
    else
      AdmittedIn(inputs, from, n - 1, id)
      + (if inputs[n - 1].Id() == id && DecisionAt(inputs, n - 1).allowed then 1 else 0)
  }

  lemma {:induction false} OpenerShared(inputs: seq<Input>, n: nat, j: nat)
    requires n < |inputs| && Opener(inputs, n) <= j <= n && inputs[j].Id() == inputs[n].Id()
    ensures Opener(inputs, j) == Opener(inputs, n)
    decreases n
  {
    if j < n { OpenerShared(inputs, Previous(inputs, n, inputs[n].Id()).value, j); }
  }

  lemma {:induction false} AdmittedSoFar(inputs: seq<Input>, n: nat, m: nat, limit: nat, windowMs: nat)
    requires n < |inputs| && OnePolicy(inputs, inputs[n].Id(), limit, windowMs) && Opener(inputs, n) <= m <= n
    ensures var o, id := Opener(inputs, n), inputs[n].Id();
      AdmittedIn(inputs, o, m, id) == Min(limit, SameKey(inputs, o, m, id))
  {
    if Opener(inputs, n) < m {
      AdmittedSoFar(inputs, n, m - 1, limit, windowMs);
      if inputs[m - 1].Id() == inputs[n].Id() {
        OpenerShared(inputs, n, m - 1);
        var o, seen := RefusedIffWindowFull(inputs, m - 1);
      }
    }
  }

  /** Under one policy a request is refused exactly when `limit` requests of its key have already been admitted in
      its window. */
  lemma RefusedIffLimitAdmitted(inputs: seq<Input>, n: nat, limit: nat, windowMs: nat)
    requires n < |inputs| && OnePolicy(inputs, inputs[n].Id(), limit, windowMs)
    ensures var o, id := Opener(inputs, n), inputs[n].Id();
      && (!DecisionAt(inputs, n).allowed <==> AdmittedIn(inputs, o, n, id) == limit)
      && AdmittedIn(inputs, o, n, id) == Min(limit, SameKey(inputs, o, n, id))
  {
    var o, seen := RefusedIffWindowFull(inputs, n);
    AdmittedSoFar(inputs, n, n, limit, windowMs);
  }

  lemma DecideWith(seen: nat, reset: int, i: Input)
    ensures Decide(Window(seen + 1, reset), i) == Decision(seen < i.limit, i.limit, Max(0, i.limit - 1 - seen), reset)
  {
  }

  function Mine(inputs: seq<Input>, id: string): seq<Input> {
    if inputs == [] then []
    else
      var n := |inputs| - 1;
      Mine(inputs[..n], id) + (if inputs[n].Id() == id then [inputs[n]] else [])
  }

  /** Decisions for one key are those of the run in which no other key ever appears. */
  lemma {:induction false} OtherKeysIgnored(inputs: seq<Input>, id: string)
    ensures Lookup(Windows(inputs), id) == Lookup(Windows(Mine(inputs, id)), id)
  {
    if inputs != [] {
      var n := |inputs| - 1;
      OtherKeysIgnored(inputs[..n], id);
      var mine := Mine(inputs[..n], id);
      if inputs[n].Id() == id {
        assert (mine + [inputs[n]])[..|mine|] == mine;
      } else {
        assert Mine(inputs, id) == mine;
      }
    }
  }

  // ---- The bound over sliding time ----

  /** Requests of one key admitted with a time stamp in [a, b), from index n on. */
  function AdmittedFrom(inputs: seq<Input>, n: nat, id: string, a: int, b: int): nat
    requires n <= |inputs|
    decreases |inputs| - n
  {
    if n == |inputs| then 0
    else
      (if inputs[n].Id() == id && a <= inputs[n].now < b && DecisionAt(inputs, n).allowed then 1 else 0)
      + AdmittedFrom(inputs, n + 1, id, a, b)
  }

  /** The clock does not run backward between requests of this key. */
  ghost predicate ClockMonotone(inputs: seq<Input>, id: string) {
    forall i, j :: 0 <= i < j < |inputs| && inputs[i].Id() == id && inputs[j].Id() == id ==>
      inputs[i].now <= inputs[j].now
  }

  /** Every request of the key carries the same limit and window, as the policy table guarantees. */
  ghost predicate OnePolicy(inputs: seq<Input>, id: string, limit: nat, windowMs: nat) {
    forall i :: 0 <= i < |inputs| && inputs[i].Id() == id ==> inputs[i].limit == limit && inputs[i].windowMs == windowMs
  }

  lemma StepWindow(inputs: seq<Input>, n: nat, id: string)
    requires n < |inputs|
    ensures var before, after := Lookup(Windows(inputs[..n]), id), Lookup(Windows(inputs[..n + 1]), id);
      if inputs[n].Id() == id then
        after == Some(Count(before, inputs[n])) && DecisionAt(inputs, n) == Decide(after.value, inputs[n])
      else after == before
  {
    assert inputs[..n + 1][..n] == inputs[..n] && inputs[..n + 1][n] == inputs[n];
  }

  /** Seen from a window that is already open, each further window length adds at most `limit`. */
  lemma {:induction false} AdmittedAfterOpen(
      inputs: seq<Input>, n: nat, id: string, limit: nat, windowMs: nat, a: int, b: int, k: nat, w: Window)
    requires n <= |inputs| && ClockMonotone(inputs, id) && OnePolicy(inputs, id, limit, windowMs)
    requires Lookup(Windows(inputs[..n]), id) == Some(w) && b <= w.resetAtMs + k * windowMs
    ensures AdmittedFrom(inputs, n, id, a, b) <= Max(0, limit - w.count) + k * limit
    decreases |inputs| - n
  {
    if n < |inputs| {
      StepWindow(inputs, n, id);
      if inputs[n].Id() != id {
        AdmittedAfterOpen(inputs, n + 1, id, limit, windowMs, a, b, k, w);
      } else if inputs[n].now >= b {
        NoneAfter(inputs, n, n, id, a, b);
      } else {
        var w' := Count(Some(w), inputs[n]);
        assert DecisionAt(inputs, n).allowed <==> w'.count <= limit;
        if w.resetAtMs <= inputs[n].now {
          OneLess(k, windowMs);
          OneLess(k, limit);
          assert w' == Window(1, inputs[n].now + windowMs) && k > 0;
          AdmittedAfterOpen(inputs, n + 1, id, limit, windowMs, a, b, k - 1, w');
        } else {
          AdmittedAfterOpen(inputs, n + 1, id, limit, windowMs, a, b, k, w');
        }
      }
    }
  }

  lemma OneLess(k: int, x: int)
    ensures (k - 1) * x == k * x - x
  {
  }

  /** From a request of the key at or past b on, none of the key falls before b. */
  lemma {:induction false} NoneAfter(inputs: seq<Input>, n: nat, m: nat, id: string, a: int, b: int)
    requires n < |inputs| && n <= m <= |inputs| && ClockMonotone(inputs, id)
    requires inputs[n].Id() == id && b <= inputs[n].now
    ensures AdmittedFrom(inputs, m, id, a, b) == 0
    decreases |inputs| - m
  {
    if m < |inputs| { NoneAfter(inputs, n, m + 1, id, a, b); }
  }

  lemma {:induction false} AdmittedInInterval(
      inputs: seq<Input>, n: nat, id: string, limit: nat, windowMs: nat, a: int, b: int, k: nat)
    requires n <= |inputs| && ClockMonotone(inputs, id) && OnePolicy(inputs, id, limit, windowMs)
    requires b == a + k * windowMs
    ensures AdmittedFrom(inputs, n, id, a, b) <= (k + 1) * limit
    decreases |inputs| - n
  {
    OneLess(k + 1, limit);
    if n < |inputs| {
      StepWindow(inputs, n, id);
      if inputs[n].Id() != id || inputs[n].now < a {
        AdmittedInInterval(inputs, n + 1, id, limit, windowMs, a, b, k);
      } else if inputs[n].now >= b {
        NoneAfter(inputs, n, n, id, a, b);
      } else {
        var w' := Count(Lookup(Windows(inputs[..n]), id), inputs[n]);
        AdmittedAfterOpen(inputs, n + 1, id, limit, windowMs, a, b, k, w');
      }
    }
  }

  /** Requests served under the policy table: verb, path, client key and arrival time. */
  datatype Request = Request(verb: string, path: string, client: string, now: int)

  function PolicyInputs(requests: seq<Request>): seq<Input> {
    if requests == [] then []
    else
      var q := requests[|requests| - 1];
      var rest := PolicyInputs(requests[..|requests| - 1]);
      match RateLimitPolicy(q.verb, q.path)
      case None => rest
      case Some(p) => rest + [Input(p.bucket, q.client, p.limit, p.windowMs, q.now)]
  }

  /** Every request with a policy reaches the store, with that policy, in order. */
  lemma PolicyInputsNext(requests: seq<Request>, q: Request)
    ensures PolicyInputs([]) == []
    ensures PolicyInputs(requests + [q]) == PolicyInputs(requests) +
      match RateLimitPolicy(q.verb, q.path)
      case None => []
      case Some(p) => [Input(p.bucket, q.client, p.limit, p.windowMs, q.now)]
  {
    assert (requests + [q])[..|requests|] == requests && PolicyInputs(requests) + [] == PolicyInputs(requests);
  }

  predicate IsPolicyInput(i: Input, q: Request) {
    && RateLimitPolicy(q.verb, q.path) == Some(Policy(i.bucket, i.limit, i.windowMs))
    && i.key == q.client && i.now == q.now
  }

  lemma {:induction false} PolicyInputFrom(requests: seq<Request>, i: nat) returns (k: nat)
    requires i < |PolicyInputs(requests)|
    ensures k < |requests| && IsPolicyInput(PolicyInputs(requests)[i], requests[k])
  {
    var n := |requests| - 1;
    if i < |PolicyInputs(requests[..n])| {
      k := PolicyInputFrom(requests[..n], i);
    } else {
      k := n;
    }
  }

  /** The request falls under this policy, for this client. */
  predicate Uses(q: Request, p: Policy, client: string) {
    RateLimitPolicy(q.verb, q.path) == Some(p) && q.client == client
  }

  lemma OwnInput(i: Input, q: Request, p: Policy, verb: string, path: string, client: string)
    requires IsPolicyInput(i, q) && i.Id() == p.bucket + ":" + client && RateLimitPolicy(verb, path) == Some(p)
    ensures Uses(q, p, client) && i.limit == p.limit && i.windowMs == p.windowMs
  {
    var p' := Policy(i.bucket, i.limit, i.windowMs);
    PolicyFixedPerBucket(p, p', verb, path, q.verb, q.path);
    PolicyFixedPerBucket(p', p, q.verb, q.path, verb, path);
    JoinInjective(p.bucket, client, i.bucket, i.key);
  }

  /** The clock does not run backward between this client's requests under this policy. */
  ghost predicate OwnClockMonotone(requests: seq<Request>, p: Policy, client: string) {
    forall i, j :: 0 <= i < j < |requests| && Uses(requests[i], p, client) && Uses(requests[j], p, client) ==>
      requests[i].now <= requests[j].now
  }

  lemma {:induction false} PolicyInputsMonotone(requests: seq<Request>, p: Policy, verb: string, path: string,
                                                client: string)
    requires OwnClockMonotone(requests, p, client) && RateLimitPolicy(verb, path) == Some(p)
    ensures ClockMonotone(PolicyInputs(requests), p.bucket + ":" + client)
  {
    if requests != [] {
      var n := |requests| - 1;
      PolicyInputsMonotone(requests[..n], p, verb, path, client);
      LastInputLatest(requests, p, verb, path, client);
    }
  }

  lemma LastInputLatest(requests: seq<Request>, p: Policy, verb: string, path: string, client: string)
    requires requests != [] && OwnClockMonotone(requests, p, client) && RateLimitPolicy(verb, path) == Some(p)
    ensures var front, id := PolicyInputs(requests[..|requests| - 1]), p.bucket + ":" + client;
      var all := PolicyInputs(requests);
      && front <= all && |all| <= |front| + 1
      && (|all| == |front| + 1 && all[|front|].Id() == id ==>
            forall i :: 0 <= i < |front| && front[i].Id() == id ==> front[i].now <= all[|front|].now)
  {
    var n := |requests| - 1;
    var rest := requests[..n];
    var front, all, id := PolicyInputs(rest), PolicyInputs(requests), p.bucket + ":" + client;
    if |all| == |front| + 1 && all[|front|].Id() == id {
      assert IsPolicyInput(all[|front|], requests[n]);
      OwnInput(all[|front|], requests[n], p, verb, path, client);
      forall i | 0 <= i < |front| && front[i].Id() == id ensures front[i].now <= all[|front|].now {
        var k := PolicyInputFrom(rest, i);
        OwnInput(front[i], rest[k], p, verb, path, client);
        assert requests[k] == rest[k];
      }
    }
  }

  lemma SameKeySamePolicy(requests: seq<Request>, p: Policy, verb: string, path: string, client: string)
    requires RateLimitPolicy(verb, path) == Some(p)
    ensures OnePolicy(PolicyInputs(requests), p.bucket + ":" + client, p.limit, p.windowMs)
  {
    var inputs := PolicyInputs(requests);
    forall i | 0 <= i < |inputs| && inputs[i].Id() == p.bucket + ":" + client
      ensures inputs[i].limit == p.limit && inputs[i].windowMs == p.windowMs
    {
      var q := PolicyInputFrom(requests, i);
      OwnInput(inputs[i], requests[q], p, verb, path, client);
    }
  }

  lemma IntervalBound(inputs: seq<Input>, id: string, limit: nat, windowMs: nat, a: int, k: nat)
    requires ClockMonotone(inputs, id) && OnePolicy(inputs, id, limit, windowMs)
    ensures AdmittedFrom(inputs, 0, id, a, a + k * windowMs) <= (k + 1) * limit
  {
    AdmittedInInterval(inputs, 0, id, limit, windowMs, a, a + k * windowMs, k);
  }

  /** Whatever mix of verbs, paths and clients arrives, any half-open interval of k window lengths
      admits at most (k + 1) * limit requests of one client in one bucket; the clock may run backward between
      requests of others. */
  lemma RateBound(requests: seq<Request>, p: Policy, verb: string, path: string, client: string, a: int, k: nat)
    requires RateLimitPolicy(verb, path) == Some(p) && OwnClockMonotone(requests, p, client)
    ensures AdmittedFrom(PolicyInputs(requests), 0, p.bucket + ":" + client, a, a + k * p.windowMs) <= (k + 1) * p.limit
  {
    PolicyInputsMonotone(requests, p, verb, path, client);
    SameKeySamePolicy(requests, p, verb, path, client);
    IntervalBound(PolicyInputs(requests), p.bucket + ":" + client, p.limit, p.windowMs, a, k);
  }

  // ---- A clock that runs backward ----

  function Arrival(now: int): Input { Input("api-read", "ip:1", 600, MINUTE, now) }

  lemma {:induction false} AdmittedAppend(inputs: seq<Input>, i: Input, n: nat, id: string, a: int, b: int)
    requires n <= |inputs|
    ensures AdmittedFrom(inputs + [i], n, id, a, b) == AdmittedFrom(inputs, n, id, a, b)
      + if i.Id() == id && a <= i.now < b && DecisionAt(inputs + [i], |inputs|).allowed then 1 else 0
    decreases |inputs| - n
  {
    if n < |inputs| {
      AdmittedAppend(inputs, i, n + 1, id, a, b);
      assert (inputs + [i])[..n + 1] == inputs[..n + 1];
    }
  }

  lemma AppendOne(inputs: seq<Input>, i: Input, a: int, b: int)
    ensures var w := Count(Lookup(Windows(inputs), i.Id()), i);
      && Lookup(Windows(inputs + [i]), i.Id()) == Some(w)
      && AdmittedFrom(inputs + [i], 0, i.Id(), a, b) == AdmittedFrom(inputs, 0, i.Id(), a, b)
           + if a <= i.now < b && w.count <= i.limit then 1 else 0
  {
    AdmittedAppend(inputs, i, 0, i.Id(), a, b);
    assert (inputs + [i])[..|inputs|] == inputs && (inputs + [i])[..|inputs| + 1] == inputs + [i];
  }

  /** With a clock that runs backward there is no bound: every minute opens a new window, and a request stamped
      with the first minute is admitted into it. */
  lemma {:induction false} BackwardClockHasNoBound(m: nat) returns (inputs: seq<Input>)
    ensures OnePolicy(inputs, Arrival(0).Id(), 600, MINUTE)
    ensures AdmittedFrom(inputs, 0, Arrival(0).Id(), 0, MINUTE) >= m
    ensures Lookup(Windows(inputs), Arrival(0).Id()) == if m == 0 then None else Some(Window(2, m * MINUTE))
  {
    if m == 0 {
      inputs := [];
    } else {
      var before := BackwardClockHasNoBound(m - 1);
      var opens, late := Arrival((m - 1) * MINUTE), Arrival(0);
      assert opens.Id() == late.Id();
      AppendOne(before, opens, 0, MINUTE);
      AppendOne(before + [opens], late, 0, MINUTE);
      inputs := before + [opens] + [late];
    }
  }
}
