/** The shared limiter: its single-flight background cleanup (operations.ts) and the
    repository rows it counts in (rate-limit-repository.ts). */
module SharedRateLimit {
  import opened Prelude
  import opened RateLimit

  const CLEANUP_BATCH := 1000
  const CLEANUP_EVERY := 300_000
  const CLEANUP_AGAIN := 1000
  const CLEANUP_RETRY := 60_000

  /** How a cleanup ended: rows removed, or a thrown error. */
  datatype Outcome = Removed(rows: nat) | Failed

  /** The promise held in `cleanup`: none, still pruning, or done pruning but not yet cleared. */
  datatype Flight = Idle | Running(stamp: int) | Settled

  /** `nextCleanupAtMs` is None while it is negative infinity. */
  datatype Scheduler = Scheduler(nextAt: Option<int>, flight: Flight)

  /** The atomic continuations of the store's closures, in whatever order they interleave. */
  datatype Event = Consumed(now: int) | Settles(outcome: Outcome) | Clears

  predicate Starts(s: Scheduler, now: int) {
    s.flight.Idle? && (s.nextAt.Some? ==> now >= s.nextAt.value)
  }

  predicate Enabled(s: Scheduler, e: Event) {
    match e
    case Consumed(_) => true
    case Settles(_) => s.flight.Running?
    case Clears => s.flight.Settled?
  }

  function Step(s: Scheduler, e: Event): Scheduler
    requires Enabled(s, e)
  {
    match e
    case Consumed(now) =>
      if Starts(s, now) then Scheduler(Some(now + CLEANUP_EVERY), Running(now)) else s
    case Settles(Removed(rows)) =>
      if rows >= CLEANUP_BATCH then
        var again := s.flight.stamp + CLEANUP_AGAIN;
        Scheduler(Some(if s.nextAt.None? then again else Min(s.nextAt.value, again)), Settled)
      else s.(flight := Settled)
    case Settles(Failed) => Scheduler(Some(s.flight.stamp + CLEANUP_RETRY), Settled)
    case Clears => s.(flight := Idle)
  }

  class PostgresRateLimitStore {
    var nextCleanupAt: Option<int>
    var cleanup: Flight

    function State(): Scheduler
      reads this
    {
      Scheduler(nextCleanupAt, cleanup)
    }

    constructor ()
      ensures State() == Scheduler(None, Idle)
    {
      nextCleanupAt, cleanup := None, Idle;
    }

    /** The continuation of `consume` after the repository has answered with `window`. */
    method Consume(i: Input, window: Window) returns (d: Decision)
      modifies this
      ensures State() == Step(old(State()), Consumed(i.now))
      ensures d == Decide(window, i)
    {
      if cleanup == Idle && (nextCleanupAt.None? || i.now >= nextCleanupAt.value) {
        nextCleanupAt := Some(i.now + CLEANUP_EVERY);
        cleanup := Running(i.now);
      }
      var remaining := if i.limit >= window.count then i.limit - window.count else 0;
      d := Decision(window.count <= i.limit, i.limit, remaining, window.resetAtMs);
    }

    /** The `then` and `catch` handlers of the pruning promise. */
    method CleanupSettles(outcome: Outcome)
      requires cleanup.Running?
      modifies this
      ensures State() == Step(old(State()), Settles(outcome))
    {
      var stamp := cleanup.stamp;
      match outcome {
        case Removed(rows) =>
          if rows >= CLEANUP_BATCH {
            if nextCleanupAt.None? || stamp + CLEANUP_AGAIN < nextCleanupAt.value {
              nextCleanupAt := Some(stamp + CLEANUP_AGAIN);
            }
          }
        case Failed =>
          nextCleanupAt := Some(stamp + CLEANUP_RETRY);
      }
      cleanup := Settled;
    }

    /** The `finally` handler. */
    method CleanupClears()
      requires cleanup.Settled?
      modifies this
      ensures State() == Step(old(State()), Clears)
    {
      cleanup := Idle;
    }
  }

  // ---- The cleanup protocol over whole runs ----

  datatype Mark = Start(stamp: int) | Finish(outcome: Outcome)

  function Gap(o: Outcome): int {
    match o
    case Removed(rows) => if rows >= CLEANUP_BATCH then CLEANUP_AGAIN else CLEANUP_EVERY
    case Failed => CLEANUP_RETRY
  }

  ghost predicate Possible(events: seq<Event>)
    decreases |events|, 0
  {
    events == [] ||
    var n := |events| - 1;
    Possible(events[..n]) && Enabled(After(events[..n]), events[n])
  }

  ghost function After(events: seq<Event>): Scheduler
    requires Possible(events)
    decreases |events|, 1
  {
    if events == [] then Scheduler(None, Idle)
    else Step(After(events[..|events| - 1]), events[|events| - 1])
  }

  /** The cleanup starts and endings of a run, in order. */
  ghost function Marks(events: seq<Event>): seq<Mark>
    requires Possible(events)
  {
    if events == [] then []
    else
      var n := |events| - 1;
      Marks(events[..n]) +
      match events[n]
      case Consumed(now) => if Starts(After(events[..n]), now) then [Start(now)] else []
      case Settles(o) => [Finish(o)]
      case Clears => []
  }

  ghost predicate SpacedAt(marks: seq<Mark>, i: nat)
    requires i < |marks|
  {
    && (marks[i].Start? <==> i % 2 == 0)
    && (i % 2 == 0 && i >= 2 ==>
          && marks[i - 1].Finish? && marks[i - 2].Start?
          && marks[i].stamp >= marks[i - 2].stamp + Gap(marks[i - 1].outcome))
  }

  /** Starts and endings alternate, and each start keeps its distance from the one before. */
  ghost predicate Spaced(marks: seq<Mark>) {
    forall i :: 0 <= i < |marks| ==> SpacedAt(marks, i)
  }

  /** When the next cleanup may start, read off the marks alone. */
  ghost predicate Due(marks: seq<Mark>, now: int) {
    var n := |marks|;
    n == 0 ||
    (n >= 2 && marks[n - 1].Finish? && marks[n - 2].Start? && now >= marks[n - 2].stamp + Gap(marks[n - 1].outcome))
  }

  ghost function NextDue(marks: seq<Mark>): Option<int>
    requires Spaced(marks) && |marks| % 2 == 0
  {
    var n := |marks|;
    if n == 0 then None
    else
      assert SpacedAt(marks, n - 2) && SpacedAt(marks, n - 1);
      Some(marks[n - 2].stamp + Gap(marks[n - 1].outcome))
  }

  ghost predicate Invariant(s: Scheduler, marks: seq<Mark>) {
    var n := |marks|;
    && Spaced(marks)
    && (match s.flight
        case Running(stamp) => n % 2 == 1 && marks[n - 1] == Start(stamp) && s.nextAt == Some(stamp + CLEANUP_EVERY)
        case _ => n % 2 == 0 && s.nextAt == NextDue(marks))
  }

  lemma ConsumedKeepsInvariant(s: Scheduler, marks: seq<Mark>, now: int)
    requires Invariant(s, marks)
    ensures Starts(s, now) <==> s.flight.Idle? && Due(marks, now)
    ensures Invariant(Step(s, Consumed(now)), if Starts(s, now) then marks + [Start(now)] else marks)
  {
    if s.flight.Idle? {
      DueIff(marks, now);
      if Starts(s, now) { AppendStart(marks, now); }
    }
  }

  lemma DueIff(marks: seq<Mark>, now: int)
    requires Spaced(marks) && |marks| % 2 == 0
    ensures Due(marks, now) <==> (NextDue(marks).Some? ==> now >= NextDue(marks).value)
  {
    if marks != [] { assert SpacedAt(marks, |marks| - 2) && SpacedAt(marks, |marks| - 1); }
  }

  lemma SettlesKeepsInvariant(s: Scheduler, marks: seq<Mark>, o: Outcome)
    requires Invariant(s, marks) && s.flight.Running?
    ensures Invariant(Step(s, Settles(o)), marks + [Finish(o)])
  {
    AppendFinish(marks, o);
  }

  lemma AppendMark(marks: seq<Mark>, m: Mark)
    requires Spaced(marks) && SpacedAt(marks + [m], |marks|)
    ensures Spaced(marks + [m])
  {
    forall i | 0 <= i < |marks| ensures SpacedAt(marks + [m], i) { assert SpacedAt(marks, i); }
  }

  lemma AppendStart(marks: seq<Mark>, now: int)
    requires Spaced(marks) && |marks| % 2 == 0 && Due(marks, now)
    ensures Spaced(marks + [Start(now)])
  {
    AppendMark(marks, Start(now));
  }

  lemma AppendFinish(marks: seq<Mark>, o: Outcome)
    requires Spaced(marks) && |marks| % 2 == 1
    ensures Spaced(marks + [Finish(o)])
    ensures marks[|marks| - 1].Start?
    ensures NextDue(marks + [Finish(o)]) == Some(marks[|marks| - 1].stamp + Gap(o))
  {
    AppendMark(marks, Finish(o));
    assert SpacedAt(marks, |marks| - 1);
  }

  lemma {:induction false} RunInvariant(events: seq<Event>)
    requires Possible(events)
    ensures Invariant(After(events), Marks(events))
  {
    if events != [] {
      var n := |events| - 1;
      RunInvariant(events[..n]);
      var before, m := After(events[..n]), Marks(events[..n]);
      assert m + [] == m;
      match events[n]
      case Consumed(now) => ConsumedKeepsInvariant(before, m, now);
      case Settles(o) => SettlesKeepsInvariant(before, m, o);
      case Clears =>
    }
  }

  /** In every interleaving, with stamps in any order: at most one cleanup is in flight, and a start comes
      at least 300,000 ms after a start whose prune was short, 60,000 after one that failed, 1,000 after
      one that filled its batch. */
  lemma CleanupProtocol(events: seq<Event>, i: nat)
    requires Possible(events) && i < |Marks(events)|
    ensures var m := Marks(events);
      && (m[i].Start? <==> i % 2 == 0)
      && (i % 2 == 0 && i >= 2 ==>
          && m[i - 2].Start? && m[i - 1].Finish?
          && m[i].stamp >= m[i - 2].stamp + (match m[i - 1].outcome
                                             case Failed => 60_000
                                             case Removed(rows) => if rows >= 1000 then 1000 else 300_000))
  {
    RunInvariant(events);
    var m := Marks(events);
    assert SpacedAt(m, i);
    if i % 2 == 0 && i >= 2 { assert SpacedAt(m, i - 1) && SpacedAt(m, i - 2); }
  }

  /** A consume starts a cleanup exactly when none is in flight and the distance has passed: an overdue
      cleanup is never skipped. */
  lemma CleanupStartsIff(events: seq<Event>, now: int)
    requires Possible(events)
    ensures Gap(Failed) == 60_000 && forall rows: nat :: Gap(Removed(rows)) == if rows >= 1000 then 1000 else 300_000
    ensures Marks(events + [Consumed(now)])
      == Marks(events) + if After(events).flight.Idle? && Due(Marks(events), now) then [Start(now)] else []
  {
    RunInvariant(events);
    ConsumedKeepsInvariant(After(events), Marks(events), now);
    assert (events + [Consumed(now)])[..|events|] == events;
  }

  // ---- The counter rows and the effect of pruning ----

  datatype RowKey = RowKey(bucket: string, client: string, start: int)

  datatype Row = Row(count: nat, expiresAt: int)

  /** A database step: one counted request, or one prune with the rows it removed. */
  datatype RowEvent =
    | Hit(bucket: string, client: string, now: int)
    | Prune(stamp: int, removed: set<RowKey>)

  /** `windowOf` gives the one window length of each bucket. */
  function KeyOf(windowOf: string -> nat, e: RowEvent): RowKey
    requires e.Hit? && windowOf(e.bucket) > 0
  {
    var w := windowOf(e.bucket);
    RowKey(e.bucket, e.client, e.now / w * w)
  }

  predicate ValidWindows(windowOf: string -> nat, events: seq<RowEvent>) {
    forall i :: 0 <= i < |events| && events[i].Hit? ==> windowOf(events[i].bucket) > 0
  }

  const KEEP_AT_LEAST := 3_600_000

  /** When the row of a key expires: two windows, and at least an hour, after its start. */
  function ExpiryOf(windowOf: string -> nat, k: RowKey): int {
    k.start + Max(2 * windowOf(k.bucket), KEEP_AT_LEAST)
  }

  /** insert … on conflict do update, and delete where expires_at <= now. */
  function Rows(windowOf: string -> nat, events: seq<RowEvent>): map<RowKey, Row>
    requires ValidWindows(windowOf, events)
  {
    if events == [] then map[]
    else
      var n := |events| - 1;
      var rows := Rows(windowOf, events[..n]);
      match events[n]
      case Hit(_, _, _) =>
        var k := KeyOf(windowOf, events[n]);
        rows[k := if k in rows then rows[k].(count := rows[k].count + 1) else Row(1, ExpiryOf(windowOf, k))]
      case Prune(_, removed) => rows - removed
  }

  /** The row a request counts in: its window starts at the last multiple of the window length, and the row is kept
      for two windows, and at least an hour, from there. */
  lemma RowReads(windowOf: string -> nat, bucket: string, client: string, now: int)
    requires windowOf(bucket) > 0
    ensures var w, k := windowOf(bucket), KeyOf(windowOf, Hit(bucket, client, now));
      && k == RowKey(bucket, client, now - now % w)
      && Rows(windowOf, [Hit(bucket, client, now)]) == map[k := Row(1, k.start + Max(2 * w, 3_600_000))]
  {
    assert [Hit(bucket, client, now)][..0] == [];
  }

  /** A prune removes rows that exist and have expired at its stamp; a batch may leave some behind. */
  ghost predicate PruneExpired(windowOf: string -> nat, before: seq<RowEvent>, e: RowEvent)
    requires ValidWindows(windowOf, before)
  {
    e.Prune? ==>
      forall k :: k in e.removed ==> k in Rows(windowOf, before) && Rows(windowOf, before)[k].expiresAt <= e.stamp
  }

  ghost predicate PrunesExpired(windowOf: string -> nat, events: seq<RowEvent>)
    requires ValidWindows(windowOf, events)
  {
    forall i :: 0 <= i < |events| ==> PruneExpired(windowOf, events[..i], events[i])
  }

  lemma ExpiredPrefix(windowOf: string -> nat, events: seq<RowEvent>, n: nat)
    requires ValidWindows(windowOf, events) && PrunesExpired(windowOf, events) && n <= |events|
    ensures PrunesExpired(windowOf, events[..n])
  {
    forall i | 0 <= i < n ensures PruneExpired(windowOf, events[..n][..i], events[..n][i]) {
      assert events[..n][..i] == events[..i];
    }
  }

  /** The count the repository returns for the n-th event. */
  function CountAt(windowOf: string -> nat, events: seq<RowEvent>, n: nat): nat
    requires ValidWindows(windowOf, events) && n < |events| && events[n].Hit?
  {
    var rows := Rows(windowOf, events[..n + 1]);
    var k := KeyOf(windowOf, events[n]);
    if k in rows then rows[k].count else 0
  }

  function HitsOn(windowOf: string -> nat, events: seq<RowEvent>, k: RowKey): nat
    requires ValidWindows(windowOf, events)
  {
    if events == [] then 0
    else
      var n := |events| - 1;
      HitsOn(windowOf, events[..n], k) + if events[n].Hit? && KeyOf(windowOf, events[n]) == k then 1 else 0
  }

  predicate RemovedBefore(events: seq<RowEvent>, k: RowKey) {
    exists i :: 0 <= i < |events| && events[i].Prune? && k in events[i].removed
  }

  lemma RemovedNext(events: seq<RowEvent>, k: RowKey)
    requires events != []
    ensures var n := |events| - 1;
      RemovedBefore(events, k) <==> RemovedBefore(events[..n], k) || (events[n].Prune? && k in events[n].removed)
  {
    var n := |events| - 1;
    if RemovedBefore(events[..n], k) {
      var i :| 0 <= i < n && events[..n][i].Prune? && k in events[..n][i].removed;
      assert events[i] == events[..n][i];
    }
    if i :| 0 <= i < n && events[i].Prune? && k in events[i].removed {
      assert events[..n][i] == events[i];
    }
  }

  lemma {:induction false} RowCount(windowOf: string -> nat, events: seq<RowEvent>, k: RowKey)
    requires ValidWindows(windowOf, events) && PrunesExpired(windowOf, events)
    ensures var rows, hits := Rows(windowOf, events), HitsOn(windowOf, events, k);
      && (!RemovedBefore(events, k) ==> (k in rows <==> hits > 0) && (k in rows ==> rows[k].count == hits))
      && (RemovedBefore(events, k) ==> hits > 0 && (k in rows ==> rows[k].count < hits))
      && (k in rows ==> windowOf(k.bucket) > 0 && rows[k].count > 0)
      && (k in rows ==> rows[k].expiresAt == ExpiryOf(windowOf, k))
  {
    if events != [] {
      var n := |events| - 1;
      var prefix := events[..n];
      ExpiredPrefix(windowOf, events, n);
      RowCount(windowOf, prefix, k);
      assert PruneExpired(windowOf, prefix, events[n]);
      RemovedNext(events, k);
    }
  }

  /** Cleanup leaves the count of a request alone — it is the number of requests ever made in that bucket,
      client and window — exactly when no prune had removed that row before. */
  lemma CountUnaffectedIff(windowOf: string -> nat, events: seq<RowEvent>, n: nat)
    requires ValidWindows(windowOf, events) && PrunesExpired(windowOf, events) && n < |events| && events[n].Hit?
    ensures var k := KeyOf(windowOf, events[n]);
      CountAt(windowOf, events, n) == HitsOn(windowOf, events[..n + 1], k) <==> !RemovedBefore(events[..n], k)
  {
    var k := KeyOf(windowOf, events[n]);
    var upTo := events[..n + 1];
    ExpiredPrefix(windowOf, events, n + 1);
    RowCount(windowOf, upTo, k);
    assert upTo[..n] == events[..n];
    assert RemovedBefore(upTo, k) <==> RemovedBefore(events[..n], k);
  }

  /** A prune before the n-th event is stamped at or after the expiry of the row that event counts in, and that
      row had been hit before the prune. */
  predicate PruneReaches(windowOf: string -> nat, events: seq<RowEvent>, n: nat)
    requires ValidWindows(windowOf, events) && n < |events| && events[n].Hit?
  {
    var k := KeyOf(windowOf, events[n]);
    exists i :: 0 <= i < n && events[i].Prune? && ExpiryOf(windowOf, k) <= events[i].stamp
      && HitsOn(windowOf, events[..i], k) > 0
  }

  lemma RemovedOnlyIfReached(windowOf: string -> nat, events: seq<RowEvent>, n: nat)
    requires ValidWindows(windowOf, events) && PrunesExpired(windowOf, events) && n < |events| && events[n].Hit?
    requires RemovedBefore(events[..n], KeyOf(windowOf, events[n]))
    ensures PruneReaches(windowOf, events, n)
  {
    var k := KeyOf(windowOf, events[n]);
    var i :| 0 <= i < n && events[..n][i].Prune? && k in events[..n][i].removed;
    assert events[i].Prune? && k in events[i].removed;
    ExpiredPrefix(windowOf, events, i);
    RowCount(windowOf, events[..i], k);
    assert PruneExpired(windowOf, events[..i], events[i]);
  }

  /** Cleanup never changes a count unless a prune stamped at or after the expiry of the row comes between two
      requests that count in it. */
  lemma CleanupNeverChangesCount(windowOf: string -> nat, events: seq<RowEvent>, n: nat)
    requires ValidWindows(windowOf, events) && PrunesExpired(windowOf, events) && n < |events| && events[n].Hit?
    requires !PruneReaches(windowOf, events, n)
    ensures CountAt(windowOf, events, n) == HitsOn(windowOf, events[..n + 1], KeyOf(windowOf, events[n]))
  {
    if RemovedBefore(events[..n], KeyOf(windowOf, events[n])) { RemovedOnlyIfReached(windowOf, events, n); }
    CountUnaffectedIff(windowOf, events, n);
  }

  /** The same requests and prunes, whichever rows the prunes removed. */
  predicate SameStamps(a: seq<RowEvent>, b: seq<RowEvent>) {
    |a| == |b| && forall i :: 0 <= i < |a| ==>
      if a[i].Hit? then b[i] == a[i] else b[i].Prune? && b[i].stamp == a[i].stamp
  }

  /** The run in which only the i-th event removes a row, and only this one. */
  function OnlyRemoves(events: seq<RowEvent>, i: nat, k: RowKey): (r: seq<RowEvent>)
    ensures SameStamps(events, r)
  {
    seq(|events|, j requires 0 <= j < |events| =>
      match events[j]
      case Hit(_, _, _) => events[j]
      case Prune(stamp, _) => Prune(stamp, if j == i then {k} else {}))
  }

  lemma {:induction false} SameHits(windowOf: string -> nat, a: seq<RowEvent>, b: seq<RowEvent>, k: RowKey)
    requires SameStamps(a, b) && ValidWindows(windowOf, a)
    ensures ValidWindows(windowOf, b) && HitsOn(windowOf, a, k) == HitsOn(windowOf, b, k)
  {
    if a != [] { SameHits(windowOf, a[..|a| - 1], b[..|b| - 1], k); }
  }

  lemma OneRemoval(windowOf: string -> nat, events: seq<RowEvent>, i: nat, k: RowKey)
    requires ValidWindows(windowOf, events) && i < |events| && events[i].Prune?
    requires ExpiryOf(windowOf, k) <= events[i].stamp && HitsOn(windowOf, events[..i], k) > 0
    ensures var r := OnlyRemoves(events, i, k); ValidWindows(windowOf, r) && PrunesExpired(windowOf, r)
  {
    var r := OnlyRemoves(events, i, k);
    var before := r[..i];
    SameHits(windowOf, events, r, k);
    SameHits(windowOf, events[..i], before, k);
    forall j | 0 <= j < i ensures PruneExpired(windowOf, before[..j], before[j]) {}
    assert !RemovedBefore(before, k);
    RowCount(windowOf, before, k);
    forall j | 0 <= j < |r| ensures PruneExpired(windowOf, r[..j], r[j]) {}
  }

  /** A prune that reaches the row of the n-th event may remove it. */
  lemma ReachedRemoval(windowOf: string -> nat, events: seq<RowEvent>, n: nat) returns (r: seq<RowEvent>)
    requires ValidWindows(windowOf, events) && n < |events| && events[n].Hit? && PruneReaches(windowOf, events, n)
    ensures SameStamps(events, r) && ValidWindows(windowOf, r) && PrunesExpired(windowOf, r)
    ensures RemovedBefore(r[..n], KeyOf(windowOf, events[n]))
  {
    var k := KeyOf(windowOf, events[n]);
    var i :| 0 <= i < n && events[i].Prune? && ExpiryOf(windowOf, k) <= events[i].stamp
      && HitsOn(windowOf, events[..i], k) > 0;
    r := OnlyRemoves(events, i, k);
    OneRemoval(windowOf, events, i, k);
    assert r[..n][i].Prune? && k in r[..n][i].removed;
  }

  ghost predicate Unaffected(windowOf: string -> nat, events: seq<RowEvent>, n: nat)
    requires ValidWindows(windowOf, events) && n < |events| && events[n].Hit?
  {
    CountAt(windowOf, events, n) == HitsOn(windowOf, events[..n + 1], KeyOf(windowOf, events[n]))
  }

  /** For any requests and prunes with any stamps: whatever expired rows the prunes remove, a request is counted
      with all requests of its window, if and only if no prune reaches its row. */
  lemma CleanupHarmlessIff(windowOf: string -> nat, events: seq<RowEvent>, n: nat)
    requires ValidWindows(windowOf, events) && n < |events| && events[n].Hit?
    ensures (forall r :: SameStamps(events, r) && ValidWindows(windowOf, r) && PrunesExpired(windowOf, r) ==>
        Unaffected(windowOf, r, n))
      <==> !PruneReaches(windowOf, events, n)
  {
    if PruneReaches(windowOf, events, n) {
      var r := ReachedRemoval(windowOf, events, n);
      CountUnaffectedIff(windowOf, r, n);
      assert !Unaffected(windowOf, r, n);
    } else {
      forall r | SameStamps(events, r) && ValidWindows(windowOf, r) && PrunesExpired(windowOf, r)
        ensures Unaffected(windowOf, r, n)
      {
        SameReach(windowOf, events, r, n);
        CleanupNeverChangesCount(windowOf, r, n);
      }
    }
  }

  lemma SameReach(windowOf: string -> nat, a: seq<RowEvent>, b: seq<RowEvent>, n: nat)
    requires SameStamps(a, b) && ValidWindows(windowOf, a) && ValidWindows(windowOf, b) && n < |a| && a[n].Hit?
    ensures PruneReaches(windowOf, b, n) ==> PruneReaches(windowOf, a, n)
  {
    var k := KeyOf(windowOf, b[n]);
    if PruneReaches(windowOf, b, n) {
      var i :| 0 <= i < n && b[i].Prune? && ExpiryOf(windowOf, k) <= b[i].stamp && HitsOn(windowOf, b[..i], k) > 0;
      SameHits(windowOf, a[..i], b[..i], k);
    }
  }

  /** A clock that runs back by no more than one window, or than what is left of the hour after one window, is
      enough. */
  lemma SkewIsHarmless(windowOf: string -> nat, events: seq<RowEvent>, n: nat)
    requires ValidWindows(windowOf, events) && n < |events| && events[n].Hit?
    requires var w := windowOf(events[n].bucket);
      forall i :: 0 <= i < n && events[i].Prune? ==> events[i].stamp <= events[n].now + Max(w, KEEP_AT_LEAST - w)
    ensures !PruneReaches(windowOf, events, n)
  {
    FloorBounds(events[n].now, windowOf(events[n].bucket));
  }

  lemma FloorBounds(now: int, w: nat)
    requires w > 0
    ensures now / w * w <= now < now / w * w + w
  {
  }

  // ---- The bound of the shared limiter ----

  /** Requests of one client and bucket among events[..n], stamped in [lo, hi) and counted within `limit`. */
  function AdmittedBetween(windowOf: string -> nat, events: seq<RowEvent>, n: nat,
                           bucket: string, client: string, limit: nat, lo: int, hi: int): nat
    requires ValidWindows(windowOf, events) && n <= |events|
  {
    if n == 0 then 0
    else
      var e := events[n - 1];
      AdmittedBetween(windowOf, events, n - 1, bucket, client, limit, lo, hi) +
      if e.Hit? && e.bucket == bucket && e.client == client && lo <= e.now < hi
         && CountAt(windowOf, events, n - 1) <= limit
      then 1 else 0
  }

  /** No prune reaches a row that a later request of this client and bucket counts in. */
  ghost predicate PrunesInTime(windowOf: string -> nat, events: seq<RowEvent>, bucket: string, client: string)
    requires ValidWindows(windowOf, events)
  {
    forall n :: 0 <= n < |events| && events[n].Hit? && events[n].bucket == bucket && events[n].client == client ==>
      !PruneReaches(windowOf, events, n)
  }

  /** No prune reaches this row before a later request that counts in it. */
  ghost predicate RowInTime(windowOf: string -> nat, events: seq<RowEvent>, k: RowKey)
    requires ValidWindows(windowOf, events)
  {
    forall n :: 0 <= n < |events| && events[n].Hit? && KeyOf(windowOf, events[n]) == k ==>
      !PruneReaches(windowOf, events, n)
  }

  lemma {:induction false} OneWindowBound(windowOf: string -> nat, events: seq<RowEvent>, n: nat,
                                          bucket: string, client: string, limit: nat, q: int)
    requires ValidWindows(windowOf, events) && PrunesExpired(windowOf, events)
    requires n <= |events| && windowOf(bucket) > 0
    requires RowInTime(windowOf, events, RowKey(bucket, client, q * windowOf(bucket)))
    ensures var w := windowOf(bucket);
      AdmittedBetween(windowOf, events, n, bucket, client, limit, q * w, (q + 1) * w)
      <= Min(limit, HitsOn(windowOf, events[..n], RowKey(bucket, client, q * w)))
  {
    if n > 0 {
      OneWindowBound(windowOf, events, n - 1, bucket, client, limit, q);
      assert events[..n][..n - 1] == events[..n - 1];
      var e, w := events[n - 1], windowOf(bucket);
      if e.Hit? && e.bucket == bucket && e.client == client && q * w <= e.now < (q + 1) * w {
        QuotientUnique(e.now, w, q);
        CleanupNeverChangesCount(windowOf, events, n - 1);
      }
    }
  }

  lemma QuotientUnique(x: int, w: nat, q: int)
    requires w > 0 && q * w <= x < (q + 1) * w
    ensures x / w == q
  {
    var d := x / w;
    FloorBounds(x, w);
    Separate(d, q, w);
    Separate(q, d, w);
  }

  lemma Separate(d: int, q: int, w: nat)
    ensures d < q ==> d * w + w <= q * w
    ensures (d + 1) * w == d * w + w
  {
    if d < q { Grow(d + 1, w, q - d - 1); }
  }

  lemma {:induction false} AdmittedSplit(windowOf: string -> nat, events: seq<RowEvent>, n: nat, bucket: string,
                                         client: string, limit: nat, lo: int, mid: int, hi: int)
    requires ValidWindows(windowOf, events) && n <= |events| && lo <= mid <= hi
    ensures AdmittedBetween(windowOf, events, n, bucket, client, limit, lo, hi)
      == AdmittedBetween(windowOf, events, n, bucket, client, limit, lo, mid)
       + AdmittedBetween(windowOf, events, n, bucket, client, limit, mid, hi)
  {
    if n > 0 { AdmittedSplit(windowOf, events, n - 1, bucket, client, limit, lo, mid, hi); }
  }

  lemma {:induction false} AlignedBound(windowOf: string -> nat, events: seq<RowEvent>,
                                        bucket: string, client: string, limit: nat, q: int, k: nat)
    requires ValidWindows(windowOf, events) && PrunesExpired(windowOf, events)
    requires PrunesInTime(windowOf, events, bucket, client)
    requires windowOf(bucket) > 0
    ensures var w := windowOf(bucket);
      AdmittedBetween(windowOf, events, |events|, bucket, client, limit, q * w, (q + k) * w) <= k * limit
  {
    var w := windowOf(bucket);
    if k == 0 {
      NothingBetween(windowOf, events, |events|, bucket, client, limit, q * w);
    } else {
      AlignedBound(windowOf, events, bucket, client, limit, q, k - 1);
      OneWindowBound(windowOf, events, |events|, bucket, client, limit, q + k - 1);
      assert q * w <= (q + k - 1) * w <= (q + k) * w by { Grow(q, w, k - 1); Grow(q + k - 1, w, 1); }
      AdmittedSplit(windowOf, events, |events|, bucket, client, limit, q * w, (q + k - 1) * w, (q + k) * w);
      OneLess(k, limit);
    }
  }

  lemma Grow(q: int, w: nat, k: nat)
    ensures q * w <= (q + k) * w
  {
    assert (q + k) * w == q * w + k * w;
  }

  lemma {:induction false} NothingBetween(windowOf: string -> nat, events: seq<RowEvent>, n: nat,
                                          bucket: string, client: string, limit: nat, at: int)
    requires ValidWindows(windowOf, events) && n <= |events|
    ensures AdmittedBetween(windowOf, events, n, bucket, client, limit, at, at) == 0
  {
    if n > 0 { NothingBetween(windowOf, events, n - 1, bucket, client, limit, at); }
  }

  lemma EndOf(q: int, k: int, w: nat)
    ensures (q + (k + 1)) * w == q * w + k * w + w
  {
  }

  /** At most `limit` requests of the client pass in the q-th window. */
  ghost predicate WindowHolds(windowOf: string -> nat, events: seq<RowEvent>, bucket: string, client: string,
                              limit: nat, q: int)
    requires ValidWindows(windowOf, events) && windowOf(bucket) > 0
  {
    var w := windowOf(bucket);
    AdmittedBetween(windowOf, events, |events|, bucket, client, limit, q * w, (q + 1) * w) <= limit
  }

  lemma InWindowIff(windowOf: string -> nat, e: RowEvent, bucket: string, client: string, q: int)
    requires e.Hit? && windowOf(e.bucket) > 0 && windowOf(bucket) > 0
    ensures var w := windowOf(bucket);
      e.bucket == bucket && e.client == client && q * w <= e.now < (q + 1) * w
      <==> KeyOf(windowOf, e) == RowKey(bucket, client, q * w)
  {
    var w := windowOf(bucket);
    Separate(q, q, w);
    FloorBounds(e.now, windowOf(e.bucket));
    if e.bucket == bucket && q * w <= e.now < (q + 1) * w { QuotientUnique(e.now, w, q); }
  }

  lemma CountAtMostHits(windowOf: string -> nat, events: seq<RowEvent>, n: nat)
    requires ValidWindows(windowOf, events) && PrunesExpired(windowOf, events) && n < |events| && events[n].Hit?
    ensures CountAt(windowOf, events, n) <= HitsOn(windowOf, events[..n + 1], KeyOf(windowOf, events[n]))
  {
    ExpiredPrefix(windowOf, events, n + 1);
    RowCount(windowOf, events[..n + 1], KeyOf(windowOf, events[n]));
  }

  lemma HitsNext(windowOf: string -> nat, events: seq<RowEvent>, n: nat)
    requires ValidWindows(windowOf, events) && n < |events| && events[n].Hit?
    ensures var k := KeyOf(windowOf, events[n]);
      HitsOn(windowOf, events[..n + 1], k) == HitsOn(windowOf, events[..n], k) + 1
  {
    assert events[..n + 1][..n] == events[..n];
  }

  lemma {:induction false} HitsGrow(windowOf: string -> nat, events: seq<RowEvent>, m: nat, n: nat, k: RowKey)
    requires ValidWindows(windowOf, events) && m <= n <= |events|
    ensures HitsOn(windowOf, events[..m], k) <= HitsOn(windowOf, events[..n], k)
  {
    if m < n {
      HitsGrow(windowOf, events, m, n - 1, k);
      assert events[..n][..n - 1] == events[..n - 1];
    }
  }

  ghost predicate CountsWithin(windowOf: string -> nat, events: seq<RowEvent>, m: nat, k: RowKey, limit: nat)
    requires ValidWindows(windowOf, events) && m <= |events|
  {
    forall j :: 0 <= j < m && events[j].Hit? && KeyOf(windowOf, events[j]) == k ==>
      CountAt(windowOf, events, j) <= limit
  }

  lemma {:induction false} AllAdmitted(windowOf: string -> nat, events: seq<RowEvent>, m: nat,
                                       bucket: string, client: string, limit: nat, q: int, k: RowKey)
    requires ValidWindows(windowOf, events) && m <= |events| && windowOf(bucket) > 0
    requires k == RowKey(bucket, client, q * windowOf(bucket)) && CountsWithin(windowOf, events, m, k, limit)
    ensures var w := windowOf(bucket);
      AdmittedBetween(windowOf, events, m, bucket, client, limit, q * w, (q + 1) * w)
      == HitsOn(windowOf, events[..m], k)
  {
    if m > 0 {
      AllAdmitted(windowOf, events, m - 1, bucket, client, limit, q, k);
      assert events[..m][..m - 1] == events[..m - 1];
      if events[m - 1].Hit? { InWindowIff(windowOf, events[m - 1], bucket, client, q); }
    }
  }

  lemma {:induction false} AdmittedGrows(windowOf: string -> nat, events: seq<RowEvent>, m: nat, n: nat,
                                         bucket: string, client: string, limit: nat, lo: int, hi: int)
    requires ValidWindows(windowOf, events) && m <= n <= |events|
    ensures AdmittedBetween(windowOf, events, m, bucket, client, limit, lo, hi)
      <= AdmittedBetween(windowOf, events, n, bucket, client, limit, lo, hi)
  {
    if m < n { AdmittedGrows(windowOf, events, m, n - 1, bucket, client, limit, lo, hi); }
  }

  /** Up to a request whose row has been removed before, no count passes the number of requests before it. */
  lemma CountAfterRemoval(windowOf: string -> nat, events: seq<RowEvent>, n: nat, j: nat)
    requires ValidWindows(windowOf, events) && PrunesExpired(windowOf, events) && j <= n < |events|
    requires events[n].Hit? && events[j].Hit? && KeyOf(windowOf, events[j]) == KeyOf(windowOf, events[n])
    requires RemovedBefore(events[..n], KeyOf(windowOf, events[n]))
    ensures CountAt(windowOf, events, j) <= HitsOn(windowOf, events[..n], KeyOf(windowOf, events[n]))
  {
    CountAtMostHits(windowOf, events, j);
    if j < n {
      HitsGrow(windowOf, events, j + 1, n, KeyOf(windowOf, events[n]));
    } else {
      CountUnaffectedIff(windowOf, events, n);
      HitsNext(windowOf, events, n);
    }
  }

  /** Once a row has been removed, its next request is counted below the number of requests there have been. */
  lemma CountsAfterRemoval(windowOf: string -> nat, events: seq<RowEvent>, n: nat, k: RowKey)
    requires ValidWindows(windowOf, events) && PrunesExpired(windowOf, events) && n < |events|
    requires events[n].Hit? && KeyOf(windowOf, events[n]) == k && RemovedBefore(events[..n], k)
    ensures HitsOn(windowOf, events[..n + 1], k) == HitsOn(windowOf, events[..n], k) + 1
    ensures CountsWithin(windowOf, events, n + 1, k, HitsOn(windowOf, events[..n], k))
  {
    HitsNext(windowOf, events, n);
    forall j | 0 <= j < n + 1 && events[j].Hit? && KeyOf(windowOf, events[j]) == k
      ensures CountAt(windowOf, events, j) <= HitsOn(windowOf, events[..n], k)
    {
      CountAfterRemoval(windowOf, events, n, j);
    }
  }

  /** After m events more of a row's requests have been counted within the limit than it allows. */
  ghost predicate Refilled(windowOf: string -> nat, events: seq<RowEvent>, m: nat, k: RowKey, limit: nat) {
    && ValidWindows(windowOf, events) && PrunesExpired(windowOf, events) && m <= |events|
    && HitsOn(windowOf, events[..m], k) > limit && CountsWithin(windowOf, events, m, k, limit)
  }

  lemma RemovalRefills(windowOf: string -> nat, events: seq<RowEvent>, n: nat, k: RowKey)
    requires ValidWindows(windowOf, events) && PrunesExpired(windowOf, events) && n < |events|
    requires events[n].Hit? && KeyOf(windowOf, events[n]) == k && RemovedBefore(events[..n], k)
    ensures Refilled(windowOf, events, n + 1, k, HitsOn(windowOf, events[..n], k))
  {
    CountsAfterRemoval(windowOf, events, n, k);
  }

  /** A prune that reaches a row may let it refill. */
  lemma LatePruneRefills(windowOf: string -> nat, events: seq<RowEvent>, n: nat)
    returns (r: seq<RowEvent>, limit: nat)
    requires ValidWindows(windowOf, events) && n < |events| && events[n].Hit? && PruneReaches(windowOf, events, n)
    ensures SameStamps(events, r) && Refilled(windowOf, r, n + 1, KeyOf(windowOf, events[n]), limit)
  {
    r := ReachedRemoval(windowOf, events, n);
    limit := HitsOn(windowOf, r[..n], KeyOf(windowOf, events[n]));
    RemovalRefills(windowOf, r, n, KeyOf(windowOf, events[n]));
  }

  /** If the requests of a window outnumber the limit and are all counted within it, they all pass. */
  lemma Overfills(windowOf: string -> nat, events: seq<RowEvent>, m: nat, bucket: string, client: string,
                  limit: nat, q: int, k: RowKey)
    requires k == RowKey(bucket, client, q * windowOf(bucket)) && windowOf(bucket) > 0
    requires Refilled(windowOf, events, m, k, limit)
    ensures !WindowHolds(windowOf, events, bucket, client, limit, q)
  {
    var w := windowOf(bucket);
    AllAdmitted(windowOf, events, m, bucket, client, limit, q, k);
    AdmittedGrows(windowOf, events, m, |events|, bucket, client, limit, q * w, (q + 1) * w);
  }

  /** For any requests and prunes with any stamps: whatever expired rows the prunes remove and whatever the limit,
      a window admits no more than the limit, if and only if no prune reaches its row before a later request. */
  lemma WindowBoundIff(windowOf: string -> nat, events: seq<RowEvent>, bucket: string, client: string, q: int)
    requires ValidWindows(windowOf, events) && windowOf(bucket) > 0
    ensures (forall r, limit: nat ::
        SameStamps(events, r) && ValidWindows(windowOf, r) && PrunesExpired(windowOf, r) ==>
          WindowHolds(windowOf, r, bucket, client, limit, q))
      <==> RowInTime(windowOf, events, RowKey(bucket, client, q * windowOf(bucket)))
  {
    var k := RowKey(bucket, client, q * windowOf(bucket));
    if RowInTime(windowOf, events, k) {
      forall r, limit: nat | SameStamps(events, r) && ValidWindows(windowOf, r) && PrunesExpired(windowOf, r)
        ensures WindowHolds(windowOf, r, bucket, client, limit, q)
      {
        SameRowInTime(windowOf, events, r, k);
        OneWindowBound(windowOf, r, |r|, bucket, client, limit, q);
      }
    } else {
      var n :| 0 <= n < |events| && events[n].Hit? && KeyOf(windowOf, events[n]) == k
        && PruneReaches(windowOf, events, n);
      var r, limit := LatePruneRefills(windowOf, events, n);
      Overfills(windowOf, r, n + 1, bucket, client, limit, q, k);
    }
  }

  lemma SameRowInTime(windowOf: string -> nat, a: seq<RowEvent>, b: seq<RowEvent>, k: RowKey)
    requires SameStamps(a, b) && ValidWindows(windowOf, a) && ValidWindows(windowOf, b) && RowInTime(windowOf, a, k)
    ensures RowInTime(windowOf, b, k)
  {
    forall n | 0 <= n < |b| && b[n].Hit? && KeyOf(windowOf, b[n]) == k ensures !PruneReaches(windowOf, b, n) {
      SameReach(windowOf, a, b, n);
    }
  }

  /** So over all its windows the limiter keeps to every limit exactly when all prunes are in time. */
  lemma EveryWindowBoundIff(windowOf: string -> nat, events: seq<RowEvent>, bucket: string, client: string)
    requires ValidWindows(windowOf, events) && windowOf(bucket) > 0
    ensures (forall r, limit: nat, q ::
        SameStamps(events, r) && ValidWindows(windowOf, r) && PrunesExpired(windowOf, r) ==>
          WindowHolds(windowOf, r, bucket, client, limit, q))
      <==> PrunesInTime(windowOf, events, bucket, client)
  {
    var w := windowOf(bucket);
    if PrunesInTime(windowOf, events, bucket, client) {
      forall r, limit: nat, q | SameStamps(events, r) && ValidWindows(windowOf, r) && PrunesExpired(windowOf, r)
        ensures WindowHolds(windowOf, r, bucket, client, limit, q)
      {
        WindowBoundIff(windowOf, events, bucket, client, q);
      }
    } else {
      var n :| 0 <= n < |events| && events[n].Hit? && events[n].bucket == bucket && events[n].client == client
        && PruneReaches(windowOf, events, n);
      assert !RowInTime(windowOf, events, RowKey(bucket, client, events[n].now / w * w));
      WindowBoundIff(windowOf, events, bucket, client, events[n].now / w);
    }
  }

  /** The shared limiter keeps the sliding bound too, with stamps as far out of order as prunes stay in time. */
  lemma SharedRateBound(windowOf: string -> nat, events: seq<RowEvent>,
                        bucket: string, client: string, limit: nat, a: int, k: nat)
    requires ValidWindows(windowOf, events) && PrunesExpired(windowOf, events)
    requires PrunesInTime(windowOf, events, bucket, client)
    requires windowOf(bucket) > 0
    ensures AdmittedBetween(windowOf, events, |events|, bucket, client, limit, a, a + k * windowOf(bucket))
      <= (k + 1) * limit
  {
    var w := windowOf(bucket);
    var q := a / w;
    FloorBounds(a, w);
    AlignedBound(windowOf, events, bucket, client, limit, q, k + 1);
    var end := (q + (k + 1)) * w;
    EndOf(q, k, w);
    AdmittedSplit(windowOf, events, |events|, bucket, client, limit, q * w, a, end);
    AdmittedSplit(windowOf, events, |events|, bucket, client, limit, a, a + k * w, end);
  }

  // ---- Prunes that come too late ----

  const MINUTES: string -> nat := (b: string) => 60_000
  const EARLY := Hit("api-read", "ip:1", 5)
  const EARLY_ROW := RowKey("api-read", "ip:1", 0)

  function Later(now: int): RowEvent { Hit("api-read", "ip:2", now) }

  /** Three requests of one window, and between each two a request of another client stamped an hour later, with
      the cleanup it starts. */
  const LATE_PRUNES := [
    EARLY, Later(3_600_000), Prune(3_600_000, {EARLY_ROW}),
    EARLY, Later(3_900_000), Prune(3_900_000, {EARLY_ROW}), EARLY]

  lemma LateRow(n: nat)
    requires n <= 7
    ensures ValidWindows(MINUTES, LATE_PRUNES)
    ensures KeyOf(MINUTES, EARLY) == EARLY_ROW
    ensures var rows := Rows(MINUTES, LATE_PRUNES[..n]);
      if n in {1, 2, 4, 5, 7} then EARLY_ROW in rows && rows[EARLY_ROW] == Row(1, 3_600_000) else EARLY_ROW !in rows
    ensures HitsOn(MINUTES, LATE_PRUNES[..n], EARLY_ROW)
      == if n == 0 then 0 else if n <= 3 then 1 else if n <= 6 then 2 else 3
  {
    assert KeyOf(MINUTES, Later(3_600_000)) != EARLY_ROW && KeyOf(MINUTES, Later(3_900_000)) != EARLY_ROW;
    if n > 0 {
      LateRow(n - 1);
      assert LATE_PRUNES[..n][..n - 1] == LATE_PRUNES[..n - 1];
    }
  }

  lemma LatePrunesExpired()
    ensures ValidWindows(MINUTES, LATE_PRUNES) && PrunesExpired(MINUTES, LATE_PRUNES)
  {
    LateRow(2);
    LateRow(5);
    assert PruneExpired(MINUTES, LATE_PRUNES[..2], LATE_PRUNES[2]);
    assert PruneExpired(MINUTES, LATE_PRUNES[..5], LATE_PRUNES[5]);
  }

  /** The second request of the window, and the third, are counted as its first. */
  lemma LatePruneResetsCount()
    ensures ValidWindows(MINUTES, LATE_PRUNES) && PrunesExpired(MINUTES, LATE_PRUNES)
    ensures CountAt(MINUTES, LATE_PRUNES, 0) == 1
    ensures CountAt(MINUTES, LATE_PRUNES, 3) == 1 && CountAt(MINUTES, LATE_PRUNES, 6) == 1
    ensures HitsOn(MINUTES, LATE_PRUNES, EARLY_ROW) == 3
  {
    LatePrunesExpired();
    LateRow(1);
    LateRow(4);
    LateRow(7);
    assert LATE_PRUNES[..7] == LATE_PRUNES;
  }

  /** So the sliding bound can fail when a prune is late: three requests pass a limit of one within one window. */
  lemma LatePrunesBreakBound()
    ensures ValidWindows(MINUTES, LATE_PRUNES) && PrunesExpired(MINUTES, LATE_PRUNES)
    ensures AdmittedBetween(MINUTES, LATE_PRUNES, 7, "api-read", "ip:1", 1, 0, 60_000) == 3 > (1 + 1) * 1
    ensures PruneReaches(MINUTES, LATE_PRUNES, 3)
  {
    LatePruneResetsCount();
    assert LATE_PRUNES[..7] == LATE_PRUNES;
    AllAdmitted(MINUTES, LATE_PRUNES, 7, "api-read", "ip:1", 1, 0, EARLY_ROW);
    LateRow(2);
    assert LATE_PRUNES[2].Prune?;
  }
}
