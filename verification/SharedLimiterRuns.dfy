/** The shared limiter as a whole: any number of processes, each with its own cleanup, over one table of counter
    rows (operations.ts, rate-limit-repository.ts). */
module SharedLimiterRuns {
  import opened Prelude
  import opened SharedRateLimit

  /** The atomic steps: the database counts a request; its process carries on and may start a cleanup; a running
      cleanup deletes rows; it ends; its slot is cleared. */
  datatype Act =
    | Counted(bucket: string, client: string, now: int)
    | Answered(process: nat, now: int)
    | Pruned(process: nat, removed: set<RowKey>)
    | Ended(process: nat, outcome: Outcome)
    | Freed(process: nat)

  /** The scheduler of each process that has used it, and what the database has done. */
  datatype System = System(schedulers: map<nat, Scheduler>, log: seq<RowEvent>)

  const FRESH := System(map[], [])

  function SchedulerOf(s: System, process: nat): Scheduler {
    if process in s.schedulers then s.schedulers[process] else Scheduler(None, Idle)
  }

  ghost predicate Positive(windowOf: string -> nat) { forall b :: windowOf(b) > 0 }

  predicate HitAt(log: seq<RowEvent>, now: int) {
    exists i :: 0 <= i < |log| && log[i].Hit? && log[i].now == now
  }

  ghost predicate Allowed(windowOf: string -> nat, s: System, a: Act)
    requires Positive(windowOf)
  {
    match a
    case Counted(_, _, _) => true
    case Answered(_, now) => HitAt(s.log, now)
    case Pruned(process, removed) =>
      var flight := SchedulerOf(s, process).flight;
      && flight.Running?
      && forall k :: k in removed ==>
           k in Rows(windowOf, s.log) && Rows(windowOf, s.log)[k].expiresAt <= flight.stamp
    case Ended(process, _) => SchedulerOf(s, process).flight.Running?
    case Freed(process) => SchedulerOf(s, process).flight.Settled?
  }

  /** The process a step belongs to, and the scheduler step it makes. */
  function Scheduling(a: Act, process: nat): seq<Event> {
    match a
    case Answered(p, now) => if p == process then [Consumed(now)] else []
    case Ended(p, outcome) => if p == process then [Settles(outcome)] else []
    case Freed(p) => if p == process then [Clears] else []
    case _ => []
  }

  ghost function Next(windowOf: string -> nat, s: System, a: Act): System
    requires Positive(windowOf) && Allowed(windowOf, s, a)
  {
    match a
    case Counted(bucket, client, now) => s.(log := s.log + [Hit(bucket, client, now)])
    case Answered(p, now) => s.(schedulers := s.schedulers[p := Step(SchedulerOf(s, p), Consumed(now))])
    case Pruned(p, removed) => s.(log := s.log + [Prune(SchedulerOf(s, p).flight.stamp, removed)])
    case Ended(p, outcome) => s.(schedulers := s.schedulers[p := Step(SchedulerOf(s, p), Settles(outcome))])
    case Freed(p) => s.(schedulers := s.schedulers[p := Step(SchedulerOf(s, p), Clears)])
  }

  /** Where a run of steps leads; None when one of them was not possible. */
  ghost function Run(windowOf: string -> nat, acts: seq<Act>): Option<System>
    requires Positive(windowOf)
  {
    if acts == [] then Some(FRESH)
    else
      match Run(windowOf, acts[..|acts| - 1])
      case None => None
      case Some(s) =>
        var a := acts[|acts| - 1];
        if Allowed(windowOf, s, a) then Some(Next(windowOf, s, a)) else None
  }

  // ---- Each process keeps the cleanup protocol ----

  function Scheduled(acts: seq<Act>, process: nat): seq<Event> {
    if acts == [] then []
    else Scheduled(acts[..|acts| - 1], process) + Scheduling(acts[|acts| - 1], process)
  }

  lemma AppendEvent(events: seq<Event>, e: Event)
    requires Possible(events) && Enabled(After(events), e)
    ensures Possible(events + [e]) && After(events + [e]) == Step(After(events), e)
  {
    assert (events + [e])[..|events|] == events;
  }

  /** In every run of the whole system each process makes a possible run of its own, to which the cleanup protocol
      applies. */
  lemma {:induction false} ProcessKeepsProtocol(windowOf: string -> nat, acts: seq<Act>, process: nat)
    requires Positive(windowOf) && Run(windowOf, acts).Some?
    ensures Possible(Scheduled(acts, process))
    ensures After(Scheduled(acts, process)) == SchedulerOf(Run(windowOf, acts).value, process)
  {
    if acts != [] {
      var front, a := acts[..|acts| - 1], acts[|acts| - 1];
      ProcessKeepsProtocol(windowOf, front, process);
      var events := Scheduled(front, process);
      assert events + [] == events;
      match a
      case Answered(p, now) => if p == process { AppendEvent(events, Consumed(now)); }
      case Ended(p, outcome) => if p == process { AppendEvent(events, Settles(outcome)); }
      case Freed(p) => if p == process { AppendEvent(events, Clears); }
      case _ =>
    }
  }

  // ---- A prune carries the stamp of an earlier request ----

  ghost predicate StampedByRequests(log: seq<RowEvent>) {
    forall i :: 0 <= i < |log| && log[i].Prune? ==> HitAt(log[..i], log[i].stamp)
  }

  ghost predicate Sound(windowOf: string -> nat, s: System)
    requires Positive(windowOf)
  {
    && StampedByRequests(s.log) && PrunesExpired(windowOf, s.log)
    && forall p :: p in s.schedulers && s.schedulers[p].flight.Running? ==> HitAt(s.log, s.schedulers[p].flight.stamp)
  }

  lemma HitStays(log: seq<RowEvent>, e: RowEvent, now: int)
    requires HitAt(log, now)
    ensures HitAt(log + [e], now)
  {
    var i :| 0 <= i < |log| && log[i].Hit? && log[i].now == now;
    assert (log + [e])[i] == log[i];
  }

  lemma LogKeepsSound(windowOf: string -> nat, log: seq<RowEvent>, e: RowEvent)
    requires Positive(windowOf) && StampedByRequests(log) && PrunesExpired(windowOf, log)
    requires e.Prune? ==> HitAt(log, e.stamp)
    requires PruneExpired(windowOf, log, e)
    ensures StampedByRequests(log + [e]) && PrunesExpired(windowOf, log + [e])
  {
    var all := log + [e];
    forall i | 0 <= i <= |log| ensures all[..i] == log[..i] {}
    assert log[..|log|] == log;
  }

  lemma NextKeepsSound(windowOf: string -> nat, s: System, a: Act)
    requires Positive(windowOf) && Sound(windowOf, s) && Allowed(windowOf, s, a)
    ensures Sound(windowOf, Next(windowOf, s, a))
  {
    match a
    case Counted(bucket, client, now) =>
      var e := Hit(bucket, client, now);
      LogKeepsSound(windowOf, s.log, e);
      forall p | p in s.schedulers && s.schedulers[p].flight.Running?
        ensures HitAt(s.log + [e], s.schedulers[p].flight.stamp)
      {
        HitStays(s.log, e, s.schedulers[p].flight.stamp);
      }
    case Pruned(process, removed) =>
      var e := Prune(SchedulerOf(s, process).flight.stamp, removed);
      LogKeepsSound(windowOf, s.log, e);
      forall p | p in s.schedulers && s.schedulers[p].flight.Running?
        ensures HitAt(s.log + [e], s.schedulers[p].flight.stamp)
      {
        HitStays(s.log, e, s.schedulers[p].flight.stamp);
      }
    case _ =>
  }

  /** In every run each prune is stamped with the time of a request counted before it, and removes only rows that
      have expired by then. */
  lemma {:induction false} PrunesCarryRequestStamps(windowOf: string -> nat, acts: seq<Act>)
    requires Positive(windowOf) && Run(windowOf, acts).Some?
    ensures Sound(windowOf, Run(windowOf, acts).value)
  {
    if acts != [] {
      PrunesCarryRequestStamps(windowOf, acts[..|acts| - 1]);
      NextKeepsSound(windowOf, Run(windowOf, acts[..|acts| - 1]).value, acts[|acts| - 1]);
    }
  }

  // ---- The bound, from the requests' stamps alone ----

  /** No earlier request of anyone is stamped more than one window, or an hour less one window where that is more,
      after a request of this client and bucket. */
  ghost predicate SlightSkew(windowOf: string -> nat, log: seq<RowEvent>, bucket: string, client: string) {
    var w := windowOf(bucket);
    forall j, n ::
      0 <= j < n < |log| && log[j].Hit? && log[n].Hit? && log[n].bucket == bucket && log[n].client == client ==>
        log[j].now <= log[n].now + Max(w, KEEP_AT_LEAST - w)
  }

  /** With stamps that little out of order every prune is in time. */
  lemma RequestSkewIsHarmless(windowOf: string -> nat, log: seq<RowEvent>, bucket: string, client: string)
    requires Positive(windowOf) && StampedByRequests(log) && SlightSkew(windowOf, log, bucket, client)
    ensures PrunesInTime(windowOf, log, bucket, client)
  {
    forall n | 0 <= n < |log| && log[n].Hit? && log[n].bucket == bucket && log[n].client == client
      ensures !PruneReaches(windowOf, log, n)
    {
      forall i | 0 <= i < n && log[i].Prune?
        ensures log[i].stamp <= log[n].now + Max(windowOf(bucket), KEEP_AT_LEAST - windowOf(bucket))
      {
        var j :| 0 <= j < i && log[..i][j].Hit? && log[..i][j].now == log[i].stamp;
        assert log[j] == log[..i][j];
      }
      SkewIsHarmless(windowOf, log, n);
    }
  }

  /** In every run of any number of processes in which requests are stamped that little out of order, any interval
      of k windows admits at most (k + 1) * limit requests of one client in one bucket, cleanups included. */
  lemma SystemRateBound(windowOf: string -> nat, acts: seq<Act>, bucket: string, client: string, limit: nat,
                        a: int, k: nat)
    requires Positive(windowOf) && Run(windowOf, acts).Some?
    requires SlightSkew(windowOf, Run(windowOf, acts).value.log, bucket, client)
    ensures var log := Run(windowOf, acts).value.log;
      AdmittedBetween(windowOf, log, |log|, bucket, client, limit, a, a + k * windowOf(bucket)) <= (k + 1) * limit
  {
    var log := Run(windowOf, acts).value.log;
    PrunesCarryRequestStamps(windowOf, acts);
    RequestSkewIsHarmless(windowOf, log, bucket, client);
    SharedRateBound(windowOf, log, bucket, client, limit, a, k);
  }

  // ---- The late prunes do occur ----

  lemma RunNext(windowOf: string -> nat, acts: seq<Act>, s: System, a: Act)
    requires Positive(windowOf) && Run(windowOf, acts) == Some(s) && Allowed(windowOf, s, a)
    ensures Run(windowOf, acts + [a]) == Some(Next(windowOf, s, a))
  {
    assert (acts + [a])[..|acts|] == acts;
  }

  /** A request that is counted and starts a cleanup of process 0. */
  function StartActs(client: string, now: int): seq<Act> {
    [Counted("api-read", client, now), Answered(0, now)]
  }

  lemma StartRuns(windowOf: string -> nat, acts: seq<Act>, s: System, client: string, now: int)
    requires Positive(windowOf) && Run(windowOf, acts) == Some(s) && Starts(SchedulerOf(s, 0), now)
    ensures Run(windowOf, acts + StartActs(client, now)) == Some(System(
      s.schedulers[0 := Scheduler(Some(now + CLEANUP_EVERY), Running(now))], s.log + [Hit("api-read", client, now)]))
  {
    var counted, hit := Counted("api-read", client, now), Hit("api-read", client, now);
    var t := System(s.schedulers, s.log + [hit]);
    RunNext(windowOf, acts, s, counted);
    assert t.log[|s.log|] == hit;
    assert HitAt(t.log, now) && SchedulerOf(t, 0) == SchedulerOf(s, 0);
    RunNext(windowOf, acts + [counted], t, Answered(0, now));
    assert acts + StartActs(client, now) == acts + [counted] + [Answered(0, now)];
  }

  /** The cleanup removes one row and ends. */
  function FinishActs(k: RowKey): seq<Act> {
    [Pruned(0, {k}), Ended(0, Removed(1)), Freed(0)]
  }

  lemma FinishRuns(windowOf: string -> nat, acts: seq<Act>, s: System, k: RowKey, now: int, next: Option<int>)
    requires Positive(windowOf) && Run(windowOf, acts) == Some(s)
    requires 0 in s.schedulers && s.schedulers[0] == Scheduler(next, Running(now))
    requires k in Rows(windowOf, s.log) && Rows(windowOf, s.log)[k].expiresAt <= now
    ensures Run(windowOf, acts + FinishActs(k)) ==
      Some(System(s.schedulers[0 := Scheduler(next, Idle)], s.log + [Prune(now, {k})]))
  {
    var log := s.log + [Prune(now, {k})];
    var t := System(s.schedulers, log);
    var u := System(s.schedulers[0 := Scheduler(next, Settled)], log);
    RunNext(windowOf, acts, s, Pruned(0, {k}));
    RunNext(windowOf, acts + [Pruned(0, {k})], t, Ended(0, Removed(1)));
    RunNext(windowOf, acts + [Pruned(0, {k})] + [Ended(0, Removed(1))], u, Freed(0));
    assert acts + FinishActs(k) == acts + [Pruned(0, {k})] + [Ended(0, Removed(1))] + [Freed(0)];
    assert u.schedulers[0 := Scheduler(next, Idle)] == s.schedulers[0 := Scheduler(next, Idle)];
  }

  const EARLY_ACT := Counted("api-read", "ip:1", 5)

  /** An early request, then one an hour later and the cleanup that one starts. */
  function RoundActs(now: int): seq<Act> { [EARLY_ACT] + StartActs("ip:2", now) + FinishActs(EARLY_ROW) }

  lemma RoundRuns(acts: seq<Act>, s: System, now: int)
    requires Positive(MINUTES) && Run(MINUTES, acts) == Some(s) && Starts(SchedulerOf(s, 0), now)
    requires var rows := Rows(MINUTES, s.log + [EARLY] + [Later(now)]);
      EARLY_ROW in rows && rows[EARLY_ROW].expiresAt <= now
    ensures Run(MINUTES, acts + RoundActs(now)) == Some(System(
      s.schedulers[0 := Scheduler(Some(now + CLEANUP_EVERY), Idle)],
      s.log + [EARLY] + [Later(now)] + [Prune(now, {EARLY_ROW})]))
  {
    var t := System(s.schedulers, s.log + [EARLY]);
    var running := Scheduler(Some(now + CLEANUP_EVERY), Running(now));
    var u := System(s.schedulers[0 := running], s.log + [EARLY] + [Later(now)]);
    var started := acts + [EARLY_ACT] + StartActs("ip:2", now);
    RunNext(MINUTES, acts, s, EARLY_ACT);
    assert SchedulerOf(t, 0) == SchedulerOf(s, 0);
    StartRuns(MINUTES, acts + [EARLY_ACT], t, "ip:2", now);
    FinishRuns(MINUTES, started, u, EARLY_ROW, now, Some(now + CLEANUP_EVERY));
    assert acts + RoundActs(now) == started + FinishActs(EARLY_ROW);
    assert u.schedulers[0 := Scheduler(Some(now + CLEANUP_EVERY), Idle)]
      == s.schedulers[0 := Scheduler(Some(now + CLEANUP_EVERY), Idle)];
  }

  /** The run in which three requests pass a limit of one is a run of the system, with one process. */
  lemma LatePrunesHappen() returns (acts: seq<Act>)
    ensures Positive(MINUTES) && Run(MINUTES, acts).Some? && Run(MINUTES, acts).value.log == LATE_PRUNES
  {
    var one, two := 3_600_000, 3_900_000;
    LateRow(2);
    assert FRESH.log + [EARLY] + [Later(one)] == LATE_PRUNES[..2];
    RoundRuns([], FRESH, one);
    var first := [] + RoundActs(one);
    var s := System(map[0 := Scheduler(Some(two), Idle)], LATE_PRUNES[..3]);
    assert FRESH.log + [EARLY] + [Later(one)] + [Prune(one, {EARLY_ROW})] == s.log;
    LateRow(5);
    assert s.log + [EARLY] + [Later(two)] == LATE_PRUNES[..5];
    RoundRuns(first, s, two);
    var t := Run(MINUTES, first + RoundActs(two)).value;
    assert t.log == LATE_PRUNES[..6];
    RunNext(MINUTES, first + RoundActs(two), t, EARLY_ACT);
    acts := first + RoundActs(two) + [EARLY_ACT];
    assert t.log + [EARLY] == LATE_PRUNES;
  }
}
