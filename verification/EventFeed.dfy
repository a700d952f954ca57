/** Polling the collaboration event log (postgres-adapter.ts, collaboration-repositories.ts). */
module EventFeed {
  import opened Prelude

  const BATCH := 500

  datatype Event = Event(cursor: nat, conversation: Option<string>, aggregateId: string)

  /** Outcome of requireCollaborationAccess on a conversation: allowed, refused as not found, or another error. */
  datatype Check = Allowed | Hidden | Fault

  /** What one reader may see: the rows the query admits, and the conversations listConversationAccess returns. */
  datatype View = View(admits: Event -> bool, access: map<string, Check>)

  predicate AccessAllows(access: map<string, Check>, e: Event) {
    e.conversation.None? || (e.conversation.value in access && access[e.conversation.value] == Allowed)
  }

  /** Checking one event on its own. */
  predicate Readable(v: View, e: Event) { v.admits(e) && AccessAllows(v.access, e) }

  predicate Faulty(access: map<string, Check>, e: Event) {
    e.conversation.Some? && e.conversation.value in access && access[e.conversation.value] == Fault
  }

  /** A log lists its events in the order they commit. Cursors are handed out earlier, when an event is inserted,
      so they are distinct but need not rise along the log. */
  ghost predicate Distinct(log: seq<Event>) {
    forall i, k :: 0 <= i < k < |log| ==> log[i].cursor != log[k].cursor
  }

  ghost predicate Ordered(s: seq<Event>) {
    forall i, k :: 0 <= i < k < |s| ==> s[i].cursor < s[k].cursor
  }

  /** order by cursor */
  function InOrder(s: seq<Event>): (r: seq<Event>)
    ensures multiset(r) == multiset(s)
  {
    if s == [] then []
    else
      var n := |s| - 1;
      assert s == s[..n] + [s[n]];
      Insert(InOrder(s[..n]), s[n])
  }

  function Insert(sorted: seq<Event>, e: Event): (r: seq<Event>)
    ensures multiset(r) == multiset(sorted) + multiset{e}
  {
    var n := |sorted| - 1;
    if sorted != [] && e.cursor < sorted[n].cursor then
      assert sorted == sorted[..n] + [sorted[n]];
      Insert(sorted[..n], e) + [sorted[n]]
    else sorted + [e]
  }

  /** max(cursor), 0 for an empty log. */
  function MaxCursor(log: seq<Event>): (m: nat)
    ensures forall e :: e in log ==> e.cursor <= m
    ensures log != [] ==> exists e :: e in log && e.cursor == m
  {
    if log == [] then 0
    else
      var n := |log| - 1;
      assert log == log[..n] + [log[n]];
      Max(MaxCursor(log[..n]), log[n].cursor)
  }

  /** collaboration.listEvents: the page is read from `log`; when it is not full, the watermark is read
      afterwards, from the log with `between` committed too. */
  function ListEvents(v: View, log: seq<Event>, between: seq<Event>, after: nat): (seq<Event>, nat) {
    var visible := InOrder(Filter((e: Event) => e.cursor > after && v.admits(e), log));
    if |visible| >= BATCH then (visible[..BATCH], visible[BATCH - 1].cursor)
    else (visible, if log + between == [] then after else MaxCursor(log + between))
  }

  /** The distinct conversations of a batch, in order of first appearance. */
  method ConversationIds(batch: seq<Event>) returns (ids: seq<string>)
    ensures forall c :: c in ids <==> exists e :: e in batch && e.conversation == Some(c)
  {
    ids := [];
    for i := 0 to |batch|
      invariant forall c :: c in ids <==> exists e :: e in batch[..i] && e.conversation == Some(c)
    {
      assert batch[..i + 1] == batch[..i] + [batch[i]];
      if batch[i].conversation.Some? && batch[i].conversation.value !in ids {
        ids := ids + [batch[i].conversation.value];
      }
    }
    assert batch[..|batch|] == batch;
  }

  /** The index of the conversations that may be read; None when checking one of them throws. */
  method BuildIndex(ids: seq<string>, access: map<string, Check>) returns (r: Option<set<string>>)
    ensures r.None? <==> exists c :: c in ids && c in access && access[c] == Fault
    ensures r.Some? ==> forall c :: c in r.value <==> c in ids && c in access && access[c] == Allowed
  {
    var index: set<string> := {};
    for i := 0 to |ids|
      invariant forall c :: c in index <==> c in ids[..i] && c in access && access[c] == Allowed
      invariant forall c :: c in ids[..i] && c in access ==> access[c] != Fault
    {
      assert ids[..i + 1] == ids[..i] + [ids[i]];
      if ids[i] in access {
        match access[ids[i]]
        case Allowed => index := index + {ids[i]};
        case Hidden =>
        case Fault => return None;
      }
    }
    assert ids[..|ids|] == ids;
    r := Some(index);
  }

  /** listCollaborationEvents, after its repository has answered with `batch`. None is a thrown error. */
  method ListCollaborationEvents(batch: seq<Event>, access: map<string, Check>) returns (r: Option<seq<Event>>)
    ensures r.None? <==> exists e :: e in batch && Faulty(access, e)
    ensures r.Some? ==> r.value == Filter((e: Event) => AccessAllows(access, e), batch)
  {
    var ids := ConversationIds(batch);
    var index := BuildIndex(ids, access);
    if index.None? {
      var c :| c in ids && c in access && access[c] == Fault;
      var e :| e in batch && e.conversation == Some(c);
      assert Faulty(access, e);
      return None;
    }
    var events := KeepIndexed(batch, index.value);
    FilterSame((e: Event) => InIndex(index.value, e), (e: Event) => AccessAllows(access, e), batch);
    r := Some(events);
  }

  predicate InIndex(index: set<string>, e: Event) { e.conversation.None? || e.conversation.value in index }

  lemma FilterNext(keep: Event -> bool, batch: seq<Event>, i: nat)
    requires i < |batch|
    ensures Filter(keep, batch[..i + 1]) == Filter(keep, batch[..i]) + if keep(batch[i]) then [batch[i]] else []
  {
    assert batch[..i + 1] == batch[..i] + [batch[i]];
    FilterConcat(keep, batch[..i], [batch[i]]);
  }

  /** The loop that drops events of conversations outside the index. */
  method KeepIndexed(batch: seq<Event>, index: set<string>) returns (events: seq<Event>)
    ensures events == Filter((e: Event) => InIndex(index, e), batch)
  {
    ghost var keep := (e: Event) => InIndex(index, e);
    events := [];
    for i := 0 to |batch|
      invariant events == Filter(keep, batch[..i])
    {
      FilterNext(keep, batch, i);
      if InIndex(index, batch[i]) {
        events := events + [batch[i]];
      }
    }
    assert batch[..|batch|] == batch;
  }

  lemma {:induction false} FilterSame(p: Event -> bool, q: Event -> bool, s: seq<Event>)
    requires forall x :: x in s ==> p(x) == q(x)
    ensures Filter(p, s) == Filter(q, s)
  {
    if s != [] { FilterSame(p, q, s[1..]); }
  }

  // ---- Sorting by cursor ----

  lemma SameEvents(r: seq<Event>, s: seq<Event>)
    requires multiset(r) == multiset(s)
    ensures |r| == |s| && forall e :: e in r <==> e in s
  {
    assert |multiset(r)| == |r| && |multiset(s)| == |s|;
    forall e ensures e in r <==> e in s {
      assert e in r <==> e in multiset(r);
      assert e in s <==> e in multiset(s);
    }
  }

  lemma InsertEvents(sorted: seq<Event>, e: Event)
    ensures forall x :: x in Insert(sorted, e) <==> x in sorted || x == e
  {
    var r := Insert(sorted, e);
    forall x ensures x in r <==> x in sorted || x == e {
      assert x in r <==> x in multiset(r);
      assert x in sorted <==> x in multiset(sorted);
    }
  }

  lemma {:induction false} InsertOrdered(sorted: seq<Event>, e: Event)
    requires Ordered(sorted) && forall x :: x in sorted ==> x.cursor != e.cursor
    ensures Ordered(Insert(sorted, e))
  {
    var n := |sorted| - 1;
    if sorted != [] && e.cursor < sorted[n].cursor {
      var front := Insert(sorted[..n], e);
      InsertOrdered(sorted[..n], e);
      InsertEvents(sorted[..n], e);
      forall i | 0 <= i < |front| ensures front[i].cursor < sorted[n].cursor {
        assert front[i] in front;
      }
    } else if sorted != [] {
      assert sorted[n] in sorted;
    }
  }

  lemma {:induction false} InOrderOrdered(s: seq<Event>)
    requires Distinct(s)
    ensures Ordered(InOrder(s))
  {
    if s != [] {
      var n := |s| - 1;
      InOrderOrdered(s[..n]);
      SameEvents(InOrder(s[..n]), s[..n]);
      InsertOrdered(InOrder(s[..n]), s[n]);
    }
  }

  lemma NoEvents(s: seq<Event>)
    ensures s == [] || exists e :: e in s
  {
    if s != [] { assert s[0] in s; }
  }

  /** A strictly rising sequence is determined by its elements. */
  lemma {:induction false} OrderedSame(r: seq<Event>, s: seq<Event>)
    requires Ordered(r) && Ordered(s) && forall e :: e in r <==> e in s
    ensures r == s
  {
    if r == [] {
      NoEvents(s);
    } else if s == [] {
      NoEvents(r);
    } else {
      assert r[0] in s && s[0] in r;
      assert r[0] == s[0];
      forall e ensures e in r[1..] <==> e in s[1..] {
        RestOf(r, e);
        RestOf(s, e);
      }
      OrderedSame(r[1..], s[1..]);
    }
  }

  lemma RestOf(s: seq<Event>, e: Event)
    requires s != [] && Ordered(s)
    ensures e in s[1..] <==> e in s && e != s[0]
  {
    if e in s && e != s[0] {
      var i :| 0 <= i < |s| && s[i] == e;
      assert s[1..][i - 1] == e;
    }
    if e in s[1..] {
      var i :| 0 <= i < |s[1..]| && s[1..][i] == e;
      assert s[i + 1] == e;
    }
  }

  lemma {:induction false} FilterOrdered(p: Event -> bool, s: seq<Event>)
    requires Ordered(s)
    ensures Ordered(Filter(p, s))
  {
    if s != [] {
      FilterOrdered(p, s[1..]);
      var rest := Filter(p, s[1..]);
      forall k | 0 <= k < |rest| ensures s[0].cursor < rest[k].cursor {
        assert rest[k] in rest;
        RestOf(s, rest[k]);
        var i :| 0 <= i < |s| && s[i] == rest[k];
      }
    }
  }

  lemma {:induction false} FilterDistinct(p: Event -> bool, s: seq<Event>)
    requires Distinct(s)
    ensures Distinct(Filter(p, s))
  {
    if s != [] {
      FilterDistinct(p, s[1..]);
      var rest := Filter(p, s[1..]);
      forall k | 0 <= k < |rest| ensures s[0].cursor != rest[k].cursor {
        assert rest[k] in s[1..];
        var i :| 0 <= i < |s[1..]| && s[1..][i] == rest[k];
        assert s[i + 1] == rest[k];
      }
    }
  }

  lemma SortedSelection(p: Event -> bool, log: seq<Event>)
    requires Distinct(log)
    ensures var s := InOrder(Filter(p, log)); Ordered(s) && forall e :: e in s <==> e in log && p(e)
  {
    FilterDistinct(p, log);
    InOrderOrdered(Filter(p, log));
    SameEvents(InOrder(Filter(p, log)), Filter(p, log));
  }

  /** Up to the k-th element's cursor lie exactly the first k elements. */
  lemma FirstByCursor(s: seq<Event>, k: nat)
    requires Ordered(s) && 0 < k <= |s|
    ensures Ordered(s[..k]) && forall e :: e in s[..k] <==> e in s && e.cursor <= s[k - 1].cursor
  {
    forall e | e in s && e.cursor <= s[k - 1].cursor ensures e in s[..k] {
      var i :| 0 <= i < |s| && s[i] == e;
      assert s[..k][i] == e;
    }
  }

  lemma DistinctParts(log: seq<Event>, more: seq<Event>)
    requires Distinct(log + more)
    ensures Distinct(log) && Distinct(more)
    ensures forall x, y :: x in log && y in more ==> x.cursor != y.cursor
  {
    var all := log + more;
    forall i, k | 0 <= i < k < |log| ensures log[i].cursor != log[k].cursor {
      assert all[i] == log[i] && all[k] == log[k];
    }
    forall i, k | 0 <= i < k < |more| ensures more[i].cursor != more[k].cursor {
      assert all[|log| + i] == more[i] && all[|log| + k] == more[k];
    }
    forall x, y | x in log && y in more ensures x.cursor != y.cursor {
      var i :| 0 <= i < |log| && log[i] == x;
      var k :| 0 <= k < |more| && more[k] == y;
      assert all[i] == x && all[|log| + k] == y;
    }
  }

  lemma MaxGrows(log: seq<Event>, more: seq<Event>)
    ensures MaxCursor(log) <= MaxCursor(log + more)
  {
    if log != [] {
      var m := MaxCursor(log);
      assert exists e :: e in log && e.cursor == m;
      var e :| e in log && e.cursor == m;
      assert e in log + more;
    }
  }

  // ---- One poll ----

  /** The readable events with a cursor in (lo, hi], by cursor. */
  function Segment(v: View, log: seq<Event>, lo: nat, hi: nat): seq<Event> {
    InOrder(Filter((e: Event) => Readable(v, e) && lo < e.cursor <= hi, log))
  }

  lemma SegmentFacts(v: View, log: seq<Event>, lo: nat, hi: nat)
    requires Distinct(log)
    ensures var s := Segment(v, log, lo, hi);
      Ordered(s) && forall e :: e in s <==> e in log && Readable(v, e) && lo < e.cursor <= hi
  {
    SortedSelection((e: Event) => Readable(v, e) && lo < e.cursor <= hi, log);
  }

  function Delivered(v: View, batch: seq<Event>): seq<Event> {
    Filter((e: Event) => AccessAllows(v.access, e), batch)
  }

  lemma PageEvents(v: View, log: seq<Event>, between: seq<Event>, after: nat)
    requires Distinct(log)
    ensures var (batch, next) := ListEvents(v, log, between, after);
      && Ordered(batch)
      && (forall e :: e in batch <==> e in log && v.admits(e) && after < e.cursor <= next)
      && (|batch| == BATCH ==> after < next <= MaxCursor(log))
      && (|batch| != BATCH ==> next == if log + between == [] then after else MaxCursor(log + between))
  {
    var p := (e: Event) => e.cursor > after && v.admits(e);
    var visible := InOrder(Filter(p, log));
    SortedSelection(p, log);
    if |visible| >= BATCH {
      assert visible[BATCH - 1] in visible;
      FirstByCursor(visible, BATCH);
    } else {
      forall e | e in log ensures e.cursor <= MaxCursor(log + between) { assert e in log + between; }
    }
  }

  /** A poll delivers the readable events of its log above the client's cursor up to the new one. The cursor moves
      on whenever the log has; a cursor above everything in a log that is not empty falls back to its maximum. */
  lemma PageOfLog(v: View, log: seq<Event>, between: seq<Event>, after: nat)
    requires Distinct(log)
    ensures var (batch, next) := ListEvents(v, log, between, after);
      var latest := MaxCursor(log + between);
      && Delivered(v, batch) == Segment(v, log, after, next)
      && (after < latest ==> after < next <= latest)
      && (latest <= after ==> batch == [] && next == if log + between == [] then after else latest)
      && |batch| <= 500 && (|batch| == 500 ==> next <= MaxCursor(log))
      && (|batch| < 500 && after < latest ==> next == latest)
  {
    var (batch, next) := ListEvents(v, log, between, after);
    PageEvents(v, log, between, after);
    MaxGrows(log, between);
    FilterOrdered((e: Event) => AccessAllows(v.access, e), batch);
    SegmentFacts(v, log, after, next);
    OrderedSame(Delivered(v, batch), Segment(v, log, after, next));
    if MaxCursor(log + between) <= after {
      forall e | e in log ensures e.cursor <= after { assert e in log + between; }
      NoEvents(batch);
    }
  }

  /** No readable event committed after the page was read with a cursor the answer passes over. */
  ghost predicate Quiet(v: View, log: seq<Event>, between: seq<Event>, after: nat) {
    forall e :: e in between && Readable(v, e) && after < e.cursor ==> ListEvents(v, log, between, after).1 < e.cursor
  }

  /** A poll delivers exactly the readable events up to its new cursor if and only if none of them committed
      after its page was read: into a page that was not full, or with a cursor below that of a full one. */
  lemma PollExactIff(v: View, log: seq<Event>, between: seq<Event>, after: nat)
    requires Distinct(log + between)
    ensures var (batch, next) := ListEvents(v, log, between, after);
      Delivered(v, batch) == Segment(v, log + between, after, next) <==> Quiet(v, log, between, after)
  {
    var (batch, next) := ListEvents(v, log, between, after);
    DistinctParts(log, between);
    PageOfLog(v, log, between, after);
    SegmentFacts(v, log, after, next);
    SegmentFacts(v, log + between, after, next);
    if Quiet(v, log, between, after) {
      OrderedSame(Segment(v, log, after, next), Segment(v, log + between, after, next));
    } else {
      var e :| e in between && Readable(v, e) && after < e.cursor <= next;
      assert e in log + between && e !in log;
    }
  }

  // ---- Runs ----

  /** The log, and one client's checkpoint with all it has received. */
  datatype Feed = Feed(log: seq<Event>, checkpoint: nat, received: seq<Event>)

  datatype Step = Append(e: Event) | Poll(between: seq<Event>)

  function Committed(s: Step): seq<Event> {
    match s
    case Append(e) => [e]
    case Poll(between) => between
  }

  predicate Fails(v: View, batch: seq<Event>) { exists e :: e in batch && Faulty(v.access, e) }

  function Take(v: View, f: Feed, s: Step): Feed {
    match s
    case Append(e) => f.(log := f.log + [e])
    case Poll(between) =>
      var (batch, next) := ListEvents(v, f.log, between, f.checkpoint);
      if Fails(v, batch) then f.(log := f.log + between)
      else Feed(f.log + between, next, f.received + Delivered(v, batch))
  }

  /** What a poll does to the client: nothing if checking one of the page's conversations throws; otherwise it takes
      the page's events that may be read and the new cursor. */
  lemma PollReads(v: View, f: Feed, between: seq<Event>)
    ensures var (batch, next) := ListEvents(v, f.log, between, f.checkpoint);
      var faulty := exists e :: (e in batch && e.conversation.Some? && e.conversation.value in v.access
                                 && v.access[e.conversation.value] == Fault);
      var readable := Filter((e: Event) => AccessAllows(v.access, e), batch);
      Take(v, f, Poll(between)) == if faulty then Feed(f.log + between, f.checkpoint, f.received)
                                   else Feed(f.log + between, next, f.received + readable)
  {
    var (batch, next) := ListEvents(v, f.log, between, f.checkpoint);
    if e :| e in batch && Faulty(v.access, e) { assert Fails(v, batch); }
  }

  function Run(v: View, start: Feed, steps: seq<Step>): Feed {
    if steps == [] then start else Take(v, Run(v, start, steps[..|steps| - 1]), steps[|steps| - 1])
  }

  /** The lowest checkpoint of a run: where it started, unless that was above the whole log. */
  function Lowest(v: View, start: Feed, steps: seq<Step>): nat {
    if steps == [] then start.checkpoint
    else Min(Lowest(v, start, steps[..|steps| - 1]), Run(v, start, steps).checkpoint)
  }

  /** The readable events of one step that commit at or below the checkpoint the step leaves behind. */
  ghost function MissedBy(v: View, s: Step, low: nat, checkpoint: nat): set<Event> {
    set e | e in Committed(s) && Readable(v, e) && low < e.cursor <= checkpoint
  }

  /** The readable events of a run that committed after the page read of the poll that moved the checkpoint
      past them. */
  ghost function Missed(v: View, start: Feed, steps: seq<Step>): set<Event> {
    if steps == [] then {}
    else
      var n := |steps| - 1;
      Missed(v, start, steps[..n])
        + MissedBy(v, steps[n], Lowest(v, start, steps), Run(v, start, steps).checkpoint)
  }

  /** Every readable event up to the checkpoint was received once, in order, or missed. */
  ghost predicate Accounted(v: View, f: Feed, low: nat, missed: set<Event>) {
    && low <= f.checkpoint && (MaxCursor(f.log) < f.checkpoint ==> low == f.checkpoint)
    && Ordered(f.received)
    && (forall e :: e in f.received || e in missed <==>
          e in f.log && Readable(v, e) && low < e.cursor <= f.checkpoint)
    && (forall e :: e in f.received ==> e !in missed)
  }

  lemma StepGrowsLog(v: View, f: Feed, s: Step)
    ensures Take(v, f, s).log == f.log + Committed(s)
  {
  }

  /** A step that leaves checkpoint and received events alone: a commit, or a poll that fails. */
  lemma WaitKeepsAccount(v: View, f: Feed, s: Step, low: nat, missed: set<Event>)
    requires Accounted(v, f, low, missed) && Distinct(f.log + Committed(s))
    ensures Accounted(v, f.(log := f.log + Committed(s)), low, missed + MissedBy(v, s, low, f.checkpoint))
  {
    DistinctParts(f.log, Committed(s));
    MaxGrows(f.log, Committed(s));
  }

  lemma EventAccounted(v: View, f: Feed, between: seq<Event>, low: nat, missed: set<Event>, page: seq<Event>,
                       next: nat, e: Event)
    requires Accounted(v, f, low, missed) && f.checkpoint <= next
    requires e in between ==> e !in f.log
    requires e in page <==> e in f.log && Readable(v, e) && f.checkpoint < e.cursor <= next
    ensures var missed' := missed + MissedBy(v, Poll(between), low, next);
      && (e in f.received || e in page || e in missed' <==>
            (e in f.log || e in between) && Readable(v, e) && low < e.cursor <= next)
      && (e in f.received || e in page ==> e !in missed')
  {
    assert e in MissedBy(v, Poll(between), low, next) <==> e in between && Readable(v, e) && low < e.cursor <= next;
  }

  lemma PollKeepsAccount(v: View, f: Feed, between: seq<Event>, low: nat, missed: set<Event>)
    requires Accounted(v, f, low, missed) && Distinct(f.log + between)
    requires f.checkpoint <= ListEvents(v, f.log, between, f.checkpoint).1
    ensures var (batch, next) := ListEvents(v, f.log, between, f.checkpoint);
      Accounted(v, Feed(f.log + between, next, f.received + Delivered(v, batch)), low,
                missed + MissedBy(v, Poll(between), low, next))
  {
    var (batch, next) := ListEvents(v, f.log, between, f.checkpoint);
    DistinctParts(f.log, between);
    PageOfLog(v, f.log, between, f.checkpoint);
    var page := Delivered(v, batch);
    SegmentFacts(v, f.log, f.checkpoint, next);
    var missed' := missed + MissedBy(v, Poll(between), low, next);
    forall e
      ensures e in f.received + page || e in missed' <==>
        e in f.log + between && Readable(v, e) && low < e.cursor <= next
      ensures e in f.received + page ==> e !in missed'
    {
      EventAccounted(v, f, between, low, missed, page, next, e);
    }
    OrderedJoin(f.received, page, f.checkpoint);
    PollReachesAtMost(v, f, between, low);
  }

  lemma OrderedJoin(r: seq<Event>, s: seq<Event>, mid: nat)
    requires Ordered(r) && Ordered(s)
    requires (forall e :: e in r ==> e.cursor <= mid) && forall e :: e in s ==> mid < e.cursor
    ensures Ordered(r + s)
  {
    forall i, k | 0 <= i < |r| && 0 <= k < |s| ensures r[i].cursor < s[k].cursor {
      assert r[i] in r && s[k] in s;
    }
  }

  lemma PollReachesAtMost(v: View, f: Feed, between: seq<Event>, low: nat)
    requires Distinct(f.log) && low <= f.checkpoint && (MaxCursor(f.log) < f.checkpoint ==> low == f.checkpoint)
    requires f.checkpoint <= ListEvents(v, f.log, between, f.checkpoint).1
    ensures var next := ListEvents(v, f.log, between, f.checkpoint).1;
      MaxCursor(f.log + between) < next ==> low == next
  {
    PageOfLog(v, f.log, between, f.checkpoint);
    MaxGrows(f.log, between);
  }

  lemma StepKeepsAccount(v: View, f: Feed, s: Step, low: nat, missed: set<Event>)
    requires Accounted(v, f, low, missed) && Distinct(f.log + Committed(s))
    ensures var f' := Take(v, f, s);
      var low' := Min(low, f'.checkpoint);
      Accounted(v, f', low', missed + MissedBy(v, s, low', f'.checkpoint))
  {
    WaitKeepsAccount(v, f, s, low, missed);
    if s.Poll? && !Fails(v, ListEvents(v, f.log, s.between, f.checkpoint).0) {
      var (batch, next) := ListEvents(v, f.log, s.between, f.checkpoint);
      if f.checkpoint <= next {
        PollKeepsAccount(v, f, s.between, low, missed);
      } else {
        DistinctParts(f.log, s.between);
        MaxGrows(f.log, s.between);
        PageOfLog(v, f.log, s.between, f.checkpoint);
        NoEvents(f.received);
      }
    }
  }

  lemma {:induction false} RunAccounted(v: View, start: Feed, steps: seq<Step>)
    requires start.received == [] && Distinct(Run(v, start, steps).log)
    ensures Accounted(v, Run(v, start, steps), Lowest(v, start, steps), Missed(v, start, steps))
  {
    if steps != [] {
      var n := |steps| - 1;
      var f := Run(v, start, steps[..n]);
      StepGrowsLog(v, f, steps[n]);
      DistinctParts(f.log, Committed(steps[n]));
      RunAccounted(v, start, steps[..n]);
      StepKeepsAccount(v, f, steps[n], Lowest(v, start, steps[..n]), Missed(v, start, steps[..n]));
    }
  }

  /** Over any run of polls and commits, failed polls included and cursors committing in any order, the client
      has received exactly the readable events up to its checkpoint, in order and once each, if and only if no
      readable event committed after the page read of the poll that moved the checkpoint past it. Whatever
      happens, those are the only events it lacks. */
  lemma FeedExactIff(v: View, start: Feed, steps: seq<Step>)
    requires start.received == [] && Distinct(Run(v, start, steps).log)
    ensures var f, missed := Run(v, start, steps), Missed(v, start, steps);
      var due := Segment(v, f.log, Lowest(v, start, steps), f.checkpoint);
      && (f.received == due <==> missed == {})
      && Ordered(f.received) && forall e :: e in f.received <==> e in due && e !in missed
  {
    var f, low, missed := Run(v, start, steps), Lowest(v, start, steps), Missed(v, start, steps);
    RunAccounted(v, start, steps);
    AccountedIff(v, f, low, missed);
  }

  lemma AccountedIff(v: View, f: Feed, low: nat, missed: set<Event>)
    requires Accounted(v, f, low, missed) && Distinct(f.log)
    ensures var due := Segment(v, f.log, low, f.checkpoint);
      (f.received == due <==> missed == {}) && forall e :: e in f.received <==> e in due && e !in missed
  {
    var due := Segment(v, f.log, low, f.checkpoint);
    SegmentFacts(v, f.log, low, f.checkpoint);
    if missed == {} {
      OrderedSame(f.received, due);
    } else {
      var e :| e in missed;
      assert e in due && e !in f.received;
    }
  }

  /** A client that starts within the log never falls back below its start. */
  lemma {:induction false} LowestIsStart(v: View, start: Feed, steps: seq<Step>)
    requires start.checkpoint <= MaxCursor(start.log) && Distinct(Run(v, start, steps).log)
    ensures Lowest(v, start, steps) == start.checkpoint <= Run(v, start, steps).checkpoint
    ensures Run(v, start, steps).checkpoint <= MaxCursor(Run(v, start, steps).log)
  {
    if steps != [] {
      var n := |steps| - 1;
      var f, s := Run(v, start, steps[..n]), steps[n];
      StepGrowsLog(v, f, s);
      DistinctParts(f.log, Committed(s));
      LowestIsStart(v, start, steps[..n]);
      MaxGrows(f.log, Committed(s));
      if s.Poll? { PageOfLog(v, f.log, s.between, f.checkpoint); }
    }
  }

  /** What a run has missed no later poll delivers. */
  lemma MissedForGood(v: View, start: Feed, steps: seq<Step>, more: seq<Step>, e: Event)
    requires start.received == [] && Distinct(Run(v, start, steps + more).log) && e in Missed(v, start, steps)
    ensures e !in Run(v, start, steps + more).received
  {
    MissedGrows(v, start, steps, more);
    RunAccounted(v, start, steps + more);
  }

  lemma {:induction false} MissedGrows(v: View, start: Feed, steps: seq<Step>, more: seq<Step>)
    ensures Missed(v, start, steps) <= Missed(v, start, steps + more)
  {
    if more == [] {
      assert steps + more == steps;
    } else {
      var n := |more| - 1;
      MissedGrows(v, start, steps, more[..n]);
      assert (steps + more)[..|steps + more| - 1] == steps + more[..n];
      MissedStays(v, start, steps + more);
    }
  }

  lemma MissedStays(v: View, start: Feed, steps: seq<Step>)
    requires steps != []
    ensures Missed(v, start, steps[..|steps| - 1]) <= Missed(v, start, steps)
  {
  }

  /** Cursors commit in order, and no successful poll with room on its page has a readable event commit
      between its two reads. */
  ghost predicate Orderly(v: View, start: Feed, steps: seq<Step>) {
    && Ordered(Run(v, start, steps).log)
    && forall n :: 0 <= n < |steps| ==> Undisturbed(v, Run(v, start, steps[..n]), steps[n])
  }

  ghost predicate Undisturbed(v: View, f: Feed, s: Step) {
    s.Poll? ==>
      var batch := ListEvents(v, f.log, s.between, f.checkpoint).0;
      |batch| == BATCH || Fails(v, batch) || forall e :: e in s.between ==> !Readable(v, e)
  }

  lemma OrderedParts(log: seq<Event>, more: seq<Event>)
    requires Ordered(log + more)
    ensures Ordered(log) && Distinct(log + more) && forall e :: e in more ==> log == [] || MaxCursor(log) < e.cursor
  {
    var all := log + more;
    forall i, k | 0 <= i < k < |log| ensures log[i].cursor < log[k].cursor {
      assert all[i] == log[i] && all[k] == log[k];
    }
    forall e | e in more && log != [] ensures MaxCursor(log) < e.cursor {
      var m :| m in log && m.cursor == MaxCursor(log);
      var i :| 0 <= i < |log| && log[i] == m;
      var k :| 0 <= k < |more| && more[k] == e;
      assert all[i] == m && all[|log| + k] == e;
    }
  }

  lemma OrderlyPrefix(v: View, start: Feed, steps: seq<Step>)
    requires Orderly(v, start, steps) && steps != []
    ensures Orderly(v, start, steps[..|steps| - 1])
    ensures Distinct(Run(v, start, steps).log)
  {
    var n := |steps| - 1;
    var f := Run(v, start, steps[..n]);
    StepGrowsLog(v, f, steps[n]);
    OrderedParts(f.log, Committed(steps[n]));
    forall i | 0 <= i < n ensures Undisturbed(v, Run(v, start, steps[..n][..i]), steps[..n][i]) {
      assert steps[..n][..i] == steps[..i] && steps[..n][i] == steps[i];
    }
  }

  /** An orderly run misses nothing. */
  lemma {:induction false} OrderlyMissesNothing(v: View, start: Feed, steps: seq<Step>)
    requires start.received == [] && Orderly(v, start, steps)
    ensures Missed(v, start, steps) == {}
  {
    if steps != [] {
      var n := |steps| - 1;
      var f := Run(v, start, steps[..n]);
      OrderlyPrefix(v, start, steps);
      OrderlyMissesNothing(v, start, steps[..n]);
      StepGrowsLog(v, f, steps[n]);
      DistinctParts(f.log, Committed(steps[n]));
      RunAccounted(v, start, steps[..n]);
      OrderlyStep(v, f, steps[n], Lowest(v, start, steps[..n]));
    }
  }

  lemma OrderlyStep(v: View, f: Feed, s: Step, low: nat)
    requires Ordered(f.log + Committed(s)) && low <= f.checkpoint
    requires MaxCursor(f.log) < f.checkpoint ==> low == f.checkpoint
    requires Undisturbed(v, f, s)
    ensures var checkpoint := Take(v, f, s).checkpoint; MissedBy(v, s, Min(low, checkpoint), checkpoint) == {}
  {
    OrderedParts(f.log, Committed(s));
    DistinctParts(f.log, Committed(s));
    if s.Poll? { PageEvents(v, f.log, s.between, f.checkpoint); }
  }

  // ---- The two ways to miss an event ----

  const EVERYTHING := View((e: Event) => true, map[])
  const UNREAD := Feed([], 0, [])

  /** One event commits between the page read and the watermark read of a poll. */
  const WATERMARK_RACE := [Poll([Event(1, None, "a")])]

  /** The event with cursor 5 commits after a poll has seen the one with cursor 6. */
  const LATE_COMMIT := [Append(Event(6, None, "b")), Poll([]), Append(Event(5, None, "a"))]

  lemma WatermarkRaceMisses(more: seq<Step>)
    requires Distinct(Run(EVERYTHING, UNREAD, WATERMARK_RACE + more).log)
    ensures var e := Event(1, None, "a");
      && Run(EVERYTHING, UNREAD, WATERMARK_RACE) == Feed([e], 1, []) && Readable(EVERYTHING, e)
      && e !in Run(EVERYTHING, UNREAD, WATERMARK_RACE + more).received
  {
    var e := Event(1, None, "a");
    assert WATERMARK_RACE[..0] == [] && [e][..0] == [];
    assert Run(EVERYTHING, UNREAD, WATERMARK_RACE) == Feed([e], 1, []);
    assert Committed(WATERMARK_RACE[0]) == [e];
    assert e in Missed(EVERYTHING, UNREAD, WATERMARK_RACE);
    MissedForGood(EVERYTHING, UNREAD, WATERMARK_RACE, more, e);
  }

  lemma LateCommitRun()
    ensures var e, seen := Event(5, None, "a"), Event(6, None, "b");
      && LATE_COMMIT[..2] == [Append(seen), Poll([])]
      && Run(EVERYTHING, UNREAD, LATE_COMMIT[..2]) == Feed([seen], 6, [seen])
      && Run(EVERYTHING, UNREAD, LATE_COMMIT) == Feed([seen, e], 6, [seen])
  {
    var seen := Event(6, None, "b");
    var one, two := [Append(seen)], [Append(seen), Poll([])];
    assert one[..0] == [] && two[..1] == one && LATE_COMMIT[..2] == two;
    assert Run(EVERYTHING, UNREAD, one) == Feed([seen], 0, []);
    PollOne(seen);
    assert Run(EVERYTHING, UNREAD, two) == Take(EVERYTHING, Feed([seen], 0, []), Poll([]));
  }

  lemma LateCommitMisses(more: seq<Step>)
    requires Distinct(Run(EVERYTHING, UNREAD, LATE_COMMIT + more).log)
    ensures var e, seen := Event(5, None, "a"), Event(6, None, "b");
      && Run(EVERYTHING, UNREAD, LATE_COMMIT) == Feed([seen, e], 6, [seen]) && Readable(EVERYTHING, e)
      && e !in Run(EVERYTHING, UNREAD, LATE_COMMIT + more).received
  {
    LateCommitRun();
    LateCommitMissed();
    MissedForGood(EVERYTHING, UNREAD, LATE_COMMIT, more, Event(5, None, "a"));
  }

  lemma LateCommitMissed()
    ensures Event(5, None, "a") in Missed(EVERYTHING, UNREAD, LATE_COMMIT)
  {
    var e := Event(5, None, "a");
    LateCommitRun();
    LowestZero(LATE_COMMIT);
    assert Committed(LATE_COMMIT[2]) == [e];
    assert e in MissedBy(EVERYTHING, LATE_COMMIT[2], 0, 6);
  }

  lemma {:induction false} LowestZero(steps: seq<Step>)
    ensures Lowest(EVERYTHING, UNREAD, steps) == 0
  {
    if steps != [] { LowestZero(steps[..|steps| - 1]); }
  }

  lemma PollOne(seen: Event)
    requires seen.cursor == 6 && seen.conversation.None?
    ensures Take(EVERYTHING, Feed([seen], 0, []), Poll([])) == Feed([seen], 6, [seen])
  {
    var p := (e: Event) => e.cursor > 0 && EVERYTHING.admits(e);
    assert Filter(p, [seen]) == [seen] && [seen][..0] == [];
    assert InOrder([seen]) == [seen];
    assert [seen] + [] == [seen] && MaxCursor([seen]) == 6;
    assert ListEvents(EVERYTHING, [seen], [], 0) == ([seen], 6);
    assert Delivered(EVERYTHING, [seen]) == [seen];
  }
}
