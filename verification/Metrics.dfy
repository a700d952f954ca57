/** The request histogram with a bounded number of series (operations.ts). */
module Metrics {
  import opened Prelude

  const BUCKETS: seq<real> := [25.0, 50.0, 100.0, 250.0, 500.0, 1000.0, 2500.0, 5000.0]
  const MAX_SERIES := 512
  const MAX_LABEL := 160
  const METHODS := {"DELETE", "GET", "HEAD", "OPTIONS", "PATCH", "POST", "PUT"}

  datatype SeriesKey = SeriesKey(verb: string, route: string, statusClass: string)

  const OVERFLOW := SeriesKey("OTHER", "/:overflow", "other")

  datatype RequestMetric = RequestMetric(count: nat, durationMs: real, buckets: seq<nat>)

  const EMPTY := RequestMetric(0, 0.0, [0, 0, 0, 0, 0, 0, 0, 0])

  datatype Sample = Sample(verb: string, path: string, status: real, durationMs: real)

  /** The class [a-z0-9._:/-] under the flags i and u, which also admit the long s and the Kelvin sign. */
  predicate LabelChar(c: char) {
    || 'a' <= c <= 'z' || 'A' <= c <= 'Z' || '0' <= c <= '9'
    || c in {'.', '_', ':', '/', '-', '\U{17F}', '\U{212A}'}
  }

  function SafeLabel(value: string): string {
    var s := Map(c => if LabelChar(c) then c else '_', value);
    if |s| <= MAX_LABEL then s else s[..MAX_LABEL]
  }

  function StatusClass(status: real): string {
    if status.Floor as real == status && 100.0 <= status < 600.0
    then ["123456"[status.Floor / 100 - 1]] + "xx"
    else "other"
  }

  /** The series a sample asks for; `upper` is the host's toUpperCase. */
  function OwnKey(upper: string -> string, s: Sample): SeriesKey {
    var verb := if upper(s.verb) in METHODS then upper(s.verb) else "OTHER";
    SeriesKey(verb, SafeLabel(s.path), StatusClass(s.status))
  }

  /** The series a sample is recorded in. */
  function Chosen(upper: string -> string, requests: map<SeriesKey, RequestMetric>, s: Sample): SeriesKey {
    var own := OwnKey(upper, s);
    if own !in requests && |requests| >= MAX_SERIES then OVERFLOW else own
  }

  function MetricOf(requests: map<SeriesKey, RequestMetric>, k: SeriesKey): RequestMetric {
    if k in requests then requests[k] else EMPTY
  }

  function PositivePart(d: real): real { if d > 0.0 then d else 0.0 }

  function Absorb(m: RequestMetric, d: real): RequestMetric
    requires |m.buckets| == |BUCKETS|
  {
    RequestMetric(m.count + 1, m.durationMs + PositivePart(d),
                  seq(|BUCKETS|, i requires 0 <= i < |BUCKETS| =>
                    if d <= BUCKETS[i] then m.buckets[i] + 1 else m.buckets[i]))
  }

  predicate ValidSeries(requests: map<SeriesKey, RequestMetric>) {
    forall k :: k in requests ==> |requests[k].buckets| == |BUCKETS|
  }

  class ApiMetrics {
    const upper: string -> string
    var requests: map<SeriesKey, RequestMetric>

    constructor (upper: string -> string)
      ensures requests == map[] && this.upper == upper
    {
      this.upper := upper;
      requests := map[];
    }

    method RecordRequest(s: Sample)
      requires ValidSeries(requests)
      modifies this
      ensures ValidSeries(requests)
      ensures var k := Chosen(upper, old(requests), s);
        requests == old(requests)[k := Absorb(MetricOf(old(requests), k), s.durationMs)]
    {
      var key := OwnKey(upper, s);
      if key !in requests && |requests| >= MAX_SERIES {
        key := OVERFLOW;
      }
      var metric := if key in requests then requests[key] else EMPTY;
      var buckets := BumpBuckets(metric.buckets, s.durationMs);
      assert buckets == Absorb(metric, s.durationMs).buckets;
      requests := requests[key :=
        RequestMetric(metric.count + 1, metric.durationMs + PositivePart(s.durationMs), buckets)];
    }
  }

  /** The forEach over the boundaries. */
  method BumpBuckets(buckets: seq<nat>, d: real) returns (r: seq<nat>)
    requires |buckets| == |BUCKETS|
    ensures |r| == |BUCKETS|
    ensures forall i :: 0 <= i < |r| ==> r[i] == if d <= BUCKETS[i] then buckets[i] + 1 else buckets[i]
  {
    r := buckets;
    for index := 0 to |BUCKETS|
      invariant |r| == |BUCKETS|
      invariant forall i :: 0 <= i < index ==> r[i] == if d <= BUCKETS[i] then buckets[i] + 1 else buckets[i]
      invariant forall i :: index <= i < |r| ==> r[i] == buckets[i]
    {
      if d <= BUCKETS[index] {
        r := r[index := r[index] + 1];
      }
    }
  }

  // ---- The log of samples the histogram stands for ----

  function Series(upper: string -> string, log: seq<Sample>): (r: map<SeriesKey, RequestMetric>)
    ensures ValidSeries(r)
  {
    if log == [] then map[]
    else
      var n := |log| - 1;
      var before := Series(upper, log[..n]);
      var k := Chosen(upper, before, log[n]);
      before[k := Absorb(MetricOf(before, k), log[n].durationMs)]
  }

  /** Where the n-th sample of the log was recorded. */
  function Landing(upper: string -> string, log: seq<Sample>, n: nat): SeriesKey
    requires n < |log|
  {
    Chosen(upper, Series(upper, log[..n]), log[n])
  }

  /** The durations recorded in series k, in order. */
  function DurationsOf(upper: string -> string, log: seq<Sample>, k: SeriesKey): seq<real> {
    if log == [] then []
    else
      var n := |log| - 1;
      DurationsOf(upper, log[..n], k) + if Landing(upper, log, n) == k then [log[n].durationMs] else []
  }

  function AtMost(durations: seq<real>, bound: real): nat {
    if durations == [] then 0
    else
      var n := |durations| - 1;
      AtMost(durations[..n], bound) + if durations[n] <= bound then 1 else 0
  }

  function Total(durations: seq<real>): real {
    if durations == [] then 0.0
    else Total(durations[..|durations| - 1]) + PositivePart(durations[|durations| - 1])
  }

  /** Every number of every series is the one computed from the samples recorded in it. */
  lemma {:induction false} MetricsRefineLog(upper: string -> string, log: seq<Sample>, k: SeriesKey)
    ensures var m, ds := MetricOf(Series(upper, log), k), DurationsOf(upper, log, k);
      && (k in Series(upper, log) <==> ds != [])
      && m.count == |ds| && m.durationMs == Total(ds)
      && |m.buckets| == |BUCKETS| && forall i :: 0 <= i < |BUCKETS| ==> m.buckets[i] == AtMost(ds, BUCKETS[i])
    ensures BUCKETS == [25.0, 50.0, 100.0, 250.0, 500.0, 1000.0, 2500.0, 5000.0]
  {
    if log != [] {
      var n := |log| - 1;
      MetricsRefineLog(upper, log[..n], k);
      var ds := DurationsOf(upper, log[..n], k);
      if Landing(upper, log, n) == k {
        assert (ds + [log[n].durationMs])[..|ds|] == ds;
      } else {
        assert DurationsOf(upper, log, k) == ds;
      }
    }
  }

  /** The cumulative buckets rise with their boundary and never pass the count. */
  lemma {:induction false} BucketsRise(upper: string -> string, log: seq<Sample>, k: SeriesKey, i: nat, j: nat)
    requires i <= j < |BUCKETS|
    ensures var m := MetricOf(Series(upper, log), k);
      |m.buckets| == |BUCKETS| && m.buckets[i] <= m.buckets[j] <= m.count
  {
    MetricsRefineLog(upper, log, k);
    BoundariesRise(i, j);
    AtMostRises(DurationsOf(upper, log, k), BUCKETS[i], BUCKETS[j]);
  }

  lemma BoundariesRise(i: nat, j: nat)
    requires i <= j < |BUCKETS|
    ensures BUCKETS[i] <= BUCKETS[j]
  {
  }

  lemma {:induction false} AtMostRises(durations: seq<real>, low: real, high: real)
    requires low <= high
    ensures AtMost(durations, low) <= AtMost(durations, high) <= |durations|
  {
    if durations != [] { AtMostRises(durations[..|durations| - 1], low, high); }
  }

  /** 512 series and the overflow series at most. */
  lemma {:induction false} SeriesBounded(upper: string -> string, log: seq<Sample>)
    ensures var r := Series(upper, log);
      |r| <= 512 || (|r| == 513 && SeriesKey("OTHER", "/:overflow", "other") in r)
  {
    if log != [] {
      var n := |log| - 1;
      SeriesBounded(upper, log[..n]);
      var before := Series(upper, log[..n]);
      var k := Chosen(upper, before, log[n]);
      if k in before {
        assert Series(upper, log).Keys == before.Keys;
      } else {
        assert Series(upper, log).Keys == before.Keys + {k};
      }
    }
  }

  /** Every sample is recorded in its own series while there are fewer than 512, and ever after if that series
      exists; otherwise, and only then, it goes to the overflow series. */
  lemma LandsInOwnSeriesIff(upper: string -> string, log: seq<Sample>, n: nat)
    requires n < |log|
    ensures var own, before := OwnKey(upper, log[n]), Series(upper, log[..n]);
      && (|before| < 512 || own in before ==> Landing(upper, log, n) == own)
      && (|before| >= 512 && own !in before ==> Landing(upper, log, n) == SeriesKey("OTHER", "/:overflow", "other"))
  {
  }

  /** So the first 512 different series of a log are all created. */
  lemma {:induction false} FirstSeriesCreated(upper: string -> string, log: seq<Sample>)
    requires |OwnKeys(upper, log)| <= 512
    ensures Series(upper, log).Keys == OwnKeys(upper, log)
  {
    if log != [] {
      var n := |log| - 1;
      var own := OwnKey(upper, log[n]);
      assert OwnKeys(upper, log) == OwnKeys(upper, log[..n]) + {own};
      SubsetSize(OwnKeys(upper, log[..n]), OwnKeys(upper, log));
      FirstSeriesCreated(upper, log[..n]);
      var before := Series(upper, log[..n]);
      assert |before| == |before.Keys|;
      if own !in before {
        assert |OwnKeys(upper, log)| == |before.Keys| + 1;
      }
      assert Series(upper, log).Keys == before.Keys + {own};
    }
  }

  /** The series the samples of a log ask for. */
  function OwnKeys(upper: string -> string, log: seq<Sample>): set<SeriesKey> {
    if log == [] then {} else OwnKeys(upper, log[..|log| - 1]) + {OwnKey(upper, log[|log| - 1])}
  }

  lemma {:induction false} SubsetSize<T>(a: set<T>, b: set<T>)
    requires a <= b
    ensures |a| <= |b|
  {
    if a != {} {
      var x :| x in a;
      SubsetSize(a - {x}, b - {x});
    }
  }

  /** An integer status from 100 to 599 has the class of its hundreds digit; every other status is "other". */
  lemma StatusClassReads(status: real, n: int)
    ensures status == n as real && 100 <= n < 600 ==>
      var c := StatusClass(status); |c| == 3 && c[1..] == "xx" && c[0] as int == '0' as int + n / 100
    ensures status < 100.0 || status >= 600.0 || n as real < status < (n + 1) as real ==> StatusClass(status) == "other"
  {
    if n as real < status < (n + 1) as real { assert status.Floor == n; }
  }

  /** A listed method keeps its upper-cased name and any other is OTHER; a path keeps its letters, digits and the
      five marks, has '_' for every other ASCII character, and is cut to 160. */
  lemma OwnKeyReads(upper: string -> string, s: Sample)
    ensures var k, verb := OwnKey(upper, s), upper(s.verb);
      && k.verb == (if verb in {"DELETE", "GET", "HEAD", "OPTIONS", "PATCH", "POST", "PUT"} then verb else "OTHER")
      && k.statusClass == StatusClass(s.status)
      && |k.route| == Min(|s.path|, 160)
      && forall i :: 0 <= i < |k.route| && s.path[i] < '\U{80}' ==>
           k.route[i] == if 'a' <= s.path[i] <= 'z' || 'A' <= s.path[i] <= 'Z' || '0' <= s.path[i] <= '9'
                            || s.path[i] in {'.', '_', ':', '/', '-'} then s.path[i] else '_'
  {
    MapsChars(s.path);
  }

  lemma MapsChars(path: string)
    ensures var r := SafeLabel(path);
      |r| == Min(|path|, 160) && forall i :: 0 <= i < |r| ==> r[i] == if LabelChar(path[i]) then path[i] else '_'
  {
  }

  /** What one more duration changes: the sum by its positive part, and the number at most a bound by one if it is. */
  lemma DurationNext(durations: seq<real>, d: real, bound: real)
    ensures Total([]) == 0.0 && AtMost([], bound) == 0
    ensures Total(durations + [d]) == Total(durations) + if d > 0.0 then d else 0.0
    ensures AtMost(durations + [d], bound) == AtMost(durations, bound) + if d <= bound then 1 else 0
  {
    assert (durations + [d])[..|durations|] == durations;
  }

  /** A series that exists keeps receiving every sample of its own, however many others arrive. */
  lemma {:induction false} SeriesSticky(upper: string -> string, log: seq<Sample>, i: nat, j: nat)
    requires i <= j < |log| && OwnKey(upper, log[j]) in Series(upper, log[..i])
    ensures Landing(upper, log, j) == OwnKey(upper, log[j])
  {
    SeriesGrows(upper, log, i, j);
  }

  lemma SeriesStep(upper: string -> string, log: seq<Sample>, n: nat)
    requires n < |log|
    ensures Series(upper, log[..n + 1]).Keys == Series(upper, log[..n]).Keys + {Landing(upper, log, n)}
  {
    assert log[..n + 1][..n] == log[..n];
  }

  lemma {:induction false} SeriesGrows(upper: string -> string, log: seq<Sample>, i: nat, j: nat)
    requires i <= j <= |log|
    ensures Series(upper, log[..i]).Keys <= Series(upper, log[..j]).Keys
    decreases j - i
  {
    if i < j {
      SeriesStep(upper, log, i);
      SeriesGrows(upper, log, i + 1, j);
    }
  }

  // ---- No sample is lost or counted twice ----

  ghost function TotalCount(r: map<SeriesKey, RequestMetric>): nat {
    if r == map[] then 0
    else
      var k :| k in r;
      r[k].count + TotalCount(r - {k})
  }

  lemma {:induction false} TotalCountPick(r: map<SeriesKey, RequestMetric>, k: SeriesKey)
    requires k in r
    ensures TotalCount(r) == r[k].count + TotalCount(r - {k})
    decreases |r|
  {
    var c :| c in r && TotalCount(r) == r[c].count + TotalCount(r - {c});
    if c != k {
      TotalCountPick(r - {c}, k);
      TotalCountPick(r - {k}, c);
      assert r - {c} - {k} == r - {k} - {c};
    }
  }

  lemma {:induction false} CountsAddUp(upper: string -> string, log: seq<Sample>)
    ensures TotalCount(Series(upper, log)) == |log|
  {
    if log != [] {
      var n := |log| - 1;
      CountsAddUp(upper, log[..n]);
      var before := Series(upper, log[..n]);
      var after := Series(upper, log);
      var k := Landing(upper, log, n);
      TotalCountUpdate(before, k, after[k]);
    }
  }

  lemma TotalCountUpdate(r: map<SeriesKey, RequestMetric>, k: SeriesKey, m: RequestMetric)
    ensures TotalCount(r[k := m]) == TotalCount(r) - MetricOf(r, k).count + m.count
  {
    var after := r[k := m];
    TotalCountPick(after, k);
    assert after - {k} == r - {k};
    if k in r {
      TotalCountPick(r, k);
    } else {
      assert r - {k} == r;
    }
  }
}
