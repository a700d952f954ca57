/** Canonical request fingerprints (app.ts). */
module Canonical {
  import opened Prelude
  import opened JsonText
  import opened Decimal

  /** localeCompare together with the order in which properties are listed: consistent, but different names may
      tie. */
  ghost predicate WeakOrder(less: (string, string) -> bool) {
    && (forall a, b :: less(a, b) ==> !less(b, a))
    && (forall a, b, c :: less(a, c) ==> less(a, b) || less(b, c))
  }

  predicate Tied(less: (string, string) -> bool, a: string, b: string) {
    a != b && !less(a, b) && !less(b, a)
  }

  ghost predicate UntiedNames(less: (string, string) -> bool, names: set<string>) {
    forall a, b :: a in names && b in names ==> !Tied(less, a, b)
  }

  /** No object in the tree has two different names that tie. */
  ghost predicate Untied(less: (string, string) -> bool, j: Json) {
    match j
    case Arr(items) => forall i :: 0 <= i < |items| ==> Untied(less, items[i])
    case Obj(fields) =>
      && UntiedNames(less, Names(fields))
      && forall i :: 0 <= i < |fields| ==> Untied(less, fields[i].value)
    case _ => true
  }

  /** The stable sort of an object's entries by name. */
  function SortFields(less: (string, string) -> bool, fields: seq<Member>): seq<Member> {
    if fields == [] then []
    else Insert(less, SortFields(less, fields[..|fields| - 1]), fields[|fields| - 1])
  }

  function Insert(less: (string, string) -> bool, sorted: seq<Member>, m: Member): seq<Member> {
    var n := |sorted| - 1;
    if sorted != [] && less(m.name, sorted[n].name) then Insert(less, sorted[..n], m) + [sorted[n]]
    else sorted + [m]
  }

  lemma {:induction false} InsertMembers(less: (string, string) -> bool, sorted: seq<Member>, m: Member)
    ensures var r := Insert(less, sorted, m);
      |r| == |sorted| + 1 && forall x :: x in r <==> x in sorted || x == m
  {
    var n := |sorted| - 1;
    if sorted != [] && less(m.name, sorted[n].name) {
      InsertMembers(less, sorted[..n], m);
      assert sorted == sorted[..n] + [sorted[n]];
    }
  }

  lemma {:induction false} SortedMembers(less: (string, string) -> bool, fields: seq<Member>)
    ensures var r := SortFields(less, fields); |r| == |fields| && forall m :: m in r <==> m in fields
  {
    if fields != [] {
      var n := |fields| - 1;
      SortedMembers(less, fields[..n]);
      InsertMembers(less, SortFields(less, fields[..n]), fields[n]);
      assert fields == fields[..n] + [fields[n]];
    }
  }

  lemma SameMembers(less: (string, string) -> bool, fields: seq<Member>)
    ensures var r := SortFields(less, fields);
      && |r| == |fields| && (forall m :: m in r <==> m in fields)
      && forall i :: 0 <= i < |r| ==> r[i] in fields
  {
    SortedMembers(less, fields);
    forall i | 0 <= i < |fields| ensures SortFields(less, fields)[i] in fields {
      assert SortFields(less, fields)[i] in SortFields(less, fields);
    }
  }

  /** canonicalize */
  function Canonicalize(less: (string, string) -> bool, j: Json): Json {
    match j
    case Arr(items) => Arr(seq(|items|, i requires 0 <= i < |items| => Canonicalize(less, items[i])))
    case Obj(fields) =>
      var sorted := SortFields(less, fields);
      SameMembers(less, fields);
      Obj(seq(|sorted|, i requires 0 <= i < |sorted| =>
        assert sorted[i] in fields;
        Member(sorted[i].name, Canonicalize(less, sorted[i].value))))
    case _ => j
  }

  /** Equal up to the order of members, at every depth. */
  ghost predicate Equivalent(a: Json, b: Json) {
    match (a, b)
    case (Arr(x), Arr(y)) => |x| == |y| && forall i :: 0 <= i < |x| ==> Equivalent(x[i], y[i])
    case (Obj(f), Obj(g)) =>
      && Names(f) == Names(g)
      && forall i, k :: 0 <= i < |f| && 0 <= k < |g| && f[i].name == g[k].name ==> Equivalent(f[i].value, g[k].value)
    case (_, _) => a == b
  }

  ghost function Names(fields: seq<Member>): set<string> {
    set i | 0 <= i < |fields| :: fields[i].name
  }

  // ---- Sorting by name ----

  /** No member before one that is less. */
  ghost predicate Rising(less: (string, string) -> bool, fields: seq<Member>) {
    forall i, k :: 0 <= i < k < |fields| ==> !less(fields[k].name, fields[i].name)
  }

  ghost predicate Ascending(less: (string, string) -> bool, fields: seq<Member>) {
    forall i, k :: 0 <= i < k < |fields| ==> less(fields[i].name, fields[k].name)
  }

  lemma {:induction false} InsertRising(less: (string, string) -> bool, sorted: seq<Member>, m: Member)
    requires WeakOrder(less) && Rising(less, sorted)
    ensures Rising(less, Insert(less, sorted, m))
  {
    var n := |sorted| - 1;
    if sorted != [] && less(m.name, sorted[n].name) {
      var front := Insert(less, sorted[..n], m);
      InsertRising(less, sorted[..n], m);
      InsertMembers(less, sorted[..n], m);
      forall i | 0 <= i < |front| ensures !less(sorted[n].name, front[i].name) { assert front[i] in front; }
    }
  }

  lemma {:induction false} SortRising(less: (string, string) -> bool, fields: seq<Member>)
    requires WeakOrder(less)
    ensures Rising(less, SortFields(less, fields))
  {
    if fields != [] {
      var n := |fields| - 1;
      SortRising(less, fields[..n]);
      InsertRising(less, SortFields(less, fields[..n]), fields[n]);
    }
  }

  /** The stable sort leaves sorted entries alone. */
  lemma {:induction false} SortFixed(less: (string, string) -> bool, fields: seq<Member>)
    requires Rising(less, fields)
    ensures SortFields(less, fields) == fields
  {
    if fields != [] {
      var n := |fields| - 1;
      var front := fields[..n];
      SortFixed(less, front);
      assert front == [] || !less(fields[n].name, front[n - 1].name);
      assert Insert(less, front, fields[n]) == front + [fields[n]];
    }
  }

  lemma {:induction false} InsertDistinct(less: (string, string) -> bool, sorted: seq<Member>, m: Member)
    requires DistinctNames(sorted) && forall x :: x in sorted ==> x.name != m.name
    ensures DistinctNames(Insert(less, sorted, m))
  {
    var n := |sorted| - 1;
    if sorted != [] && less(m.name, sorted[n].name) {
      var front := Insert(less, sorted[..n], m);
      InsertDistinct(less, sorted[..n], m);
      InsertMembers(less, sorted[..n], m);
      assert sorted[n] in sorted;
      forall i | 0 <= i < |front| ensures front[i].name != sorted[n].name { assert front[i] in front; }
    }
  }

  lemma {:induction false} SortDistinct(less: (string, string) -> bool, fields: seq<Member>)
    requires DistinctNames(fields)
    ensures DistinctNames(SortFields(less, fields))
  {
    if fields != [] {
      var n := |fields| - 1;
      SortDistinct(less, fields[..n]);
      SameMembers(less, fields[..n]);
      InsertDistinct(less, SortFields(less, fields[..n]), fields[n]);
    }
  }

  lemma SameNameSet(f: seq<Member>, g: seq<Member>)
    requires forall m :: m in f <==> m in g
    ensures Names(f) == Names(g)
  {
    forall x | x in Names(f) ensures x in Names(g) {
      var i :| 0 <= i < |f| && f[i].name == x;
      assert f[i] in g;
    }
    forall x | x in Names(g) ensures x in Names(f) {
      var i :| 0 <= i < |g| && g[i].name == x;
      assert g[i] in f;
    }
  }

  lemma SortNames(less: (string, string) -> bool, fields: seq<Member>)
    ensures Names(SortFields(less, fields)) == Names(fields)
  {
    SameMembers(less, fields);
    SameNameSet(SortFields(less, fields), fields);
  }

  lemma SortAscending(less: (string, string) -> bool, fields: seq<Member>)
    requires WeakOrder(less) && DistinctNames(fields) && UntiedNames(less, Names(fields))
    ensures Ascending(less, SortFields(less, fields))
  {
    var s := SortFields(less, fields);
    SortRising(less, fields);
    SortDistinct(less, fields);
    SortNames(less, fields);
    forall i, k | 0 <= i < k < |s| ensures less(s[i].name, s[k].name) {
      assert s[i].name in Names(s) && s[k].name in Names(s);
      assert !Tied(less, s[i].name, s[k].name);
    }
  }

  lemma NoNames(f: seq<Member>)
    ensures Names(f) == {} <==> f == []
  {
    if f != [] { assert f[0].name in Names(f); }
  }

  lemma {:induction false} AscendingUnique(less: (string, string) -> bool, f: seq<Member>, g: seq<Member>)
    requires WeakOrder(less) && Ascending(less, f) && Ascending(less, g) && Names(f) == Names(g)
    ensures |f| == |g| && forall i :: 0 <= i < |f| ==> f[i].name == g[i].name
  {
    NoNames(f);
    NoNames(g);
    if f != [] && g != [] {
      assert f[0].name in Names(g) && g[0].name in Names(f);
      assert f[0].name == g[0].name;
      NamesTail(less, f);
      NamesTail(less, g);
      AscendingUnique(less, f[1..], g[1..]);
    }
  }

  lemma NamesTail(less: (string, string) -> bool, f: seq<Member>)
    requires WeakOrder(less) && Ascending(less, f) && f != []
    ensures Names(f[1..]) == Names(f) - {f[0].name} && Ascending(less, f[1..])
  {
    forall i | 1 <= i < |f| ensures f[i].name in Names(f[1..]) {
      assert f[1..][i - 1] == f[i];
    }
  }

  // ---- Canonical objects ----

  lemma SameNames(f: seq<Member>, g: seq<Member>)
    requires |f| == |g| && forall i :: 0 <= i < |f| ==> f[i].name == g[i].name
    ensures Names(f) == Names(g)
  {
  }

  lemma CanonicalFields(less: (string, string) -> bool, fields: seq<Member>)
    ensures var p, s := Canonicalize(less, Obj(fields)).fields, SortFields(less, fields);
      && |p| == |s|
      && forall i :: 0 <= i < |s| ==> p[i] == Member(s[i].name, Canonicalize(less, s[i].value))
  {
  }

  /** A canonical object has the names of the original, each once and none after one that is less; in ascending
      order when no two of them tie. */
  lemma CanonicalNames(less: (string, string) -> bool, fields: seq<Member>)
    requires WeakOrder(less) && DistinctNames(fields)
    ensures var p := Canonicalize(less, Obj(fields)).fields;
      && Names(p) == Names(fields) && DistinctNames(p) && Rising(less, p)
      && (UntiedNames(less, Names(fields)) ==> Ascending(less, p))
  {
    var p, s := Canonicalize(less, Obj(fields)).fields, SortFields(less, fields);
    assert forall i :: 0 <= i < |p| ==> p[i].name == s[i].name;
    SameNames(p, s);
    SortNames(less, fields);
    SortDistinct(less, fields);
    SortRising(less, fields);
    if UntiedNames(less, Names(fields)) { SortAscending(less, fields); }
  }

  lemma {:induction false} CanonicalizeIdempotent(less: (string, string) -> bool, j: Json)
    requires WeakOrder(less)
    ensures Canonicalize(less, Canonicalize(less, j)) == Canonicalize(less, j)
    decreases j
  {
    var c := Canonicalize(less, j);
    match j
    case Arr(items) =>
      forall i | 0 <= i < |items| ensures Canonicalize(less, c.items[i]) == c.items[i] {
        CanonicalizeIdempotent(less, items[i]);
      }
      assert Canonicalize(less, c).items == c.items;
    case Obj(fields) =>
      forall i | 0 <= i < |fields|
        ensures Canonicalize(less, Canonicalize(less, fields[i].value)) == Canonicalize(less, fields[i].value)
      {
        CanonicalizeIdempotent(less, fields[i].value);
      }
      RecordIdempotent(less, fields);
    case _ =>
  }

  lemma RecordIdempotent(less: (string, string) -> bool, fields: seq<Member>)
    requires WeakOrder(less)
    requires forall i :: 0 <= i < |fields| ==>
      Canonicalize(less, Canonicalize(less, fields[i].value)) == Canonicalize(less, fields[i].value)
    ensures Canonicalize(less, Canonicalize(less, Obj(fields))) == Canonicalize(less, Obj(fields))
  {
    var s, p := SortFields(less, fields), Canonicalize(less, Obj(fields)).fields;
    SameMembers(less, fields);
    CanonicalFields(less, fields);
    CanonicalRising(less, fields);
    SortFixed(less, p);
    CanonicalFields(less, p);
    forall i | 0 <= i < |p| ensures Canonicalize(less, p[i].value) == p[i].value {
      var x :| 0 <= x < |fields| && fields[x] == s[i];
    }
    SameFields(Canonicalize(less, Obj(p)).fields, p);
  }

  lemma CanonicalRising(less: (string, string) -> bool, fields: seq<Member>)
    requires WeakOrder(less)
    ensures Rising(less, Canonicalize(less, Obj(fields)).fields)
  {
    SortRising(less, fields);
    CanonicalFields(less, fields);
  }

  lemma SameFields(f: seq<Member>, g: seq<Member>)
    requires |f| == |g| && forall i :: 0 <= i < |f| ==> f[i].name == g[i].name && f[i].value == g[i].value
    ensures f == g
  {
  }

  // ---- Equal forms and equivalent trees ----

  ghost predicate EqualFormsEquivalent(less: (string, string) -> bool, x: Json, y: Json) {
    Canonicalize(less, x) == Canonicalize(less, y) ==> Equivalent(x, y)
  }

  /** Whatever the comparison does, equal canonical trees come only from trees equal up to member order. */
  lemma {:induction false} SameFormEquivalent(less: (string, string) -> bool, a: Json, b: Json)
    requires WellFormed(a) && WellFormed(b)
    ensures EqualFormsEquivalent(less, a, b)
    decreases a
  {
    match (a, b)
    case (Arr(x), Arr(y)) =>
      forall i | 0 <= i < |x| && i < |y| ensures EqualFormsEquivalent(less, x[i], y[i]) {
        SameFormEquivalent(less, x[i], y[i]);
      }
      var p, q := Canonicalize(less, a).items, Canonicalize(less, b).items;
      if p == q {
        forall i | 0 <= i < |x| ensures Equivalent(x[i], y[i]) { assert p[i] == q[i]; }
      }
    case (Obj(f), Obj(g)) =>
      forall i, k | 0 <= i < |f| && 0 <= k < |g| ensures EqualFormsEquivalent(less, f[i].value, g[k].value) {
        SameFormEquivalent(less, f[i].value, g[k].value);
      }
      if Canonicalize(less, a) == Canonicalize(less, b) { EqualRecords(less, f, g); }
    case (_, _) =>
  }

  lemma EqualRecords(less: (string, string) -> bool, f: seq<Member>, g: seq<Member>)
    requires DistinctNames(f) && DistinctNames(g)
    requires forall i, k :: 0 <= i < |f| && 0 <= k < |g| ==> EqualFormsEquivalent(less, f[i].value, g[k].value)
    requires Canonicalize(less, Obj(f)) == Canonicalize(less, Obj(g))
    ensures Equivalent(Obj(f), Obj(g))
  {
    var sf, sg := SortFields(less, f), SortFields(less, g);
    SortDistinct(less, f);
    SameMembers(less, f);
    SameMembers(less, g);
    CanonicalFields(less, f);
    CanonicalFields(less, g);
    SameNameSet(f, sf);
    SameNameSet(g, sg);
    SameNames(sf, sg);
    forall i, k | 0 <= i < |f| && 0 <= k < |g| && f[i].name == g[k].name
      ensures Equivalent(f[i].value, g[k].value)
    {
      SamePlace(less, sf, sg, f[i], g[k]);
      assert EqualFormsEquivalent(less, f[i].value, g[k].value);
    }
  }

  lemma SamePlace(less: (string, string) -> bool, sf: seq<Member>, sg: seq<Member>, m: Member, n: Member)
    requires DistinctNames(sf) && |sf| == |sg| && m in sf && n in sg && m.name == n.name
    requires forall i :: 0 <= i < |sf| ==>
      sf[i].name == sg[i].name && Canonicalize(less, sf[i].value) == Canonicalize(less, sg[i].value)
    ensures Canonicalize(less, m.value) == Canonicalize(less, n.value)
  {
    var x :| 0 <= x < |sf| && sf[x] == m;
    var y :| 0 <= y < |sg| && sg[y] == n;
    assert sf[y].name == sf[x].name;
    assert x == y;
  }

  ghost predicate EquivalentFormsEqual(less: (string, string) -> bool, x: Json, y: Json) {
    Equivalent(x, y) ==> Canonicalize(less, x) == Canonicalize(less, y)
  }

  lemma {:induction false} EquivalentSameForm(less: (string, string) -> bool, a: Json, b: Json)
    requires WeakOrder(less) && WellFormed(a) && WellFormed(b) && Untied(less, a)
    ensures EquivalentFormsEqual(less, a, b)
    decreases a
  {
    match (a, b)
    case (Arr(x), Arr(y)) =>
      forall i | 0 <= i < |x| && i < |y| ensures EquivalentFormsEqual(less, x[i], y[i]) {
        EquivalentSameForm(less, x[i], y[i]);
      }
      if Equivalent(a, b) { assert Canonicalize(less, a).items == Canonicalize(less, b).items; }
    case (Obj(f), Obj(g)) =>
      forall i, k | 0 <= i < |f| && 0 <= k < |g| ensures EquivalentFormsEqual(less, f[i].value, g[k].value) {
        EquivalentSameForm(less, f[i].value, g[k].value);
      }
      if Equivalent(a, b) { EquivalentRecords(less, f, g); }
    case (_, _) =>
  }

  lemma EquivalentRecords(less: (string, string) -> bool, f: seq<Member>, g: seq<Member>)
    requires WeakOrder(less) && DistinctNames(f) && DistinctNames(g) && UntiedNames(less, Names(f))
    requires forall i, k :: 0 <= i < |f| && 0 <= k < |g| ==> EquivalentFormsEqual(less, f[i].value, g[k].value)
    requires Equivalent(Obj(f), Obj(g))
    ensures Canonicalize(less, Obj(f)) == Canonicalize(less, Obj(g))
  {
    var sf, sg := SortFields(less, f), SortFields(less, g);
    SortAscending(less, f);
    SortAscending(less, g);
    SortNames(less, f);
    SortNames(less, g);
    AscendingUnique(less, sf, sg);
    SameMembers(less, f);
    SameMembers(less, g);
    forall i | 0 <= i < |sf|
      ensures sf[i].name == sg[i].name && Canonicalize(less, sf[i].value) == Canonicalize(less, sg[i].value)
    {
      assert sf[i] in f && sg[i] in g;
      var x :| 0 <= x < |f| && f[x] == sf[i];
      var y :| 0 <= y < |g| && g[y] == sg[i];
      assert EquivalentFormsEqual(less, f[x].value, g[y].value);
    }
    assert Canonicalize(less, Obj(f)).fields == Canonicalize(less, Obj(g)).fields;
  }

  /** If no object of a tree has tied names, its canonical form is shared by exactly the trees equal to it up to
      member order. */
  lemma CanonicalIffEquivalent(less: (string, string) -> bool, a: Json, b: Json)
    requires WeakOrder(less) && WellFormed(a) && WellFormed(b) && Untied(less, a)
    ensures Canonicalize(less, a) == Canonicalize(less, b) <==> Equivalent(a, b)
  {
    SameFormEquivalent(less, a, b);
    EquivalentSameForm(less, a, b);
  }

  lemma {:induction false} CanonicalWellFormed(less: (string, string) -> bool, j: Json)
    requires WellFormed(j)
    ensures WellFormed(Canonicalize(less, j))
    decreases j
  {
    match j
    case Arr(items) =>
      forall i | 0 <= i < |items| ensures WellFormed(Canonicalize(less, items[i])) {
        CanonicalWellFormed(less, items[i]);
      }
    case Obj(fields) =>
      var s, p := SortFields(less, fields), Canonicalize(less, j).fields;
      SameMembers(less, fields);
      SortDistinct(less, fields);
      forall i | 0 <= i < |p| ensures WellFormed(p[i].value) {
        var x :| 0 <= x < |fields| && fields[x] == s[i];
        CanonicalWellFormed(less, fields[x].value);
      }
    case _ =>
  }

  // ---- Ties ----

  lemma {:induction false} EquivalentReflexive(j: Json)
    requires WellFormed(j)
    ensures Equivalent(j, j)
  {
    match j
    case Arr(items) =>
      forall i | 0 <= i < |items| ensures Equivalent(items[i], items[i]) { EquivalentReflexive(items[i]); }
    case Obj(fields) =>
      forall i | 0 <= i < |fields| ensures Equivalent(fields[i].value, fields[i].value) {
        EquivalentReflexive(fields[i].value);
      }
    case _ =>
  }

  /** The same members in another order. */
  lemma ReorderedRecord(f: seq<Member>, g: seq<Member>)
    requires WellFormed(Obj(f)) && DistinctNames(g) && forall m :: m in f <==> m in g
    ensures WellFormed(Obj(g)) && Equivalent(Obj(f), Obj(g))
  {
    SameNameSet(f, g);
    forall k | 0 <= k < |g|
      ensures WellFormed(g[k].value)
      ensures forall i :: 0 <= i < |f| && f[i].name == g[k].name ==> Equivalent(f[i].value, g[k].value)
    {
      assert g[k] in f;
      var x :| 0 <= x < |f| && f[x] == g[k];
      EquivalentReflexive(f[x].value);
    }
  }

  function Swap(s: seq<Member>, p: nat, q: nat): seq<Member>
    requires p < |s| && q < |s|
  {
    s[p := s[q]][q := s[p]]
  }

  lemma SwapMembers(s: seq<Member>, p: nat, q: nat)
    requires p < q < |s| && DistinctNames(s)
    ensures DistinctNames(Swap(s, p, q)) && forall m :: m in s <==> m in Swap(s, p, q)
  {
    var t := Swap(s, p, q);
    forall m | m in s ensures m in t {
      var i :| 0 <= i < |s| && s[i] == m;
      assert t[if i == p then q else if i == q then p else i] == m;
    }
    forall m | m in t ensures m in s {
      var i :| 0 <= i < |t| && t[i] == m;
      assert m == s[i] || m == s[p] || m == s[q];
    }
  }

  lemma TiedAlike(less: (string, string) -> bool, a: string, b: string, x: string)
    requires WeakOrder(less) && Tied(less, a, b)
    ensures (less(x, a) <==> less(x, b)) && (less(a, x) <==> less(b, x))
  {
  }

  lemma SwapRising(less: (string, string) -> bool, s: seq<Member>, p: nat, q: nat)
    requires WeakOrder(less) && Rising(less, s) && p < q < |s| && Tied(less, s[p].name, s[q].name)
    ensures Rising(less, Swap(s, p, q))
  {
    var t := Swap(s, p, q);
    forall i, k | 0 <= i < k < |t| ensures !less(t[k].name, t[i].name) {
      TiedAlike(less, s[p].name, s[q].name, t[i].name);
      TiedAlike(less, s[p].name, s[q].name, t[k].name);
      TiedAlike(less, s[p].name, s[q].name, s[i].name);
      assert less(t[k].name, t[i].name) <==> less(s[k].name, s[i].name);
    }
  }

  /** Sorted objects with different names somewhere have different forms. */
  lemma SortedFormsDiffer(less: (string, string) -> bool, s: seq<Member>, t: seq<Member>, p: nat)
    requires Rising(less, s) && Rising(less, t) && p < |s| && p < |t| && s[p].name != t[p].name
    ensures Canonicalize(less, Obj(s)) != Canonicalize(less, Obj(t))
  {
    SortFixed(less, s);
    SortFixed(less, t);
    CanonicalFields(less, s);
    CanonicalFields(less, t);
  }

  lemma SortKeepsForm(less: (string, string) -> bool, fields: seq<Member>)
    requires WeakOrder(less)
    ensures Canonicalize(less, Obj(SortFields(less, fields))) == Canonicalize(less, Obj(fields))
  {
    var s := SortFields(less, fields);
    SortRising(less, fields);
    SortFixed(less, s);
    CanonicalFields(less, fields);
    CanonicalFields(less, s);
    SameFields(Canonicalize(less, Obj(s)).fields, Canonicalize(less, Obj(fields)).fields);
  }

  lemma TiedPair(less: (string, string) -> bool, s: seq<Member>) returns (p: nat, q: nat)
    requires !UntiedNames(less, Names(s))
    ensures p < q < |s| && Tied(less, s[p].name, s[q].name)
  {
    var a, b :| a in Names(s) && b in Names(s) && Tied(less, a, b);
    var i :| 0 <= i < |s| && s[i].name == a;
    var k :| 0 <= k < |s| && s[k].name == b;
    p, q := Min(i, k), Max(i, k);
  }

  /** Swapping two tied members of the sorted object leaves it sorted, so the two orders have different forms. */
  lemma TiedRecord(less: (string, string) -> bool, fields: seq<Member>) returns (other: seq<Member>)
    requires WeakOrder(less) && WellFormed(Obj(fields)) && !UntiedNames(less, Names(fields))
    ensures WellFormed(Obj(other)) && Equivalent(Obj(fields), Obj(other))
    ensures Canonicalize(less, Obj(fields)) != Canonicalize(less, Obj(other))
  {
    var s := SortFields(less, fields);
    SortNames(less, fields);
    var p, q := TiedPair(less, s);
    other := Swap(s, p, q);
    assert WellFormed(Obj(other)) && Equivalent(Obj(fields), Obj(other)) by {
      SortDistinct(less, fields);
      SameMembers(less, fields);
      SwapMembers(s, p, q);
      ReorderedRecord(fields, other);
    }
    SortRising(less, fields);
    SwapRising(less, s, p, q);
    SortedFormsDiffer(less, s, other, p);
    SortKeepsForm(less, fields);
  }

  lemma CanonicalHas(less: (string, string) -> bool, fields: seq<Member>, m: Member)
    requires m in fields
    ensures Member(m.name, Canonicalize(less, m.value)) in Canonicalize(less, Obj(fields)).fields
  {
    var s := SortFields(less, fields);
    SameMembers(less, fields);
    var i :| 0 <= i < |s| && s[i] == m;
    assert Canonicalize(less, Obj(fields)).fields[i] == Member(m.name, Canonicalize(less, m.value));
  }

  lemma ReplacedField(less: (string, string) -> bool, fields: seq<Member>, i: nat, v: Json)
    requires WellFormed(Obj(fields)) && i < |fields| && WellFormed(v) && Equivalent(fields[i].value, v)
    requires Canonicalize(less, fields[i].value) != Canonicalize(less, v)
    ensures var other := Obj(fields[i := Member(fields[i].name, v)]);
      && WellFormed(other) && Equivalent(Obj(fields), other)
      && Canonicalize(less, Obj(fields)) != Canonicalize(less, other)
  {
    var m := Member(fields[i].name, v);
    var other := fields[i := m];
    SameNames(fields, other);
    forall k | 0 <= k < |fields| ensures Equivalent(fields[k].value, other[k].value) {
      EquivalentReflexive(fields[k].value);
    }
    ReplacedForm(less, fields, i, m);
  }

  lemma ReplacedForm(less: (string, string) -> bool, fields: seq<Member>, i: nat, m: Member)
    requires DistinctNames(fields) && i < |fields| && m.name == fields[i].name
    requires Canonicalize(less, fields[i].value) != Canonicalize(less, m.value)
    ensures Canonicalize(less, Obj(fields)) != Canonicalize(less, Obj(fields[i := m]))
  {
    CanonicalHas(less, fields, fields[i]);
    assert fields[i := m][i] == m;
    CanonicalHas(less, fields[i := m], m);
    CanonicalDistinct(less, fields);
    OneValuePerName(Canonicalize(less, Obj(fields)).fields, m.name,
                    Canonicalize(less, fields[i].value), Canonicalize(less, m.value));
  }

  lemma CanonicalDistinct(less: (string, string) -> bool, fields: seq<Member>)
    requires DistinctNames(fields)
    ensures DistinctNames(Canonicalize(less, Obj(fields)).fields)
  {
    SortDistinct(less, fields);
    CanonicalFields(less, fields);
  }

  lemma OneValuePerName(f: seq<Member>, name: string, v: Json, w: Json)
    requires DistinctNames(f) && v != w && Member(name, v) in f
    ensures Member(name, w) !in f
  {
  }

  lemma ReplacedItem(less: (string, string) -> bool, items: seq<Json>, i: nat, v: Json)
    requires WellFormed(Arr(items)) && i < |items| && WellFormed(v) && Equivalent(items[i], v)
    requires Canonicalize(less, items[i]) != Canonicalize(less, v)
    ensures var other := Arr(items[i := v]);
      && WellFormed(other) && Equivalent(Arr(items), other)
      && Canonicalize(less, Arr(items)) != Canonicalize(less, other)
  {
    forall k | 0 <= k < |items| ensures Equivalent(items[k], items[i := v][k]) { EquivalentReflexive(items[k]); }
    assert Canonicalize(less, Arr(items)).items[i] != Canonicalize(less, Arr(items[i := v])).items[i];
  }

  /** A tie anywhere in a tree lets another member order have another form. */
  lemma {:induction false} TieSplitsForm(less: (string, string) -> bool, a: Json) returns (b: Json)
    requires WeakOrder(less) && WellFormed(a) && !Untied(less, a)
    ensures WellFormed(b) && Equivalent(a, b) && Canonicalize(less, a) != Canonicalize(less, b)
    decreases a
  {
    match a
    case Arr(items) =>
      var i :| 0 <= i < |items| && !Untied(less, items[i]);
      var v := TieSplitsForm(less, items[i]);
      ReplacedItem(less, items, i, v);
      b := Arr(items[i := v]);
    case Obj(fields) =>
      if !UntiedNames(less, Names(fields)) {
        var other := TiedRecord(less, fields);
        b := Obj(other);
      } else {
        var i :| 0 <= i < |fields| && !Untied(less, fields[i].value);
        var v := TieSplitsForm(less, fields[i].value);
        ReplacedField(less, fields, i, v);
        b := Obj(fields[i := Member(fields[i].name, v)]);
      }
  }

  /** A tree has one form for all its member orders exactly when no object in it has two names that tie. */
  lemma OneFormIffUntied(less: (string, string) -> bool, a: Json)
    requires WeakOrder(less) && WellFormed(a)
    ensures (forall b :: WellFormed(b) && Equivalent(a, b) ==> Canonicalize(less, b) == Canonicalize(less, a))
      <==> Untied(less, a)
  {
    if Untied(less, a) {
      forall b | WellFormed(b) && Equivalent(a, b) ensures Canonicalize(less, b) == Canonicalize(less, a) {
        CanonicalIffEquivalent(less, a, b);
      }
    } else {
      var b := TieSplitsForm(less, a);
    }
  }

  lemma TiedOrders(less: (string, string) -> bool, f: seq<Member>, g: seq<Member>)
    requires WellFormed(Obj(f)) && |f| == |g| == 2 && g[0] == f[1] && g[1] == f[0]
    requires Tied(less, f[0].name, f[1].name)
    ensures Equivalent(Obj(f), Obj(g)) && Canonicalize(less, Obj(f)) != Canonicalize(less, Obj(g))
  {
    SortedFormsDiffer(less, f, g, 0);
    assert forall x :: x in f <==> x in g;
    ReorderedRecord(f, g);
  }

  /** The smallest case: two tied names in either order. */
  lemma TiesAreNotCanonical(less: (string, string) -> bool, m: Member, n: Member)
    requires Tied(less, m.name, n.name) && WellFormed(m.value) && WellFormed(n.value)
    ensures Equivalent(Obj([m, n]), Obj([n, m]))
    ensures Canonicalize(less, Obj([m, n])) != Canonicalize(less, Obj([n, m]))
  {
    TiedOrders(less, [m, n], [n, m]);
  }

  // ---- Bodies as the host reads them ----

  /** What JSON.stringify writes for the number JSON.parse reads from a token: its shortest text, or null for a
      value out of range. Reading that text again gives the same number. */
  ghost predicate Shows(show: string -> Json) {
    forall t :: IsNumber(t) ==>
      match show(t)
      case Null => true
      case Num(u) => IsNumber(u) && show(u) == Num(u)
      case _ => false
  }

  /** A body after JSON.parse, every number by the text JSON.stringify gives it. */
  function AsRead(show: string -> Json, j: Json): Json {
    match j
    case Num(t) => show(t)
    case Arr(items) => Arr(seq(|items|, i requires 0 <= i < |items| => AsRead(show, items[i])))
    case Obj(fields) =>
      Obj(seq(|fields|, i requires 0 <= i < |fields| => Member(fields[i].name, AsRead(show, fields[i].value))))
    case _ => j
  }

  lemma {:induction false} AsReadFacts(less: (string, string) -> bool, show: string -> Json, j: Json)
    requires Shows(show) && WellFormed(j)
    ensures var r := AsRead(show, j);
      WellFormed(r) && AsRead(show, r) == r && (Untied(less, r) <==> Untied(less, j))
    decreases j
  {
    var r := AsRead(show, j);
    match j
    case Num(t) => assert match show(t) case Null => true case Num(u) => show(u) == Num(u) case _ => false;
    case Arr(items) =>
      forall i | 0 <= i < |items|
        ensures WellFormed(r.items[i]) && AsRead(show, r.items[i]) == r.items[i]
        ensures Untied(less, r.items[i]) <==> Untied(less, items[i])
      {
        AsReadFacts(less, show, items[i]);
      }
      assert AsRead(show, r).items == r.items;
    case Obj(fields) =>
      forall i | 0 <= i < |fields|
        ensures WellFormed(r.fields[i].value) && AsRead(show, r.fields[i].value) == r.fields[i].value
        ensures Untied(less, r.fields[i].value) <==> Untied(less, fields[i].value)
      {
        AsReadFacts(less, show, fields[i].value);
      }
      SameNames(r.fields, fields);
      assert AsRead(show, r).fields == r.fields;
    case _ =>
  }

  /** Every number of the tree is written the way the host writes it. */
  ghost predicate AsShown(show: string -> Json, j: Json) {
    match j
    case Num(t) => show(t) == j
    case Arr(items) => forall i :: 0 <= i < |items| ==> AsShown(show, items[i])
    case Obj(fields) => forall i :: 0 <= i < |fields| ==> AsShown(show, fields[i].value)
    case _ => true
  }

  /** Reading changes the writing of numbers and nothing else. */
  lemma {:induction false} AsReadFixedIff(show: string -> Json, j: Json)
    ensures AsRead(show, j) == j <==> AsShown(show, j)
    decreases j
  {
    var r := AsRead(show, j);
    match j
    case Arr(items) =>
      forall i | 0 <= i < |items| ensures r.items[i] == items[i] <==> AsShown(show, items[i]) {
        AsReadFixedIff(show, items[i]);
      }
      assert r == j <==> r.items == items;
    case Obj(fields) =>
      forall i | 0 <= i < |fields| ensures r.fields[i] == fields[i] <==> AsShown(show, fields[i].value) {
        AsReadFixedIff(show, fields[i].value);
        assert r.fields[i] == Member(fields[i].name, AsRead(show, fields[i].value));
      }
      assert r == j <==> r.fields == fields;
    case _ =>
  }

  /** Reordering members leaves the numbers as the host shows them. */
  lemma {:induction false} EquivalentAsRead(show: string -> Json, a: Json, b: Json)
    requires AsRead(show, a) == a && Equivalent(a, b)
    ensures AsRead(show, b) == b
    decreases a
  {
    match (a, b)
    case (Arr(x), Arr(y)) =>
      forall i | 0 <= i < |y| ensures AsRead(show, y[i]) == y[i] {
        assert AsRead(show, a).items[i] == x[i];
        EquivalentAsRead(show, x[i], y[i]);
      }
      assert AsRead(show, b).items == y;
    case (Obj(f), Obj(g)) =>
      forall k | 0 <= k < |g| ensures AsRead(show, g[k].value) == g[k].value {
        assert g[k].name in Names(f);
        var i :| 0 <= i < |f| && f[i].name == g[k].name;
        assert AsRead(show, a).fields[i] == f[i];
        EquivalentAsRead(show, f[i].value, g[k].value);
      }
      assert AsRead(show, b).fields == g;
    case (_, _) =>
  }

  // ---- Fingerprints ----

  /** The value mutationContext fingerprints: the body and, when given, the expected version. */
  function FingerprintInput(body: Json, expectedVersion: Option<nat>): Json {
    match expectedVersion
    case None => Obj([Member("body", body)])
    case Some(v) => Obj([Member("body", body), Member("expectedVersion", Num(Print10(v)))])
  }

  function Fingerprint(less: (string, string) -> bool, show: string -> Json, digest: string -> string,
                       body: Json, expectedVersion: Option<nat>): string {
    digest(Print(Canonicalize(less, FingerprintInput(AsRead(show, body), expectedVersion))))
  }

  ghost predicate Injective(digest: string -> string) {
    forall s, t :: digest(s) == digest(t) ==> s == t
  }

  lemma InputWellFormed(body: Json, expectedVersion: Option<nat>)
    requires WellFormed(body)
    ensures WellFormed(FingerprintInput(body, expectedVersion))
  {
    if expectedVersion.Some? { PrintIsNumber(expectedVersion.value); }
    assert |"body"| == 4 && |"expectedVersion"| == 15;
  }

  lemma SortPair(less: (string, string) -> bool, m: Member, n: Member)
    ensures SortFields(less, [m]) == [m]
    ensures SortFields(less, [m, n]) == if less(n.name, m.name) then [n, m] else [m, n]
  {
    assert [m][..0] == [] && [m, n][..1] == [m];
    assert Insert(less, [m], n) == if less(n.name, m.name) then [n, m] else [m, n];
  }

  lemma PairForm(less: (string, string) -> bool, m: Member, n: Member)
    ensures var p, q := Member(m.name, Canonicalize(less, m.value)), Member(n.name, Canonicalize(less, n.value));
      && Canonicalize(less, Obj([m])) == Obj([p])
      && Canonicalize(less, Obj([m, n])) == Obj(if less(n.name, m.name) then [q, p] else [p, q])
  {
    SortPair(less, m, n);
    CanonicalFields(less, [m]);
    CanonicalFields(less, [m, n]);
  }

  lemma InputForm(less: (string, string) -> bool, body: Json, v: Option<nat>, m: Member, n: Member)
    requires m == Member("body", body) && (v.Some? ==> n == Member("expectedVersion", Num(Print10(v.value))))
    ensures var p := Member(m.name, Canonicalize(less, body));
      Canonicalize(less, FingerprintInput(body, v)) ==
        if v.None? then Obj([p]) else Obj(if less(n.name, m.name) then [n, p] else [p, n])
  {
    PairForm(less, m, n);
  }

  /** The input's canonical form keeps the body's form and the version apart, for any comparison. */
  lemma InputFormsIff(less: (string, string) -> bool, b1: Json, v1: Option<nat>, b2: Json, v2: Option<nat>)
    ensures Canonicalize(less, FingerprintInput(b1, v1)) == Canonicalize(less, FingerprintInput(b2, v2))
      <==> Canonicalize(less, b1) == Canonicalize(less, b2) && v1 == v2
  {
    assert |"body"| == 4 && |"expectedVersion"| == 15;
    var m1, n1 := Member("body", b1), Member("expectedVersion", Num(Print10(v1.GetOr(0))));
    var m2, n2 := Member("body", b2), Member("expectedVersion", Num(Print10(v2.GetOr(0))));
    InputForm(less, b1, v1, m1, n1);
    InputForm(less, b2, v2, m2, n2);
    if v1.Some? && v2.Some? && Print10(v1.value) == Print10(v2.value) { PrintInjective(v1.value, v2.value); }
  }

  lemma FingerprintsAgreeByForm(less: (string, string) -> bool, show: string -> Json, digest: string -> string,
                                b1: Json, v1: Option<nat>, b2: Json, v2: Option<nat>)
    requires Shows(show) && Injective(digest) && WellFormed(b1) && WellFormed(b2)
    ensures Fingerprint(less, show, digest, b1, v1) == Fingerprint(less, show, digest, b2, v2)
      <==> Canonicalize(less, AsRead(show, b1)) == Canonicalize(less, AsRead(show, b2)) && v1 == v2
  {
    var x, y := FingerprintInput(AsRead(show, b1), v1), FingerprintInput(AsRead(show, b2), v2);
    AsReadFacts(less, show, b1);
    AsReadFacts(less, show, b2);
    InputWellFormed(AsRead(show, b1), v1);
    InputWellFormed(AsRead(show, b2), v2);
    CanonicalWellFormed(less, x);
    CanonicalWellFormed(less, y);
    StringifyInjective(Canonicalize(less, x), Canonicalize(less, y));
    InputFormsIff(less, AsRead(show, b1), v1, AsRead(show, b2), v2);
  }

  /** Two requests have one fingerprint only when their bodies, as read, are equal up to member order at every
      depth and they expect the same version; and always then, if no object of the body has tied names. */
  lemma FingerprintsAgreeIff(less: (string, string) -> bool, show: string -> Json, digest: string -> string,
                             b1: Json, v1: Option<nat>, b2: Json, v2: Option<nat>)
    requires Shows(show) && Injective(digest) && WellFormed(b1) && WellFormed(b2)
    ensures var same := Fingerprint(less, show, digest, b1, v1) == Fingerprint(less, show, digest, b2, v2);
      var equal := Equivalent(AsRead(show, b1), AsRead(show, b2)) && v1 == v2;
      && (same ==> equal)
      && (WeakOrder(less) && Untied(less, b1) ==> (same <==> equal))
  {
    FingerprintsAgreeByForm(less, show, digest, b1, v1, b2, v2);
    AsReadFacts(less, show, b1);
    AsReadFacts(less, show, b2);
    SameFormEquivalent(less, AsRead(show, b1), AsRead(show, b2));
    if WeakOrder(less) && Untied(less, b1) { EquivalentSameForm(less, AsRead(show, b1), AsRead(show, b2)); }
  }

  /** A request has one fingerprint for all member orders of its body exactly when no object of the body has two
      names that tie. */
  lemma OneFingerprintIffUntied(less: (string, string) -> bool, show: string -> Json, digest: string -> string,
                                body: Json, v: Option<nat>)
    requires WeakOrder(less) && Shows(show) && Injective(digest) && WellFormed(body)
    ensures (forall b :: WellFormed(b) && Equivalent(AsRead(show, body), AsRead(show, b)) ==>
        Fingerprint(less, show, digest, b, v) == Fingerprint(less, show, digest, body, v))
      <==> Untied(less, body)
  {
    if Untied(less, body) {
      forall b | WellFormed(b) && Equivalent(AsRead(show, body), AsRead(show, b))
        ensures Fingerprint(less, show, digest, b, v) == Fingerprint(less, show, digest, body, v)
      {
        FingerprintsAgreeIff(less, show, digest, body, v, b, v);
      }
    } else {
      AsReadFacts(less, show, body);
      var b := TieSplitsForm(less, AsRead(show, body));
      EquivalentAsRead(show, AsRead(show, body), b);
      FingerprintsAgreeByForm(less, show, digest, b, v, body, v);
    }
  }
}
