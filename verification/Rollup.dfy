/** Portfolio signals and workspace roll-ups (postgres-adapter.ts). */
module Rollup {
  import opened Prelude

  datatype Health = Critical | Watch | OnTrack | Parked

  /** `due` is None for a missing or unparsable date. */
  datatype Item = Item(workspaceId: string, status: string, kind: string, decisionState: string, approvalState: string,
                       due: Option<int>, priority: string, hasAssignee: bool)

  datatype Workspace = Workspace(id: string, health: Health, latestUpdate: Option<int>)

  datatype Rollup = Rollup(open: nat, overdue: nat, blocked: nat, decisions: nat, approvals: nat, score: nat)

  datatype Row = Row(workspace: Workspace, rollup: Rollup)

  datatype Signals = Signals(decisions: nat, approvals: nat, blocked: nat, overdueMilestones: nat,
                             staleUpdates: nat, unassignedUrgent: nat)

  predicate Open(i: Item) { i.status != "done" }
  predicate Blocked(i: Item) { i.status == "blocked" }
  predicate Undecided(i: Item) { i.kind == "decision" && i.decisionState != "decided" }
  predicate Unapproved(i: Item) { i.kind == "approval" && i.approvalState == "pending" }
  predicate Overdue(now: int, i: Item) { i.due.Some? && i.due.value < now }
  predicate OverdueMilestone(now: int, i: Item) { i.kind == "milestone" && Overdue(now, i) }

  function HealthWeight(h: Health): nat {
    match h
    case Critical => 40
    case Watch => 22
    case OnTrack => 4
    case Parked => 0
  }

  /** rollupWorkspace */
  function RollupWorkspace(w: Workspace, all: seq<Item>, now: int): Rollup {
    var items := Filter((i: Item) => i.workspaceId == w.id && Open(i), all);
    var overdue := |Filter((i: Item) => Overdue(now, i), items)|;
    var blocked := |Filter(Blocked, items)|;
    var decisions := |Filter(Undecided, items)|;
    var approvals := |Filter(Unapproved, items)|;
    Rollup(|items|, overdue, blocked, decisions, approvals,
           HealthWeight(w.health) + overdue * 6 + blocked * 8 + decisions * 5 + approvals * 4)
  }

  /** portfolioSignals */
  function PortfolioSignals(workspaces: seq<Workspace>, items: seq<Item>, now: int): Signals {
    var open := Filter(Open, items);
    Signals(
      |Filter(Undecided, open)|,
      |Filter(Unapproved, open)|,
      |Filter(Blocked, open)|,
      |Filter((i: Item) => OverdueMilestone(now, i), open)|,
      |Filter((w: Workspace) => w.latestUpdate.None? || now - w.latestUpdate.value > 7 * 86_400_000, workspaces)|,
      |Filter((i: Item) => !i.hasAssignee && (i.priority == "urgent" || i.priority == "high"), open)|)
  }

  function One(b: bool): nat { if b then 1 else 0 }

  lemma CountNext(p: Item -> bool, q: Item -> bool, items: seq<Item>, i: Item)
    ensures |Filter(q, Filter(p, items + [i]))| == |Filter(q, Filter(p, items))| + One(p(i) && q(i))
  {
    FilterConcat(p, items, [i]);
    var kept := Filter(p, [i]);
    assert kept == if p(i) then [i] else [];
    FilterConcat(q, Filter(p, items), kept);
    assert Filter(q, kept) == if p(i) && q(i) then [i] else [];
  }

  lemma OpenNext(p: Item -> bool, items: seq<Item>, i: Item)
    ensures |Filter(p, items + [i])| == |Filter(p, items)| + One(p(i))
  {
    FilterConcat(p, items, [i]);
  }

  /** What one more item adds to a workspace's roll-up: nothing if it is another workspace's or done; otherwise
      one to the columns it belongs to, and 6, 8, 5 or 4 to the score for each. */
  lemma RollupNext(w: Workspace, items: seq<Item>, i: Item, now: int)
    ensures var r, n := RollupWorkspace(w, items, now), RollupWorkspace(w, items + [i], now);
      if i.workspaceId != w.id || i.status == "done" then n == r
      else
        var late, stuck := One(i.due.Some? && i.due.value < now), One(i.status == "blocked");
        var undecided := One(i.kind == "decision" && i.decisionState != "decided");
        var waiting := One(i.kind == "approval" && i.approvalState == "pending");
        n == Rollup(r.open + 1, r.overdue + late, r.blocked + stuck, r.decisions + undecided, r.approvals + waiting,
                    r.score + 6 * late + 8 * stuck + 5 * undecided + 4 * waiting)
  {
    var p := (x: Item) => x.workspaceId == w.id && Open(x);
    OpenNext(p, items, i);
    CountNext(p, (x: Item) => Overdue(now, x), items, i);
    CountNext(p, Blocked, items, i);
    CountNext(p, Undecided, items, i);
    CountNext(p, Unapproved, items, i);
  }

  /** An empty workspace scores by its health alone. */
  lemma RollupOfNone(w: Workspace, now: int)
    ensures RollupWorkspace(w, [], now) == Rollup(0, 0, 0, 0, 0,
      match w.health case Critical => 40 case Watch => 22 case OnTrack => 4 case Parked => 0)
  {
  }

  /** What one more item adds to each signal: nothing if it is done. */
  lemma SignalsNextItem(workspaces: seq<Workspace>, items: seq<Item>, i: Item, now: int)
    ensures var r, n := PortfolioSignals(workspaces, items, now), PortfolioSignals(workspaces, items + [i], now);
      if i.status == "done" then n == r
      else
        n == Signals(
          r.decisions + One(i.kind == "decision" && i.decisionState != "decided"),
          r.approvals + One(i.kind == "approval" && i.approvalState == "pending"),
          r.blocked + One(i.status == "blocked"),
          r.overdueMilestones + One(i.kind == "milestone" && i.due.Some? && i.due.value < now),
          r.staleUpdates,
          r.unassignedUrgent + One(!i.hasAssignee && i.priority in {"urgent", "high"}))
  {
    CountNext(Open, Undecided, items, i);
    CountNext(Open, Unapproved, items, i);
    CountNext(Open, Blocked, items, i);
    CountNext(Open, (x: Item) => OverdueMilestone(now, x), items, i);
    CountNext(Open, (x: Item) => !x.hasAssignee && (x.priority == "urgent" || x.priority == "high"), items, i);
  }

  /** A workspace adds one stale update if it has none or its latest is more than seven days old, and nothing else. */
  lemma SignalsNextWorkspace(workspaces: seq<Workspace>, w: Workspace, items: seq<Item>, now: int)
    ensures var r, n := PortfolioSignals(workspaces, items, now), PortfolioSignals(workspaces + [w], items, now);
      n == r.(staleUpdates := r.staleUpdates + One(w.latestUpdate.None? || now - w.latestUpdate.value > 604_800_000))
    ensures PortfolioSignals([], [], now) == Signals(0, 0, 0, 0, 0, 0)
  {
    var stale := (x: Workspace) => x.latestUpdate.None? || now - x.latestUpdate.value > 7 * 86_400_000;
    FilterConcat(stale, workspaces, [w]);
    assert Filter(stale, [w]) == if stale(w) then [w] else [];
  }

  // ---- The stable sort by falling score ----

  function InsertRow(sorted: seq<Row>, r: Row): (s: seq<Row>)
    ensures multiset(s) == multiset(sorted) + multiset{r}
  {
    var n := |sorted| - 1;
    if sorted != [] && sorted[n].rollup.score < r.rollup.score then
      assert sorted == sorted[..n] + [sorted[n]];
      InsertRow(sorted[..n], r) + [sorted[n]]
    else sorted + [r]
  }

  function SortByScore(rows: seq<Row>): (s: seq<Row>)
    ensures multiset(s) == multiset(rows)
  {
    if rows == [] then []
    else
      var n := |rows| - 1;
      assert rows == rows[..n] + [rows[n]];
      InsertRow(SortByScore(rows[..n]), rows[n])
  }

  ghost predicate Falling(rows: seq<Row>) {
    forall i, k :: 0 <= i < k < |rows| ==> rows[i].rollup.score >= rows[k].rollup.score
  }

  function WithScore(rows: seq<Row>, score: nat): seq<Row> { Filter((r: Row) => r.rollup.score == score, rows) }

  lemma {:induction false} InsertRowFalling(sorted: seq<Row>, r: Row)
    requires Falling(sorted)
    ensures Falling(InsertRow(sorted, r))
  {
    var n := |sorted| - 1;
    if sorted != [] && sorted[n].rollup.score < r.rollup.score {
      var front := InsertRow(sorted[..n], r);
      InsertRowFalling(sorted[..n], r);
      assert sorted == sorted[..n] + [sorted[n]];
      forall i | 0 <= i < |front| ensures front[i].rollup.score >= sorted[n].rollup.score {
        assert front[i] in multiset(front);
        assert front[i] == r || front[i] in sorted[..n];
      }
    }
  }

  lemma WithScoreAppend(rows: seq<Row>, r: Row, score: nat)
    ensures WithScore(rows + [r], score) == WithScore(rows, score) + if r.rollup.score == score then [r] else []
  {
    FilterConcat((r: Row) => r.rollup.score == score, rows, [r]);
  }

  lemma {:induction false} InsertRowStable(sorted: seq<Row>, r: Row, score: nat)
    ensures WithScore(InsertRow(sorted, r), score) == WithScore(sorted + [r], score)
  {
    var n := |sorted| - 1;
    if sorted != [] && sorted[n].rollup.score < r.rollup.score {
      InsertRowStable(sorted[..n], r, score);
      assert sorted == sorted[..n] + [sorted[n]];
      WithScoreAppend(sorted[..n], r, score);
      WithScoreAppend(sorted[..n], sorted[n], score);
      WithScoreAppend(sorted, r, score);
      WithScoreAppend(InsertRow(sorted[..n], r), sorted[n], score);
    }
  }

  /** The rows come out as a permutation of what went in, by falling score, ties in their old order. */
  lemma {:induction false} SortByScoreFacts(rows: seq<Row>, score: nat)
    ensures var s := SortByScore(rows);
      && Falling(s) && multiset(s) == multiset(rows)
      && WithScore(s, score) == WithScore(rows, score)
  {
    if rows != [] {
      var n := |rows| - 1;
      assert rows == rows[..n] + [rows[n]];
      SortByScoreFacts(rows[..n], score);
      InsertRowFalling(SortByScore(rows[..n]), rows[n]);
      InsertRowStable(SortByScore(rows[..n]), rows[n], score);
      WithScoreAppend(SortByScore(rows[..n]), rows[n], score);
      WithScoreAppend(rows[..n], rows[n], score);
    }
  }

  // ---- buildPortfolioResponse ----

  function FullRows(workspaces: seq<Workspace>, items: seq<Item>, now: int): seq<Row> {
    if workspaces == [] then []
    else
      var w := workspaces[|workspaces| - 1];
      FullRows(workspaces[..|workspaces| - 1], items, now) + [Row(w, RollupWorkspace(w, items, now))]
  }

  function InWorkspace(id: string, items: seq<Item>): seq<Item> { Filter((i: Item) => i.workspaceId == id, items) }

  lemma GroupRollsUpAlike(w: Workspace, items: seq<Item>, now: int)
    ensures RollupWorkspace(w, InWorkspace(w.id, items), now) == RollupWorkspace(w, items, now)
  {
    var p := (i: Item) => i.workspaceId == w.id;
    var q := (i: Item) => i.workspaceId == w.id && Open(i);
    FilterTwice(p, q, q, items);
  }

  lemma GroupsNext(items: seq<Item>, item: Item)
    ensures forall id ::
      InWorkspace(id, items + [item]) == InWorkspace(id, items) + (if item.workspaceId == id then [item] else [])
  {
    forall id ensures
      InWorkspace(id, items + [item]) == InWorkspace(id, items) + (if item.workspaceId == id then [item] else [])
    {
      FilterConcat((x: Item) => x.workspaceId == id, items, [item]);
    }
  }

  /** The index built in one pass gives each workspace the roll-up of the full item list. */
  method BuildPortfolioResponse(workspaces: seq<Workspace>, items: seq<Item>, now: int)
    returns (signals: Signals, rows: seq<Row>)
    ensures signals == PortfolioSignals(workspaces, items, now)
    ensures rows == SortByScore(FullRows(workspaces, items, now))
  {
    var groups: map<string, seq<Item>> := map[];
    for i := 0 to |items|
      invariant forall id :: (if id in groups then groups[id] else []) == InWorkspace(id, items[..i])
    {
      var item := items[i];
      assert items[..i + 1] == items[..i] + [item];
      GroupsNext(items[..i], item);
      var group := if item.workspaceId in groups then groups[item.workspaceId] else [];
      groups := groups[item.workspaceId := group + [item]];
    }
    assert items[..|items|] == items;
    signals := PortfolioSignals(workspaces, items, now);
    rows := [];
    for k := 0 to |workspaces|
      invariant rows == FullRows(workspaces[..k], items, now)
    {
      var w := workspaces[k];
      assert workspaces[..k + 1][..k] == workspaces[..k];
      GroupRollsUpAlike(w, items, now);
      rows := rows + [Row(w, RollupWorkspace(w, if w.id in groups then groups[w.id] else [], now))];
    }
    assert workspaces[..|workspaces|] == workspaces;
    rows := SortByScore(rows);
  }

  // ---- Conservation ----

  /** How many of the listed workspaces have this id. */
  function Copies(workspaces: seq<Workspace>, id: string): nat {
    if workspaces == [] then 0
    else Copies(workspaces[..|workspaces| - 1], id) + if workspaces[|workspaces| - 1].id == id then 1 else 0
  }

  /** The open items satisfying q, each counted once per listed workspace with its id. */
  function CountedPerWorkspace(workspaces: seq<Workspace>, items: seq<Item>, q: Item -> bool): nat {
    if items == [] then 0
    else
      CountedPerWorkspace(workspaces, items[1..], q) +
      (if Open(items[0]) && q(items[0]) then Copies(workspaces, items[0].workspaceId) else 0)
  }

  lemma {:induction false} AddWorkspace(workspaces: seq<Workspace>, items: seq<Item>, q: Item -> bool)
    requires workspaces != []
    ensures var n := |workspaces| - 1;
      CountedPerWorkspace(workspaces, items, q)
      == CountedPerWorkspace(workspaces[..n], items, q)
       + |Filter(q, Filter((i: Item) => i.workspaceId == workspaces[n].id && Open(i), items))|
  {
    if items != [] { AddWorkspace(workspaces, items[1..], q); }
  }

  lemma {:induction false} CountedOnce(workspaces: seq<Workspace>, items: seq<Item>, q: Item -> bool)
    requires forall i :: i in items ==> Copies(workspaces, i.workspaceId) == 1
    ensures CountedPerWorkspace(workspaces, items, q) == |Filter(q, Filter(Open, items))|
  {
    if items != [] { CountedOnce(workspaces, items[1..], q); }
  }

  lemma {:induction false} NoneCounted(items: seq<Item>, q: Item -> bool)
    ensures CountedPerWorkspace([], items, q) == 0
  {
    if items != [] { NoneCounted(items[1..], q); }
  }

  /** The column sums of a list of rows. */
  function Totals(rows: seq<Row>): Rollup {
    if rows == [] then Rollup(0, 0, 0, 0, 0, 0)
    else Plus(Totals(rows[..|rows| - 1]), rows[|rows| - 1].rollup)
  }

  function Plus(t: Rollup, r: Rollup): Rollup {
    Rollup(t.open + r.open, t.overdue + r.overdue, t.blocked + r.blocked, t.decisions + r.decisions,
           t.approvals + r.approvals, t.score + r.score)
  }

  lemma TotalsAppend(rows: seq<Row>, r: Row)
    ensures Totals(rows + [r]) == Plus(Totals(rows), r.rollup)
  {
    assert (rows + [r])[..|rows|] == rows;
  }

  lemma {:induction false} TotalsInsert(sorted: seq<Row>, r: Row)
    ensures Totals(InsertRow(sorted, r)) == Plus(Totals(sorted), r.rollup)
  {
    var n := |sorted| - 1;
    if sorted != [] && sorted[n].rollup.score < r.rollup.score {
      TotalsInsert(sorted[..n], r);
      TotalsAppend(InsertRow(sorted[..n], r), sorted[n]);
    } else {
      TotalsAppend(sorted, r);
    }
  }

  lemma {:induction false} TotalsSorted(rows: seq<Row>)
    ensures Totals(SortByScore(rows)) == Totals(rows)
  {
    if rows != [] {
      var n := |rows| - 1;
      TotalsSorted(rows[..n]);
      TotalsInsert(SortByScore(rows[..n]), rows[n]);
    }
  }

  /** For any workspaces and items: every column adds up the open items of that kind, counted once for each
      workspace listed with the item's id. */
  lemma {:induction false} ColumnsCountItems(workspaces: seq<Workspace>, items: seq<Item>, now: int)
    ensures var t := Totals(FullRows(workspaces, items, now));
      && t.open == CountedPerWorkspace(workspaces, items, i => true)
      && t.overdue == CountedPerWorkspace(workspaces, items, i => Overdue(now, i))
      && t.blocked == CountedPerWorkspace(workspaces, items, Blocked)
      && t.decisions == CountedPerWorkspace(workspaces, items, Undecided)
      && t.approvals == CountedPerWorkspace(workspaces, items, Unapproved)
  {
    if workspaces == [] {
      NoneCounted(items, i => true);
      NoneCounted(items, i => Overdue(now, i));
      NoneCounted(items, Blocked);
      NoneCounted(items, Undecided);
      NoneCounted(items, Unapproved);
    } else {
      var n := |workspaces| - 1;
      ColumnsCountItems(workspaces[..n], items, now);
      TotalsAppend(FullRows(workspaces[..n], items, now),
                   Row(workspaces[n], RollupWorkspace(workspaces[n], items, now)));
      AddWorkspace(workspaces, items, i => true);
      AddWorkspace(workspaces, items, i => Overdue(now, i));
      AddWorkspace(workspaces, items, Blocked);
      AddWorkspace(workspaces, items, Undecided);
      AddWorkspace(workspaces, items, Unapproved);
      AllKept((i: Item) => true, Filter((i: Item) => i.workspaceId == workspaces[n].id && Open(i), items));
    }
  }

  ghost predicate DistinctCover(workspaces: seq<Workspace>, items: seq<Item>) {
    && (forall i, k :: 0 <= i < k < |workspaces| ==> workspaces[i].id != workspaces[k].id)
    && forall x :: x in items ==> exists w :: w in workspaces && w.id == x.workspaceId
  }

  lemma {:induction false} CopiesOfDistinct(workspaces: seq<Workspace>, id: string)
    requires forall i, k :: 0 <= i < k < |workspaces| ==> workspaces[i].id != workspaces[k].id
    ensures Copies(workspaces, id) == if exists w :: w in workspaces && w.id == id then 1 else 0
  {
    if workspaces != [] {
      var n := |workspaces| - 1;
      CopiesOfDistinct(workspaces[..n], id);
      assert workspaces == workspaces[..n] + [workspaces[n]];
    }
  }

  /** The two ways of counting agree: the sums over the workspaces of a portfolio are its signals. */
  lemma RollupsAddUpToSignals(workspaces: seq<Workspace>, items: seq<Item>, now: int)
    requires DistinctCover(workspaces, items)
    ensures var t, s := Totals(SortByScore(FullRows(workspaces, items, now))), PortfolioSignals(workspaces, items, now);
      && t.blocked == s.blocked && t.decisions == s.decisions && t.approvals == s.approvals
      && t.open == |Filter(Open, items)|
      && s.overdueMilestones <= t.overdue
  {
    TotalsSorted(FullRows(workspaces, items, now));
    ColumnsCountItems(workspaces, items, now);
    forall i | i in items ensures Copies(workspaces, i.workspaceId) == 1 {
      CopiesOfDistinct(workspaces, i.workspaceId);
    }
    CountedOnce(workspaces, items, i => true);
    CountedOnce(workspaces, items, i => Overdue(now, i));
    CountedOnce(workspaces, items, Blocked);
    CountedOnce(workspaces, items, Undecided);
    CountedOnce(workspaces, items, Unapproved);
    AllKept((i: Item) => true, Filter(Open, items));
    FilterNarrower((i: Item) => OverdueMilestone(now, i), (i: Item) => Overdue(now, i), Filter(Open, items));
  }

  lemma {:induction false} FilterNarrower(p: Item -> bool, q: Item -> bool, items: seq<Item>)
    requires forall i :: p(i) ==> q(i)
    ensures |Filter(p, items)| <= |Filter(q, items)|
  {
    if items != [] { FilterNarrower(p, q, items[1..]); }
  }
}
