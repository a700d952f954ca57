/** Walking a list of workspaces page by page (postgres-adapter.ts). */
module PageWalk {
  import opened Prelude

  /** A reader's place: which workspace, and how many of its items have been read. */
  datatype Cursor = Cursor(workspaceIndex: nat, offset: nat)

  const START := Cursor(0, 0)

  const PAGE_CAP := 100

  /** workItems.listPage on the rows of one workspace: at most 100 from the offset, and whether more remain. */
  function ListPage<T>(rows: seq<T>, limit: int, offset: nat): (seq<T>, bool) {
    var n := Max(1, Min(limit, PAGE_CAP));
    var from := Min(offset, |rows|);
    var to := Min(from + n, |rows|);
    (rows[from..to], to < |rows|)
  }

  /** What a reader at cursor position (w, offset) has still to see; an empty workspace id ends the walk. */
  function Remaining<T>(rows: string -> seq<T>, ids: seq<string>, w: nat, offset: nat): seq<T>
    decreases |ids| - w
  {
    if w >= |ids| || ids[w] == "" then []
    else rows(ids[w])[Min(offset, |rows(ids[w])|)..] + Remaining(rows, ids, w + 1, 0)
  }

  /** What remains once the page at (w, offset) has been taken. */
  function Rest<T>(rows: string -> seq<T>, ids: seq<string>, w: nat, offset: nat, page: seq<T>, hasMore: bool): seq<T> {
    if hasMore then Remaining(rows, ids, w, offset + |page|) else Remaining(rows, ids, w + 1, 0)
  }

  /** One repository call, and what it means for the reader. */
  method FetchPage<T>(rows: string -> seq<T>, ids: seq<string>, w: nat, offset: nat, limit: int)
    returns (page: seq<T>, hasMore: bool)
    requires w < |ids| && ids[w] != "" && limit >= 1
    ensures |page| <= limit
    ensures hasMore ==> |page| == Min(limit, PAGE_CAP) && offset + |page| < |rows(ids[w])|
    ensures hasMore ==> Remaining(rows, ids, w, offset + |page|) != []
    ensures Remaining(rows, ids, w, offset) == page + Rest(rows, ids, w, offset, page, hasMore)
  {
    ghost var r := rows(ids[w]);
    var answer := ListPage(rows(ids[w]), limit, offset);
    page, hasMore := answer.0, answer.1;
    ghost var from, next := Min(offset, |r|), Remaining(rows, ids, w + 1, 0);
    ghost var tail := r[from + |page|..];
    assert r[from..] == page + tail;
    assert (page + tail) + next == page + (tail + next);
    if hasMore {
      assert Min(offset + |page|, |r|) == from + |page|;
      assert tail[0] == r[from + |page|];
    } else {
      assert tail == [] && tail + next == next;
    }
  }

  /** The loop of paginateWorkItems, from a decoded cursor to the position to encode. */
  method PaginateFrom<T>(rows: string -> seq<T>, ids: seq<string>, limit: nat, initial: Cursor)
    returns (items: seq<T>, next: Option<Cursor>)
    requires limit >= 1
    ensures |items| <= limit
    ensures next.None? ==> items == Remaining(rows, ids, initial.workspaceIndex, initial.offset)
    ensures next.Some? ==>
      var rest := Remaining(rows, ids, next.value.workspaceIndex, next.value.offset);
      && Remaining(rows, ids, initial.workspaceIndex, initial.offset) == items + rest
      && items != [] && rest != [] && (limit <= PAGE_CAP ==> |items| == limit)
      && next.value.workspaceIndex < |ids|
      && (next.value.offset > 0 ==> next.value.offset < |rows(ids[next.value.workspaceIndex])|)
  {
    var w: nat, offset: nat := initial.workspaceIndex, initial.offset;
    ghost var all := Remaining(rows, ids, w, offset);
    items := [];
    while w < |ids|
      invariant all == items + Remaining(rows, ids, w, offset)
      invariant |items| <= limit && (offset > 0 ==> items == [])
      decreases |ids| - w
    {
      if ids[w] == "" { break; }
      var remaining := limit - |items|;
      var page, hasMore := FetchPage(rows, ids, w, offset, Max(1, remaining));
      if remaining == 0 && page != [] {
        return items, Some(Cursor(w, offset));
      }
      ghost var rest := Rest(rows, ids, w, offset, page, hasMore);
      Regroup(items, page, rest);
      items := items + page;
      assert all == items + rest;
      if hasMore {
        return items, Some(Cursor(w, offset + |page|));
      }
      w, offset := w + 1, 0;
    }
    next := None;
  }

  /** All items of all listed workspaces, workspace by workspace. */
  function AllItems<T>(rows: string -> seq<T>, ids: seq<string>): seq<T> {
    if ids == [] then [] else rows(ids[0]) + AllItems(rows, ids[1..])
  }

  lemma {:induction false} RemainingIsAll<T>(rows: string -> seq<T>, ids: seq<string>, w: nat)
    requires "" !in ids && w <= |ids|
    ensures Remaining(rows, ids, w, 0) == AllItems(rows, ids[w..])
    decreases |ids| - w
  {
    if w < |ids| {
      RemainingIsAll(rows, ids, w + 1);
      assert ids[w..][1..] == ids[w + 1..] && ids[w..][0] == ids[w];
    }
  }

  // ---- Draining whole workspaces ----

  /** listAllWorkspaceItems */
  method ListAllWorkspaceItems<T>(rows: string -> seq<T>, id: string) returns (result: seq<T>)
    ensures result == rows(id)
  {
    result := [];
    var offset := 0;
    while true
      invariant offset <= |rows(id)| && result == rows(id)[..offset]
      decreases |rows(id)| - offset
    {
      var batch := ListPage(rows(id), 100, offset).0;
      result := result + batch;
      if |batch| < 100 { return; }
      offset := offset + |batch|;
    }
  }

  /** listAccessibleItems */
  method ListAccessibleItems<T>(rows: string -> seq<T>, ids: seq<string>) returns (result: seq<T>)
    ensures result == AllItems(rows, ids)
  {
    result := [];
    for i := 0 to |ids|
      invariant AllItems(rows, ids) == result + AllItems(rows, ids[i..])
    {
      var some := ListAllWorkspaceItems(rows, ids[i]);
      assert ids[i..][1..] == ids[i + 1..];
      result := result + some;
    }
  }
}
