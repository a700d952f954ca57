/** Item pages addressed by opaque cursors (postgres-adapter.ts, demo-adapter.ts). */
module Paging {
  import opened Prelude
  import opened PageWalk
  import opened CursorCodec

  /** A page, given what remains to be read at each cursor: a prefix of what remained, with a cursor exactly
      when something is left, and the rest is what remains at that cursor. */
  ghost predicate PageOf<T>(left: Option<string> -> seq<T>, limit: nat, exact: bool,
                            cursor: Option<string>, items: seq<T>, next: Option<string>) {
    && |items| <= limit
    && match next
       case None => items == left(cursor)
       case Some(text) =>
         && text != "" && left(cursor) == items + left(next)
         && items != [] && left(next) != [] && (exact ==> |items| == limit)
  }

  // ---- The live adapter ----

  function RemainingAt<T>(host: Host, rows: string -> seq<T>, ids: seq<string>, cursor: Option<string>): seq<T> {
    var c := DecodeCursor(host, cursor);
    Remaining(rows, ids, c.workspaceIndex, c.offset)
  }

  function LiveLeft<T>(host: Host, rows: string -> seq<T>, ids: seq<string>): Option<string> -> seq<T> {
    cursor => RemainingAt(host, rows, ids, cursor)
  }

  /** Positions fit in safe integers. */
  ghost predicate Sized<T(!new)>(rows: string -> seq<T>, ids: seq<string>) {
    |ids| <= MAX_SAFE && forall id :: |rows(id)| <= MAX_SAFE
  }

  /** paginateWorkItems */
  method PaginateWorkItems<T(!new)>(host: Host, rows: string -> seq<T>, ids: seq<string>, limit: nat,
                                    cursor: Option<string>)
    returns (items: seq<T>, next: Option<string>)
    requires Faithful(host) && Sized(rows, ids) && limit >= 1
    ensures PageOf(LiveLeft(host, rows, ids), limit, limit <= 100, cursor, items, next)
  {
    var position;
    items, position := PaginateFrom(rows, ids, limit, DecodeCursor(host, cursor));
    if position.None? {
      next := None;
    } else {
      assert |rows(ids[position.value.workspaceIndex])| <= MAX_SAFE;
      CursorRoundTrip(host, position.value);
      next := Some(EncodeCursor(position.value));
    }
  }

  // ---- The demo adapter ----

  function DemoLeft<T>(host: Host, rows: seq<T>): Option<string> -> seq<T> {
    cursor => rows[Min(DecodeOffset(host, cursor), |rows|)..]
  }

  /** listItems of the demo adapter, on the rows its filters let through. */
  method ListDemoItems<T>(host: Host, rows: seq<T>, limit: nat, cursor: Option<string>)
    returns (data: seq<T>, next: Option<string>)
    requires Faithful(host) && limit >= 1
    ensures PageOf(DemoLeft(host, rows), limit, true, cursor, data, next)
  {
    var offset := DecodeOffset(host, cursor);
    var from := Min(offset, |rows|);
    data := rows[from..Min(from + limit, |rows|)];
    var nextOffset := offset + |data|;
    if nextOffset < |rows| {
      OffsetRoundTrip(host, nextOffset);
      assert rows[from..] == data + rows[nextOffset..];
      next := Some(EncodeOffset(nextOffset));
    } else {
      next := None;
    }
  }

  // ---- Following the cursors ----

  datatype Page<T> = Page(cursor: Option<string>, items: seq<T>, next: Option<string>)

  predicate Follows<T>(page: Page<T>, later: Page<T>) { page.next.Some? && later.cursor == page.next }

  /** Pages read one after the other on unchanged data, from no cursor on. */
  ghost predicate Chain<T>(left: Option<string> -> seq<T>, limit: nat, exact: bool, pages: seq<Page<T>>) {
    && pages != [] && pages[0].cursor == None
    && (forall i :: 0 <= i < |pages| ==> PageOf(left, limit, exact, pages[i].cursor, pages[i].items, pages[i].next))
    && (forall i, k :: 0 <= i < k < |pages| && k == i + 1 ==> Follows(pages[i], pages[k]))
  }

  function Items<T>(pages: seq<Page<T>>): seq<T> {
    if pages == [] then [] else Items(pages[..|pages| - 1]) + pages[|pages| - 1].items
  }

  function LeftAfter<T>(left: Option<string> -> seq<T>, next: Option<string>): seq<T> {
    if next.None? then [] else left(next)
  }

  lemma ChainPrefix<T>(left: Option<string> -> seq<T>, limit: nat, exact: bool, pages: seq<Page<T>>)
    requires Chain(left, limit, exact, pages) && |pages| > 1
    ensures Chain(left, limit, exact, pages[..|pages| - 1])
  {
    var front := pages[..|pages| - 1];
    forall i | 0 <= i < |front| ensures front[i] == pages[i] {}
    forall i, k | 0 <= i < k < |front| && k == i + 1 ensures Follows(front[i], front[k]) {
      assert Follows(pages[i], pages[k]);
    }
  }

  lemma {:induction false} ChainCovers<T>(left: Option<string> -> seq<T>, limit: nat, exact: bool, pages: seq<Page<T>>)
    requires Chain(left, limit, exact, pages)
    ensures Items(pages) + LeftAfter(left, pages[|pages| - 1].next) == left(None)
    ensures |Items(pages)| >= |pages| - 1
    ensures exact ==> |Items(pages)| == (|pages| - 1) * limit + |pages[|pages| - 1].items|
  {
    var n := |pages| - 1;
    var last := pages[n];
    assert PageOf(left, limit, exact, last.cursor, last.items, last.next);
    var rest := LeftAfter(left, last.next);
    assert left(last.cursor) == last.items + rest;
    if n == 0 {
      assert Items(pages) == last.items by { assert Items(pages[..0]) == []; }
    } else {
      ChainPrefix(left, limit, exact, pages);
      ChainCovers(left, limit, exact, pages[..n]);
      ChainLink(left, limit, exact, pages);
      Regroup(Items(pages[..n]), last.items, rest);
      FullPages(n, limit);
    }
  }

  /** The last page of a longer chain starts where a full page before it ended. */
  lemma ChainLink<T>(left: Option<string> -> seq<T>, limit: nat, exact: bool, pages: seq<Page<T>>)
    requires Chain(left, limit, exact, pages) && |pages| > 1
    ensures var prior, last := pages[|pages| - 2], pages[|pages| - 1];
      && prior.next.Some? && last.cursor == prior.next && prior.items != []
      && (exact ==> |prior.items| == limit)
  {
    var i := |pages| - 2;
    assert PageOf(left, limit, exact, pages[i].cursor, pages[i].items, pages[i].next);
    assert Follows(pages[i], pages[i + 1]);
  }

  lemma FullPages(n: nat, limit: nat)
    ensures (n - 1) * limit + limit == n * limit
  {
  }

  /** Following nextCursor until it is null reads everything exactly once, in order, in a bounded number of
      pages, every one but the last full. */
  lemma ChainComplete<T>(left: Option<string> -> seq<T>, limit: nat, exact: bool, pages: seq<Page<T>>)
    requires Chain(left, limit, exact, pages)
    ensures pages[|pages| - 1].next.None? <==> Items(pages) == left(None)
    ensures Items(pages) <= left(None) && |pages| <= |left(None)| + 1
    ensures exact ==> (|pages| - 1) * limit <= |left(None)|
    ensures exact ==> forall i :: 0 <= i < |pages| - 1 ==> |pages[i].items| == limit
  {
    ChainCovers(left, limit, exact, pages);
    var last := pages[|pages| - 1];
    assert PageOf(left, limit, exact, last.cursor, last.items, last.next);
    forall i | 0 <= i < |pages| - 1 && exact ensures |pages[i].items| == limit {
      assert PageOf(left, limit, exact, pages[i].cursor, pages[i].items, pages[i].next);
      assert Follows(pages[i], pages[i + 1]);
    }
  }

  /** For the live adapter what is read is the concatenation of all listed workspaces' items. */
  lemma PagingComplete<T>(host: Host, rows: string -> seq<T>, ids: seq<string>, limit: nat, pages: seq<Page<T>>)
    requires Chain(LiveLeft(host, rows, ids), limit, limit <= 100, pages) && "" !in ids
    ensures pages[|pages| - 1].next.None? <==> Items(pages) == AllItems(rows, ids)
    ensures Items(pages) <= AllItems(rows, ids) && |pages| <= |AllItems(rows, ids)| + 1
    ensures limit <= 100 ==> forall i :: 0 <= i < |pages| - 1 ==> |pages[i].items| == limit
  {
    ChainComplete(LiveLeft(host, rows, ids), limit, limit <= 100, pages);
    RemainingIsAll(rows, ids, 0);
    assert ids[0..] == ids;
  }

  lemma ChainNext<T>(left: Option<string> -> seq<T>, limit: nat, exact: bool, pages: seq<Page<T>>, page: Page<T>)
    requires pages == [] || Chain(left, limit, exact, pages)
    requires page.cursor == if pages == [] then None else pages[|pages| - 1].next
    requires pages != [] ==> pages[|pages| - 1].next.Some?
    requires PageOf(left, limit, exact, page.cursor, page.items, page.next)
    ensures Chain(left, limit, exact, pages + [page]) && Items(pages + [page]) == Items(pages) + page.items
  {
    var all, n := pages + [page], |pages|;
    assert all[..n] == pages;
    forall i | 0 <= i < |all| ensures PageOf(left, limit, exact, all[i].cursor, all[i].items, all[i].next) {
      assert all[i] == if i < n then pages[i] else page;
    }
    forall i, k | 0 <= i < k < |all| && k == i + 1 ensures Follows(all[i], all[k]) {
      LinkNext(pages, page, i);
    }
  }

  lemma LinkNext<T>(pages: seq<Page<T>>, page: Page<T>, i: nat)
    requires i < |pages| && (i + 1 < |pages| ==> Follows(pages[i], pages[i + 1]))
    requires i + 1 == |pages| ==> Follows(pages[i], page)
    ensures Follows((pages + [page])[i], (pages + [page])[i + 1])
  {
  }

  /** readAllPages of the web client against the live adapter: it ends, never meets a cursor it has seen before,
      and returns everything. None would be the thrown error. */
  method ReadAllPages<T(!new)>(host: Host, rows: string -> seq<T>, ids: seq<string>, limit: nat)
    returns (r: Option<seq<T>>, ghost pages: seq<Page<T>>)
    requires Faithful(host) && Sized(rows, ids) && limit >= 1
    ensures Chain(LiveLeft(host, rows, ids), limit, limit <= 100, pages)
    ensures pages[|pages| - 1].next.None? && r == Some(Items(pages))
    ensures r == Some(LiveLeft(host, rows, ids)(None))
    ensures "" !in ids ==> r == Some(AllItems(rows, ids))
  {
    ghost var left, exact := LiveLeft(host, rows, ids), limit <= 100;
    var records: seq<T> := [];
    var visited: set<string> := {};
    var cursor: Option<string> := None;
    pages := [];
    while true
      invariant records == Items(pages) && records + left(cursor) == left(None)
      invariant pages == [] || Chain(left, limit, exact, pages)
      invariant cursor == if pages == [] then None else pages[|pages| - 1].next
      invariant pages != [] ==> cursor.Some?
      invariant forall v :: v in visited ==> |left(Some(v))| >= |left(cursor)|
      decreases |left(cursor)|
    {
      var items, next := PaginateWorkItems(host, rows, ids, limit, cursor);
      ChainNext(left, limit, exact, pages, Page(cursor, items, next));
      Regroup(records, items, LeftAfter(left, next));
      pages := pages + [Page(cursor, items, next)];
      records := records + items;
      if next.None? || next.value == "" {
        ReadsAll(host, rows, ids);
        return Some(records), pages;
      }
      if next.value in visited {
        return None, pages;
      }
      visited := visited + {next.value};
      cursor := next;
    }
  }

  lemma ReadsAll<T>(host: Host, rows: string -> seq<T>, ids: seq<string>)
    ensures "" !in ids ==> LiveLeft(host, rows, ids)(None) == AllItems(rows, ids)
  {
    if "" !in ids {
      RemainingIsAll(rows, ids, 0);
      assert ids[0..] == ids;
    }
  }

  /** For the demo adapter it is the filtered item list itself. */
  lemma DemoPagingComplete<T>(host: Host, rows: seq<T>, limit: nat, pages: seq<Page<T>>)
    requires Chain(DemoLeft(host, rows), limit, true, pages)
    ensures pages[|pages| - 1].next.None? <==> Items(pages) == rows
    ensures Items(pages) <= rows && (|pages| - 1) * limit <= |rows|
  {
    ChainComplete(DemoLeft(host, rows), limit, true, pages);
    assert DemoLeft(host, rows)(None) == rows;
  }
}
