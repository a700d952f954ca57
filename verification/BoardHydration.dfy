/** Board edits made before the stored board has been read, and what a reload brings back (board-experience.tsx). */
module BoardHydration {
  import opened Prelude

  datatype BoardItem = BoardItem(
    id: string, title: string, owner: string, status: string, priority: string, groupId: string)

  type Items = seq<BoardItem>
  type Mutation = Items -> Items

  function Fold(edits: seq<Mutation>, base: Items): Items {
    if edits == [] then base else edits[|edits| - 1](Fold(edits[..|edits| - 1], base))
  }

  /** isBoardItem: the fields that must not be empty. */
  predicate IsBoardItem(i: BoardItem) {
    i.id != "" && i.title != "" && i.owner != "" && i.status != "" && i.priority != "" && i.groupId != ""
  }

  predicate Passes(items: Items) { forall i :: 0 <= i < |items| ==> IsBoardItem(items[i]) }

  /** Reading the stored board: all of it or nothing. */
  function Restore(stored: Option<Items>): Option<Items> {
    if stored.Some? && Passes(stored.value) then stored else None
  }

  /** What the board holds, and what local storage holds for it. */
  datatype Board = Board(items: Items, ready: bool, pending: seq<Mutation>, timer: Option<Items>, stored: Option<Items>)

  /** An edit; the hydration effect; its timer; and the saving effect, whose write may fail. */
  datatype Action = Edit(mutation: Mutation) | Effect(seed: Items) | Timer | Persist(written: bool)

  function Step(b: Board, a: Action): Board {
    match a
    case Edit(m) => b.(items := m(b.items), pending := if b.ready then b.pending else b.pending + [m])
    case Effect(seed) => if b.ready then b else b.(timer := Some(Restore(b.stored).GetOr(seed)))
    case Timer =>
      if b.timer.None? then b else Board(Fold(b.pending, b.timer.value), true, [], None, b.stored)
    case Persist(written) => if b.ready && written then b.(stored := Some(b.items)) else b
  }

  class BoardWorkspace {
    var items: Items
    var ready: bool
    var pending: seq<Mutation>
    /** The base the scheduled hydration timer will replay over; None without a timer. */
    var timer: Option<Items>
    /** The list in local storage. */
    var storage: Option<Items>

    /** All edits so far, and what they were made over. */
    ghost var edits: seq<Mutation>
    ghost var base: Items

    ghost predicate Valid()
      reads this
    {
      && items == Fold(edits, base)
      && (!ready ==> pending == edits)
      && (ready ==> pending == [] && timer.None?)
    }

    function View(): Board
      reads this
    {
      Board(items, ready, pending, timer, storage)
    }

    constructor (seed: Items, stored: Option<Items>)
      ensures View() == Board(seed, false, [], None, stored)
      ensures Valid() && edits == [] && base == seed
    {
      items, ready, pending, timer, storage := seed, false, [], None, stored;
      edits, base := [], seed;
    }

    /** mutateItems */
    method MutateItems(mutation: Mutation)
      requires Valid()
      modifies this
      ensures View() == Step(old(View()), Edit(mutation))
      ensures Valid() && base == old(base)
      ensures edits == old(edits) + [mutation] && items == mutation(old(items))
    {
      if !ready {
        pending := pending + [mutation];
      }
      items := mutation(items);
      edits := edits + [mutation];
      assert edits[..|edits| - 1] == old(edits);
    }

    /** The hydration effect; running it again first cancels the timer of the previous run. */
    method RunEffect(seed: Items)
      requires Valid()
      modifies this
      ensures View() == Step(old(View()), Effect(seed))
      ensures Valid() && edits == old(edits) && base == old(base)
    {
      if ready { return; }
      var storedItems := Restore(storage);
      timer := Some(storedItems.GetOr(seed));
    }

    /** The timer fires. */
    method Hydrate()
      requires Valid() && timer.Some?
      modifies this
      ensures View() == Step(old(View()), Timer)
      ensures Valid() && ready && edits == old(edits)
      ensures base == old(timer).value && items == Fold(edits, old(timer).value)
    {
      var current := timer.value;
      var queue := pending;
      pending := [];
      ready := true;
      var i := 0;
      while i < |queue|
        invariant i <= |queue| && current == Fold(queue[..i], old(timer).value)
      {
        current := queue[i](current);
        i := i + 1;
        assert queue[..i][..i - 1] == queue[..i - 1];
      }
      assert queue[..|queue|] == queue;
      base := timer.value;
      items := current;
      timer := None;
    }

    /** The effect that saves the items, once hydrated. */
    method SaveItems(written: bool)
      requires Valid()
      modifies this
      ensures View() == Step(old(View()), Persist(written))
      ensures Valid() && edits == old(edits) && base == old(base) && items == old(items)
    {
      if !ready { return; }
      if written {
        storage := Some(items);
      }
    }
  }

  // ---- Runs ----

  function Run(seed: Items, stored: Option<Items>, actions: seq<Action>): Board {
    if actions == [] then Board(seed, false, [], None, stored)
    else Step(Run(seed, stored, actions[..|actions| - 1]), actions[|actions| - 1])
  }

  /** Every edit of a run, whenever it was made. */
  function Edits(actions: seq<Action>): seq<Mutation> {
    if actions == [] then []
    else
      Edits(actions[..|actions| - 1]) +
      match actions[|actions| - 1]
      case Edit(m) => [m]
      case _ => []
  }

  /** The seed until the timer has fired; from then on the base of the last effect before it. */
  function Base(seed: Items, stored: Option<Items>, actions: seq<Action>): Items {
    if actions == [] then seed
    else
      var before := Run(seed, stored, actions[..|actions| - 1]);
      if actions[|actions| - 1].Timer? && before.timer.Some? then before.timer.value
      else Base(seed, stored, actions[..|actions| - 1])
  }

  lemma FoldLast(edits: seq<Mutation>, m: Mutation, base: Items)
    ensures Fold(edits + [m], base) == m(Fold(edits, base))
  {
    assert (edits + [m])[..|edits|] == edits;
  }

  /** In every run the board shows all edits so far, in order, over its base: none is lost, none runs twice. */
  lemma {:induction false} NoEditLost(seed: Items, stored: Option<Items>, actions: seq<Action>)
    ensures var b := Run(seed, stored, actions);
      && b.items == Fold(Edits(actions), Base(seed, stored, actions))
      && (!b.ready ==> b.pending == Edits(actions) && Base(seed, stored, actions) == seed && b.stored == stored)
      && (b.ready ==> b.pending == [] && b.timer.None?)
  {
    if actions != [] {
      var front, a := actions[..|actions| - 1], actions[|actions| - 1];
      NoEditLost(seed, stored, front);
      match a
      case Edit(m) => FoldLast(Edits(front), m, Base(seed, stored, front));
      case _ => assert Edits(actions) == Edits(front);
    }
  }

  /** Hydration shows the edits made before it over the stored board, or over the effect's seed when nothing can
      be restored. So it is invisible when nothing can be restored and the seed is unchanged; and before any edit
      it is invisible only if the new base is the seed. */
  lemma HydrationShows(seed: Items, stored: Option<Items>, actions: seq<Action>, seed': Items)
    requires !Run(seed, stored, actions).ready
    ensures var before := Run(seed, stored, actions).items;
      var after, base := Run(seed, stored, actions + [Effect(seed'), Timer]).items, Restore(stored).GetOr(seed');
      && before == Fold(Edits(actions), seed) && after == Fold(Edits(actions), base)
      && (base == seed ==> after == before)
      && (Edits(actions) == [] ==> (after == before <==> base == seed))
  {
    var mid := actions + [Effect(seed')];
    var all := actions + [Effect(seed'), Timer];
    assert mid[..|actions|] == actions && all[..|actions| + 1] == mid;
    NoEditLost(seed, stored, actions);
  }

  // ---- Reloading ----

  /** The board after a reload has read what a run left in storage. */
  function Reloaded(seed: Items, b: Board): Items {
    Run(seed, b.stored, [Effect(seed), Timer]).items
  }

  /** The n-th action is the run's last successful save. */
  predicate LastSave(seed: Items, stored: Option<Items>, actions: seq<Action>, n: nat) {
    && n < |actions| && actions[n] == Persist(true) && Run(seed, stored, actions[..n]).ready
    && forall k :: n < k < |actions| ==> actions[k] != Persist(true)
  }

  lemma {:induction false} StorageHoldsLastSave(seed: Items, stored: Option<Items>, actions: seq<Action>, n: nat)
    requires LastSave(seed, stored, actions, n)
    ensures Run(seed, stored, actions).stored == Some(Run(seed, stored, actions[..n]).items)
  {
    var front := actions[..|actions| - 1];
    if n < |actions| - 1 {
      assert front[..n] == actions[..n];
      StorageHoldsLastSave(seed, stored, front, n);
    } else {
      assert front == actions[..n];
    }
  }

  lemma ReloadReads(seed: Items, b: Board)
    ensures Reloaded(seed, b) == Restore(b.stored).GetOr(seed)
  {
    var e := Effect(seed);
    assert [e, Timer][..1] == [e] && [e][..0] == [];
    assert Run(seed, b.stored, [e]) == Step(Run(seed, b.stored, []), e);
  }

  /** After any run a reload brings back the board of the last save, with every edit made up to then, exactly when
      each of its items passes the item check (or it is the seed anyway); otherwise all of it gives way to the
      seed. */
  lemma ReloadRestoresIff(seed: Items, stored: Option<Items>, actions: seq<Action>, n: nat, seed': Items)
    requires LastSave(seed, stored, actions, n)
    ensures var shown := Reloaded(seed', Run(seed, stored, actions));
      var saved := Fold(Edits(actions[..n]), Base(seed, stored, actions[..n]));
      && saved == Run(seed, stored, actions[..n]).items
      && shown == (if Passes(saved) then saved else seed')
      && (shown == saved <==> Passes(saved) || saved == seed')
  {
    StorageHoldsLastSave(seed, stored, actions, n);
    NoEditLost(seed, stored, actions[..n]);
    ReloadReads(seed', Run(seed, stored, actions));
  }

  /** A stored list is restored exactly when no item in it has an empty id, title, owner, status, priority or group. */
  lemma RestoredIff(items: Items)
    ensures Restore(None) == None
    ensures Restore(Some(items)) == Some(items) <==> forall i :: 0 <= i < |items| ==>
      "" !in {items[i].id, items[i].title, items[i].owner, items[i].status, items[i].priority, items[i].groupId}
    ensures Restore(Some(items)) in {Some(items), None}
  {
  }

  /** updateItem with a new title. */
  function Retitle(id: string, title: string): Mutation {
    (items: Items) => Map((i: BoardItem) => if i.id == id then i.(title := title) else i, items)
  }

  /** Retitling keeps a board restorable exactly when the title is not empty or no item has the id. */
  lemma RetitlePassesIff(id: string, title: string, items: Items)
    requires Passes(items)
    ensures Passes(Retitle(id, title)(items)) <==> title != "" || forall i :: 0 <= i < |items| ==> items[i].id != id
  {
    var after := Retitle(id, title)(items);
    forall i | 0 <= i < |items|
      ensures IsBoardItem(after[i]) <==> title != "" || items[i].id != id
    {
      assert IsBoardItem(items[i]);
    }
  }

  ghost predicate KeepsPassing(m: Mutation) { forall items: Items :: Passes(items) ==> Passes(m(items)) }

  lemma {:induction false} FoldPasses(edits: seq<Mutation>, base: Items)
    requires Passes(base) && forall i :: 0 <= i < |edits| ==> KeepsPassing(edits[i])
    ensures Passes(Fold(edits, base))
  {
    if edits != [] {
      var n := |edits| - 1;
      FoldPasses(edits[..n], base);
      assert KeepsPassing(edits[n]);
    }
  }

  lemma {:induction false} BasePasses(seed: Items, stored: Option<Items>, actions: seq<Action>)
    requires Passes(seed) && forall k :: 0 <= k < |actions| && actions[k].Effect? ==> Passes(actions[k].seed)
    ensures Passes(Base(seed, stored, actions))
    ensures var b := Run(seed, stored, actions); b.timer.Some? ==> Passes(b.timer.value)
  {
    if actions != [] { BasePasses(seed, stored, actions[..|actions| - 1]); }
  }

  /** If every edit keeps items passing and every seed passes, a reload always brings the last save back. */
  lemma PassingEditsSurviveReload(seed: Items, stored: Option<Items>, actions: seq<Action>, n: nat, seed': Items)
    requires LastSave(seed, stored, actions, n) && Passes(seed)
    requires forall k :: 0 <= k < |actions| && actions[k].Effect? ==> Passes(actions[k].seed)
    requires forall i :: 0 <= i < |Edits(actions[..n])| ==> KeepsPassing(Edits(actions[..n])[i])
    ensures Reloaded(seed', Run(seed, stored, actions)) == Run(seed, stored, actions[..n]).items
  {
    BasePasses(seed, stored, actions[..n]);
    FoldPasses(Edits(actions[..n]), Base(seed, stored, actions[..n]));
    ReloadRestoresIff(seed, stored, actions, n, seed');
  }

  const TWO_ITEMS := [
    BoardItem("1", "Draft", "Ada", "planned", "Low", "g"),
    BoardItem("2", "Send", "Ada", "planned", "Low", "g")]

  /** One title renamed, the other emptied, both saved. */
  const EMPTIED_TITLE :=
    [Effect(TWO_ITEMS), Timer, Edit(Retitle("1", "Final")), Edit(Retitle("2", "")), Persist(true)]

  /** Emptying one title loses the other edit as well: after a reload the seed is back. */
  lemma EmptiedTitleLosesBoard()
    ensures var b := Run(TWO_ITEMS, None, EMPTIED_TITLE);
      && b.stored == Some(b.items) && |b.items| == 2 && b.items[0].title == "Final"
      && Reloaded(TWO_ITEMS, b) == TWO_ITEMS != b.items
  {
    var e, seed := EMPTIED_TITLE, TWO_ITEMS;
    assert e[..1][..0] == [] && e[..2][..1] == e[..1] && e[..3][..2] == e[..2] && e[..4][..3] == e[..3];
    assert Run(seed, None, e[..1]) == Board(seed, false, [], Some(seed), None);
    assert Run(seed, None, e[..2]) == Board(seed, true, [], None, None);
    var renamed := Retitle("1", "Final")(seed);
    assert Run(seed, None, e[..3]) == Board(renamed, true, [], None, None);
    var emptied := Retitle("2", "")(renamed);
    assert Run(seed, None, e[..4]) == Board(emptied, true, [], None, None);
    assert emptied[0].title == "Final" && !IsBoardItem(emptied[1]);
    ReloadReads(seed, Run(seed, None, e));
  }
}
