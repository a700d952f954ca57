/** The optimistic snapshot reads of the sync endpoints (app.ts) and their revision token
    (snapshot-revision.ts). */
module SnapshotSync {
  import opened Prelude

  /** The organization as one commit left it: its revision counter, when each snoozed attention signal wakes,
      and everything else. */
  datatype World<D> = World(counter: nat, snoozedUntil: seq<int>, data: D)

  /** Every commit raises the counter. */
  ghost predicate History<D>(worlds: seq<World<D>>) {
    forall i, k :: 0 <= i < k < |worlds| ==> worlds[i].counter < worlds[k].counter
  }

  /** The latest wake-up time that has passed. */
  function Boundary(snoozedUntil: seq<int>, now: int): (b: Option<int>)
    ensures match b
      case None => forall i :: 0 <= i < |snoozedUntil| ==> snoozedUntil[i] > now
      case Some(t) =>
        && t in snoozedUntil && t <= now
        && forall i :: 0 <= i < |snoozedUntil| && snoozedUntil[i] <= now ==> snoozedUntil[i] <= t
  {
    if snoozedUntil == [] then None
    else
      var n := |snoozedUntil| - 1;
      var rest := Boundary(snoozedUntil[..n], now);
      var t := snoozedUntil[n];
      assert snoozedUntil == snoozedUntil[..n] + [t];
      if t > now || (rest.Some? && rest.value >= t) then rest else Some(t)
  }

  /** readOrganizationSnapshotRevision; `digest` is the hash of the organization's counter and boundary. */
  function Revision<D>(digest: (nat, Option<int>) -> string, w: World<D>, now: int): string {
    digest(w.counter, Boundary(w.snoozedUntil, now))
  }

  ghost predicate Injective(digest: (nat, Option<int>) -> string) {
    forall a, b, c, d :: digest(a, b) == digest(c, d) ==> a == c && b == d
  }

  /** A missing revision source answers null. */
  function ReadRevision<D>(digest: Option<(nat, Option<int>) -> string>, w: World<D>, now: int): Option<string> {
    if digest.None? then None else Some(Revision(digest.value, w, now))
  }

  /** The signals awake at a moment, by position. */
  function Awake<D>(w: World<D>, now: int): set<nat> {
    set i | 0 <= i < |w.snoozedUntil| && w.snoozedUntil[i] <= now
  }

  /** One revision stands for one committed state and one set of awake signals, at any two moments. */
  lemma RevisionIdentifiesContent<D>(digest: (nat, Option<int>) -> string, worlds: seq<World<D>>,
                                     i: nat, now: int, k: nat, now': int)
    requires Injective(digest) && History(worlds) && i < |worlds| && k < |worlds|
    ensures Revision(digest, worlds[i], now) == Revision(digest, worlds[k], now')
      <==> i == k && Awake(worlds[i], now) == Awake(worlds[k], now')
  {
    var w := worlds[i];
    if Revision(digest, w, now) == Revision(digest, worlds[k], now') {
      assert w.counter == worlds[k].counter;
      assert i == k;
    }
    if i == k && Awake(w, now) == Awake(w, now') {
      var b, b' := Boundary(w.snoozedUntil, now), Boundary(w.snoozedUntil, now');
      if b.Some? {
        var x :| 0 <= x < |w.snoozedUntil| && w.snoozedUntil[x] == b.value;
        assert x in Awake(w, now);
      }
      if b'.Some? {
        var x :| 0 <= x < |w.snoozedUntil| && w.snoozedUntil[x] == b'.value;
        assert x in Awake(w, now');
      }
    }
  }

  datatype Answer<P> = Answer(revision: Option<string>, parts: seq<P>)

  /** One query of a handler: the worlds its statements run in, which are not in one transaction, and what it makes
      of them for a caller with given access. */
  datatype Query<!D, !A, !P> = Query(at: seq<nat>, view: (A, seq<World<D>>, int) -> P)

  function WorldsAt<D>(worlds: seq<World<D>>, at: seq<nat>): seq<World<D>>
    requires forall i :: 0 <= i < |at| ==> at[i] < |worlds|
  {
    seq(|at|, i requires 0 <= i < |at| => worlds[at[i]])
  }

  ghost predicate Within<D, A, P>(queries: seq<Query<D, A, P>>, from: nat, to: nat) {
    forall i, k :: 0 <= i < |queries| && 0 <= k < |queries[i].at| ==> from <= queries[i].at[k] <= to
  }

  /** What a query answers when all its statements see one state. */
  function OfState<D, A, P>(q: Query<D, A, P>, access: A, w: World<D>, now: int): P {
    q.view(access, seq(|q.at|, _ => w), now)
  }

  /** The /sync handlers: the caller's access was resolved when the session was, in world `resolved`; then the
      revision is read in world `before`, each statement of each part in the world current at its moment, and the
      revision again in world `after`. The summary endpoint makes one query, the status endpoint two at once. */
  ghost function SyncAnswer<D, A, P>(
      digest: Option<(nat, Option<int>) -> string>, worlds: seq<World<D>>, accessIn: World<D> -> A, resolved: nat,
      before: nat, queries: seq<Query<D, A, P>>, after: nat, now: int, later: int): Answer<P>
    requires resolved < |worlds| && before <= after < |worlds| && Within(queries, before, after)
  {
    var first := ReadRevision(digest, worlds[before], now);
    var parts := seq(|queries|, i requires 0 <= i < |queries| =>
      assert forall k :: 0 <= k < |queries[i].at| ==> queries[i].at[k] <= after;
      queries[i].view(accessIn(worlds[resolved]), WorldsAt(worlds, queries[i].at), now));
    var last := ReadRevision(digest, worlds[after], later);
    Answer(if first == last then last else None, parts)
  }

  /** A non-null revision is the revision of one state, and every part is what its query answers of that state
      alone, though its statements ran apart: no part is torn. It is computed for the access the request came with.
      The revision is null only without a revision source, after a commit in between, or when a snoozed signal woke
      in between. */
  lemma SyncConsistent<D, A, P>(
      digest: Option<(nat, Option<int>) -> string>, worlds: seq<World<D>>, accessIn: World<D> -> A, resolved: nat,
      before: nat, queries: seq<Query<D, A, P>>, after: nat, now: int, later: int)
    requires History(worlds) && resolved <= before <= after < |worlds| && Within(queries, before, after)
    requires digest.Some? ==> Injective(digest.value)
    ensures var a := SyncAnswer(digest, worlds, accessIn, resolved, before, queries, after, now, later);
      && (a.revision.Some? <==>
            digest.Some? && before == after && Awake(worlds[before], now) == Awake(worlds[before], later))
      && (a.revision.Some? ==>
            && a.revision == ReadRevision(digest, worlds[before], now)
            && |a.parts| == |queries|
            && forall i :: 0 <= i < |queries| ==>
                 a.parts[i] == OfState(queries[i], accessIn(worlds[resolved]), worlds[before], now))
  {
    if digest.Some? { RevisionIdentifiesContent(digest.value, worlds, before, now, after, later); }
    if before == after {
      forall i | 0 <= i < |queries|
        ensures WorldsAt(worlds, queries[i].at) == seq(|queries[i].at|, _ => worlds[before])
      {
        forall k | 0 <= k < |queries[i].at| ensures queries[i].at[k] == before {}
      }
    }
  }

  /** The part an answer with a revision gives is right for the access of that same state. */
  ghost predicate CurrentFor<D, A, P>(worlds: seq<World<D>>, accessIn: World<D> -> A, resolved: nat, before: nat,
                                      q: Query<D, A, P>, now: int)
    requires resolved < |worlds| && before < |worlds|
  {
    OfState(q, accessIn(worlds[resolved]), worlds[before], now)
    == OfState(q, accessIn(worlds[before]), worlds[before], now)
  }

  /** The revision says nothing about the access: every query is answered for the access of the revision's state
      exactly when that is the access the request was resolved with. */
  lemma AccessCurrentIff<D, A(!new)>(worlds: seq<World<D>>, accessIn: World<D> -> A, resolved: nat, before: nat,
                                     now: int)
    requires resolved <= before < |worlds|
    ensures (forall q: Query<D, A, A> :: CurrentFor(worlds, accessIn, resolved, before, q, now))
      <==> accessIn(worlds[resolved]) == accessIn(worlds[before])
  {
    var asks: Query<D, A, A> := Query([before], (access: A, seen: seq<World<D>>, at: int) => access);
    assert CurrentFor(worlds, accessIn, resolved, before, asks, now)
      <==> accessIn(worlds[resolved]) == accessIn(worlds[before]);
  }

  /** A membership is withdrawn between resolving the access and the first read: the answer carries the new
      revision with the part for the old access. */
  lemma StaleAccessShows(digest: (nat, Option<int>) -> string, now: int)
    ensures var worlds := [World(0, [], true), World(1, [], false)];
      var q: Query<bool, bool, bool> := Query([1], (member: bool, seen: seq<World<bool>>, at: int) => member);
      Within([q], 1, 1) &&
      SyncAnswer(Some(digest), worlds, (w: World<bool>) => w.data, 0, 1, [q], 1, now, now)
      == Answer(Some(Revision(digest, worlds[1], now)), [true])
  {
  }
}
