/** One model's cache of ML nodes: a map with a round-robin order beside it, two-pass selection, and pruning that runs
    only while the model still has a live flow. */
module NodeCache {
  import opened Common

  datatype Node = Node(endpoint: string, lastSeen: int)

  datatype Cache = Cache(nodes: map<NodeId, Node>, order: seq<NodeId>, cursor: nat)

  /** The order lists every cached node once, and the cursor is a place in it. */
  ghost predicate WellKept(c: Cache) {
    NoDuplicates(c.order) && Elements(c.order) == c.nodes.Keys && (c.cursor < |c.order| || c.cursor == 0)
  }

  // ---- Retention windows ------------------------------------------------------------------------------------------

  const DEFAULT_FRESH := 600_000_000_000
  const DEFAULT_STALE := 3_600_000_000_000

  datatype Windows = Windows(flow: int, retire: int)

  /** The retirement age never falls below the live-flow window. */
  function NewWindows(ttl: int): (w: Windows)
    ensures 0 < w.flow <= w.retire && DEFAULT_STALE <= w.retire
    ensures ttl > 0 ==> w.flow == ttl
  {
    var flow := if ttl <= 0 then DEFAULT_FRESH else ttl;
    Windows(flow, if DEFAULT_STALE < flow then flow else DEFAULT_STALE)
  }

  // ---- Observing --------------------------------------------------------------------------------------------------

  function Observed(c: Cache, id: NodeId, endpoint: string, now: int): Cache {
    if id.name == "" || endpoint == "" then c
    else Cache(c.nodes[id := Node(endpoint, now)], if id in c.nodes then c.order else c.order + [id], c.cursor)
  }

  lemma ObserveKeepsWellKept(c: Cache, id: NodeId, endpoint: string, now: int)
    requires WellKept(c)
    ensures WellKept(Observed(c, id, endpoint, now))
  {
    var d := Observed(c, id, endpoint, now);
    assert forall x :: x in c.order <==> x in Elements(c.order);
    assert Elements(d.order) == d.nodes.Keys;
  }

  // ---- Pruning ----------------------------------------------------------------------------------------------------

  predicate Stale(n: Node, now: int, w: Windows) {
    now - n.lastSeen > w.retire
  }

  predicate HasFlow(c: Cache, now: int, w: Windows) {
    exists id :: id in c.nodes && now - c.nodes[id].lastSeen < w.flow
  }

  /** The ids of `order` that are not past retirement, in order. */
  function Alive(nodes: map<NodeId, Node>, order: seq<NodeId>, now: int, w: Windows): seq<NodeId> {
    if order == [] then []
    else
      var last := order[|order| - 1];
      Alive(nodes, order[..|order| - 1], now, w) +
      if last in nodes && !Stale(nodes[last], now, w) then [last] else []
  }

  function AliveNodes(nodes: map<NodeId, Node>, now: int, w: Windows): map<NodeId, Node> {
    map id | id in nodes && !Stale(nodes[id], now, w) :: nodes[id]
  }

  function Reduced(cursor: nat, n: nat): nat {
    if n == 0 then 0 else cursor % n
  }

  function Pruned(c: Cache, now: int, w: Windows): Cache {
    if !HasFlow(c, now, w) then c
    else
      var order := Alive(c.nodes, c.order, now, w);
      Cache(AliveNodes(c.nodes, now, w), order, Reduced(c.cursor, |order|))
  }

  /** The position of an id in a duplicate-free order. */
  ghost function Position(order: seq<NodeId>, id: NodeId): (i: nat)
    requires id in order
    ensures i < |order| && order[i] == id
  {
    var i :| 0 <= i < |order| && order[i] == id;
    i
  }

  lemma {:induction false} AliveIsSublist(nodes: map<NodeId, Node>, order: seq<NodeId>, now: int, w: Windows)
    requires NoDuplicates(order)
    ensures var alive := Alive(nodes, order, now, w);
            && NoDuplicates(alive)
            && (forall id :: id in alive <==> id in order && id in nodes && !Stale(nodes[id], now, w))
            && (forall i, j :: 0 <= i < j < |alive| ==> Position(order, alive[i]) < Position(order, alive[j]))
  {
    if order != [] {
      var n := |order| - 1;
      AliveIsSublist(nodes, order[..n], now, w);
      var before := Alive(nodes, order[..n], now, w);
      forall id | id in order[..n]
        ensures Position(order, id) == Position(order[..n], id)
      {
        assert order[Position(order[..n], id)] == id;
      }
      assert forall id :: id in order <==> id in order[..n] || id == order[n];
    }
  }

  lemma PruneKeepsWellKept(c: Cache, now: int, w: Windows)
    requires WellKept(c)
    ensures WellKept(Pruned(c, now, w))
  {
    if HasFlow(c, now, w) {
      InOrder(c);
      AliveIsSublist(c.nodes, c.order, now, w);
      var d := Pruned(c, now, w);
      assert Elements(d.order) == d.nodes.Keys by {
        assert forall id :: id in d.order <==> id in Elements(d.order);
      }
    }
  }

  lemma PruneKeepsOrder(c: Cache, now: int, w: Windows)
    requires WellKept(c)
    ensures var d := Pruned(c, now, w);
            forall i, j :: 0 <= i < j < |d.order| ==>
              && d.order[i] in c.order && d.order[j] in c.order
              && Position(c.order, d.order[i]) < Position(c.order, d.order[j])
  {
    if HasFlow(c, now, w) {
      AliveIsSublist(c.nodes, c.order, now, w);
    } else {
      forall i, j | 0 <= i < j < |c.order|
        ensures Position(c.order, c.order[i]) < Position(c.order, c.order[j])
      {
        assert Position(c.order, c.order[i]) == i && Position(c.order, c.order[j]) == j;
      }
    }
  }

  /** Pruning removes exactly the retired nodes, and only from a model with a live flow; it never empties a model. */
  lemma PruneIsExact(c: Cache, now: int, w: Windows)
    requires WellKept(c) && w.flow <= w.retire
    ensures var d := Pruned(c, now, w);
            && (forall id :: id in d.nodes <==> id in c.nodes && (HasFlow(c, now, w) ==> !Stale(c.nodes[id], now, w)))
            && (forall id :: id in d.nodes ==> d.nodes[id] == c.nodes[id])
            && (c.order != [] ==> d.order != [])
  {
    if HasFlow(c, now, w) {
      var id :| id in c.nodes && now - c.nodes[id].lastSeen < w.flow;
      PruneKeepsWellKept(c, now, w);
      InOrder(Pruned(c, now, w));
      assert id in Pruned(c, now, w).nodes;
    }
  }

  lemma InOrder(c: Cache)
    requires WellKept(c)
    ensures forall id :: id in c.order <==> id in c.nodes
    ensures c.order == [] ==> c.nodes.Keys == {}
  {
    assert forall id :: id in c.order <==> id in Elements(c.order);
  }

  // ---- Picking ----------------------------------------------------------------------------------------------------

  function Allowed(c: Cache, excluded: set<NodeId>): set<NodeId> {
    c.nodes.Keys - excluded
  }

  function Recent(c: Cache, excluded: set<NodeId>, now: int, w: Windows): set<NodeId> {
    set id | id in c.nodes && id !in excluded && !Stale(c.nodes[id], now, w)
  }

  /** What one of the two passes accepts. */
  function Passing(c: Cache, excluded: set<NodeId>, now: int, w: Windows, preferFresh: bool): set<NodeId> {
    if preferFresh then Recent(c, excluded, now, w) else Allowed(c, excluded)
  }

  /** Nodes within the retirement age come before all others. */
  function Eligible(c: Cache, excluded: set<NodeId>, now: int, w: Windows): set<NodeId> {
    if Recent(c, excluded, now, w) != {} then Recent(c, excluded, now, w) else Allowed(c, excluded)
  }

  function At(order: seq<NodeId>, start: nat, i: nat): NodeId
    requires start < |order| && i < |order|
  {
    order[Wrap(start + i, |order|)]
  }

  /** The first position holding a wanted id, going once round from `start` and skipping `i` steps. */
  function FirstFrom(order: seq<NodeId>, wanted: set<NodeId>, start: nat, i: nat): Option<nat>
    requires start < |order| && i <= |order|
    decreases |order| - i
  {
    if i == |order| then None
    else if At(order, start, i) in wanted then Some(Wrap(start + i, |order|))
    else FirstFrom(order, wanted, start, i + 1)
  }

  lemma {:induction false} FirstFromFinds(order: seq<NodeId>, wanted: set<NodeId>, start: nat, i: nat)
    requires start < |order| && i <= |order|
    ensures var f := FirstFrom(order, wanted, start, i);
            && (f.Some? ==> f.value < |order| && order[f.value] in wanted)
            && (f.None? ==> forall k :: i <= k < |order| ==> At(order, start, k) !in wanted)
    decreases |order| - i
  {
    if i < |order| {
      FirstFromFinds(order, wanted, start, i + 1);
    }
  }

  /** Going once round meets every id. */
  lemma FirstFromComplete(order: seq<NodeId>, wanted: set<NodeId>, start: nat)
    requires start < |order|
    ensures FirstFrom(order, wanted, start, 0).Some? <==> exists id :: id in wanted && id in order
  {
    FirstFromFinds(order, wanted, start, 0);
    var n := |order|;
    if FirstFrom(order, wanted, start, 0).None? {
      forall j | 0 <= j < n
        ensures order[j] !in wanted
      {
        var k := if j >= start then j - start else j + n - start;
        assert Wrap(start + k, n) == j && At(order, start, k) == order[j];
      }
    }
  }

  /** The place the cursor stands for. */
  function Start(c: Cache): nat
    requires c.order != []
  {
    if c.cursor < |c.order| then c.cursor else c.cursor % |c.order|
  }

  lemma StartIsModulo(c: Cache)
    requires c.order != []
    ensures Start(c) == c.cursor % |c.order| < |c.order|
  {
    if c.cursor < |c.order| {
      WrapIsModulo(c.cursor, |c.order|);
    }
  }

  datatype Pick = Pick(id: NodeId, endpoint: string)

  /** The pick and the cache with its cursor moved past it. */
  function Picked(c: Cache, excluded: set<NodeId>, now: int, w: Windows): (Option<Pick>, Cache) {
    var n := |c.order|;
    if n == 0 then (None, c)
    else
      StartIsModulo(c);
      match FirstFrom(c.order, Eligible(c, excluded, now, w), Start(c), 0)
      case None => (None, c)
      case Some(k) =>
        if k < n && c.order[k] in c.nodes
        then (Some(Pick(c.order[k], c.nodes[c.order[k]].endpoint)), c.(cursor := Wrap(k + 1, n)))
        else (None, c)
  }

  /** `id` is what the two passes may choose: not excluded, and past retirement age only when all candidates are. */
  ghost predicate Proper(c: Cache, excluded: set<NodeId>, now: int, w: Windows, id: NodeId) {
    && id in c.nodes && id !in excluded
    && (Stale(c.nodes[id], now, w) ==>
          forall other :: other in c.nodes && other !in excluded ==> Stale(c.nodes[other], now, w))
  }

  lemma EligibleAreProper(c: Cache, excluded: set<NodeId>, now: int, w: Windows)
    ensures forall id :: id in Eligible(c, excluded, now, w) <==> Proper(c, excluded, now, w, id)
    ensures Eligible(c, excluded, now, w) == {} <==> Allowed(c, excluded) == {}
  {
    var recent := Recent(c, excluded, now, w);
    if recent != {} {
      var one := Member(recent);
      assert one in Allowed(c, excluded);
    } else {
      forall other | other in c.nodes && other !in excluded
        ensures Stale(c.nodes[other], now, w)
      {
        assert other !in recent;
      }
    }
  }

  /** A pick succeeds if and only if some cached node is not excluded, never gives an excluded node, and gives one past
      retirement age only when no other candidate is left. */
  lemma PickIsRight(c: Cache, excluded: set<NodeId>, now: int, w: Windows)
    requires WellKept(c)
    ensures var (p, d) := Picked(c, excluded, now, w);
            && (p.Some? <==> Allowed(c, excluded) != {})
            && (p.Some? ==>
                  Proper(c, excluded, now, w, p.value.id) && p.value.endpoint == c.nodes[p.value.id].endpoint)
            && d.nodes == c.nodes && d.order == c.order && WellKept(d)
  {
    var wanted := Eligible(c, excluded, now, w);
    EligibleAreProper(c, excluded, now, w);
    InOrder(c);
    if c.order != [] {
      StartIsModulo(c);
      FirstFromFinds(c.order, wanted, Start(c), 0);
      FirstFromComplete(c.order, wanted, Start(c));
      if wanted != {} {
        var id := Member(wanted);
      }
    }
  }

  // ---- Round robin ------------------------------------------------------------------------------------------------

  /** The ids picked at the given times with nothing else going on. */
  ghost function Picks(c: Cache, excluded: set<NodeId>, times: seq<int>, w: Windows): seq<NodeId>
    decreases |times|
  {
    if times == [] then []
    else
      var (p, d) := Picked(c, excluded, times[0], w);
      (if p.Some? then [p.value.id] else []) + Picks(d, excluded, times[1..], w)
  }

  /** The wanted ids from step `s` to the end of one turn that began at `start`. */
  ghost function Ahead(order: seq<NodeId>, wanted: set<NodeId>, start: nat, s: nat): seq<NodeId>
    requires start < |order| && s <= |order|
    decreases |order| - s
  {
    if s == |order| then []
    else (if At(order, start, s) in wanted then [At(order, start, s)] else []) + Ahead(order, wanted, start, s + 1)
  }

  /** The id stands at step `s` or later. */
  ghost predicate Comes(order: seq<NodeId>, start: nat, s: nat, id: NodeId)
    requires start < |order| && s <= |order|
  {
    exists k :: s <= k < |order| && At(order, start, k) == id
  }

  lemma InFront(id: NodeId, x: NodeId, keep: bool, rest: seq<NodeId>)
    ensures id in (if keep then [x] else []) + rest <==> (keep && id == x) || id in rest
  {
  }

  lemma {:induction false} AheadOnlyWanted(order: seq<NodeId>, wanted: set<NodeId>, start: nat, s: nat, id: NodeId)
    requires start < |order| && s <= |order| && id in Ahead(order, wanted, start, s)
    ensures id in wanted && Comes(order, start, s, id)
    decreases |order| - s
  {
    var x, rest := At(order, start, s), Ahead(order, wanted, start, s + 1);
    InFront(id, x, x in wanted, rest);
    if id in rest {
      AheadOnlyWanted(order, wanted, start, s + 1, id);
    }
  }

  lemma {:induction false} WantedIsAhead(order: seq<NodeId>, wanted: set<NodeId>, start: nat, s: nat, k: nat,
                                         id: NodeId)
    requires start < |order| && s <= k < |order| && At(order, start, k) == id && id in wanted
    ensures id in Ahead(order, wanted, start, s)
    decreases k - s
  {
    var x, rest := At(order, start, s), Ahead(order, wanted, start, s + 1);
    if s == k {
      InFront(id, id, true, rest);
    } else {
      WantedIsAhead(order, wanted, start, s + 1, k, id);
      InFront(id, x, x in wanted, rest);
    }
  }

  lemma AheadHas(order: seq<NodeId>, wanted: set<NodeId>, start: nat, s: nat, id: NodeId)
    requires start < |order| && s <= |order|
    ensures id in Ahead(order, wanted, start, s) <==> id in wanted && Comes(order, start, s, id)
  {
    if id in Ahead(order, wanted, start, s) {
      AheadOnlyWanted(order, wanted, start, s, id);
    } else if Comes(order, start, s, id) {
      var k :| s <= k < |order| && At(order, start, k) == id;
      if id in wanted {
        WantedIsAhead(order, wanted, start, s, k, id);
      }
    }
  }

  lemma PlacesDiffer(order: seq<NodeId>, start: nat, s: nat, k: nat)
    requires NoDuplicates(order) && start < |order| && s < k < |order|
    ensures At(order, start, s) != At(order, start, k)
  {
  }

  lemma {:induction false} AheadDistinct(order: seq<NodeId>, wanted: set<NodeId>, start: nat, s: nat)
    requires NoDuplicates(order) && start < |order| && s <= |order|
    ensures NoDuplicates(Ahead(order, wanted, start, s))
    decreases |order| - s
  {
    if s < |order| {
      AheadDistinct(order, wanted, start, s + 1);
      NotAheadAgain(order, wanted, start, s);
      FrontIsDistinct(At(order, start, s), Ahead(order, wanted, start, s + 1));
    }
  }

  lemma NotAheadAgain(order: seq<NodeId>, wanted: set<NodeId>, start: nat, s: nat)
    requires NoDuplicates(order) && start < |order| && s < |order|
    ensures At(order, start, s) !in Ahead(order, wanted, start, s + 1)
  {
    var x := At(order, start, s);
    if x in Ahead(order, wanted, start, s + 1) {
      AheadOnlyWanted(order, wanted, start, s + 1, x);
      var k :| s + 1 <= k < |order| && At(order, start, k) == x;
      PlacesDiffer(order, start, s, k);
    }
  }

  lemma FrontIsDistinct(x: NodeId, rest: seq<NodeId>)
    requires x !in rest && NoDuplicates(rest)
    ensures NoDuplicates([x] + rest) && NoDuplicates([] + rest)
  {
    assert [] + rest == rest;
  }

  /** A whole turn meets every wanted id, once. */
  lemma TurnMeetsAll(order: seq<NodeId>, wanted: set<NodeId>, start: nat)
    requires NoDuplicates(order) && start < |order| && wanted <= Elements(order)
    ensures NoDuplicates(Ahead(order, wanted, start, 0)) && Elements(Ahead(order, wanted, start, 0)) == wanted
  {
    var ids, n := Ahead(order, wanted, start, 0), |order|;
    AheadDistinct(order, wanted, start, 0);
    forall id
      ensures id in ids <==> id in wanted
    {
      AheadHas(order, wanted, start, 0, id);
      if id in wanted {
        assert id in order;
        var j :| 0 <= j < n && order[j] == id;
        var k := if j >= start then j - start else j + n - start;
        assert Wrap(start + k, n) == j && At(order, start, k) == order[j];
      }
    }
  }

  /** The next wanted place at or after step `s`, if one is ahead. */
  lemma {:induction false} NextPlace(order: seq<NodeId>, wanted: set<NodeId>, start: nat, s: nat) returns (p: nat)
    requires start < |order| && s <= |order| && Ahead(order, wanted, start, s) != []
    ensures s <= p < |order| && At(order, start, p) in wanted
    ensures Ahead(order, wanted, start, s) == [At(order, start, p)] + Ahead(order, wanted, start, p + 1)
    ensures forall k :: s <= k < p ==> At(order, start, k) !in wanted
    decreases |order| - s
  {
    if At(order, start, s) in wanted {
      p := s;
    } else {
      p := NextPlace(order, wanted, start, s + 1);
    }
  }

  /** Searching from step `s` on finds that place. */
  lemma {:induction false} FirstFromIsNextPlace(order: seq<NodeId>, wanted: set<NodeId>, start: nat, s: nat, i: nat,
                                                p: nat)
    requires start < |order| && s + i <= p < |order|
    requires At(order, start, p) in wanted
    requires forall k :: s + i <= k < p ==> At(order, start, k) !in wanted
    ensures FirstFrom(order, wanted, Wrap(start + s, |order|), i) == Some(Wrap(start + p, |order|))
    decreases p - i
  {
    var n := |order|;
    assert Wrap(Wrap(start + s, n) + i, n) == Wrap(start + s + i, n);
    assert At(order, Wrap(start + s, n), i) == At(order, start, s + i);
    if s + i < p {
      FirstFromIsNextPlace(order, wanted, start, s, i + 1, p);
    }
  }

  /** `k` turns of the search with the wanted ids held fixed. */
  ghost function Walk(order: seq<NodeId>, wanted: set<NodeId>, cursor: nat, k: nat): seq<NodeId>
    requires cursor < |order|
    decreases k
  {
    if k == 0 then []
    else
      match FirstFrom(order, wanted, cursor, 0)
      case None => []
      case Some(i) => if i < |order| then [order[i]] + Walk(order, wanted, Wrap(i + 1, |order|), k - 1) else []
  }

  /** At each of the times the eligible nodes are `wanted`. */
  ghost predicate Steady(c: Cache, excluded: set<NodeId>, times: seq<int>, w: Windows, wanted: set<NodeId>) {
    forall i :: 0 <= i < |times| ==> Eligible(c, excluded, times[i], w) == wanted
  }

  lemma SteadyAfter(c: Cache, excluded: set<NodeId>, times: seq<int>, w: Windows, wanted: set<NodeId>, cursor: nat)
    requires Steady(c, excluded, times, w, wanted) && times != []
    ensures Steady(c.(cursor := cursor), excluded, times[1..], w, wanted)
  {
    var d := c.(cursor := cursor);
    forall i | 0 <= i < |times[1..]|
      ensures Eligible(d, excluded, times[1..][i], w) == wanted
    {
      assert Recent(d, excluded, times[i + 1], w) == Recent(c, excluded, times[i + 1], w);
      assert Eligible(c, excluded, times[i + 1], w) == wanted;
    }
  }

  /** The search moves along what is ahead, one id a turn. */
  lemma {:induction false} WalkIsAhead(order: seq<NodeId>, wanted: set<NodeId>, start: nat, s: nat, k: nat)
    requires start < |order| && s <= |order| && k <= |Ahead(order, wanted, start, s)|
    ensures Walk(order, wanted, Wrap(start + s, |order|), k) == Ahead(order, wanted, start, s)[..k]
    decreases k
  {
    if k > 0 {
      var p := NextPlace(order, wanted, start, s);
      FirstFromIsNextPlace(order, wanted, start, s, 0, p);
      assert Wrap(Wrap(start + p, |order|) + 1, |order|) == Wrap(start + p + 1, |order|);
      WalkIsAhead(order, wanted, start, p + 1, k - 1);
    }
  }

  lemma PickIsTurn(c: Cache, excluded: set<NodeId>, now: int, w: Windows)
    requires c.cursor < |c.order| && forall id :: id in c.order <==> id in c.nodes
    ensures var (p, d) := Picked(c, excluded, now, w);
            match FirstFrom(c.order, Eligible(c, excluded, now, w), c.cursor, 0)
            case None => p.None? && d == c
            case Some(i) => i < |c.order| && p.Some? && p.value.id == c.order[i] &&
                            d == c.(cursor := Wrap(i + 1, |c.order|))
  {
    FirstFromFinds(c.order, Eligible(c, excluded, now, w), c.cursor, 0);
  }

  /** While the eligible nodes stay the same the picks are turns of that search. */
  lemma {:induction false} PicksAreWalk(c: Cache, excluded: set<NodeId>, times: seq<int>, w: Windows,
                                        wanted: set<NodeId>)
    requires c.cursor < |c.order| && forall id :: id in c.order <==> id in c.nodes
    requires Steady(c, excluded, times, w, wanted)
    ensures Picks(c, excluded, times, w) == Walk(c.order, wanted, c.cursor, |times|)
    decreases |times|
  {
    if times != [] {
      PickIsTurn(c, excluded, times[0], w);
      var d := Picked(c, excluded, times[0], w).1;
      assert Eligible(c, excluded, times[0], w) == wanted;
      SteadyAfter(c, excluded, times, w, wanted, d.cursor);
      if FirstFrom(c.order, wanted, c.cursor, 0).Some? {
        PicksAreWalk(d, excluded, times[1..], w, wanted);
      } else {
        NothingToPick(c, excluded, times, w, wanted);
      }
    }
  }

  lemma {:induction false} NothingToPick(c: Cache, excluded: set<NodeId>, times: seq<int>, w: Windows,
                                         wanted: set<NodeId>)
    requires c.cursor < |c.order| && Steady(c, excluded, times, w, wanted)
    requires FirstFrom(c.order, wanted, c.cursor, 0).None?
    ensures Picks(c, excluded, times, w) == []
    decreases |times|
  {
    if times != [] {
      assert Eligible(c, excluded, times[0], w) == wanted;
      SteadyAfter(c, excluded, times, w, wanted, c.cursor);
      NothingToPick(c, excluded, times[1..], w, wanted);
    }
  }

  lemma WalkIsFair(order: seq<NodeId>, wanted: set<NodeId>, cursor: nat)
    requires NoDuplicates(order) && cursor < |order| && wanted <= Elements(order)
    ensures NoDuplicates(Walk(order, wanted, cursor, |wanted|))
    ensures Elements(Walk(order, wanted, cursor, |wanted|)) == wanted
  {
    TurnMeetsAll(order, wanted, cursor);
    var ids := Ahead(order, wanted, cursor, 0);
    DistinctSize(ids);
    WalkIsAhead(order, wanted, cursor, 0, |ids|);
    assert ids[..|ids|] == ids;
  }

  /** Round robin: while the eligible nodes stay the same, as many picks as there are of them visit each of them exactly
      once, wherever the cursor stands. */
  lemma RoundRobin(c: Cache, excluded: set<NodeId>, times: seq<int>, w: Windows, wanted: set<NodeId>)
    requires WellKept(c) && Steady(c, excluded, times, w, wanted) && |times| == |wanted|
    ensures NoDuplicates(Picks(c, excluded, times, w)) && Elements(Picks(c, excluded, times, w)) == wanted
  {
    if times != [] {
      InOrder(c);
      EligibleAreProper(c, excluded, times[0], w);
      assert wanted <= c.nodes.Keys == Elements(c.order);
      var id := Member(wanted);
      PicksAreWalk(c, excluded, times, w, wanted);
      WalkIsFair(c.order, wanted, c.cursor);
    }
  }

  /** With no exclusions and nobody past retirement, n picks over n nodes visit each node once. */
  lemma AllFreshRoundRobin(c: Cache, times: seq<int>, w: Windows)
    requires WellKept(c) && |times| == |c.nodes.Keys|
    requires forall i, id :: 0 <= i < |times| && id in c.nodes ==> !Stale(c.nodes[id], times[i], w)
    ensures NoDuplicates(Picks(c, {}, times, w)) && Elements(Picks(c, {}, times, w)) == c.nodes.Keys
  {
    forall i | 0 <= i < |times|
      ensures Eligible(c, {}, times[i], w) == c.nodes.Keys
    {
      assert Recent(c, {}, times[i], w) == c.nodes.Keys;
    }
    RoundRobin(c, {}, times, w, c.nodes.Keys);
  }

  // ---- Overlapping picks ------------------------------------------------------------------------------------------

  /** Picks hold only a read lock, so one may search from a cursor another has moved since; it is still right. */
  lemma OverlappingPickIsRight(c: Cache, loaded: nat, excluded: set<NodeId>, now: int, w: Windows)
    requires WellKept(c) && (loaded < |c.order| || loaded == 0)
    ensures var (p, d) := Picked(c.(cursor := loaded), excluded, now, w);
            && (p.Some? <==> Allowed(c, excluded) != {})
            && (p.Some? ==> Proper(c, excluded, now, w, p.value.id))
            && d.nodes == c.nodes && d.order == c.order && WellKept(d)
  {
    var e := c.(cursor := loaded);
    PickIsRight(e, excluded, now, w);
    assert forall id :: Proper(e, excluded, now, w, id) <==> Proper(c, excluded, now, w, id);
  }

  /** Two picks that load the cursor before either stores it give the same node, so the round-robin law is one about
      picks that do not overlap. */
  lemma OverlappingPicksCollide(c: Cache, excluded: set<NodeId>, now: int, w: Windows)
    requires WellKept(c)
    ensures var (p, d) := Picked(c, excluded, now, w);
            Picked(d.(cursor := c.cursor), excluded, now, w) == (p, d)
  {
    PickIsRight(c, excluded, now, w);
    var d := Picked(c, excluded, now, w).1;
    assert d.(cursor := c.cursor) == c;
  }

  // ---- Runs -------------------------------------------------------------------------------------------------------

  datatype Action =
    | Observe(id: NodeId, endpoint: string, now: int)
    | PickOne(excluded: set<NodeId>, now: int)
    | Prune(now: int)

  function Step(c: Cache, a: Action, w: Windows): Cache {
    match a
    case Observe(id, endpoint, now) => Observed(c, id, endpoint, now)
    case PickOne(excluded, now) => Picked(c, excluded, now, w).1
    case Prune(now) => Pruned(c, now, w)
  }

  function Run(c: Cache, acts: seq<Action>, w: Windows): Cache {
    if acts == [] then c else Step(Run(c, acts[..|acts| - 1], w), acts[|acts| - 1], w)
  }

  /** In every run the order is duplicate-free with exactly the cached ids, and a model that has a node keeps one. */
  lemma {:induction false} RunKeepsWellKept(c: Cache, acts: seq<Action>, w: Windows)
    requires WellKept(c) && w.flow <= w.retire
    ensures WellKept(Run(c, acts, w))
    ensures c.order != [] ==> Run(c, acts, w).order != []
  {
    if acts != [] {
      var n := |acts| - 1;
      RunKeepsWellKept(c, acts[..n], w);
      var d := Run(c, acts[..n], w);
      match acts[n]
      case Observe(id, endpoint, now) => ObserveKeepsWellKept(d, id, endpoint, now);
      case PickOne(excluded, now) => PickIsRight(d, excluded, now, w);
      case Prune(now) =>
        PruneKeepsWellKept(d, now, w);
        PruneIsExact(d, now, w);
    }
  }

  // ---- The object -------------------------------------------------------------------------------------------------

  /** `nodes` without the retired ones among the first `seen`. */
  ghost function Retired(nodes: map<NodeId, Node>, seen: seq<NodeId>, now: int, w: Windows): map<NodeId, Node> {
    map id | id in nodes && !(id in seen && Stale(nodes[id], now, w)) :: nodes[id]
  }

  /** Part-way through the pruning: the first `i` places were read, the survivors among them are on the first `kept`. */
  ghost predicate HalfPruned(before: Cache, nodes: map<NodeId, Node>, order: seq<NodeId>, kept: nat, i: nat, now: int,
                             w: Windows) {
    && |order| == |before.order| && kept <= i <= |order| && order[i..] == before.order[i..]
    && order[..kept] == Alive(before.nodes, before.order[..i], now, w)
    && nodes == Retired(before.nodes, before.order[..i], now, w)
  }

  lemma PruneStarts(c: Cache, now: int, w: Windows)
    ensures HalfPruned(c, c.nodes, c.order, 0, 0, now, w)
  {
  }

  lemma RetireOne(nodes: map<NodeId, Node>, order: seq<NodeId>, i: nat, now: int, w: Windows)
    requires NoDuplicates(order) && i < |order| && order[i] in nodes
    ensures var id, left := order[i], Retired(nodes, order[..i], now, w);
            && id in left && left[id] == nodes[id]
            && Alive(nodes, order[..i + 1], now, w) ==
               Alive(nodes, order[..i], now, w) + (if Stale(nodes[id], now, w) then [] else [id])
            && Retired(nodes, order[..i + 1], now, w) == if Stale(nodes[id], now, w) then left - {id} else left
  {
    assert order[..i + 1][..i] == order[..i];
    assert order[..i + 1] == order[..i] + [order[i]];
  }

  /** Moving the element at `i` down to `k` extends the front and leaves what is still to be read. */
  lemma Compact(s: seq<NodeId>, k: nat, i: nat)
    requires k <= i < |s|
    ensures s[k := s[i]][..k + 1] == s[..k] + [s[i]]
    ensures s[k := s[i]][i + 1..] == s[i + 1..] == s[i..][1..]
  {
  }

  lemma PruneOne(c: Cache, nodes: map<NodeId, Node>, order: seq<NodeId>, kept: nat, i: nat, now: int, w: Windows)
    requires WellKept(c) && HalfPruned(c, nodes, order, kept, i, now, w) && i < |order|
    ensures order[i] in nodes
    ensures Stale(nodes[order[i]], now, w) ==> HalfPruned(c, nodes - {order[i]}, order, kept, i + 1, now, w)
    ensures !Stale(nodes[order[i]], now, w) ==>
              HalfPruned(c, nodes, order[kept := order[i]], kept + 1, i + 1, now, w)
  {
    InOrder(c);
    assert order[i] == order[i..][0] == c.order[i];
    assert c.order[i..][1..] == c.order[i + 1..];
    RetireOne(c.nodes, c.order, i, now, w);
    Compact(order, kept, i);
  }

  lemma PruneEnds(c: Cache, nodes: map<NodeId, Node>, order: seq<NodeId>, kept: nat, now: int, w: Windows)
    requires WellKept(c) && HalfPruned(c, nodes, order, kept, |order|, now, w)
    ensures order[..kept] == Alive(c.nodes, c.order, now, w) && nodes == AliveNodes(c.nodes, now, w)
  {
    InOrder(c);
    assert c.order[..|order|] == c.order;
  }

  class ModelCache {
    const windows: Windows
    var nodes: map<NodeId, Node>
    var order: seq<NodeId>
    var cursor: nat

    function State(): Cache
      reads this
    {
      Cache(nodes, order, cursor)
    }

    constructor (ttl: int)
      ensures State() == Cache(map[], [], 0) && WellKept(State())
      ensures windows == NewWindows(ttl)
    {
      windows := NewWindows(ttl);
      nodes, order, cursor := map[], [], 0;
    }

    method ObserveNode(id: NodeId, endpoint: string, now: int)
      requires WellKept(State())
      modifies this
      ensures State() == Observed(old(State()), id, endpoint, now) && WellKept(State())
    {
      ObserveKeepsWellKept(State(), id, endpoint, now);
      if id.name == "" || endpoint == "" {
        return;
      }
      if id !in nodes {
        order := order + [id];
      }
      nodes := nodes[id := Node(endpoint, now)];
    }

    /** One pass round the order. */
    method Scan(excluded: set<NodeId>, now: int, preferFresh: bool) returns (k: Option<nat>)
      requires WellKept(State()) && order != []
      ensures k == FirstFrom(order, Passing(State(), excluded, now, windows, preferFresh), Start(State()), 0)
    {
      var n := |order|;
      var start := cursor % n;
      StartIsModulo(State());
      InOrder(State());
      ghost var wanted := Passing(State(), excluded, now, windows, preferFresh);
      for i := 0 to n
        invariant FirstFrom(order, wanted, start, i) == FirstFrom(order, wanted, start, 0)
      {
        WrapIsModulo(start + i, n);
        var idx := (start + i) % n;
        var id := order[idx];
        if id in excluded {
          continue;
        }
        if preferFresh && now - nodes[id].lastSeen > windows.retire {
          continue;
        }
        return Some(idx);
      }
      return None;
    }

    method PickNode(excluded: set<NodeId>, now: int) returns (p: Option<Pick>)
      requires WellKept(State())
      modifies this
      ensures (p, State()) == Picked(old(State()), excluded, now, windows) && WellKept(State())
    {
      PickIsRight(State(), excluded, now, windows);
      InOrder(State());
      var n := |order|;
      if n == 0 {
        return None;
      }
      ghost var recent := Recent(State(), excluded, now, windows);
      var k := Scan(excluded, now, true);
      var start := cursor % n;
      StartIsModulo(State());
      FirstFromFinds(order, recent, start, 0);
      if k.None? {
        FirstFromComplete(order, recent, start);
        assert recent == {};
        k := Scan(excluded, now, false);
        FirstFromFinds(order, Allowed(State(), excluded), start, 0);
      }
      if k.Some? {
        p := Some(Pick(order[k.value], nodes[order[k.value]].endpoint));
        WrapIsModulo(k.value + 1, n);
        cursor := (k.value + 1) % n;
      } else {
        p := None;
      }
    }

    method HasFreshNode(now: int) returns (b: bool)
      requires WellKept(State())
      ensures b <==> HasFlow(State(), now, windows)
    {
      InOrder(State());
      for i := 0 to |order|
        invariant forall k :: 0 <= k < i ==> now - nodes[order[k]].lastSeen >= windows.flow
      {
        if now - nodes[order[i]].lastSeen < windows.flow {
          return true;
        }
      }
      return false;
    }

    /** Drops the id at `i`, or writes it over the front of the same slice while that is being read. */
    method KeepOrDrop(i: nat, kept: nat, now: int, ghost before: Cache) returns (next: nat)
      requires WellKept(before) && HalfPruned(before, nodes, order, kept, i, now, windows) && i < |order|
      modifies `nodes, `order
      ensures HalfPruned(before, nodes, order, next, i + 1, now, windows)
    {
      PruneOne(before, nodes, order, kept, i, now, windows);
      var id := order[i];
      if now - nodes[id].lastSeen > windows.retire {
        nodes := nodes - {id};
        return kept;
      }
      order := order[kept := id];
      return kept + 1;
    }

    method Compacted(now: int) returns (kept: nat)
      requires WellKept(State())
      modifies `nodes, `order
      ensures kept <= |order| && order[..kept] == Alive(old(nodes), old(order), now, windows)
      ensures nodes == AliveNodes(old(nodes), now, windows)
    {
      ghost var before := State();
      PruneStarts(before, now, windows);
      kept := 0;
      for i := 0 to |order|
        invariant HalfPruned(before, nodes, order, kept, i, now, windows)
      {
        kept := KeepOrDrop(i, kept, now, before);
      }
      PruneEnds(before, nodes, order, kept, now, windows);
    }

    method PruneNodes(now: int)
      requires WellKept(State())
      modifies this
      ensures State() == Pruned(old(State()), now, windows) && WellKept(State())
    {
      PruneKeepsWellKept(State(), now, windows);
      var flow := HasFreshNode(now);
      if flow {
        var kept := Compacted(now);
        order := order[..kept];
        cursor := Reduced(cursor, |order|);
      }
    }
  }
}
