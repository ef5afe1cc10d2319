/** Overlapping picks from one model's node cache: a pick loads the cursor, searches, and stores the cursor behind what
    it found, and under the read lock another pick may load or store in between. */
module NodePicks {
  import opened Common
  import opened NodeCache

  datatype Given = Given(pick: nat, id: NodeId)

  /** `loaded` holds the cursor each pick on its way has loaded, `done` what the finished ones gave, in the order of
      their stores. */
  datatype Picking = Picking(cursor: nat, loaded: map<nat, nat>, done: seq<Given>)

  datatype Action = Load(pick: nat) | Store(pick: nat)

  function Picker(g: Given): nat {
    g.pick
  }

  ghost predicate Finished(t: Picking, pick: nat) {
    exists i :: 0 <= i < |t.done| && Picker(t.done[i]) == pick
  }

  /** The step starts a pick. */
  ghost predicate Starts(t: Picking, a: Action) {
    a.Load? && a.pick !in t.loaded && !Finished(t, a.pick)
  }

  /** What a search from a loaded cursor finds. */
  function Found(order: seq<NodeId>, wanted: set<NodeId>, cursor: nat): Option<nat> {
    if cursor < |order| then FirstFrom(order, wanted, cursor, 0) else None
  }

  ghost function StoreStep(order: seq<NodeId>, wanted: set<NodeId>, t: Picking, pick: nat): Picking
    requires pick in t.loaded
  {
    match Found(order, wanted, t.loaded[pick])
    case None => t.(loaded := t.loaded - {pick})
    case Some(i) =>
      if i < |order|
      then Picking(Wrap(i + 1, |order|), t.loaded - {pick}, t.done + [Given(pick, order[i])])
      else t.(loaded := t.loaded - {pick})
  }

  /** A step that is not possible leaves everything as it is. */
  ghost function Step(order: seq<NodeId>, wanted: set<NodeId>, t: Picking, a: Action): Picking {
    match a
    case Load(pick) => if Starts(t, a) then t.(loaded := t.loaded[pick := t.cursor]) else t
    case Store(pick) => if pick in t.loaded then StoreStep(order, wanted, t, pick) else t
  }

  ghost function Run(order: seq<NodeId>, wanted: set<NodeId>, t: Picking, acts: seq<Action>): Picking
    decreases |acts|
  {
    if acts == [] then t else Run(order, wanted, Step(order, wanted, t, acts[0]), acts[1..])
  }

  /** No pick of the run starts while another is between its load and its store. */
  ghost predicate Alone(order: seq<NodeId>, wanted: set<NodeId>, t: Picking, acts: seq<Action>)
    decreases |acts|
  {
    acts == [] ||
    (&& (Starts(t, acts[0]) ==> t.loaded == map[])
     && Alone(order, wanted, Step(order, wanted, t, acts[0]), acts[1..]))
  }

  function Ids(done: seq<Given>): seq<NodeId> {
    seq(|done|, i requires 0 <= i < |done| => done[i].id)
  }

  /** A finished pick is what the cache's own pick gives from the cursor that was loaded. */
  lemma StoreIsPick(c: Cache, excluded: set<NodeId>, now: int, w: Windows, t: Picking, pick: nat)
    requires WellKept(c) && pick in t.loaded && t.loaded[pick] < |c.order|
    ensures var (p, d) := Picked(c.(cursor := t.loaded[pick]), excluded, now, w);
            var v := StoreStep(c.order, Eligible(c, excluded, now, w), t, pick);
            && (p.Some? ==> v.done == t.done + [Given(pick, p.value.id)] && v.cursor == d.cursor)
            && (p.None? ==> v.done == t.done && v.cursor == t.cursor)
  {
    var e := c.(cursor := t.loaded[pick]);
    InOrder(c);
    PickIsTurn(e, excluded, now, w);
    assert Recent(e, excluded, now, w) == Recent(c, excluded, now, w);
    assert Eligible(e, excluded, now, w) == Eligible(c, excluded, now, w);
  }

  // ---- Alone means round robin ------------------------------------------------------------------------------------

  /** At most one pick is on its way, and the cursor has not moved since it loaded it. */
  ghost predicate Sole(t: Picking) {
    forall p, q :: p in t.loaded && q in t.loaded ==> p == q && t.loaded[p] == t.cursor
  }

  lemma StepKeepsSole(order: seq<NodeId>, wanted: set<NodeId>, t: Picking, a: Action)
    requires Sole(t) && (Starts(t, a) ==> t.loaded == map[])
    ensures Sole(Step(order, wanted, t, a))
  {
  }

  lemma StoreWalks(order: seq<NodeId>, wanted: set<NodeId>, t: Picking, pick: nat, k: nat)
    requires t.cursor < |order| && pick in t.loaded && t.loaded[pick] == t.cursor && wanted * Elements(order) != {}
    ensures var v := StoreStep(order, wanted, t, pick);
            && v.cursor < |order| && |v.done| == |t.done| + 1
            && Ids(v.done) + Walk(order, wanted, v.cursor, k) == Ids(t.done) + Walk(order, wanted, t.cursor, k + 1)
  {
    var id := Member(wanted * Elements(order));
    FirstFromComplete(order, wanted, t.cursor);
    FirstFromFinds(order, wanted, t.cursor, 0);
    var i := FirstFrom(order, wanted, t.cursor, 0).value;
    var v := StoreStep(order, wanted, t, pick);
    assert Ids(v.done) == Ids(t.done) + [order[i]];
    assert Walk(order, wanted, t.cursor, k + 1) == [order[i]] + Walk(order, wanted, v.cursor, k);
  }

  /** Picks that do not overlap give what as many turns of the search give. */
  lemma {:induction false} AloneWalks(order: seq<NodeId>, wanted: set<NodeId>, t: Picking, acts: seq<Action>)
    requires t.cursor < |order| && wanted * Elements(order) != {} && Sole(t) && Alone(order, wanted, t, acts)
    ensures var v := Run(order, wanted, t, acts);
            |v.done| >= |t.done| && Ids(v.done) == Ids(t.done) + Walk(order, wanted, t.cursor, |v.done| - |t.done|)
    decreases |acts|
  {
    if acts != [] {
      var u, v := Step(order, wanted, t, acts[0]), Run(order, wanted, t, acts);
      StepKeepsSole(order, wanted, t, acts[0]);
      if acts[0].Store? && acts[0].pick in t.loaded {
        StoreWalks(order, wanted, t, acts[0].pick, 0);
        AloneWalks(order, wanted, u, acts[1..]);
        StoreWalks(order, wanted, t, acts[0].pick, |v.done| - |u.done|);
      } else {
        AloneWalks(order, wanted, u, acts[1..]);
      }
    }
  }

  lemma WalkIsDistinct(order: seq<NodeId>, wanted: set<NodeId>, cursor: nat, k: nat)
    requires NoDuplicates(order) && cursor < |order| && wanted <= Elements(order) && k <= |wanted|
    ensures NoDuplicates(Walk(order, wanted, cursor, k))
  {
    var ids := Ahead(order, wanted, cursor, 0);
    TurnMeetsAll(order, wanted, cursor);
    DistinctSize(ids);
    WalkIsAhead(order, wanted, cursor, 0, k);
    assert forall i :: 0 <= i < k ==> ids[..k][i] == ids[i];
  }

  // ---- Overlap means a collision ----------------------------------------------------------------------------------

  /** What a pick that has loaded gives or will give. */
  ghost function Outcome(order: seq<NodeId>, wanted: set<NodeId>, t: Picking, pick: nat): Option<NodeId> {
    if pick !in t.loaded then None
    else
      match Found(order, wanted, t.loaded[pick])
      case None => None
      case Some(i) => if i < |order| then Some(order[i]) else None
  }

  /** The pick is bound to give `id`: it has given it, or its loaded cursor leads there. */
  ghost predicate Bound(order: seq<NodeId>, wanted: set<NodeId>, t: Picking, pick: nat, id: NodeId) {
    Given(pick, id) in t.done || Outcome(order, wanted, t, pick) == Some(id)
  }

  lemma StepKeepsBound(order: seq<NodeId>, wanted: set<NodeId>, t: Picking, a: Action, pick: nat, id: NodeId)
    requires Bound(order, wanted, t, pick, id)
    ensures Bound(order, wanted, Step(order, wanted, t, a), pick, id)
  {
    var v := Step(order, wanted, t, a);
    if Given(pick, id) in t.done {
      assert t.done <= v.done;
    } else if a == Store(pick) {
      assert v.done[|t.done|] == Given(pick, id);
    }
  }

  lemma {:induction false} RunKeepsBound(order: seq<NodeId>, wanted: set<NodeId>, t: Picking, acts: seq<Action>,
                                         pick: nat, id: NodeId)
    requires Bound(order, wanted, t, pick, id)
    ensures Bound(order, wanted, Run(order, wanted, t, acts), pick, id)
    decreases |acts|
  {
    if acts != [] {
      StepKeepsBound(order, wanted, t, acts[0], pick, id);
      RunKeepsBound(order, wanted, Step(order, wanted, t, acts[0]), acts[1..], pick, id);
    }
  }

  /** At the first overlapping load the cursor has not moved, so the two picks are bound to give the same node. */
  lemma {:induction false} OverlapBindsTwins(order: seq<NodeId>, wanted: set<NodeId>, t: Picking, acts: seq<Action>)
    returns (p: nat, q: nat, id: NodeId)
    requires t.cursor < |order| && wanted * Elements(order) != {} && Sole(t) && !Alone(order, wanted, t, acts)
    ensures p != q
    ensures Bound(order, wanted, Run(order, wanted, t, acts), p, id)
    ensures Bound(order, wanted, Run(order, wanted, t, acts), q, id)
    decreases |acts|
  {
    var a, u := acts[0], Step(order, wanted, t, acts[0]);
    if Starts(t, a) && t.loaded != map[] {
      p := a.pick;
      q := Member(t.loaded.Keys);
      var any := Member(wanted * Elements(order));
      FirstFromComplete(order, wanted, t.cursor);
      FirstFromFinds(order, wanted, t.cursor, 0);
      id := order[FirstFrom(order, wanted, t.cursor, 0).value];
      assert u.loaded[p] == t.cursor == u.loaded[q];
      RunKeepsBound(order, wanted, u, acts[1..], p, id);
      RunKeepsBound(order, wanted, u, acts[1..], q, id);
    } else {
      StepKeepsSole(order, wanted, t, a);
      if a.Store? && a.pick in t.loaded {
        StoreWalks(order, wanted, t, a.pick, 0);
      }
      p, q, id := OverlapBindsTwins(order, wanted, u, acts[1..]);
    }
  }

  lemma TwinsRepeat(done: seq<Given>, p: nat, q: nat, id: NodeId)
    requires p != q && Given(p, id) in done && Given(q, id) in done
    ensures !NoDuplicates(Ids(done))
  {
    var i :| 0 <= i < |done| && done[i] == Given(p, id);
    var j :| 0 <= j < |done| && done[j] == Given(q, id);
    assert i != j && Ids(done)[i] == Ids(done)[j];
  }

  /** While the eligible nodes stay the same and no more picks are made than there are of them, the picks of a finished
      run all give different nodes if and only if no pick started while another was between its load and its store. */
  lemma DistinctIffAlone(order: seq<NodeId>, wanted: set<NodeId>, cursor: nat, acts: seq<Action>)
    requires NoDuplicates(order) && cursor < |order| && wanted <= Elements(order) && wanted != {}
    requires var v := Run(order, wanted, Picking(cursor, map[], []), acts);
             v.loaded == map[] && |v.done| <= |wanted|
    ensures NoDuplicates(Ids(Run(order, wanted, Picking(cursor, map[], []), acts).done)) <==>
            Alone(order, wanted, Picking(cursor, map[], []), acts)
  {
    var t := Picking(cursor, map[], []);
    var v := Run(order, wanted, t, acts);
    assert wanted * Elements(order) == wanted;
    if Alone(order, wanted, t, acts) {
      AloneWalks(order, wanted, t, acts);
      assert Ids(v.done) == Walk(order, wanted, cursor, |v.done|);
      WalkIsDistinct(order, wanted, cursor, |v.done|);
    } else {
      var p, q, id := OverlapBindsTwins(order, wanted, t, acts);
      TwinsRepeat(v.done, p, q, id);
    }
  }

  /** In particular as many picks as there are eligible nodes visit each of them once exactly when they do not
      overlap. */
  lemma EachVisitedIffAlone(order: seq<NodeId>, wanted: set<NodeId>, cursor: nat, acts: seq<Action>)
    requires NoDuplicates(order) && cursor < |order| && wanted <= Elements(order) && wanted != {}
    requires var v := Run(order, wanted, Picking(cursor, map[], []), acts);
             v.loaded == map[] && |v.done| == |wanted|
    ensures Elements(Ids(Run(order, wanted, Picking(cursor, map[], []), acts).done)) == wanted <==>
            Alone(order, wanted, Picking(cursor, map[], []), acts)
  {
    var t := Picking(cursor, map[], []);
    var ids := Ids(Run(order, wanted, t, acts).done);
    DistinctIffAlone(order, wanted, cursor, acts);
    DistinctSize(ids);
    if Alone(order, wanted, t, acts) {
      assert wanted * Elements(order) == wanted;
      AloneWalks(order, wanted, t, acts);
      assert ids == Walk(order, wanted, cursor, |wanted|);
      WalkIsFair(order, wanted, cursor);
    }
  }

  /** The failing input: two picks load before either stores. */
  lemma TwoLoadsCollide(order: seq<NodeId>, wanted: set<NodeId>, cursor: nat)
    requires NoDuplicates(order) && cursor < |order| && wanted <= Elements(order) && |wanted| >= 2
    ensures var acts := [Load(0), Load(1), Store(0), Store(1)];
            var ids := Ids(Run(order, wanted, Picking(cursor, map[], []), acts).done);
            |ids| == 2 && ids[0] == ids[1]
  {
    assert wanted != {} && wanted * Elements(order) == wanted;
    var any := Member(wanted);
    FirstFromComplete(order, wanted, cursor);
    FirstFromFinds(order, wanted, cursor, 0);
    var x := order[FirstFrom(order, wanted, cursor, 0).value];
    var acts := [Load(0), Load(1), Store(0), Store(1)];
    assert acts[1..] == [Load(1), Store(0), Store(1)] && acts[1..][1..] == [Store(0), Store(1)];
    assert [Store(0), Store(1)][1..] == [Store(1)] && [Store(1)][1..] == [];
    var t := Picking(cursor, map[], []);
    var t2 := Picking(cursor, map[0 := cursor, 1 := cursor], []);
    assert Step(order, wanted, Step(order, wanted, t, Load(0)), Load(1)) == t2;
    var t3 := Step(order, wanted, t2, Store(0));
    assert t3.done == [Given(0, x)] && 1 in t3.loaded && t3.loaded[1] == cursor;
    var t4 := Step(order, wanted, t3, Store(1));
    assert t4.done == [Given(0, x), Given(1, x)];
    assert Run(order, wanted, t2, [Store(0), Store(1)]) == Run(order, wanted, t3, [Store(1)]) == t4;
  }
}
