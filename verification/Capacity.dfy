/** The local capacity bound used while the broker is unreachable: a per-(node, model) in-flight counter checked against
    a share of the polled maximum, and polls that replace the node table and drop counters of unlisted nodes. */
module Capacity {
  import opened Common

  datatype Key = Key(node: NodeId, model: string)

  datatype Cap = Cap(models: set<string>, maxConcurrent: int, lockCount: int, stale: bool)

  // ---- Counters ---------------------------------------------------------------------------------------------------

  function Counter(m: map<Key, int>, k: Key): int {
    if k in m then m[k] else 0
  }

  function Bumped(m: map<Key, int>, k: Key): map<Key, int> {
    m[k := Counter(m, k) + 1]
  }

  /** Never below zero; an entry that would reach zero is deleted. */
  function Dropped(m: map<Key, int>, k: Key): map<Key, int> {
    if Counter(m, k) <= 1 then m - {k} else m[k := m[k] - 1]
  }

  function Share(m: map<Key, int>, node: NodeId, k: Key): int {
    if k.node == node then Counter(m, k) else 0
  }

  /** The sum over `keys` of the counters of `node`. */
  ghost function Total(m: map<Key, int>, keys: set<Key>, node: NodeId): int {
    if keys == {} then 0 else var k :| k in keys; Share(m, node, k) + Total(m, keys - {k}, node)
  }

  ghost function InFlight(m: map<Key, int>, node: NodeId): int {
    Total(m, m.Keys, node)
  }

  lemma {:induction false} TotalTakes(m: map<Key, int>, keys: set<Key>, node: NodeId, x: Key)
    requires x in keys
    ensures Total(m, keys, node) == Share(m, node, x) + Total(m, keys - {x}, node)
    decreases keys
  {
    var k :| k in keys && Total(m, keys, node) == Share(m, node, k) + Total(m, keys - {k}, node);
    if k != x {
      TotalTakes(m, keys - {k}, node, x);
      TotalTakes(m, keys - {x}, node, k);
      assert keys - {k} - {x} == keys - {x} - {k};
    }
  }

  lemma {:induction false} TotalAdds(a: map<Key, int>, b: map<Key, int>, c: map<Key, int>, keys: set<Key>, node: NodeId)
    requires forall k :: k in keys ==> Counter(c, k) == Counter(a, k) + Counter(b, k)
    ensures Total(c, keys, node) == Total(a, keys, node) + Total(b, keys, node)
    decreases keys
  {
    if keys != {} {
      var x := Member(keys);
      TotalTakes(a, keys, node, x);
      TotalTakes(b, keys, node, x);
      TotalTakes(c, keys, node, x);
      TotalAdds(a, b, c, keys - {x}, node);
    }
  }

  /** Keys without an entry add nothing. */
  lemma {:induction false} TotalIgnoresMissing(m: map<Key, int>, keys: set<Key>, node: NodeId)
    requires m.Keys <= keys
    ensures Total(m, keys, node) == InFlight(m, node)
    decreases keys
  {
    if m.Keys != keys {
      var x :| x in keys && x !in m.Keys;
      TotalTakes(m, keys, node, x);
      TotalIgnoresMissing(m, keys - {x}, node);
    }
  }

  lemma InFlightAdds(a: map<Key, int>, b: map<Key, int>, c: map<Key, int>, node: NodeId)
    requires forall k :: Counter(c, k) == Counter(a, k) + Counter(b, k)
    ensures InFlight(c, node) == InFlight(a, node) + InFlight(b, node)
  {
    var keys := a.Keys + b.Keys + c.Keys;
    TotalAdds(a, b, c, keys, node);
    TotalIgnoresMissing(a, keys, node);
    TotalIgnoresMissing(b, keys, node);
    TotalIgnoresMissing(c, keys, node);
  }

  lemma BumpAdds(m: map<Key, int>, k: Key, node: NodeId)
    ensures InFlight(Bumped(m, k), node) == InFlight(m, node) + if k.node == node then 1 else 0
  {
    var one: map<Key, int> := map[k := 1];
    InFlightAdds(m, one, Bumped(m, k), node);
    TotalTakes(one, {k}, node, k);
    assert one.Keys == {k} && {k} - {k} == {};
  }

  // ---- Polls ------------------------------------------------------------------------------------------------------

  datatype Entry = Entry(node: NodeId, model: string, maxConcurrent: int, lockCount: int)

  /** Entries may be missing, and rows without an id are skipped. */
  predicate Usable(e: Option<Entry>) {
    e.Some? && e.value.node.name != ""
  }

  function Merged(nodes: map<NodeId, Cap>, e: Entry): map<NodeId, Cap> {
    var models := if e.node in nodes then nodes[e.node].models else {};
    nodes[e.node := Cap(if e.model != "" then models + {e.model} else models, e.maxConcurrent, e.lockCount, false)]
  }

  function Polled(entries: seq<Option<Entry>>): map<NodeId, Cap> {
    if entries == [] then map[]
    else
      var e, before := entries[|entries| - 1], Polled(entries[..|entries| - 1]);
      if Usable(e) then Merged(before, e.value) else before
  }

  /** The usable rows about one node, in order. */
  function Rows(entries: seq<Option<Entry>>, id: NodeId): seq<Entry> {
    if entries == [] then []
    else
      var e := entries[|entries| - 1];
      Rows(entries[..|entries| - 1], id) + if Usable(e) && e.value.node == id then [e.value] else []
  }

  function ModelsOf(rows: seq<Entry>): set<string> {
    set i | 0 <= i < |rows| && rows[i].model != "" :: rows[i].model
  }

  /** What a poll leaves: every node with a usable row, the limits of its last row, the models of all its rows. */
  lemma {:induction false} PollIsMerge(entries: seq<Option<Entry>>, id: NodeId)
    ensures var nodes, rows := Polled(entries), Rows(entries, id);
            && (id in nodes <==> rows != [])
            && (rows != [] ==>
                  var last := rows[|rows| - 1];
                  nodes[id] == Cap(ModelsOf(rows), last.maxConcurrent, last.lockCount, false))
  {
    if entries != [] {
      var n := |entries| - 1;
      PollIsMerge(entries[..n], id);
      if Usable(entries[n]) && entries[n].value.node == id {
        assert ModelsOf([]) == {};
        ModelsOneMore(Rows(entries[..n], id), entries[n].value);
      } else {
        assert Rows(entries, id) == Rows(entries[..n], id);
      }
    }
  }

  lemma ModelsOneMore(rows: seq<Entry>, e: Entry)
    ensures ModelsOf(rows + [e]) == if e.model != "" then ModelsOf(rows) + {e.model} else ModelsOf(rows)
  {
    var all := rows + [e];
    assert all[|rows|] == e;
    forall m | m in ModelsOf(rows)
      ensures m in ModelsOf(all)
    {
      var i :| 0 <= i < |rows| && rows[i].model != "" && rows[i].model == m;
      assert all[i].model == m;
    }
  }

  // ---- The bound --------------------------------------------------------------------------------------------------

  /** The number of active escrows, but at least 4; 4 when the load map is missing or too old. */
  function Divisor(escrows: nat, deliveredAt: Option<int>, now: int, ttl: int): (d: int)
    ensures d >= 4 && (d == 4 || d == escrows)
    ensures deliveredAt.Some? && now - deliveredAt.value <= ttl ==> d >= escrows
    ensures deliveredAt.None? || now - deliveredAt.value > ttl ==> d == 4
  {
    if deliveredAt.Some? && now - deliveredAt.value <= ttl && escrows > 4 then escrows else 4
  }

  /** One slot at least. Below one the rounding direction of the division does not matter. */
  function EffectiveMax(max: int, div: int): (eff: int)
    ensures eff >= 1
  {
    var eff := max / (if div < 1 then 1 else div);
    if eff < 1 then 1 else eff
  }

  /** The broker's own locks count only while polls succeed. */
  function Charged(c: Cap): int {
    if c.stale then 0 else c.lockCount
  }

  ghost function Available(nodes: map<NodeId, Cap>, m: map<Key, int>, node: NodeId, div: int): int {
    if node !in nodes then 0
    else
      var slots := EffectiveMax(nodes[node].maxConcurrent, div) - Charged(nodes[node]) - InFlight(m, node);
      if slots < 0 then 0 else slots
  }

  function Kept(m: map<Key, int>, nodes: map<NodeId, Cap>): map<Key, int> {
    map k | k in m && k.node in nodes :: m[k]
  }

  function Aged(nodes: map<NodeId, Cap>): map<NodeId, Cap> {
    map id | id in nodes :: nodes[id].(stale := true)
  }

  // ---- Runs -------------------------------------------------------------------------------------------------------

  datatype State = State(unknownMax: int, nodes: map<NodeId, Cap>, inFlight: map<Key, int>, unknown: map<Key, int>)

  /** `held` and `heldUnknown` count the slots really outstanding; `lost` counts holders whose counter a poll dropped
      and that no release has made up for yet. */
  datatype World = World(state: State, held: map<Key, int>, heldUnknown: map<Key, int>, lost: map<Key, int>)

  datatype Action = TryAcquire(key: Key, div: int)
                  | Release(key: Key)
                  | TryAcquireUnknown(key: Key, div: int)
                  | ReleaseUnknown(key: Key)
                  | Poll(entries: seq<Option<Entry>>)
                  | FailedPoll

  const DEFAULT_UNKNOWN_MAX := 50

  ghost predicate Grants(s: State, key: Key, div: int) {
    key.node.name != "" && Available(s.nodes, s.inFlight, key.node, div) > 0
  }

  ghost predicate GrantsUnknown(s: State, key: Key, div: int) {
    key.node.name != "" && InFlight(s.unknown, key.node) < EffectiveMax(s.unknownMax, div)
  }

  /** What a poll takes away from the counters, added to what was lost before. */
  function LostBy(lost: map<Key, int>, m: map<Key, int>, nodes: map<NodeId, Cap>): map<Key, int> {
    map k | k in lost.Keys + m.Keys :: Counter(lost, k) + if k.node in nodes then 0 else Counter(m, k)
  }

  ghost function ReleaseStep(w: World, key: Key): World {
    w.(state := w.state.(inFlight := Dropped(w.state.inFlight, key)),
       held := Dropped(w.held, key),
       lost := if Counter(w.state.inFlight, key) == 0 then Dropped(w.lost, key) else w.lost)
  }

  ghost function PollStep(w: World, entries: seq<Option<Entry>>): World {
    var nodes := Polled(entries);
    w.(state := w.state.(nodes := nodes, inFlight := Kept(w.state.inFlight, nodes)),
       lost := LostBy(w.lost, w.state.inFlight, nodes))
  }

  /** Releases are matched: only a holder releases. A step that is not possible leaves the world as it is. */
  ghost function Step(w: World, a: Action): World {
    match a
    case TryAcquire(key, div) =>
      if Grants(w.state, key, div)
      then w.(state := w.state.(inFlight := Bumped(w.state.inFlight, key)), held := Bumped(w.held, key))
      else w
    case Release(key) => if Counter(w.held, key) > 0 then ReleaseStep(w, key) else w
    case TryAcquireUnknown(key, div) =>
      if GrantsUnknown(w.state, key, div)
      then w.(state := w.state.(unknown := Bumped(w.state.unknown, key)), heldUnknown := Bumped(w.heldUnknown, key))
      else w
    case ReleaseUnknown(key) =>
      if Counter(w.heldUnknown, key) > 0
      then w.(state := w.state.(unknown := Dropped(w.state.unknown, key)), heldUnknown := Dropped(w.heldUnknown, key))
      else w
    case Poll(entries) => PollStep(w, entries)
    case FailedPoll => w.(state := w.state.(nodes := Aged(w.state.nodes)))
  }

  ghost function Run(w: World, acts: seq<Action>): World {
    if acts == [] then w else Step(Run(w, acts[..|acts| - 1]), acts[|acts| - 1])
  }

  function Fresh(unknownMax: int): World {
    World(State(unknownMax, map[], map[], map[]), map[], map[], map[])
  }

  /** Outstanding = counted + lost; unknown nodes lose nothing. */
  ghost predicate AccountedFor(w: World, k: Key) {
    && Counter(w.state.inFlight, k) >= 0 && Counter(w.lost, k) >= 0
    && Counter(w.held, k) == Counter(w.state.inFlight, k) + Counter(w.lost, k)
    && Counter(w.heldUnknown, k) == Counter(w.state.unknown, k) >= 0
  }

  ghost predicate Accounted(w: World) {
    forall k :: AccountedFor(w, k)
  }

  lemma DropCounts(m: map<Key, int>, key: Key, k: Key)
    requires Counter(m, k) >= 0
    ensures Counter(Dropped(m, key), k) == if k == key && Counter(m, k) > 0 then Counter(m, k) - 1 else Counter(m, k)
  {
  }

  lemma ReleaseAccounts(w: World, key: Key, k: Key)
    requires AccountedFor(w, k) && Counter(w.held, key) > 0
    ensures AccountedFor(ReleaseStep(w, key), k)
  {
    DropCounts(w.held, key, k);
    DropCounts(w.state.inFlight, key, k);
    DropCounts(w.lost, key, k);
  }

  lemma StepAccountsFor(w: World, a: Action, k: Key)
    requires AccountedFor(w, k)
    ensures AccountedFor(Step(w, a), k)
  {
    match a
    case Release(key) =>
      if Counter(w.held, key) > 0 {
        ReleaseAccounts(w, key, k);
      }
    case ReleaseUnknown(key) =>
      DropCounts(w.heldUnknown, key, k);
      DropCounts(w.state.unknown, key, k);
    case _ =>
  }

  lemma StepAccounts(w: World, a: Action)
    requires Accounted(w)
    ensures Accounted(Step(w, a))
  {
    forall k
      ensures AccountedFor(Step(w, a), k)
    {
      assert AccountedFor(w, k);
      StepAccountsFor(w, a, k);
    }
  }

  lemma {:induction false} RunAccounts(max: int, acts: seq<Action>)
    ensures Accounted(Run(Fresh(max), acts)) && Run(Fresh(max), acts).state.unknownMax == max
  {
    if acts != [] {
      RunAccounts(max, acts[..|acts| - 1]);
      StepAccounts(Run(Fresh(max), acts[..|acts| - 1]), acts[|acts| - 1]);
    }
  }

  // ---- Main results -----------------------------------------------------------------------------------------------

  /** In every run each counter is between zero and the true outstanding count, and exact if and only if no holder was
      lost to a poll; the counters of unknown nodes are always exact. */
  lemma CountersTrackHolders(max: int, acts: seq<Action>, k: Key)
    ensures var w := Run(Fresh(max), acts);
            && 0 <= Counter(w.state.inFlight, k) <= Counter(w.held, k)
            && (Counter(w.state.inFlight, k) == Counter(w.held, k) <==> Counter(w.lost, k) == 0)
            && Counter(w.state.unknown, k) == Counter(w.heldUnknown, k) >= 0
  {
    RunAccounts(max, acts);
    assert AccountedFor(Run(Fresh(max), acts), k);
  }

  /** Does a poll drop the counter of `k` in the world it meets? */
  ghost predicate DropsCounter(w: World, a: Action, k: Key) {
    a.Poll? && Counter(w.state.inFlight, k) > 0 && k.node !in Polled(a.entries)
  }

  /** The counter says how many holders there are. */
  ghost predicate ExactAt(max: int, acts: seq<Action>, k: Key) {
    Counter(Run(Fresh(max), acts).state.inFlight, k) == Counter(Run(Fresh(max), acts).held, k)
  }

  ghost predicate NeverDropped(max: int, acts: seq<Action>, k: Key) {
    forall n :: 0 <= n < |acts| ==> !DropsCounter(Run(Fresh(max), acts[..n]), acts[n], k)
  }

  /** Nothing is lost for a key while no poll drops its counter. */
  lemma {:induction false} ExactWhileListed(max: int, acts: seq<Action>, k: Key)
    requires NeverDropped(max, acts, k)
    ensures ExactAt(max, acts, k)
    ensures Counter(Run(Fresh(max), acts).lost, k) == 0
  {
    if acts != [] {
      var n := |acts| - 1;
      forall m | 0 <= m < n
        ensures !DropsCounter(Run(Fresh(max), acts[..n][..m]), acts[..n][m], k)
      {
        assert acts[..n][..m] == acts[..m];
      }
      ExactWhileListed(max, acts[..n], k);
      RunAccounts(max, acts[..n]);
      RunAccounts(max, acts);
      assert AccountedFor(Run(Fresh(max), acts[..n]), k) && AccountedFor(Run(Fresh(max), acts), k);
      LossNeedsDrop(Run(Fresh(max), acts[..n]), acts[n], k);
    }
  }

  lemma LossNeedsDrop(w: World, a: Action, k: Key)
    requires AccountedFor(w, k) && !DropsCounter(w, a, k)
    ensures Counter(Step(w, a).lost, k) <= Counter(w.lost, k)
  {
    if a.Release? && Counter(w.held, a.key) > 0 {
      DropCounts(w.lost, a.key, k);
    }
  }

  /** A poll that drops the counter leaves fewer counted than held. */
  lemma DropUndercounts(max: int, acts: seq<Action>, n: nat, k: Key)
    requires n < |acts| && DropsCounter(Run(Fresh(max), acts[..n]), acts[n], k)
    ensures !ExactAt(max, acts[..n + 1], k)
  {
    RunAccounts(max, acts[..n]);
    assert AccountedFor(Run(Fresh(max), acts[..n]), k);
    assert acts[..n + 1][..n] == acts[..n];
  }

  /** A counter is exact all through a run if and only if no poll of the run drops it. */
  lemma ExactIffNeverDropped(max: int, acts: seq<Action>, k: Key)
    ensures (forall n :: 0 <= n <= |acts| ==> ExactAt(max, acts[..n], k)) <==> NeverDropped(max, acts, k)
  {
    if NeverDropped(max, acts, k) {
      forall n | 0 <= n <= |acts|
        ensures ExactAt(max, acts[..n], k)
      {
        assert forall m :: 0 <= m < n ==> acts[..n][..m] == acts[..m] && acts[..n][m] == acts[m];
        ExactWhileListed(max, acts[..n], k);
      }
    } else {
      var n :| 0 <= n < |acts| && DropsCounter(Run(Fresh(max), acts[..n]), acts[n], k);
      DropUndercounts(max, acts, n, k);
      assert !ExactAt(max, acts[..n + 1], k);
    }
  }

  /** The failing family: a node is listed and acquired, and the next poll does not list it. */
  lemma UnlistedHolderIsLost(max: int, key: Key, row: Entry, div: int)
    requires key.node.name != "" && row.node == key.node && row.lockCount <= 0
    ensures var acts := [Poll([Some(row)]), TryAcquire(key, div), Poll([])];
            DropsCounter(Run(Fresh(max), acts[..2]), acts[2], key) && !ExactAt(max, acts, key)
  {
    var acts := [Poll([Some(row)]), TryAcquire(key, div), Poll([])];
    var w := Fresh(max);
    var w1 := Step(w, acts[0]);
    assert acts[..2][..1] == acts[..1] && acts[..1][..0] == [] && acts[..1] == [acts[0]];
    assert Run(w, acts[..1]) == w1;
    ListedAlone(row);
    assert w1.state.inFlight == map[];
    assert InFlight(map[], key.node) == 0;
    assert Grants(w1.state, key, div);
    assert Run(w, acts[..2]) == Step(w1, acts[1]);
    assert acts[..3] == acts;
    DropUndercounts(max, acts, 2, key);
  }

  lemma ListedAlone(row: Entry)
    requires row.node.name != ""
    ensures row.node in Polled([Some(row)])
    ensures var cap := Polled([Some(row)])[row.node]; cap.lockCount == row.lockCount && !cap.stale
  {
    assert [Some(row)][..0] == [];
    assert Polled([Some(row)]) == Merged(Polled([]), row);
  }

  /** What was lost is forgotten once the holders are gone. */
  lemma GoneMeansExact(max: int, acts: seq<Action>, k: Key)
    requires Counter(Run(Fresh(max), acts).held, k) == 0
    ensures Counter(Run(Fresh(max), acts).state.inFlight, k) == 0 && Counter(Run(Fresh(max), acts).lost, k) == 0
  {
    RunAccounts(max, acts);
    assert AccountedFor(Run(Fresh(max), acts), k);
  }

  /** An acquire succeeds if and only if the charged locks and the counted slots leave room, and then the slots really
      outstanding exceed the share by no more than what polls lost. */
  lemma AcquireRespectsShare(max: int, acts: seq<Action>, key: Key, div: int)
    requires key.node in Run(Fresh(max), acts).state.nodes && key.node.name != ""
    ensures var w := Run(Fresh(max), acts);
            var v, cap := Step(w, TryAcquire(key, div)), w.state.nodes[key.node];
            && (v != w <==>
                  Charged(cap) + InFlight(w.state.inFlight, key.node) < EffectiveMax(cap.maxConcurrent, div))
            && (v != w ==>
                  Charged(cap) + InFlight(v.held, key.node) <=
                  EffectiveMax(cap.maxConcurrent, div) + InFlight(v.lost, key.node))
  {
    var w := Run(Fresh(max), acts);
    var v := Step(w, TryAcquire(key, div));
    RunAccounts(max, acts);
    StepAccounts(w, TryAcquire(key, div));
    BumpAdds(w.state.inFlight, key, key.node);
    forall k
      ensures Counter(v.held, k) == Counter(v.state.inFlight, k) + Counter(v.lost, k)
    {
      assert AccountedFor(v, k);
    }
    InFlightAdds(v.state.inFlight, v.lost, v.held, key.node);
    assert Bumped(w.state.inFlight, key)[key] != Counter(w.state.inFlight, key);
  }

  /** For a node no poll has listed the share is exact: no more than the synthetic maximum is ever outstanding at the
      moment of granting. */
  lemma UnknownAcquireRespectsShare(max: int, acts: seq<Action>, key: Key, div: int)
    requires key.node.name != ""
    ensures var w := Run(Fresh(max), acts);
            var v := Step(w, TryAcquireUnknown(key, div));
            && (v != w <==> InFlight(w.heldUnknown, key.node) < EffectiveMax(max, div))
            && (v != w ==> InFlight(v.heldUnknown, key.node) <= EffectiveMax(max, div))
  {
    var w := Run(Fresh(max), acts);
    RunAccounts(max, acts);
    BumpAdds(w.heldUnknown, key, key.node);
    forall k
      ensures Counter(w.heldUnknown, k) == Counter(w.state.unknown, k) + Counter(map[], k)
    {
      assert AccountedFor(w, k);
    }
    InFlightAdds(w.state.unknown, map[], w.heldUnknown, key.node);
    assert Bumped(w.heldUnknown, key)[key] != Counter(w.heldUnknown, key);
  }

  // ---- The object -------------------------------------------------------------------------------------------------

  class CapacityCache {
    const unknownMax: int
    var nodes: map<NodeId, Cap>
    var inFlight: map<Key, int>
    var unknownInFlight: map<Key, int>

    function Contents(): State
      reads this
    {
      State(unknownMax, nodes, inFlight, unknownInFlight)
    }

    constructor (unknownMax: int)
      ensures Contents() == Fresh(this.unknownMax).state
      ensures this.unknownMax == (if unknownMax <= 0 then DEFAULT_UNKNOWN_MAX else unknownMax)
    {
      this.unknownMax := if unknownMax <= 0 then DEFAULT_UNKNOWN_MAX else unknownMax;
      nodes, inFlight, unknownInFlight := map[], map[], map[];
    }

    static method InFlightSum(m: map<Key, int>, node: NodeId) returns (sum: int)
      ensures sum == InFlight(m, node)
    {
      sum := 0;
      var todo := m.Keys;
      while todo != {}
        invariant todo <= m.Keys
        invariant sum + Total(m, todo, node) == InFlight(m, node)
        decreases todo
      {
        ghost var any := Member(todo);
        var k :| k in todo;
        TotalTakes(m, todo, node, k);
        todo := todo - {k};
        if k.node == node {
          sum := sum + m[k];
        }
      }
    }

    method AvailableSlots(node: NodeId, div: int) returns (slots: int)
      ensures slots == Available(nodes, inFlight, node, div)
    {
      if node !in nodes {
        return 0;
      }
      var sum := InFlightSum(inFlight, node);
      slots := EffectiveMax(nodes[node].maxConcurrent, div) - Charged(nodes[node]) - sum;
      if slots < 0 {
        slots := 0;
      }
    }

    method Acquire(key: Key, div: int) returns (ok: bool)
      modifies this
      ensures ok <==> Grants(old(Contents()), key, div)
      ensures Contents() == if ok then old(Contents()).(inFlight := Bumped(old(inFlight), key)) else old(Contents())
    {
      if key.node.name == "" {
        return false;
      }
      var slots := AvailableSlots(key.node, div);
      if slots <= 0 {
        return false;
      }
      inFlight := inFlight[key := Counter(inFlight, key) + 1];
      return true;
    }

    method ReleaseSlot(key: Key)
      modifies this
      ensures Contents() ==
              if key.node.name == "" then old(Contents()) else old(Contents()).(inFlight := Dropped(old(inFlight), key))
    {
      if key.node.name == "" {
        return;
      }
      if Counter(inFlight, key) <= 1 {
        inFlight := inFlight - {key};
        return;
      }
      inFlight := inFlight[key := inFlight[key] - 1];
    }

    method AcquireUnknown(key: Key, div: int) returns (ok: bool)
      modifies this
      ensures ok <==> GrantsUnknown(old(Contents()), key, div)
      ensures Contents() ==
              if ok then old(Contents()).(unknown := Bumped(old(unknownInFlight), key)) else old(Contents())
    {
      if key.node.name == "" {
        return false;
      }
      var sum := InFlightSum(unknownInFlight, key.node);
      if sum >= EffectiveMax(unknownMax, div) {
        return false;
      }
      unknownInFlight := unknownInFlight[key := Counter(unknownInFlight, key) + 1];
      return true;
    }

    method ReleaseUnknownSlot(key: Key)
      modifies this
      ensures Contents() ==
              if key.node.name == "" then old(Contents())
              else old(Contents()).(unknown := Dropped(old(unknownInFlight), key))
    {
      if key.node.name == "" {
        return;
      }
      if Counter(unknownInFlight, key) <= 1 {
        unknownInFlight := unknownInFlight - {key};
        return;
      }
      unknownInFlight := unknownInFlight[key := unknownInFlight[key] - 1];
    }

    method ApplyPoll(entries: seq<Option<Entry>>)
      modifies this
      ensures Contents() ==
              State(unknownMax, Polled(entries), Kept(old(inFlight), Polled(entries)), old(unknownInFlight))
    {
      var next: map<NodeId, Cap> := map[];
      for i := 0 to |entries|
        invariant next == Polled(entries[..i])
      {
        assert entries[..i + 1][..i] == entries[..i];
        if entries[i].None? || entries[i].value.node.name == "" {
          continue;
        }
        next := Merged(next, entries[i].value);
      }
      assert entries[..|entries|] == entries;
      nodes := next;
      PruneInFlight();
    }

    method PruneInFlight()
      modifies this
      ensures Contents() == old(Contents()).(inFlight := Kept(old(inFlight), nodes))
    {
      ghost var before := inFlight;
      var todo := inFlight.Keys;
      while todo != {}
        invariant todo <= inFlight.Keys <= before.Keys && nodes == old(nodes) && unknownInFlight == old(unknownInFlight)
        invariant forall k :: k in inFlight ==> inFlight[k] == before[k]
        invariant forall k :: k in before && k !in todo ==> (k in inFlight <==> k.node in nodes)
        decreases todo
      {
        ghost var any := Member(todo);
        var k :| k in todo;
        todo := todo - {k};
        if k.node !in nodes {
          inFlight := inFlight - {k};
        }
      }
    }

    method MarkStale()
      modifies this
      ensures Contents() == old(Contents()).(nodes := Aged(old(nodes)))
    {
      ghost var before := nodes;
      var todo := nodes.Keys;
      while todo != {}
        invariant todo <= nodes.Keys == before.Keys
        invariant inFlight == old(inFlight) && unknownInFlight == old(unknownInFlight)
        invariant forall id :: id in nodes ==>
                    nodes[id] == if id in todo then before[id] else before[id].(stale := true)
        decreases todo
      {
        ghost var any := Member(todo);
        var id :| id in todo;
        todo := todo - {id};
        nodes := nodes[id := nodes[id].(stale := true)];
      }
    }
  }
}
