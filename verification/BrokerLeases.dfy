/** Node leases: `LockCount` on each node against everything that still owes it a release. */
module BrokerLeases {
  import opened Common
  import opened NodeStatus

  const DEFAULT_TTL_SECONDS := 1200
  const NANOS_PER_SECOND := 1_000_000_000

  datatype Node = Node(
    lockCount: int, maxConcurrent: int, intended: HardwareStatus, current: HardwareStatus,
    pocIntended: PocStatus, reconciling: bool, pocValidationInference: bool,
    admin: AdminState, epochModels: set<string>)

  datatype Epoch = Epoch(index: nat, phase: EpochPhase)
  datatype LockEntry = LockEntry(nodeId: string, createdAt: int)

  predicate ServesDuringValidation(n: Node) {
    n.pocValidationInference && n.intended == PoC && n.pocIntended == Validating
  }

  predicate Available(n: Node, model: string, epoch: Epoch) {
    && (n.intended == Inference || ServesDuringValidation(n))
    && (n.current == Inference || ServesDuringValidation(n))
    && !n.reconciling
    && n.lockCount < n.maxConcurrent
    && ShouldBeOperational(n.admin, epoch.index, epoch.phase)
    && model in n.epochModels
  }

  predicate Eligible(nodes: map<string, Node>, id: string, model: string, skip: set<string>, epoch: Epoch) {
    id in nodes && id !in skip && Available(nodes[id], model, epoch)
  }

  /** The broker may answer a lock request with `choice`: a least busy eligible node, or none if there is
      none. `epoch` is absent while the chain state is not synced. */
  ghost predicate MayChoose(nodes: map<string, Node>, model: string, skip: set<string>,
                            epoch: Option<Epoch>, choice: Option<string>)
  {
    match epoch
    case None => choice.None?
    case Some(e) =>
      match choice
      case None => forall id :: !Eligible(nodes, id, model, skip, e)
      case Some(n) =>
        && Eligible(nodes, n, model, skip, e)
        && forall id :: Eligible(nodes, id, model, skip, e) ==> nodes[n].lockCount <= nodes[id].lockCount
  }

  // ---- The protocol -----------------------------------------------------------------------------------

  datatype Command = Lock(request: nat, model: string, skip: set<string>) | Release(nodeId: string)

  /** Everything that holds or owes a lease:
      `queue`     the broker's command channel,
      `replies`   grants sitting in a request's response channel,
      `lockMap`   leases handed to remote callers,
      `holders`   in-process callers running their action,
      `releasing` leases given up whose release command is not queued yet. */
  datatype Broker = Broker(
    nodes: map<string, Node>, queue: seq<Command>, replies: map<nat, string>,
    lockMap: map<nat, LockEntry>, holders: map<nat, string>, releasing: multiset<string>)

  datatype Action =
    | Ask(request: nat, model: string, skip: set<string>)
    | Execute(epoch: Option<Epoch>, choice: Option<string>)
    | Record(request: nat, lockId: nat, now: int)
    | HoldDirectly(request: nat)
    | FinishDirectly(request: nat)
    | DrainAbandoned(request: nat)
    | DropLock(lockId: nat)
    | QueueRelease(nodeId: string)
    | Reconfigure(nodeId: string, node: Node)
    | Register(nodeId: string, node: Node)
    | Remove(nodeId: string)

  ghost predicate Enabled(b: Broker, a: Action) {
    match a
    case Ask(_, _, _) => true
    case Execute(epoch, choice) =>
      b.queue != [] &&
      (b.queue[0].Lock? ==>
         && MayChoose(b.nodes, b.queue[0].model, b.queue[0].skip, epoch, choice)
         && b.queue[0].request !in b.replies)
    case Record(request, lockId, _) => request in b.replies && lockId !in b.lockMap
    case HoldDirectly(request) => request in b.replies && request !in b.holders
    case FinishDirectly(request) => request in b.holders
    case DrainAbandoned(request) => request in b.replies
    case DropLock(lockId) => lockId in b.lockMap
    case QueueRelease(nodeId) => nodeId in b.releasing
    case Reconfigure(nodeId, node) => nodeId in b.nodes && node.lockCount == b.nodes[nodeId].lockCount
    case Register(_, node) => node.lockCount == 0
    case Remove(_) => true
  }

  function AddLock(nodes: map<string, Node>, id: string, delta: int): map<string, Node> {
    if id in nodes then nodes[id := nodes[id].(lockCount := nodes[id].lockCount + delta)] else nodes
  }

  function Apply(b: Broker, a: Action): Broker
    requires a.Execute? ==> b.queue != []
    requires a.Record? || a.HoldDirectly? || a.DrainAbandoned? ==> a.request in b.replies
    requires a.FinishDirectly? ==> a.request in b.holders
    requires a.DropLock? ==> a.lockId in b.lockMap
  {
    match a
    case Ask(request, model, skip) => b.(queue := b.queue + [Lock(request, model, skip)])
    case Execute(_, choice) =>
      var b' := b.(queue := b.queue[1..]);
      (match b.queue[0]
       case Release(nodeId) => b'.(nodes := AddLock(b.nodes, nodeId, -1))
       case Lock(request, _, _) =>
         if choice.None? then b'
         else b'.(nodes := AddLock(b.nodes, choice.value, 1), replies := b.replies[request := choice.value]))
    case Record(request, lockId, now) =>
      b.(replies := b.replies - {request}, lockMap := b.lockMap[lockId := LockEntry(b.replies[request], now)])
    case HoldDirectly(request) =>
      b.(replies := b.replies - {request}, holders := b.holders[request := b.replies[request]])
    case FinishDirectly(request) =>
      b.(holders := b.holders - {request}, releasing := b.releasing + multiset{b.holders[request]})
    case DrainAbandoned(request) =>
      b.(replies := b.replies - {request}, releasing := b.releasing + multiset{b.replies[request]})
    case DropLock(lockId) =>
      b.(lockMap := b.lockMap - {lockId}, releasing := b.releasing + multiset{b.lockMap[lockId].nodeId})
    case QueueRelease(nodeId) =>
      b.(releasing := b.releasing - multiset{nodeId}, queue := b.queue + [Release(nodeId)])
    case Reconfigure(nodeId, node) => b.(nodes := b.nodes[nodeId := node])
    case Register(nodeId, node) => b.(nodes := b.nodes[nodeId := node])
    case Remove(nodeId) => b.(nodes := b.nodes - {nodeId})
  }

  // ---- Counting -----------------------------------------------------------------------------------------

  function KeysFor(m: map<nat, string>, n: string): set<nat> {
    set k | k in m && m[k] == n
  }

  function Grants(m: map<nat, string>, n: string): nat {
    |KeysFor(m, n)|
  }

  function NodesOf(m: map<nat, LockEntry>): map<nat, string> {
    map k | k in m :: m[k].nodeId
  }

  function QueuedReleases(queue: seq<Command>, n: string): nat {
    if queue == [] then 0
    else QueuedReleases(queue[..|queue| - 1], n) + if queue[|queue| - 1] == Release(n) then 1 else 0
  }

  /** Releases of `n` that are still to come. */
  function Owed(b: Broker, n: string): nat {
    Grants(b.replies, n) + Grants(b.holders, n) + Grants(NodesOf(b.lockMap), n)
    + b.releasing[n] + QueuedReleases(b.queue, n)
  }

  lemma GrantsPut(m: map<nat, string>, k: nat, v: string, n: string)
    requires k !in m
    ensures Grants(m[k := v], n) == Grants(m, n) + if v == n then 1 else 0
  {
    assert KeysFor(m[k := v], n) == if v == n then KeysFor(m, n) + {k} else KeysFor(m, n);
  }

  lemma GrantsTake(m: map<nat, string>, k: nat, n: string)
    requires k in m
    ensures Grants(m - {k}, n) == Grants(m, n) - if m[k] == n then 1 else 0
  {
    assert KeysFor(m - {k}, n) == KeysFor(m, n) - {k};
  }

  lemma QueuePut(queue: seq<Command>, c: Command, n: string)
    ensures QueuedReleases(queue + [c], n) == QueuedReleases(queue, n) + if c == Release(n) then 1 else 0
  {
    assert (queue + [c])[..|queue|] == queue;
  }

  lemma {:induction false} QueueTake(queue: seq<Command>, n: string)
    requires queue != []
    ensures QueuedReleases(queue[1..], n) == QueuedReleases(queue, n) - if queue[0] == Release(n) then 1 else 0
    decreases |queue|
  {
    var k := |queue| - 1;
    if k > 0 {
      QueueTake(queue[..k], n);
      assert queue[..k][1..] == queue[1..][..k - 1];
    } else {
      assert queue[1..] == [] && queue[..0] == [];
    }
  }

  // ---- Conservation ---------------------------------------------------------------------------------------

  /** `carried[n]` is what was still owed for `n` when it was last registered: its lock count started at 0
      although those releases were still to come. `granted` and `released` count the lease grants made and
      the release commands executed. */
  datatype World = World(
    broker: Broker, carried: map<string, nat>, granted: multiset<string>, released: multiset<string>)

  function Step(w: World, a: Action): World
    requires Enabled(w.broker, a)
  {
    var head := if a.Execute? then Some(w.broker.queue[0]) else None;
    World(Apply(w.broker, a),
          if a.Register? then w.carried[a.nodeId := Owed(w.broker, a.nodeId)] else w.carried,
          if head.Some? && head.value.Lock? && a.choice.Some? then w.granted + multiset{a.choice.value} else w.granted,
          if head.Some? && head.value.Release? then w.released + multiset{head.value.nodeId} else w.released)
  }

  ghost predicate Conserved(w: World) {
    && (forall n :: w.granted[n] == w.released[n] + Owed(w.broker, n))
    && (forall n :: n in w.broker.nodes ==>
          n in w.carried && w.broker.nodes[n].lockCount + w.carried[n] == Owed(w.broker, n))
  }

  /** What executing a command does to the lock count and to what is owed. */
  ghost function Delta(b: Broker, a: Action, n: string): int
    requires Enabled(b, a)
  {
    if a.Execute? && b.queue[0].Lock? && a.choice == Some(n) then 1
    else if a.Execute? && b.queue[0] == Release(n) then -1 else 0
  }

  lemma OwedAfterExecute(b: Broker, a: Action, n: string)
    requires a.Execute? && Enabled(b, a)
    ensures Owed(Apply(b, a), n) == Owed(b, n) +
              (if b.queue[0].Lock? && a.choice == Some(n) then 1 else if b.queue[0] == Release(n) then -1 else 0)
  {
    QueueTake(b.queue, n);
    if b.queue[0].Lock? && a.choice.Some? {
      GrantsPut(b.replies, b.queue[0].request, a.choice.value, n);
    }
  }

  lemma OwedAfterRecord(b: Broker, a: Action, n: string)
    requires a.Record? && Enabled(b, a)
    ensures Owed(Apply(b, a), n) == Owed(b, n)
  {
    GrantsTake(b.replies, a.request, n);
    GrantsPut(NodesOf(b.lockMap), a.lockId, b.replies[a.request], n);
    assert NodesOf(Apply(b, a).lockMap) == NodesOf(b.lockMap)[a.lockId := b.replies[a.request]];
  }

  lemma OwedAfterHold(b: Broker, a: Action, n: string)
    requires a.HoldDirectly? && Enabled(b, a)
    ensures Owed(Apply(b, a), n) == Owed(b, n)
  {
    GrantsTake(b.replies, a.request, n);
    GrantsPut(b.holders, a.request, b.replies[a.request], n);
  }

  /** A lease given up moves to the releases not queued yet. */
  lemma OwedAfterGivingUp(b: Broker, a: Action, n: string)
    requires (a.FinishDirectly? || a.DrainAbandoned?) && Enabled(b, a)
    ensures Owed(Apply(b, a), n) == Owed(b, n)
  {
    GrantsTake(if a.FinishDirectly? then b.holders else b.replies, a.request, n);
  }

  lemma OwedAfterDrop(b: Broker, a: Action, n: string)
    requires a.DropLock? && Enabled(b, a)
    ensures Owed(Apply(b, a), n) == Owed(b, n)
  {
    GrantsTake(NodesOf(b.lockMap), a.lockId, n);
    assert NodesOf(b.lockMap - {a.lockId}) == NodesOf(b.lockMap) - {a.lockId};
  }

  lemma OwedAfterQueueing(b: Broker, a: Action, n: string)
    requires (a.Ask? || a.QueueRelease?) && Enabled(b, a)
    ensures Owed(Apply(b, a), n) == Owed(b, n)
  {
    QueuePut(b.queue, if a.Ask? then Lock(a.request, a.model, a.skip) else Release(a.nodeId), n);
  }

  /** How each step moves what is owed. */
  lemma OwedAfter(b: Broker, a: Action, n: string)
    requires Enabled(b, a)
    ensures Owed(Apply(b, a), n) == Owed(b, n) + Delta(b, a, n)
  {
    match a
    case Execute(_, _) => OwedAfterExecute(b, a, n);
    case Record(_, _, _) => OwedAfterRecord(b, a, n);
    case HoldDirectly(_) => OwedAfterHold(b, a, n);
    case FinishDirectly(_) => OwedAfterGivingUp(b, a, n);
    case DrainAbandoned(_) => OwedAfterGivingUp(b, a, n);
    case DropLock(_) => OwedAfterDrop(b, a, n);
    case Ask(_, _, _) => OwedAfterQueueing(b, a, n);
    case QueueRelease(_) => OwedAfterQueueing(b, a, n);
    case _ =>
  }

  lemma GrantedAfter(w: World, a: Action, n: string)
    requires Enabled(w.broker, a)
    ensures Step(w, a).broker == Apply(w.broker, a)
    ensures Step(w, a).granted[n] + w.released[n] == w.granted[n] + Step(w, a).released[n] + Delta(w.broker, a, n)
  {
  }

  lemma GrantsConserved(w: World, a: Action, n: string)
    requires Conserved(w) && Enabled(w.broker, a)
    ensures Step(w, a).granted[n] == Step(w, a).released[n] + Owed(Step(w, a).broker, n)
  {
    GrantedAfter(w, a, n);
    OwedAfter(w.broker, a, n);
  }

  lemma CountAfter(b: Broker, a: Action, n: string)
    requires Enabled(b, a) && n in Apply(b, a).nodes && !(a.Register? && a.nodeId == n)
    ensures n in b.nodes && Apply(b, a).nodes[n].lockCount == b.nodes[n].lockCount + Delta(b, a, n)
  {
  }

  lemma CountConserved(w: World, a: Action, n: string)
    requires Conserved(w) && Enabled(w.broker, a) && n in Step(w, a).broker.nodes
    ensures n in Step(w, a).carried
    ensures Step(w, a).broker.nodes[n].lockCount + Step(w, a).carried[n] == Owed(Step(w, a).broker, n)
  {
    OwedAfter(w.broker, a, n);
    if !(a.Register? && a.nodeId == n) {
      CountAfter(w.broker, a, n);
    }
  }

  /** Every step keeps the books: lock count plus what was carried over is what is still owed. */
  lemma StepConserves(w: World, a: Action)
    requires Conserved(w) && Enabled(w.broker, a)
    ensures Conserved(Step(w, a))
  {
    var w' := Step(w, a);
    forall n ensures w'.granted[n] == w'.released[n] + Owed(w'.broker, n) {
      GrantsConserved(w, a, n);
    }
    forall n | n in w'.broker.nodes
      ensures n in w'.carried && w'.broker.nodes[n].lockCount + w'.carried[n] == Owed(w'.broker, n)
    {
      CountConserved(w, a, n);
    }
  }

  /** A run is a start and a list of steps, each possible where it is taken. */
  ghost predicate Reaches(w: World, actions: seq<Action>, r: World)
    decreases |actions|
  {
    if actions == [] then r == w
    else Enabled(w.broker, actions[0]) && Reaches(Step(w, actions[0]), actions[1..], r)
  }

  ghost predicate Fresh(w: World) {
    w == World(Broker(map[], [], map[], map[], map[], multiset{}), map[], multiset{}, multiset{})
  }

  lemma {:induction false} RunConserves(w: World, actions: seq<Action>, r: World)
    requires Conserved(w) && Reaches(w, actions, r)
    ensures Conserved(r)
    decreases |actions|
  {
    if actions != [] {
      StepConserves(w, actions[0]);
      RunConserves(Step(w, actions[0]), actions[1..], r);
    }
  }

  /** Over every run, a node's lock count is exactly what is still owed for it if and only if nothing was
      owed when it was last registered; in that case it is never negative. */
  lemma LockCountIsOwed(w: World, actions: seq<Action>, r: World, n: string)
    requires Fresh(w) && Reaches(w, actions, r) && n in r.broker.nodes
    ensures n in r.carried
    ensures r.broker.nodes[n].lockCount == Owed(r.broker, n) <==> r.carried[n] == 0
    ensures r.carried[n] == 0 ==> 0 <= r.broker.nodes[n].lockCount
    ensures -(r.carried[n] as int) <= r.broker.nodes[n].lockCount
    ensures Owed(r.broker, n) == 0 <==> r.granted[n] == r.released[n]
  {
    RunConserves(w, actions, r);
  }

  /** No grant takes a node above its limit, and a grant goes to a least busy eligible node. */
  lemma GrantRespectsLimit(w: World, a: Action, n: string)
    requires Enabled(w.broker, a) && n in w.broker.nodes && n in Step(w, a).broker.nodes
    requires !a.Register?
    requires Step(w, a).broker.nodes[n].lockCount > w.broker.nodes[n].lockCount
    ensures a.Execute? && w.broker.queue[0].Lock? && a.choice == Some(n)
    ensures Step(w, a).broker.nodes[n].lockCount == w.broker.nodes[n].lockCount + 1 <= w.broker.nodes[n].maxConcurrent
    ensures forall id :: id in w.broker.nodes && id !in w.broker.queue[0].skip && a.epoch.Some?
              && Available(w.broker.nodes[id], w.broker.queue[0].model, a.epoch.value)
              ==> w.broker.nodes[n].lockCount <= w.broker.nodes[id].lockCount
  {
    forall id | id in w.broker.nodes && id !in w.broker.queue[0].skip && a.epoch.Some?
                && Available(w.broker.nodes[id], w.broker.queue[0].model, a.epoch.value)
      ensures w.broker.nodes[n].lockCount <= w.broker.nodes[id].lockCount
    {
      assert Eligible(w.broker.nodes, id, w.broker.queue[0].model, w.broker.queue[0].skip, a.epoch.value);
    }
  }

  /** Two steps that may be taken, and where they lead. */
  ghost predicate TwoSteps(w: World, a: Action, b: Action, v: World) {
    Enabled(w.broker, a) && Enabled(Step(w, a).broker, b) && v == Step(Step(w, a), b)
  }

  lemma ReachesOne(w: World, a: Action, rest: seq<Action>, r: World)
    requires Enabled(w.broker, a) && Reaches(Step(w, a), rest, r)
    ensures Reaches(w, [a] + rest, r)
  {
    assert ([a] + rest)[1..] == rest;
  }

  lemma ReachesTwo(w: World, a: Action, b: Action, v: World, rest: seq<Action>, r: World)
    requires TwoSteps(w, a, b, v) && Reaches(v, rest, r)
    ensures Reaches(w, [a] + ([b] + rest), r)
  {
    ReachesOne(Step(w, a), b, rest, r);
    ReachesOne(w, a, [b] + rest, r);
  }

  function Bare(nodes: map<string, Node>): Broker {
    Broker(nodes, [], map[], map[], map[], multiset{})
  }

  lemma NothingOwed(nodes: map<string, Node>, n: string)
    ensures Owed(Bare(nodes), n) == 0
  {
    assert KeysFor(map[], n) == {} && NodesOf(map[]) == map[];
  }

  /** Registered and asked for. */
  lemma FirstRequest(w: World, n: string, node: Node, model: string) returns (v: World)
    requires Fresh(w) && node.lockCount == 0
    ensures TwoSteps(w, Register(n, node), Ask(0, model, {}), v)
    ensures v.broker == Bare(map[n := node]).(queue := [Lock(0, model, {})])
  {
    v := Step(Step(w, Register(n, node)), Ask(0, model, {}));
  }

  /** Granted to an in-process caller. */
  lemma FirstGrant(w: World, n: string, node: Node, model: string, epoch: Epoch) returns (v: World)
    requires w.broker == Bare(map[n := node]).(queue := [Lock(0, model, {})])
    requires node.lockCount == 0 && Available(node, model, epoch)
    ensures TwoSteps(w, Execute(Some(epoch), Some(n)), HoldDirectly(0), v)
    ensures v.broker == Bare(map[n := node.(lockCount := 1)]).(holders := map[0 := n])
  {
    var grant := Execute(Some(epoch), Some(n));
    assert Eligible(w.broker.nodes, n, model, {}, epoch);
    assert w.broker.queue[1..] == [];
    var u := Step(w, grant);
    assert u.broker == Bare(map[n := node.(lockCount := 1)]).(replies := map[0 := n]);
    v := Step(u, HoldDirectly(0));
  }

  /** Given up, and the release queued. */
  lemma FirstRelease(w: World, n: string, nodes: map<string, Node>) returns (v: World)
    requires w.broker == Bare(nodes).(holders := map[0 := n])
    ensures TwoSteps(w, FinishDirectly(0), QueueRelease(n), v)
    ensures v.broker == Bare(nodes).(queue := [Release(n)])
  {
    var u := Step(w, FinishDirectly(0));
    assert u.broker == Bare(nodes).(releasing := multiset{n});
    v := Step(u, QueueRelease(n));
  }

  /** Registered again, and the old release executed. */
  lemma OldReleaseGoesNegative(w: World, n: string, node: Node) returns (v: World)
    requires w.broker.queue == [Release(n)] && w.broker == Bare(w.broker.nodes).(queue := [Release(n)])
    requires node.lockCount == 0
    ensures TwoSteps(w, Register(n, node), Execute(None, None), v)
    ensures n in v.broker.nodes && v.broker.nodes[n].lockCount == -1 && Owed(v.broker, n) == 0
  {
    v := Step(Step(w, Register(n, node)), Execute(None, None));
    assert v.broker == Bare(v.broker.nodes);
    NothingOwed(v.broker.nodes, n);
  }

  /** Why the condition is needed: a run in which a node is registered again while a release is queued, and its lock
      count goes negative. */
  lemma ReRegisteringLosesTheLease(w: World, n: string, node: Node, model: string, epoch: Epoch)
    returns (actions: seq<Action>, r: World)
    requires Fresh(w) && node.lockCount == 0 && Available(node, model, epoch)
    ensures Reaches(w, actions, r)
    ensures n in r.broker.nodes && r.broker.nodes[n].lockCount == -1 && Owed(r.broker, n) == 0
  {
    var ask, grant, again := Ask(0, model, {}), Execute(Some(epoch), Some(n)), Execute(None, None);
    var w1 := FirstRequest(w, n, node, model);
    var w2 := FirstGrant(w1, n, node, model, epoch);
    var w3 := FirstRelease(w2, n, w2.broker.nodes);
    r := OldReleaseGoesNegative(w3, n, node);
    var fourth := [Register(n, node)] + ([again] + []);
    var third := [FinishDirectly(0)] + ([QueueRelease(n)] + fourth);
    var second := [grant] + ([HoldDirectly(0)] + third);
    actions := [Register(n, node)] + ([ask] + second);
    ReachesTwo(w3, Register(n, node), again, r, [], r);
    ReachesTwo(w2, FinishDirectly(0), QueueRelease(n), w3, fourth, r);
    ReachesTwo(w1, grant, HoldDirectly(0), w2, third, r);
    ReachesTwo(w, Register(n, node), ask, w1, second, r);
  }

  // ---- The operations ---------------------------------------------------------------------------------------

  /** Empty ids in a skip list are ignored. */
  function SkipSet(ids: seq<string>): set<string> {
    set id | id in ids && id != ""
  }

  method GetLeastBusyNode(nodes: map<string, Node>, model: string, skipIds: seq<string>, epoch: Option<Epoch>)
    returns (choice: Option<string>)
    ensures MayChoose(nodes, model, SkipSet(skipIds), epoch, choice)
  {
    if epoch.None? {
      return None;
    }
    var skip := SkipSet(skipIds);
    choice := None;
    var todo := nodes.Keys;
    while todo != {}
      invariant todo <= nodes.Keys
      invariant choice.None? ==> forall id :: id !in todo ==> !Eligible(nodes, id, model, skip, epoch.value)
      invariant choice.Some? ==>
                  && Eligible(nodes, choice.value, model, skip, epoch.value)
                  && forall id :: id !in todo && Eligible(nodes, id, model, skip, epoch.value) ==>
                       nodes[choice.value].lockCount <= nodes[id].lockCount
      decreases todo
    {
      var id :| id in todo;
      todo := todo - {id};
      if id !in skip && Available(nodes[id], model, epoch.value) {
        if choice.None? || nodes[id].lockCount < nodes[choice.value].lockCount {
          choice := Some(id);
        }
      }
    }
  }

  predicate Expired(e: LockEntry, now: int, ttlSeconds: int) {
    now - e.createdAt > (if ttlSeconds <= 0 then DEFAULT_TTL_SECONDS else ttlSeconds) * NANOS_PER_SECOND
  }

  lemma RecordAddsOne(m: map<nat, LockEntry>, lockId: nat, nodeId: string, now: int)
    requires lockId !in m
    ensures forall n :: Grants(NodesOf(m[lockId := LockEntry(nodeId, now)]), n) ==
                        Grants(NodesOf(m), n) + if n == nodeId then 1 else 0
  {
    forall n ensures Grants(NodesOf(m[lockId := LockEntry(nodeId, now)]), n) ==
                     Grants(NodesOf(m), n) + if n == nodeId then 1 else 0
    {
      GrantsPut(NodesOf(m), lockId, nodeId, n);
      assert NodesOf(m[lockId := LockEntry(nodeId, now)]) == NodesOf(m)[lockId := nodeId];
    }
  }

  lemma DropTakesOne(m: map<nat, LockEntry>, lockId: nat)
    ensures lockId in m ==> forall n :: Grants(NodesOf(m - {lockId}), n) ==
                              Grants(NodesOf(m), n) - if n == m[lockId].nodeId then 1 else 0
    ensures lockId !in m ==> m - {lockId} == m
  {
    if lockId in m {
      forall n
        ensures Grants(NodesOf(m - {lockId}), n) == Grants(NodesOf(m), n) - if n == m[lockId].nodeId then 1 else 0
      {
        GrantsTake(NodesOf(m), lockId, n);
        assert NodesOf(m - {lockId}) == NodesOf(m) - {lockId};
      }
    }
  }

  /** The lease table, guarded by its own mutex. Giving a lease up returns the node whose release the caller
      then queues. */
  class LeaseTable {
    var lockMap: map<nat, LockEntry>

    constructor ()
      ensures lockMap == map[]
    {
      lockMap := map[];
    }

    method Record(lockId: nat, nodeId: string, now: int)
      requires lockId !in lockMap
      modifies this
      ensures lockMap == old(lockMap)[lockId := LockEntry(nodeId, now)]
      ensures forall n ::
                Grants(NodesOf(lockMap), n) == Grants(NodesOf(old(lockMap)), n) + if n == nodeId then 1 else 0
    {
      RecordAddsOne(lockMap, lockId, nodeId, now);
      lockMap := lockMap[lockId := LockEntry(nodeId, now)];
    }

    /** None is "lock not found". */
    method Release(lockId: nat) returns (toRelease: Option<string>)
      modifies this
      ensures lockMap == old(lockMap) - {lockId}
      ensures toRelease.Some? <==> lockId in old(lockMap)
      ensures forall n ::
                Grants(NodesOf(lockMap), n) + (if toRelease == Some(n) then 1 else 0) ==
                Grants(NodesOf(old(lockMap)), n)
    {
      DropTakesOne(lockMap, lockId);
      toRelease := if lockId in lockMap then Some(lockMap[lockId].nodeId) else None;
      lockMap := lockMap - {lockId};
    }

    /** Exactly the expired leases go, and each gives up its node once. */
    method EvictExpired(now: int, ttlSeconds: int) returns (toRelease: seq<string>)
      modifies this
      ensures lockMap == map id | id in old(lockMap) && !Expired(old(lockMap)[id], now, ttlSeconds) :: old(lockMap)[id]
      ensures forall n ::
                Grants(NodesOf(lockMap), n) + multiset(toRelease)[n] == Grants(NodesOf(old(lockMap)), n)
    {
      toRelease := [];
      var todo := lockMap.Keys;
      while todo != {}
        invariant todo <= lockMap.Keys <= old(lockMap).Keys
        invariant forall id :: id in lockMap ==> lockMap[id] == old(lockMap)[id]
        invariant forall id :: id in old(lockMap) && id !in todo ==>
                    (id in lockMap <==> !Expired(old(lockMap)[id], now, ttlSeconds))
        invariant forall n ::
                    Grants(NodesOf(lockMap), n) + multiset(toRelease)[n] == Grants(NodesOf(old(lockMap)), n)
        decreases todo
      {
        var id :| id in todo;
        todo := todo - {id};
        if Expired(lockMap[id], now, ttlSeconds) {
          DropTakesOne(lockMap, id);
          toRelease := toRelease + [lockMap[id].nodeId];
          lockMap := lockMap - {id};
        }
      }
    }
  }
}
