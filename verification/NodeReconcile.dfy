/** Reconciling one registered node: the reconciler, the node's worker and the broker's command loop run
    concurrently and meet only at the steps below, each of which is one critical section. */
module NodeReconcile {
  import opened Common
  import opened NodeStatus

  const QUEUE_CAPACITY := 10

  datatype Target = Target(status: HardwareStatus, poc: PocStatus)
  datatype ReconcileInfo = ReconcileInfo(target: Target, generation: nat)

  /** The reconciliation part of a node's state. `info` and the cancel function are set and cleared
      together, so the cancel function is identified with the generation it cancels. */
  datatype Node = Node(
    intended: HardwareStatus, current: HardwareStatus, pocIntended: PocStatus, pocCurrent: PocStatus,
    info: Option<ReconcileInfo>, generation: nat,
    updatePending: bool, retryAfter: Option<int>, failureReason: string)

  datatype Command = StopNode | InferenceUp | StartPoC | TransitionToValidating

  datatype Item = Item(cmd: Command, generation: nat)

  datatype NodeResult = NodeResult(
    succeeded: bool, finalStatus: HardwareStatus, finalPoc: PocStatus,
    originalTarget: HardwareStatus, originalPocTarget: PocStatus, error: string,
    deploymentApplied: bool, deferredUntil: Option<int>, generation: nat)

  // ---- The operations on a node ------------------------------------------------------------------------

  predicate UpdateReady(n: Node, now: int) {
    n.updatePending && n.intended == Inference && (n.retryAfter.None? || n.retryAfter.value <= now)
  }

  predicate Outdated(n: Node) {
    n.info.Some? && n.info.value.target != Target(n.intended, n.pocIntended)
  }

  predicate WantsDispatch(n: Node, now: int) {
    n.info.None? && (n.intended != n.current || n.pocIntended != n.pocCurrent || UpdateReady(n, now))
  }

  /** The re-check under the write lock ignores the sub-status unless the node is in proof of compute. */
  predicate StillWantsDispatch(n: Node, now: int) {
    && n.info.None?
    && !(&& n.intended == n.current
         && (n.current != PoC || n.pocIntended == n.pocCurrent)
         && !UpdateReady(n, now))
  }

  function Dispatched(n: Node): Node {
    n.(generation := n.generation + 1,
       info := Some(ReconcileInfo(Target(n.intended, n.pocIntended), n.generation + 1)))
  }

  /** The command is built from the snapshot, not from the node the target was recorded on. */
  function CommandFor(snapshot: Node, pocParamsReady: bool): Option<Command> {
    match snapshot.intended
    case Inference => Some(InferenceUp)
    case PoC =>
      if snapshot.pocIntended == Generating then (if pocParamsReady then Some(StartPoC) else None)
      else if snapshot.pocIntended == Validating then Some(TransitionToValidating)
      else None
    case Stopped => Some(StopNode)
    case _ => None
  }

  function CommandTarget(cmd: Command): Target {
    match cmd
    case StopNode => Target(Stopped, Unset)
    case InferenceUp => Target(Inference, Idle)
    case StartPoC => Target(PoC, Generating)
    case TransitionToValidating => Target(PoC, Validating)
  }

  /** What the node client reported; deferring and keeping a healthy deployment belong to InferenceUp. */
  datatype Outcome = Fails(reason: string) | Succeeds | KeepsServing | Defers(until: int)

  /** A worker's result. `seen` is the node as the worker saw it; a context cancelled before the start makes
      the worker report that status back unchanged. */
  function Execute(cmd: Command, cancelled: bool, seen: Node, outcome: Outcome, generation: nat): NodeResult {
    var t := CommandTarget(cmd);
    var asSeen := NodeResult(false, seen.current, seen.pocCurrent, t.status, t.poc, "not run", false, None, generation);
    if cancelled then asSeen
    else if cmd.TransitionToValidating? && seen.current != PoC && seen.current != Inference then asSeen
    else if outcome.Fails? && !cmd.TransitionToValidating? then
      NodeResult(false, Failed, Unset, t.status, t.poc, outcome.reason, false, None, generation)
    else
      NodeResult(true, t.status, if cmd.StopNode? then Idle else t.poc, t.status, t.poc, "",
                 cmd.InferenceUp? && outcome.Succeeds?,
                 if cmd.InferenceUp? && outcome.Defers? then Some(outcome.until) else None, generation)
  }

  predicate Accepts(n: Node, r: NodeResult) {
    && n.info.Some?
    && n.info.value.target.status == r.originalTarget
    && (n.info.value.target.status == PoC ==> n.info.value.target.poc == r.originalPocTarget)
    && n.info.value.generation == r.generation
  }

  /** `persisted` says whether recording the applied deployment succeeded. */
  function Finalize(n: Node, r: NodeResult, persisted: bool): Node {
    if !Accepts(n, r) then n
    else
      var away := r.finalStatus != PoC;
      n.(current := r.finalStatus,
         pocCurrent := if away then Idle else r.finalPoc,
         pocIntended := if away then Idle else n.pocIntended,
         info := None,
         updatePending := if r.deferredUntil.Some? then true
                          else if r.deploymentApplied then !persisted else n.updatePending,
         retryAfter := if r.deferredUntil.Some? then r.deferredUntil
                       else if r.deploymentApplied then None else n.retryAfter,
         failureReason := if r.succeeded then "" else r.error)
  }

  function DeploymentChanged(n: Node): Node {
    n.(info := if n.info.Some? && n.info.value.target.status == Inference then None else n.info,
       updatePending := true, retryAfter := None)
  }

  class NodeRecord {
    var intended: HardwareStatus
    var current: HardwareStatus
    var pocIntended: PocStatus
    var pocCurrent: PocStatus
    var info: Option<ReconcileInfo>
    var generation: nat
    var updatePending: bool
    var retryAfter: Option<int>
    var failureReason: string

    function State(): Node
      reads this
    {
      Node(intended, current, pocIntended, pocCurrent, info, generation, updatePending, retryAfter, failureReason)
    }

    /** A newly registered node. */
    constructor ()
      ensures State() == Node(Unknown, Unknown, Idle, Idle, None, 0, false, None, "")
    {
      intended, current, pocIntended, pocCurrent, info := Unknown, Unknown, Idle, Idle, None;
      generation, updatePending, retryAfter, failureReason := 0, false, None, "";
    }

    /** The second half of a reconcile pass: re-check, then record the target and a new generation. */
    method TryDispatch(now: int) returns (dispatched: Option<nat>)
      modifies this
      ensures dispatched.Some? <==> old(StillWantsDispatch(State(), now))
      ensures State() == if dispatched.Some? then Dispatched(old(State())) else old(State())
      ensures dispatched.Some? ==> dispatched.value == generation
    {
      if (intended == current && (current != PoC || pocIntended == pocCurrent) && !UpdateReady(State(), now))
         || info.Some? {
        return None;
      }
      generation := generation + 1;
      info := Some(ReconcileInfo(Target(intended, pocIntended), generation));
      return Some(generation);
    }

    method ApplyResult(r: NodeResult, persisted: bool) returns (accepted: bool)
      modifies this
      ensures accepted <==> Accepts(old(State()), r)
      ensures State() == Finalize(old(State()), r, persisted)
    {
      if info.None? {
        return false;
      }
      var target := info.value.target;
      if target.status != r.originalTarget || (target.status == PoC && target.poc != r.originalPocTarget) {
        return false;
      }
      if info.value.generation != r.generation {
        return false;
      }
      current, pocCurrent := r.finalStatus, r.finalPoc;
      info := None;
      if r.deferredUntil.Some? {
        updatePending := true;
        retryAfter := r.deferredUntil;
      } else if r.deploymentApplied {
        retryAfter := None;
        updatePending := !persisted;
      }
      if !r.succeeded {
        failureReason := r.error;
      } else {
        failureReason := "";
      }
      if r.finalStatus != PoC {
        pocIntended, pocCurrent := Idle, Idle;
      }
      return true;
    }

    method ChangeDeployment() returns (cancelled: Option<nat>)
      modifies this
      ensures State() == DeploymentChanged(old(State()))
      ensures cancelled == if old(info).Some? && info.None? then Some(old(info).value.generation) else None
    {
      cancelled := None;
      if info.Some? && info.value.target.status == Inference {
        cancelled := Some(info.value.generation);
        info := None;
      }
      updatePending := true;
      retryAfter := None;
    }
  }

  // ---- The protocol --------------------------------------------------------------------------------------

  /** Where the single reconciler loop stands with this node. */
  datatype Reconciler =
    | Resting
    | Cancelling(generation: nat)
    | Clearing
    | Scanning
    | Holding(snapshot: Node)
    | Submitting(snapshot: Node, generation: nat)

  /** A worker in the middle of a command, with what it saw when it started. */
  datatype Running = Running(item: Item, cancelled: bool, seen: Node)

  /** One applied result: its generation, the latest generation at that moment, and the node right after. */
  datatype Applied = Applied(generation: nat, latest: nat, succeeded: bool, after: Node)

  /** `targets[g - 1]` is what dispatch `g` recorded; `mistargeted` are dispatches whose command aims elsewhere. */
  datatype World = World(
    node: Node, reconciler: Reconciler, queue: seq<Item>, running: Option<Running>, results: seq<NodeResult>,
    cancelled: set<nat>, targets: seq<Target>, mistargeted: set<nat>, applied: seq<Applied>)

  datatype Action =
    | Collect
    | Cancel
    | Clear
    | Scan(now: int)
    | Dispatch(now: int)
    | Submit(workerExists: bool, pocParamsReady: bool)
    | StartWork
    | FinishWork(outcome: Outcome)
    | Deliver(persisted: bool)
    | SetIntent(intended: HardwareStatus, poc: PocStatus)
    | ReportStatus(status: HardwareStatus)
    | ChangeDeployment

  predicate Matches(recorded: Target, aimed: Target) {
    recorded.status == aimed.status && (recorded.status == PoC ==> recorded.poc == aimed.poc)
  }

  function Step(w: World, a: Action): World {
    var n := w.node;
    match a
    case Collect =>
      if !w.reconciler.Resting? then w
      else w.(reconciler := if Outdated(n) then Cancelling(n.info.value.generation) else Scanning)
    case Cancel =>
      // The cancel function is called outside the lock; the record is cleared in a step of its own.
      if !w.reconciler.Cancelling? then w
      else w.(cancelled := w.cancelled + {w.reconciler.generation}, reconciler := Clearing)
    case Clear =>
      if !w.reconciler.Clearing? then w else w.(node := n.(info := None), reconciler := Scanning)
    case Scan(now) =>
      if !w.reconciler.Scanning? then w
      else w.(reconciler := if WantsDispatch(n, now) then Holding(n) else Resting)
    case Dispatch(now) =>
      if !w.reconciler.Holding? then w
      else if !StillWantsDispatch(n, now) then w.(reconciler := Resting)
      else w.(node := Dispatched(n), targets := w.targets + [Target(n.intended, n.pocIntended)],
              reconciler := Submitting(w.reconciler.snapshot, n.generation + 1))
    case Submit(workerExists, pocParamsReady) =>
      if !w.reconciler.Submitting? then w
      else
        var cmd := CommandFor(w.reconciler.snapshot, pocParamsReady);
        var g := w.reconciler.generation;
        if workerExists && cmd.Some? && |w.queue| < QUEUE_CAPACITY then
          w.(reconciler := Resting, queue := w.queue + [Item(cmd.value, g)],
             mistargeted := if 0 < g <= |w.targets| && Matches(w.targets[g - 1], CommandTarget(cmd.value))
                            then w.mistargeted else w.mistargeted + {g})
        else
          w.(reconciler := Resting, cancelled := w.cancelled + {g}, node := n.(info := None))
    case StartWork =>
      if w.running.Some? || w.queue == [] then w
      else w.(running := Some(Running(w.queue[0], w.queue[0].generation in w.cancelled, n)), queue := w.queue[1..])
    case FinishWork(outcome) =>
      if w.running.None? then w
      else
        var r := w.running.value;
        w.(running := None,
           results := w.results + [Execute(r.item.cmd, r.cancelled, r.seen, outcome, r.item.generation)])
    case Deliver(persisted) =>
      if w.results == [] then w
      else
        var r := w.results[0];
        var n' := Finalize(n, r, persisted);
        w.(results := w.results[1..], node := n',
           applied := if !Accepts(n, r) then w.applied
                      else w.applied + [Applied(r.generation, n.generation, r.succeeded, n')])
    case SetIntent(intended, poc) => w.(node := n.(intended := intended, pocIntended := poc))
    case ReportStatus(status) => w.(node := n.(current := status))
    case ChangeDeployment =>
      var n' := DeploymentChanged(n);
      w.(node := n',
         cancelled := if n.info.Some? && n'.info.None? then w.cancelled + {n.info.value.generation} else w.cancelled)
  }

  function Run(w: World, actions: seq<Action>): World
    decreases |actions|
  {
    if actions == [] then w else Run(Step(w, actions[0]), actions[1..])
  }

  predicate Start(w: World) {
    && w.node.info.None? && w.node.generation == 0 && w.reconciler.Resting?
    && w.queue == [] && w.running.None? && w.results == []
    && w.cancelled == {} && w.targets == [] && w.mistargeted == {} && w.applied == []
  }

  // ---- Generations ------------------------------------------------------------------------------------------

  function AppliedGens(s: seq<Applied>): seq<nat> {
    seq(|s|, i requires 0 <= i < |s| => s[i].generation)
  }

  function ResultGens(s: seq<NodeResult>): seq<nat> {
    seq(|s|, i requires 0 <= i < |s| => s[i].generation)
  }

  function ItemGens(s: seq<Item>): seq<nat> {
    seq(|s|, i requires 0 <= i < |s| => s[i].generation)
  }

  function RunningGen(r: Option<Running>): seq<nat> {
    if r.None? then [] else [r.value.item.generation]
  }

  /** Generations of work not yet delivered, oldest first: results, then the running command, then the queue. */
  function InFlight(w: World): seq<nat> {
    ResultGens(w.results) + RunningGen(w.running) + ItemGens(w.queue)
  }

  ghost predicate Increasing(s: seq<nat>) {
    forall i, j :: 0 <= i < j < |s| ==> s[i] < s[j]
  }

  /** Commands and results in flight aim where their generation's book-keeping says they aim. */
  predicate Aimed(w: World, g: nat, aimed: Target) {
    0 < g <= |w.targets| && (g in w.mistargeted <==> !Matches(w.targets[g - 1], aimed))
  }

  predicate HonestResult(r: NodeResult) {
    r.succeeded ==> r.finalStatus == r.originalTarget && (r.finalStatus == PoC ==> r.finalPoc == r.originalPocTarget)
  }

  ghost predicate Ordered(w: World) {
    && |w.targets| == w.node.generation
    && (forall g :: g in w.mistargeted ==> g <= w.node.generation)
    && Increasing(AppliedGens(w.applied) + InFlight(w))
    && (forall g :: g in AppliedGens(w.applied) + InFlight(w) ==> 0 < g <= w.node.generation)
    && (w.reconciler.Submitting? ==>
          && w.reconciler.generation == w.node.generation > 0
          && w.node.generation !in AppliedGens(w.applied) + InFlight(w)
          && w.node.generation !in w.mistargeted)
  }

  ghost predicate Tracked(w: World) {
    && (w.node.info.Some? ==>
          var info := w.node.info.value;
          && info.generation == w.node.generation > 0
          && |w.targets| == w.node.generation && info.target == w.targets[info.generation - 1]
          && info.generation !in AppliedGens(w.applied)
          && (w.reconciler.Submitting? || info.generation in InFlight(w) || info.generation in w.mistargeted))
    && (forall i :: 0 <= i < |w.queue| ==> Aimed(w, w.queue[i].generation, CommandTarget(w.queue[i].cmd)))
    && (w.running.Some? ==> Aimed(w, w.running.value.item.generation, CommandTarget(w.running.value.item.cmd)))
    && (forall i :: 0 <= i < |w.results| ==>
          && Aimed(w, w.results[i].generation, Target(w.results[i].originalTarget, w.results[i].originalPocTarget))
          && HonestResult(w.results[i]))
  }

  /** The result was the latest dispatch's, and a success left the node where that dispatch had recorded. */
  predicate AppliedRight(a: Applied, targets: seq<Target>, mistargeted: set<nat>) {
    && a.generation == a.latest && 0 < a.generation <= |targets|
    && a.generation !in mistargeted
    && (a.succeeded ==>
          var t := targets[a.generation - 1];
          && a.after.current == t.status
          && (if t.status == PoC then a.after.pocCurrent == t.poc
              else a.after.pocCurrent == Idle && a.after.pocIntended == Idle))
  }

  /** What every applied result did. */
  ghost predicate Audited(w: World) {
    forall i :: 0 <= i < |w.applied| ==> AppliedRight(w.applied[i], w.targets, w.mistargeted)
  }

  ghost predicate Safe(w: World) {
    Ordered(w) && Tracked(w) && Audited(w)
  }

  lemma SubmitExtendsFlight(w: World, item: Item)
    ensures InFlight(w.(queue := w.queue + [item])) == InFlight(w) + [item.generation]
  {
    assert ItemGens(w.queue + [item]) == ItemGens(w.queue) + [item.generation];
  }

  lemma StartKeepsFlight(w: World)
    ensures InFlight(Step(w, StartWork)) == InFlight(w)
  {
    if w.running.None? && w.queue != [] {
      assert ItemGens(w.queue) == [w.queue[0].generation] + ItemGens(w.queue[1..]);
    }
  }

  lemma FinishKeepsFlight(w: World, outcome: Outcome)
    ensures InFlight(Step(w, FinishWork(outcome))) == InFlight(w)
  {
    if w.running.Some? {
      var w' := Step(w, FinishWork(outcome));
      assert ResultGens(w'.results) == ResultGens(w.results) + RunningGen(w.running);
    }
  }

  lemma DeliverShortensFlight(w: World, persisted: bool)
    requires w.results != []
    ensures InFlight(w) == [w.results[0].generation] + InFlight(Step(w, Deliver(persisted)))
  {
    assert ResultGens(w.results) == [w.results[0].generation] + ResultGens(w.results[1..]);
  }

  /** Everything recorded or under way belongs to an earlier dispatch than the one being submitted. */
  lemma EarlierThanSubmitting(w: World)
    requires Safe(w) && w.reconciler.Submitting?
    ensures forall i :: 0 <= i < |w.queue| ==> w.queue[i].generation != w.node.generation
    ensures forall i :: 0 <= i < |w.results| ==> w.results[i].generation != w.node.generation
    ensures forall i :: 0 <= i < |w.applied| ==> w.applied[i].generation != w.node.generation
    ensures w.running.Some? ==> w.running.value.item.generation != w.node.generation
  {
    var all := AppliedGens(w.applied) + InFlight(w);
    forall i | 0 <= i < |w.queue| ensures w.queue[i].generation in all {
      assert ItemGens(w.queue)[i] in InFlight(w);
    }
    forall i | 0 <= i < |w.results| ensures w.results[i].generation in all {
      assert ResultGens(w.results)[i] in InFlight(w);
    }
    forall i | 0 <= i < |w.applied| ensures w.applied[i].generation in all {
      assert AppliedGens(w.applied)[i] in all;
    }
    assert w.running.Some? ==> RunningGen(w.running)[0] in InFlight(w);
  }

  lemma AppendKeepsIncreasing(s: seq<nat>, g: nat)
    requires Increasing(s) && g !in s && forall x :: x in s ==> 0 < x <= g
    ensures Increasing(s + [g])
  {
    assert forall k :: 0 <= k < |s| ==> s[k] in s;
  }

  /** A step that leaves the commands and results alone, and clears the recorded target or keeps it. */
  lemma SameFlightKeepsSafe(w: World, node: Node, reconciler: Reconciler, cancelled: set<nat>)
    requires Safe(w) && node.generation == w.node.generation && (node.info == w.node.info || node.info.None?)
    requires reconciler == w.reconciler || (!reconciler.Submitting? && (w.reconciler.Submitting? ==> node.info.None?))
    ensures Safe(w.(node := node, reconciler := reconciler, cancelled := cancelled))
  {
    var w' := w.(node := node, reconciler := reconciler, cancelled := cancelled);
    assert InFlight(w') == InFlight(w) && AppliedGens(w'.applied) == AppliedGens(w.applied);
  }

  lemma EnqueueKeepsOrdered(w: World, item: Item, mistargeted: set<nat>)
    requires Safe(w) && w.reconciler.Submitting? && item.generation == w.node.generation
    requires mistargeted == w.mistargeted || mistargeted == w.mistargeted + {item.generation}
    ensures Ordered(w.(reconciler := Resting, queue := w.queue + [item], mistargeted := mistargeted))
  {
    var w', before := w.(reconciler := Resting, queue := w.queue + [item], mistargeted := mistargeted),
                      AppliedGens(w.applied) + InFlight(w);
    SubmitExtendsFlight(w, item);
    assert InFlight(w') == InFlight(w) + [item.generation];
    AppendKeepsIncreasing(before, item.generation);
    assert AppliedGens(w'.applied) + InFlight(w') == before + [item.generation];
  }

  lemma EnqueueKeepsTracked(w: World, item: Item, mistargeted: set<nat>)
    requires Safe(w) && w.reconciler.Submitting? && item.generation == w.node.generation
    requires mistargeted == w.mistargeted || mistargeted == w.mistargeted + {item.generation}
    requires Aimed(w.(mistargeted := mistargeted), item.generation, CommandTarget(item.cmd))
    ensures Tracked(w.(reconciler := Resting, queue := w.queue + [item], mistargeted := mistargeted))
    ensures Audited(w.(reconciler := Resting, queue := w.queue + [item], mistargeted := mistargeted))
  {
    EarlierThanSubmitting(w);
    var w' := w.(reconciler := Resting, queue := w.queue + [item], mistargeted := mistargeted);
    SubmitExtendsFlight(w, item);
    assert InFlight(w') == InFlight(w) + [item.generation];
    assert item.generation == InFlight(w')[|InFlight(w)|];
  }

  lemma SubmitKeepsSafe(w: World, a: Action)
    requires Safe(w) && a.Submit? && w.reconciler.Submitting?
    ensures Safe(Step(w, a))
  {
    var w' := Step(w, a);
    if |w'.queue| > |w.queue| {
      var item := w'.queue[|w.queue|];
      assert w' == w.(reconciler := Resting, queue := w.queue + [item], mistargeted := w'.mistargeted);
      EnqueueKeepsOrdered(w, item, w'.mistargeted);
      EnqueueKeepsTracked(w, item, w'.mistargeted);
    } else {
      SameFlightKeepsSafe(w, w'.node, Resting, w'.cancelled);
    }
  }

  lemma StartWorkKeepsSafe(w: World)
    requires Safe(w)
    ensures Safe(Step(w, StartWork))
  {
    StartKeepsFlight(w);
  }

  /** A result reports where its command aimed. */
  lemma ResultAims(cmd: Command, cancelled: bool, seen: Node, outcome: Outcome, generation: nat)
    ensures var r := Execute(cmd, cancelled, seen, outcome, generation);
            && r.generation == generation && Target(r.originalTarget, r.originalPocTarget) == CommandTarget(cmd)
            && HonestResult(r)
  {
  }

  lemma ResultKeepsSafe(w: World, r: NodeResult)
    requires Safe(w) && w.running.Some? && r.generation == w.running.value.item.generation && HonestResult(r)
    requires Target(r.originalTarget, r.originalPocTarget) == CommandTarget(w.running.value.item.cmd)
    requires InFlight(w.(running := None, results := w.results + [r])) == InFlight(w)
    ensures Safe(w.(running := None, results := w.results + [r]))
  {
  }

  lemma FinishWorkKeepsSafe(w: World, outcome: Outcome)
    requires Safe(w)
    ensures Safe(Step(w, FinishWork(outcome)))
  {
    FinishKeepsFlight(w, outcome);
    if w.running.Some? {
      var v := w.running.value;
      ResultAims(v.item.cmd, v.cancelled, v.seen, outcome, v.item.generation);
      ResultKeepsSafe(w, Execute(v.item.cmd, v.cancelled, v.seen, outcome, v.item.generation));
    }
  }

  lemma RemoveKeepsIncreasing(a: seq<nat>, g: nat, b: seq<nat>)
    requires Increasing(a + [g] + b)
    ensures Increasing(a + b)
    ensures forall x :: x in a + b ==> x in a + [g] + b
  {
    var whole, rest := a + [g] + b, a + b;
    forall i | 0 <= i < |rest| ensures rest[i] == whole[if i < |a| then i else i + 1] {
    }
  }

  lemma DeliverKeepsOrdered(w: World, a: Action)
    requires Safe(w) && a.Deliver? && w.results != []
    ensures Ordered(Step(w, a))
    ensures forall g :: g in InFlight(w) && g != w.results[0].generation ==> g in InFlight(Step(w, a))
  {
    var w', r := Step(w, a), w.results[0];
    DeliverShortensFlight(w, a.persisted);
    var done, rest := AppliedGens(w.applied), InFlight(w');
    assert done + InFlight(w) == done + [r.generation] + rest;
    if Accepts(w.node, r) {
      assert AppliedGens(w'.applied) == done + [r.generation];
    } else {
      RemoveKeepsIncreasing(done, r.generation, rest);
    }
  }

  lemma AcceptedIsRight(w: World, r: NodeResult, persisted: bool)
    requires Safe(w) && Accepts(w.node, r) && HonestResult(r)
    requires Aimed(w, r.generation, Target(r.originalTarget, r.originalPocTarget))
    ensures AppliedRight(Applied(r.generation, w.node.generation, r.succeeded, Finalize(w.node, r, persisted)),
                         w.targets, w.mistargeted)
  {
  }

  lemma DeliverKeepsAudited(w: World, a: Action)
    requires Safe(w) && a.Deliver? && w.results != []
    ensures Audited(Step(w, a))
  {
    var r := w.results[0];
    assert Aimed(w, r.generation, Target(r.originalTarget, r.originalPocTarget)) && HonestResult(r);
    if Accepts(w.node, r) {
      AcceptedIsRight(w, r, a.persisted);
    }
  }

  lemma DeliverKeepsSafe(w: World, a: Action)
    requires Safe(w) && a.Deliver? && w.results != []
    ensures Safe(Step(w, a))
  {
    var r := w.results[0];
    assert Aimed(w, r.generation, Target(r.originalTarget, r.originalPocTarget));
    DeliverKeepsOrdered(w, a);
    DeliverKeepsAudited(w, a);
  }

  lemma DispatchKeepsOrdered(w: World, a: Action)
    requires Safe(w) && a.Dispatch? && Step(w, a).reconciler.Submitting?
    ensures Ordered(Step(w, a))
  {
    assert InFlight(Step(w, a)) == InFlight(w);
  }

  lemma DispatchKeepsTracked(w: World, a: Action)
    requires Safe(w) && a.Dispatch? && Step(w, a).reconciler.Submitting?
    ensures Tracked(Step(w, a)) && Audited(Step(w, a))
  {
    assert InFlight(Step(w, a)) == InFlight(w);
  }

  lemma DispatchKeepsSafe(w: World, a: Action)
    requires Safe(w) && a.Dispatch?
    ensures Safe(Step(w, a))
  {
    if Step(w, a).reconciler.Submitting? {
      DispatchKeepsOrdered(w, a);
      DispatchKeepsTracked(w, a);
    } else if w.reconciler.Holding? {
      SameFlightKeepsSafe(w, w.node, Resting, w.cancelled);
    }
  }

  lemma OtherStepsKeepSafe(w: World, a: Action)
    requires Safe(w) && (a.Collect? || a.Cancel? || a.Clear? || a.Scan? || a.SetIntent? || a.ReportStatus? ||
                         a.ChangeDeployment?)
    ensures Safe(Step(w, a))
  {
    var w' := Step(w, a);
    SameFlightKeepsSafe(w, w'.node, w'.reconciler, w'.cancelled);
  }

  lemma StepKeepsSafe(w: World, a: Action)
    requires Safe(w)
    ensures Safe(Step(w, a))
  {
    match a
    case Submit(_, _) => if w.reconciler.Submitting? { SubmitKeepsSafe(w, a); }
    case StartWork => StartWorkKeepsSafe(w);
    case FinishWork(outcome) => FinishWorkKeepsSafe(w, outcome);
    case Deliver(_) => if w.results != [] { DeliverKeepsSafe(w, a); }
    case Dispatch(_) => DispatchKeepsSafe(w, a);
    case _ => OtherStepsKeepSafe(w, a);
  }

  lemma StartIsSafe(w: World)
    requires Start(w)
    ensures Safe(w)
  {
    assert AppliedGens(w.applied) + InFlight(w) == [];
  }

  lemma {:induction false} RunKeepsSafe(w: World, actions: seq<Action>)
    requires Safe(w)
    ensures Safe(Run(w, actions))
    decreases |actions|
  {
    if actions != [] {
      StepKeepsSafe(w, actions[0]);
      RunKeepsSafe(Step(w, actions[0]), actions[1..]);
    }
  }

  // ---- Results -------------------------------------------------------------------------------------------------

  /** Over every run: applied results carry strictly increasing generations, so at most one per dispatch;
      each came from what was then the most recent dispatch; and a succeeded one left the node where that
      dispatch said it should go. */
  lemma AppliedResultsAreCurrent(w: World, actions: seq<Action>)
    requires Start(w)
    ensures var r := Run(w, actions);
            && (forall i, j :: 0 <= i < j < |r.applied| ==> r.applied[i].generation < r.applied[j].generation)
            && Audited(r)
  {
    RunKeepsSafe(w, actions);
    var r := Run(w, actions);
    var all := AppliedGens(r.applied) + InFlight(r);
    forall i, j | 0 <= i < j < |r.applied| ensures r.applied[i].generation < r.applied[j].generation {
      assert all[i] == r.applied[i].generation && all[j] == r.applied[j].generation;
    }
  }

  /** A delivered result is accepted exactly when it belongs to the most recent dispatch, that dispatch has
      not been cancelled or finished, and its command aimed at the recorded target. */
  lemma AcceptedIffCurrentAndAimed(w: World)
    requires Safe(w) && w.results != []
    ensures Accepts(w.node, w.results[0]) <==>
            && w.node.info.Some?
            && w.results[0].generation == w.node.generation
            && w.node.generation !in w.mistargeted
  {
    var r := w.results[0];
    assert Aimed(w, r.generation, Target(r.originalTarget, r.originalPocTarget));
  }

  /** A recorded dispatch that was cancelled is about to be cleared. */
  ghost predicate ClearsCancelled(w: World) {
    && (forall g :: g in w.cancelled ==> g <= w.node.generation)
    && (w.reconciler.Cancelling? ==> w.reconciler.generation <= w.node.generation)
    && (w.node.info.Some? && w.node.info.value.generation in w.cancelled ==> w.reconciler.Clearing?)
  }

  lemma StepClearsCancelled(w: World, a: Action)
    requires Safe(w) && ClearsCancelled(w)
    ensures ClearsCancelled(Step(w, a))
  {
  }

  lemma {:induction false} RunClearsCancelled(w: World, actions: seq<Action>)
    requires Safe(w) && ClearsCancelled(w)
    ensures ClearsCancelled(Run(w, actions))
    decreases |actions|
  {
    if actions != [] {
      StepKeepsSafe(w, actions[0]);
      StepClearsCancelled(w, actions[0]);
      RunClearsCancelled(Step(w, actions[0]), actions[1..]);
    }
  }

  /** Over every run a report of a cancelled command is accepted only in the gap between the cancel call and the
      clearing of the record. */
  lemma CancelledAcceptedOnlyInGap(w: World, actions: seq<Action>)
    requires Start(w)
    requires var r := Run(w, actions);
             r.results != [] && r.results[0].generation in r.cancelled && Accepts(r.node, r.results[0])
    ensures Run(w, actions).reconciler.Clearing?
  {
    RunClearsCancelled(w, actions);
  }

  /** A command aims where the snapshot it was built from wanted to go. */
  lemma CommandAimsAtSnapshot(recorded: Target, snapshot: Node, pocParamsReady: bool)
    requires CommandFor(snapshot, pocParamsReady).Some?
    ensures Matches(recorded, CommandTarget(CommandFor(snapshot, pocParamsReady).value)) <==>
            Matches(recorded, Target(snapshot.intended, snapshot.pocIntended))
  {
  }

  /** The step hands the dispatch's command to the worker. */
  predicate Enqueues(w: World, a: Action) {
    && a.Submit? && w.reconciler.Submitting? && a.workerExists && |w.queue| < QUEUE_CAPACITY
    && CommandFor(w.reconciler.snapshot, a.pocParamsReady).Some?
  }

  /** The intent the snapshot was taken with is no longer the one the dispatch recorded, in the part the comparison of
      targets looks at. */
  predicate IntentMoved(w: World)
    requires w.reconciler.Submitting? && w.targets != []
  {
    var snapshot := w.reconciler.snapshot;
    !Matches(w.targets[|w.targets| - 1], Target(snapshot.intended, snapshot.pocIntended))
  }

  function MovedNow(w: World, a: Action): set<nat> {
    if Enqueues(w, a) && w.targets != [] && IntentMoved(w) then {w.reconciler.generation} else {}
  }

  /** The dispatches of a run whose intent moved between snapshot and dispatch. */
  function Moved(w: World, actions: seq<Action>): set<nat>
    decreases |actions|
  {
    if actions == [] then {} else MovedNow(w, actions[0]) + Moved(Step(w, actions[0]), actions[1..])
  }

  lemma MistargetedStep(w: World, a: Action)
    requires Ordered(w)
    ensures Step(w, a).mistargeted == w.mistargeted + MovedNow(w, a)
  {
    if Enqueues(w, a) {
      CommandAimsAtSnapshot(w.targets[|w.targets| - 1], w.reconciler.snapshot, a.pocParamsReady);
    }
  }

  lemma {:induction false} MistargetedGrowsByMoved(w: World, actions: seq<Action>)
    requires Safe(w)
    ensures Run(w, actions).mistargeted == w.mistargeted + Moved(w, actions)
    decreases |actions|
  {
    if actions != [] {
      StepKeepsSafe(w, actions[0]);
      MistargetedStep(w, actions[0]);
      MistargetedGrowsByMoved(Step(w, actions[0]), actions[1..]);
    }
  }

  /** Over every run, the dispatches whose command misses the recorded target, and whose results are therefore rejected,
      are exactly those whose intent changed between the snapshot and the dispatch. */
  lemma MistargetedIffIntentMoved(w: World, actions: seq<Action>)
    requires Start(w)
    ensures Run(w, actions).mistargeted == Moved(w, actions)
  {
    MistargetedGrowsByMoved(w, actions);
  }

  /** Nothing is forgotten: while a target is recorded, its submission or its result is still on the way,
      unless that dispatch was mistargeted. */
  lemma RecordedTargetIsPursued(w: World, actions: seq<Action>)
    requires Start(w)
    ensures var r := Run(w, actions);
            r.node.info.Some? && !r.reconciler.Submitting? && r.node.info.value.generation !in InFlight(r)
            ==> r.node.info.value.generation in r.mistargeted
  {
    RunKeepsSafe(w, actions);
  }

  /** A recorded target that nobody pursues and that no reconcile pass considers outdated. */
  ghost predicate Wedged(w: World) {
    && w.node.info.Some? && !Outdated(w.node)
    && w.queue == [] && w.running.None? && w.results == []
    && (w.reconciler.Resting? || w.reconciler.Scanning?)
  }

  lemma RunOne(w: World, a: Action, rest: seq<Action>)
    ensures Run(w, [a] + rest) == Run(Step(w, a), rest)
  {
    assert ([a] + rest)[1..] == rest;
  }

  lemma IntentMovesAfterSnapshot(w: World, rest: seq<Action>) returns (r: World)
    requires Start(w) && w.node == Node(Unknown, Unknown, Idle, Idle, None, 0, false, None, "")
    ensures r == w.(node := w.node.(intended := Inference, pocIntended := Generating),
                    reconciler := Holding(w.node.(intended := PoC, pocIntended := Generating)))
    ensures Run(w, [SetIntent(PoC, Generating)] +
                   ([Collect] + ([Scan(0)] + ([SetIntent(Inference, Generating)] + rest)))) == Run(r, rest)
  {
    var w1 := Step(w, SetIntent(PoC, Generating));
    var w2 := Step(w1, Collect);
    var w3 := Step(w2, Scan(0));
    r := Step(w3, SetIntent(Inference, Generating));
    RunOne(w, SetIntent(PoC, Generating), [Collect] + ([Scan(0)] + ([SetIntent(Inference, Generating)] + rest)));
    RunOne(w1, Collect, [Scan(0)] + ([SetIntent(Inference, Generating)] + rest));
    RunOne(w2, Scan(0), [SetIntent(Inference, Generating)] + rest);
    RunOne(w3, SetIntent(Inference, Generating), rest);
  }

  /** The command is made from the snapshot, while the record holds the new intent. */
  lemma StaleCommandIsQueued(w: World, rest: seq<Action>) returns (r: World)
    requires w.reconciler == Holding(Node(PoC, Unknown, Generating, Idle, None, 0, false, None, ""))
    requires w.node == Node(Inference, Unknown, Generating, Idle, None, 0, false, None, "")
    requires w.queue == [] && w.running.None? && w.results == [] && w.targets == []
    ensures r.reconciler.Resting? && r.queue == [Item(StartPoC, 1)] && r.running.None? && r.results == []
    ensures r.node == w.node.(info := Some(ReconcileInfo(Target(Inference, Generating), 1)), generation := 1)
    ensures Run(w, [Dispatch(0)] + ([Submit(true, true)] + rest)) == Run(r, rest)
  {
    var w1 := Step(w, Dispatch(0));
    r := Step(w1, Submit(true, true));
    RunOne(w, Dispatch(0), [Submit(true, true)] + rest);
    RunOne(w1, Submit(true, true), rest);
  }

  lemma StaleCommandRuns(w: World, rest: seq<Action>) returns (r: World)
    requires w.queue == [Item(StartPoC, 1)] && w.running.None? && w.results == []
    ensures |r.results| == 1 && r.results[0].originalTarget == PoC && r.queue == [] && r.running.None?
    ensures r.node == w.node && r.reconciler == w.reconciler
    ensures Run(w, [StartWork] + ([FinishWork(Succeeds)] + rest)) == Run(r, rest)
  {
    var w1 := Step(w, StartWork);
    r := Step(w1, FinishWork(Succeeds));
    RunOne(w, StartWork, [FinishWork(Succeeds)] + rest);
    RunOne(w1, FinishWork(Succeeds), rest);
  }

  lemma StaleResultWedges(w: World)
    requires |w.results| == 1 && w.results[0].originalTarget == PoC && w.queue == [] && w.running.None?
    requires w.reconciler.Resting? && w.node.info == Some(ReconcileInfo(Target(Inference, Generating), 1))
    requires w.node.intended == Inference && w.node.pocIntended == Generating
    ensures Wedged(Run(w, [Deliver(true)]))
  {
    RunOne(w, Deliver(true), []);
  }

  /** Progress does fail: a mistargeted dispatch can leave the node wedged. */
  lemma MistargetedDispatchWedges(w: World) returns (actions: seq<Action>)
    requires Start(w) && w.node == Node(Unknown, Unknown, Idle, Idle, None, 0, false, None, "")
    ensures Wedged(Run(w, actions))
  {
    var last := [Deliver(true)];
    var work := [StartWork] + ([FinishWork(Succeeds)] + last);
    var tail := [Dispatch(0)] + ([Submit(true, true)] + work);
    actions := [SetIntent(PoC, Generating)] + ([Collect] + ([Scan(0)] + ([SetIntent(Inference, Generating)] + tail)));
    var w1 := IntentMovesAfterSnapshot(w, tail);
    var w2 := StaleCommandIsQueued(w1, work);
    var w3 := StaleCommandRuns(w2, last);
    StaleResultWedges(w3);
  }

  /** Once wedged, only a change of intent or of the deployment gets the node moving again. */
  lemma {:induction false} WedgeLasts(w: World, actions: seq<Action>)
    requires Wedged(w)
    requires forall i :: 0 <= i < |actions| ==> !actions[i].SetIntent? && !actions[i].ChangeDeployment?
    ensures Wedged(Run(w, actions)) && Run(w, actions).node.info == w.node.info
    decreases |actions|
  {
    if actions != [] {
      assert !actions[0].SetIntent? && !actions[0].ChangeDeployment?;
      var w' := Step(w, actions[0]);
      assert Wedged(w') && w'.node.info == w.node.info;
      WedgeLasts(w', actions[1..]);
    }
  }

  // ---- The gap between cancelling and clearing --------------------------------------------------------------------

  lemma RunTwo(w: World, a: Action, b: Action, rest: seq<Action>)
    ensures Run(w, [a] + ([b] + rest)) == Run(Step(Step(w, a), b), rest)
  {
    RunOne(w, a, [b] + rest);
    RunOne(Step(w, a), b, rest);
  }

  /** The worker has reported on the first dispatch of the node. */
  ghost predicate Reported(w: World) {
    && w.reconciler.Resting? && w.node.info == Some(ReconcileInfo(Target(Inference, Idle), 1))
    && |w.results| == 1 && w.results[0].generation == 1 && w.results[0].originalTarget == Inference
  }

  lemma FirstReport(w: World) returns (v: World)
    requires w.reconciler.Holding? && w.reconciler.snapshot == w.node && w.node.intended == Inference
    requires w.node.pocIntended == Idle && w.node.generation == 0 && w.targets == [] && StillWantsDispatch(w.node, 0)
    requires w.queue == [] && w.running.None? && w.results == []
    ensures v == Step(Step(Step(Step(w, Dispatch(0)), Submit(true, true)), StartWork), FinishWork(Succeeds))
    ensures Reported(v)
  {
    var w2 := Step(Step(w, Dispatch(0)), Submit(true, true));
    assert w2.queue == [Item(InferenceUp, 1)];
    v := Step(Step(w2, StartWork), FinishWork(Succeeds));
  }

  lemma AcceptedInGap(w: World)
    requires Reported(w)
    ensures var v := Step(Step(Step(w, SetIntent(Stopped, Idle)), Collect), Cancel);
            v.results != [] && v.results[0].generation in v.cancelled && Accepts(v.node, v.results[0])
  {
  }

  /** It does happen there: the intent changes after the worker has reported, and the report arrives before the record
      is cleared. */
  lemma CancelledReportIsAccepted(w: World) returns (actions: seq<Action>)
    requires Start(w) && w.node == Node(Inference, Unknown, Idle, Idle, None, 0, false, None, "")
    ensures var r := Run(w, actions);
            r.results != [] && r.results[0].generation in r.cancelled && Accepts(r.node, r.results[0])
  {
    var gap := [SetIntent(Stopped, Idle)] + ([Collect] + [Cancel]);
    var work := [StartWork] + ([FinishWork(Succeeds)] + gap);
    var pass := [Dispatch(0)] + ([Submit(true, true)] + work);
    actions := [Collect] + ([Scan(0)] + pass);
    RunTwo(w, Collect, Scan(0), pass);
    var w1 := Step(Step(w, Collect), Scan(0));
    RunTwo(w1, Dispatch(0), Submit(true, true), work);
    var w2 := Step(Step(w1, Dispatch(0)), Submit(true, true));
    RunTwo(w2, StartWork, FinishWork(Succeeds), gap);
    var w3 := FirstReport(w1);
    RunTwo(w3, SetIntent(Stopped, Idle), Collect, [Cancel]);
    RunOne(Step(Step(w3, SetIntent(Stopped, Idle)), Collect), Cancel, []);
    AcceptedInGap(w3);
  }
}
