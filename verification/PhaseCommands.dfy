/** The three phase commands that set every node's intended status: start proof of compute, start its validation, and go
    back to inference. Each first asks whether anything would change and skips the assignment loop if not. */
module PhaseCommands {
  import opened Common
  import opened NodeStatus

  datatype Command = StartPoc | InitValidate | InferenceUpAll

  datatype Node = Node(admin: AdminState, preserved: set<string>, intended: HardwareStatus, pocIntended: PocStatus)

  /** The windows of a confirmation round come with the epoch state. */
  datatype Epoch = Epoch(synced: bool, index: nat, phase: EpochPhase, generationEnded: bool, confirming: bool,
                         inGenerationWindow: bool, inValidationWindow: bool)

  /** Is the command still timely? */
  predicate Applies(cmd: Command, e: Epoch) {
    && e.synced
    && match cmd
       case StartPoc =>
         e.phase == PoCGeneratePhase || (e.phase == InferencePhase && e.confirming && e.inGenerationWindow)
       case InitValidate =>
         if e.phase == InferencePhase && e.confirming then e.inValidationWindow
         else if e.phase == PoCGenerateWindDownPhase then e.generationEnded
         else e.phase == PoCValidatePhase
       case InferenceUpAll => e.phase == InferencePhase || e.phase == PoCValidateWindDownPhase
  }

  predicate Operational(n: Node, e: Epoch) {
    ShouldBeOperational(n.admin, e.index, e.phase)
  }

  predicate ContinuesInference(n: Node) {
    n.preserved != {}
  }

  function Target(cmd: Command): PocStatus {
    if cmd == StartPoc then Generating else Validating
  }

  /** What the assignment loop makes of one node. */
  function Assigned(cmd: Command, n: Node, e: Epoch): Node {
    if cmd == InferenceUpAll || !Operational(n, e) || ContinuesInference(n) then n.(intended := Inference)
    else n.(intended := PoC, pocIntended := Target(cmd))
  }

  /** The check that one node asks for the loop. */
  predicate WantsChange(cmd: Command, n: Node, e: Epoch) {
    if cmd == InferenceUpAll then n.intended != Inference
    else
      || (!Operational(n, e) && n.intended != Inference)
      || (if ContinuesInference(n) then n.intended != Inference
          else n.intended != PoC || n.pocIntended != Target(cmd))
  }

  type Nodes = map<NodeId, Node>

  function AllAssigned(cmd: Command, nodes: Nodes, e: Epoch): Nodes {
    map id | id in nodes :: Assigned(cmd, nodes[id], e)
  }

  predicate ShouldMutate(cmd: Command, nodes: Nodes, e: Epoch) {
    exists id :: id in nodes && WantsChange(cmd, nodes[id], e)
  }

  /** A node that makes the check answer yes although nothing changes for it. */
  predicate FalseAlarm(cmd: Command, n: Node, e: Epoch) {
    cmd != InferenceUpAll && !Operational(n, e) && !ContinuesInference(n)
  }

  lemma WantsChangeIff(cmd: Command, n: Node, e: Epoch)
    ensures WantsChange(cmd, n, e) <==> Assigned(cmd, n, e) != n || FalseAlarm(cmd, n, e)
  {
  }

  /** The check says yes exactly when the loop would change some node, or when a node is out of operation without a
      preserved model; in particular a no means the loop changes nothing, for all three commands. */
  lemma ShouldMutateIff(cmd: Command, nodes: Nodes, e: Epoch)
    ensures ShouldMutate(cmd, nodes, e) <==>
            AllAssigned(cmd, nodes, e) != nodes || exists id :: id in nodes && FalseAlarm(cmd, nodes[id], e)
  {
    forall id | id in nodes
      ensures WantsChange(cmd, nodes[id], e) <==>
              AllAssigned(cmd, nodes, e)[id] != nodes[id] || FalseAlarm(cmd, nodes[id], e)
    {
      WantsChangeIff(cmd, nodes[id], e);
    }
  }

  /** For the return to inference the check is exact. */
  lemma InferenceCheckIsExact(nodes: Nodes, e: Epoch)
    ensures ShouldMutate(InferenceUpAll, nodes, e) <==> AllAssigned(InferenceUpAll, nodes, e) != nodes
  {
    ShouldMutateIff(InferenceUpAll, nodes, e);
  }

  /** Repeating a command in the same epoch state changes nothing. */
  lemma AssignmentIsIdempotent(cmd: Command, nodes: Nodes, e: Epoch)
    ensures AllAssigned(cmd, AllAssigned(cmd, nodes, e), e) == AllAssigned(cmd, nodes, e)
  {
  }

  /** A false alarm: a disabled node already on inference makes the check answer yes, and the loop changes nothing. */
  lemma DisabledNodeRaisesFalseAlarm(cmd: Command, id: NodeId, e: Epoch, poc: PocStatus)
    requires cmd != InferenceUpAll && e.index > 0
    ensures var nodes: Nodes := map[id := Node(AdminState(false, e.index - 1), {}, Inference, poc)];
            ShouldMutate(cmd, nodes, e) && AllAssigned(cmd, nodes, e) == nodes
  {
    var nodes: Nodes := map[id := Node(AdminState(false, e.index - 1), {}, Inference, poc)];
    assert FalseAlarm(cmd, nodes[id], e);
    ShouldMutateIff(cmd, nodes, e);
  }

  // ---- Check and loop as separate steps -----------------------------------------------------------------------------

  /** The lock is given up between the check and the loop, and other commands' effects come in between. */
  datatype Action = Check(cmd: Command, e: Epoch) | Assign | Other(change: Nodes -> Nodes)

  datatype Pending = Pending(cmd: Command, e: Epoch)

  datatype World = World(nodes: Nodes, pending: Option<Pending>)

  ghost function Step(w: World, a: Action): World {
    match a
    case Check(cmd, e) =>
      if w.pending.None? && Applies(cmd, e) && ShouldMutate(cmd, w.nodes, e)
      then w.(pending := Some(Pending(cmd, e))) else w
    case Assign =>
      if w.pending.Some? then World(AllAssigned(w.pending.value.cmd, w.nodes, w.pending.value.e), None) else w
    case Other(change) => w.(nodes := change(w.nodes))
  }

  ghost function Run(w: World, acts: seq<Action>): World
    decreases |acts|
  {
    if acts == [] then w else Run(Step(w, acts[0]), acts[1..])
  }

  /** Whole commands, each in one step and never skipped. */
  datatype Whole = Command(cmd: Command, e: Epoch) | Change(change: Nodes -> Nodes)

  ghost function WholeStep(nodes: Nodes, a: Whole): Nodes {
    match a
    case Command(cmd, e) => AllAssigned(cmd, nodes, e)
    case Change(change) => change(nodes)
  }

  ghost function WholeRun(nodes: Nodes, acts: seq<Whole>): Nodes
    decreases |acts|
  {
    if acts == [] then nodes else WholeRun(WholeStep(nodes, acts[0]), acts[1..])
  }

  /** Where each command takes effect: at its check if that answers no, at its loop otherwise. */
  ghost function Effects(w: World, acts: seq<Action>): seq<Whole>
    decreases |acts|
  {
    if acts == [] then []
    else
      (match acts[0]
       case Check(cmd, e) =>
         if w.pending.None? && Applies(cmd, e) && !ShouldMutate(cmd, w.nodes, e) then [Command(cmd, e)] else []
       case Assign => if w.pending.Some? then [Command(w.pending.value.cmd, w.pending.value.e)] else []
       case Other(change) => [Change(change)]) +
      Effects(Step(w, acts[0]), acts[1..])
  }

  /** Whatever comes between check and loop, and however often the loop is skipped, every run leaves what whole commands
      leave that take effect one at a time. */
  lemma {:induction false} SplitCommandsAreAtomic(w: World, acts: seq<Action>)
    ensures Run(w, acts).nodes == WholeRun(w.nodes, Effects(w, acts))
    decreases |acts|
  {
    if acts != [] {
      var a, v, rest := acts[0], Step(w, acts[0]), Effects(Step(w, acts[0]), acts[1..]);
      SplitCommandsAreAtomic(v, acts[1..]);
      match a
      case Check(cmd, e) =>
        if w.pending.None? && Applies(cmd, e) && !ShouldMutate(cmd, w.nodes, e) {
          ShouldMutateIff(cmd, w.nodes, e);
          FirstOf(w.nodes, Command(cmd, e), rest);
        } else {
          assert [] + rest == rest;
        }
      case Assign =>
        if w.pending.Some? {
          FirstOf(w.nodes, Command(w.pending.value.cmd, w.pending.value.e), rest);
        } else {
          assert [] + rest == rest;
        }
      case Other(change) => FirstOf(w.nodes, Change(change), rest);
    }
  }

  lemma FirstOf(nodes: Nodes, a: Whole, rest: seq<Whole>)
    ensures WholeRun(nodes, [a] + rest) == WholeRun(WholeStep(nodes, a), rest)
  {
    assert ([a] + rest)[1..] == rest;
  }

  // ---- Several commands in a row ----------------------------------------------------------------------------------

  datatype Order = Order(cmd: Command, e: Epoch)

  /** One command as executed: nothing when untimely, nothing when the check answers no. */
  ghost function Executed(nodes: Nodes, o: Order): Nodes {
    if Applies(o.cmd, o.e) && ShouldMutate(o.cmd, nodes, o.e) then AllAssigned(o.cmd, nodes, o.e) else nodes
  }

  ghost function AllExecuted(nodes: Nodes, orders: seq<Order>): Nodes {
    if orders == [] then nodes else Executed(AllExecuted(nodes, orders[..|orders| - 1]), orders[|orders| - 1])
  }

  predicate Timely(o: Order) {
    Applies(o.cmd, o.e)
  }

  /** The order sends the node to proof of compute. */
  predicate Sends(o: Order, n: Node) {
    Timely(o) && o.cmd != InferenceUpAll && Operational(n, o.e) && !ContinuesInference(n)
  }

  lemma ExecutedOne(nodes: Nodes, o: Order, id: NodeId)
    requires id in nodes
    ensures id in Executed(nodes, o)
    ensures Executed(nodes, o)[id] == if Timely(o) then Assigned(o.cmd, nodes[id], o.e) else nodes[id]
  {
    ShouldMutateIff(o.cmd, nodes, o.e);
  }

  /** Commands touch nothing but the two intended statuses. */
  lemma {:induction false} RestIsKept(nodes: Nodes, orders: seq<Order>, id: NodeId)
    requires id in nodes
    ensures var after := AllExecuted(nodes, orders);
            id in after && after[id].admin == nodes[id].admin && after[id].preserved == nodes[id].preserved
  {
    if orders != [] {
      var k := |orders| - 1;
      RestIsKept(nodes, orders[..k], id);
      ExecutedOne(AllExecuted(nodes, orders[..k]), orders[k], id);
    }
  }

  /** After any sequence of commands a node is meant for proof of compute exactly if the last timely one sends it there,
      whatever the commands before did or skipped. */
  lemma {:induction false} LastTimelyCommandDecides(nodes: Nodes, orders: seq<Order>, id: NodeId, i: nat)
    requires id in nodes && i < |orders| && Timely(orders[i])
    requires forall j :: i < j < |orders| ==> !Timely(orders[j])
    ensures id in AllExecuted(nodes, orders)
    ensures AllExecuted(nodes, orders)[id].intended == if Sends(orders[i], nodes[id]) then PoC else Inference
  {
    var k := |orders| - 1;
    RestIsKept(nodes, orders[..k], id);
    ExecutedOne(AllExecuted(nodes, orders[..k]), orders[k], id);
    if i < k {
      LastTimelyCommandDecides(nodes, orders[..k], id, i);
    }
  }

  /** Its sub-status is that of the last command that sent it there. */
  lemma {:induction false} LastSenderDecides(nodes: Nodes, orders: seq<Order>, id: NodeId, i: nat)
    requires id in nodes && i < |orders| && Sends(orders[i], nodes[id])
    requires forall j :: i < j < |orders| ==> !Sends(orders[j], nodes[id])
    ensures id in AllExecuted(nodes, orders)
    ensures AllExecuted(nodes, orders)[id].pocIntended == Target(orders[i].cmd)
  {
    var k := |orders| - 1;
    RestIsKept(nodes, orders[..k], id);
    ExecutedOne(AllExecuted(nodes, orders[..k]), orders[k], id);
    if i < k {
      LastSenderDecides(nodes, orders[..k], id, i);
    }
  }

  class Broker {
    var nodes: Nodes

    constructor (nodes: Nodes)
      ensures this.nodes == nodes
    {
      this.nodes := nodes;
    }

    method ShouldMutateState(cmd: Command, e: Epoch) returns (b: bool)
      ensures b <==> ShouldMutate(cmd, nodes, e)
    {
      var todo := nodes.Keys;
      while todo != {}
        invariant todo <= nodes.Keys
        invariant forall id :: id in nodes && id !in todo ==> !WantsChange(cmd, nodes[id], e)
        decreases todo
      {
        ghost var any := Member(todo);
        var id :| id in todo;
        todo := todo - {id};
        var n := nodes[id];
        if cmd == InferenceUpAll {
          if n.intended != Inference {
            return true;
          }
          continue;
        }
        if !Operational(n, e) && n.intended != Inference {
          return true;
        }
        if ContinuesInference(n) {
          if n.intended != Inference {
            return true;
          }
        } else if n.intended != PoC || n.pocIntended != Target(cmd) {
          return true;
        }
      }
      return false;
    }

    method AssignAll(cmd: Command, e: Epoch)
      modifies this
      ensures nodes == AllAssigned(cmd, old(nodes), e)
    {
      ghost var before := nodes;
      var todo := nodes.Keys;
      while todo != {}
        invariant todo <= nodes.Keys == before.Keys
        invariant forall id :: id in nodes ==>
                    nodes[id] == if id in todo then before[id] else Assigned(cmd, before[id], e)
        decreases todo
      {
        ghost var any := Member(todo);
        var id :| id in todo;
        todo := todo - {id};
        var n := nodes[id];
        if cmd == InferenceUpAll || !Operational(n, e) {
          n := n.(intended := Inference);
        } else if ContinuesInference(n) {
          n := n.(intended := Inference);
        } else {
          n := n.(intended := PoC);
          n := n.(pocIntended := Target(cmd));
        }
        nodes := nodes[id := n];
      }
    }

    /** Skipping the loop is invisible: a timely command always leaves what the loop would have left. Only the answer on
        the response channel tells whether the loop was entered. */
    method Execute(cmd: Command, e: Epoch) returns (responded: bool)
      modifies this
      ensures nodes == if Applies(cmd, e) then AllAssigned(cmd, old(nodes), e) else old(nodes)
      ensures responded <==> Applies(cmd, e) && ShouldMutate(cmd, old(nodes), e)
    {
      if !Applies(cmd, e) {
        return false;
      }
      ShouldMutateIff(cmd, nodes, e);
      var change := ShouldMutateState(cmd, e);
      if !change {
        return false;
      }
      AssignAll(cmd, e);
      return true;
    }
  }
}
