/** Registering a node again under its id: the record and its generations start over while the worker of the earlier
    registration may still report. */
module NodeLives {
  import opened Common
  import opened NodeStatus
  import opened NodeReconcile

  /** A command of an earlier registration whose result is still to come: that worker is not stopped, and results name
      the node only by its id. */
  datatype Stale = Stale(target: Target, generation: nat)

  datatype Lives = Lives(now: World, stale: seq<Stale>)

  /** `Register` puts a new record and a new worker in place; `submits` says that a reconcile pass caught between
      dispatch and submission still reaches the old worker. */
  datatype LifeAction =
    | Inside(a: Action)
    | Register(submits: bool, pocParamsReady: bool)
    | DeliverStale(i: nat, r: NodeResult, persisted: bool)

  const REGISTERED := Node(Unknown, Unknown, Idle, Idle, None, 0, false, None, "")

  function StaleResults(s: seq<NodeResult>): seq<Stale> {
    seq(|s|, i requires 0 <= i < |s| => Stale(Target(s[i].originalTarget, s[i].originalPocTarget), s[i].generation))
  }

  function StaleItems(s: seq<Item>): seq<Stale> {
    seq(|s|, i requires 0 <= i < |s| => Stale(CommandTarget(s[i].cmd), s[i].generation))
  }

  function StaleRunning(r: Option<Running>): seq<Stale> {
    if r.None? then [] else StaleItems([r.value.item])
  }

  function StaleSubmission(r: Reconciler, submits: bool, pocParamsReady: bool): seq<Stale> {
    if r.Submitting? && submits && CommandFor(r.snapshot, pocParamsReady).Some?
    then [Stale(CommandTarget(CommandFor(r.snapshot, pocParamsReady).value), r.generation)] else []
  }

  /** A pass that was cancelling or submitting has nothing to do with the new record; a snapshot stays in its hand. */
  function Reborn(w: World): World {
    var r := w.reconciler;
    World(REGISTERED, if r.Cancelling? || r.Clearing? then Scanning else if r.Submitting? then Resting else r,
          [], None, [], {}, [], {}, [])
  }

  predicate IsResultOf(r: NodeResult, s: Stale) {
    Target(r.originalTarget, r.originalPocTarget) == s.target && r.generation == s.generation
  }

  function LifeStep(l: Lives, a: LifeAction): Lives {
    match a
    case Inside(b) => l.(now := Step(l.now, b))
    case Register(submits, ready) =>
      Lives(Reborn(l.now),
            l.stale + StaleResults(l.now.results) + StaleRunning(l.now.running) + StaleItems(l.now.queue) +
            StaleSubmission(l.now.reconciler, submits, ready))
    case DeliverStale(i, r, persisted) =>
      if i < |l.stale| && IsResultOf(r, l.stale[i])
      then Lives(l.now.(node := Finalize(l.now.node, r, persisted)), l.stale[..i] + l.stale[i + 1..])
      else l
  }

  function LifeRun(l: Lives, actions: seq<LifeAction>): Lives
    decreases |actions|
  {
    if actions == [] then l else LifeRun(LifeStep(l, actions[0]), actions[1..])
  }

  lemma FinalizeKeepsSafe(w: World, r: NodeResult, persisted: bool)
    requires Safe(w)
    ensures Safe(w.(node := Finalize(w.node, r, persisted)))
  {
    assert InFlight(w.(node := Finalize(w.node, r, persisted))) == InFlight(w);
  }

  lemma RebornIsSafe(w: World)
    ensures Safe(Reborn(w))
  {
    assert AppliedGens([]) + InFlight(Reborn(w)) == [];
  }

  lemma LifeStepKeepsSafe(l: Lives, a: LifeAction)
    requires Safe(l.now)
    ensures Safe(LifeStep(l, a).now)
  {
    match a
    case Inside(b) => StepKeepsSafe(l.now, b);
    case Register(_, _) => RebornIsSafe(l.now);
    case DeliverStale(_, r, persisted) => FinalizeKeepsSafe(l.now, r, persisted);
  }

  /** Registering again and stale results leave the protocol of the new record intact. */
  lemma {:induction false} LifeRunKeepsSafe(l: Lives, actions: seq<LifeAction>)
    requires Safe(l.now)
    ensures Safe(LifeRun(l, actions).now)
    decreases |actions|
  {
    if actions != [] {
      LifeStepKeepsSafe(l, actions[0]);
      LifeRunKeepsSafe(LifeStep(l, actions[0]), actions[1..]);
    }
  }

  lemma SafeAcceptsIff(w: World, r: NodeResult, s: Stale)
    requires Safe(w) && IsResultOf(r, s)
    ensures Accepts(w.node, r) <==>
            && w.node.info.Some? && 0 < |w.targets| == s.generation && Matches(w.targets[|w.targets| - 1], s.target)
  {
  }

  /** Generations restart with the registration, so over every run a result of an earlier registration is accepted if
      and only if the node has been dispatched exactly as often since as its old generation says, that dispatch is
      still recorded, and it recorded the target the old command had. */
  lemma StaleAcceptedIff(l: Lives, actions: seq<LifeAction>, i: nat, r: NodeResult)
    requires Start(l.now)
    requires i < |LifeRun(l, actions).stale| && IsResultOf(r, LifeRun(l, actions).stale[i])
    ensures var v := LifeRun(l, actions);
            Accepts(v.now.node, r) <==>
            && v.now.node.info.Some?
            && 0 < |v.now.targets| == v.stale[i].generation
            && Matches(v.now.targets[|v.now.targets| - 1], v.stale[i].target)
  {
    StartIsSafe(l.now);
    LifeRunKeepsSafe(l, actions);
    SafeAcceptsIff(LifeRun(l, actions).now, r, LifeRun(l, actions).stale[i]);
  }

  lemma LifeRunOne(l: Lives, a: LifeAction, rest: seq<LifeAction>)
    ensures LifeRun(l, [a] + rest) == LifeRun(LifeStep(l, a), rest)
  {
    assert ([a] + rest)[1..] == rest;
  }

  const FRESH := World(REGISTERED, Resting, [], None, [], {}, [], {}, [])

  /** A freshly registered node with its first InferenceUp dispatched and submitted. */
  const DISPATCHED :=
    World(REGISTERED.(intended := Inference, generation := 1, info := Some(ReconcileInfo(Target(Inference, Idle), 1))),
          Resting, [Item(InferenceUp, 1)], None, [], {}, [Target(Inference, Idle)], {}, [])

  function FirstPass(rest: seq<LifeAction>): seq<LifeAction> {
    [Inside(SetIntent(Inference, Idle))] + ([Inside(Collect)] + ([Inside(Scan(0))] + rest))
  }

  function Dispatching(rest: seq<LifeAction>): seq<LifeAction> {
    [Inside(Dispatch(0))] + ([Inside(Submit(true, true))] + rest)
  }

  lemma FirstPassRuns(l: Lives, rest: seq<LifeAction>)
    requires l.now == FRESH
    ensures var node := REGISTERED.(intended := Inference);
            LifeRun(l, FirstPass(rest)) ==
            LifeRun(Lives(FRESH.(node := node, reconciler := Holding(node)), l.stale), rest)
  {
    var l1 := LifeStep(l, Inside(SetIntent(Inference, Idle)));
    var l2 := LifeStep(l1, Inside(Collect));
    LifeRunOne(l, Inside(SetIntent(Inference, Idle)), [Inside(Collect)] + ([Inside(Scan(0))] + rest));
    LifeRunOne(l1, Inside(Collect), [Inside(Scan(0))] + rest);
    LifeRunOne(l2, Inside(Scan(0)), rest);
  }

  lemma DispatchingRuns(l: Lives, rest: seq<LifeAction>)
    requires var node := REGISTERED.(intended := Inference);
             l.now == FRESH.(node := node, reconciler := Holding(node))
    ensures LifeRun(l, Dispatching(rest)) == LifeRun(Lives(DISPATCHED, l.stale), rest)
  {
    var l1 := LifeStep(l, Inside(Dispatch(0)));
    assert l1.now.targets == [Target(Inference, Idle)];
    LifeRunOne(l, Inside(Dispatch(0)), [Inside(Submit(true, true))] + rest);
    LifeRunOne(l1, Inside(Submit(true, true)), rest);
    assert LifeStep(l1, Inside(Submit(true, true))) == Lives(DISPATCHED, l.stale);
  }

  lemma FirstDispatchRuns(l: Lives, rest: seq<LifeAction>)
    requires l.now == FRESH
    ensures LifeRun(l, FirstPass(Dispatching(rest))) == LifeRun(Lives(DISPATCHED, l.stale), rest)
  {
    FirstPassRuns(l, Dispatching(rest));
    var node := REGISTERED.(intended := Inference);
    DispatchingRuns(Lives(FRESH.(node := node, reconciler := Holding(node)), l.stale), rest);
  }

  /** It does happen: the node is dispatched, registered again and dispatched again before the first worker reports;
      that report is taken for the second dispatch, whose own command has not started. */
  lemma StaleResultIsAccepted(r: NodeResult) returns (actions: seq<LifeAction>)
    requires r.originalTarget == Inference && r.originalPocTarget == Idle && r.generation == 1
    ensures var v := LifeRun(Lives(FRESH, []), actions);
            && |v.stale| == 1 && IsResultOf(r, v.stale[0]) && Accepts(v.now.node, r)
            && v.now.queue == [Item(InferenceUp, 1)]
  {
    var again := [Register(false, true)] + FirstPass(Dispatching([]));
    actions := FirstPass(Dispatching(again));
    FirstDispatchRuns(Lives(FRESH, []), again);
    LifeRunOne(Lives(DISPATCHED, []), Register(false, true), FirstPass(Dispatching([])));
    var reborn := LifeStep(Lives(DISPATCHED, []), Register(false, true));
    assert reborn == Lives(FRESH, [Stale(Target(Inference, Idle), 1)]);
    FirstDispatchRuns(reborn, []);
  }
}
