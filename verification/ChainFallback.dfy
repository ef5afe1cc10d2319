/** Query routing between direct chain gRPC and CometBFT RPC, with a single-owner probe. */
module ChainFallback {
  import opened Common

  const CODE_CANCELED := 1
  const CODE_DEADLINE_EXCEEDED := 4
  const CODE_UNAVAILABLE := 14

  /** What the code can observe of an error: its gRPC status, if it carries one, and what it wraps. */
  datatype CallError = CallError(status: Option<int>, eof: bool, netClosed: bool, refused: bool,
                                 canceled: bool, deadlineExceeded: bool)

  datatype Verdict = GrpcAnswered | GrpcDown | NoVerdict

  predicate IsTransportDown(err: Option<CallError>) {
    match err
    case None => false
    case Some(e) => if e.status.Some? then e.status.value == CODE_UNAVAILABLE else e.eof || e.netClosed || e.refused
  }

  function ClassifyProbe(contextDone: bool, err: Option<CallError>): Verdict {
    if IsTransportDown(err) then GrpcDown
    else if err.None? then GrpcAnswered
    else if err.value.status in {Some(CODE_CANCELED), Some(CODE_DEADLINE_EXCEEDED)} then NoVerdict
    else if err.value.canceled || err.value.deadlineExceeded || contextDone then NoVerdict
    else GrpcAnswered
  }

  /** The fields guarded by the connection's mutex. */
  datatype Conn = Conn(usingRPC: bool, probing: bool, nextProbeAt: int)

  datatype Decision = UseRPC | UseDirect | UseDirectAsProbe

  function Route(c: Conn, now: int): (Conn, Decision) {
    if !c.usingRPC then (c, UseDirect)
    else if !c.probing && now >= c.nextProbeAt then (c.(probing := true), UseDirectAsProbe)
    else (c, UseRPC)
  }

  function EnterRPC(c: Conn, now: int, interval: nat): Conn {
    if c.usingRPC then c else c.(usingRPC := true, nextProbeAt := now + interval)
  }

  function EndProbe(c: Conn, verdict: Verdict, now: int, interval: nat): Conn {
    match verdict
    case GrpcAnswered => Conn(false, false, 0)
    case GrpcDown => c.(probing := false, nextProbeAt := now + interval)
    case NoVerdict => c.(probing := false)
  }

  class FallbackConn {
    const probeInterval: nat
    var usingRPC: bool
    var probing: bool
    var nextProbeAt: int

    function State(): Conn
      reads this
    {
      Conn(usingRPC, probing, nextProbeAt)
    }

    constructor (probeInterval: nat)
      ensures this.probeInterval == probeInterval && State() == Conn(false, false, 0)
    {
      this.probeInterval := probeInterval;
      usingRPC, probing, nextProbeAt := false, false, 0;
    }

    method RouteNext(now: int) returns (useRPC: bool, probe: bool)
      modifies this
      ensures State() == Route(old(State()), now).0
      ensures useRPC <==> Route(old(State()), now).1 == UseRPC
      ensures probe <==> Route(old(State()), now).1 == UseDirectAsProbe
    {
      if !usingRPC {
        return false, false;
      }
      if !probing && !(now < nextProbeAt) {
        probing := true;
        return false, true;
      }
      return true, false;
    }

    method Enter(now: int) returns (transition: bool)
      modifies this
      ensures State() == EnterRPC(old(State()), now, probeInterval)
      ensures transition <==> !old(usingRPC)
    {
      if usingRPC {
        return false;
      }
      usingRPC := true;
      nextProbeAt := now + probeInterval;
      return true;
    }

    method ProbeSucceeded()
      modifies this
      ensures State() == EndProbe(old(State()), GrpcAnswered, 0, probeInterval)
    {
      usingRPC, probing, nextProbeAt := false, false, 0;
    }

    method ProbeFailed(now: int)
      modifies this
      ensures State() == EndProbe(old(State()), GrpcDown, now, probeInterval)
    {
      probing := false;
      nextProbeAt := now + probeInterval;
    }

    method ProbeNoVerdict()
      modifies this
      ensures State() == EndProbe(old(State()), NoVerdict, 0, probeInterval)
    {
      probing := false;
    }
  }

  /** What an observer with a clock would write down about the transport. */
  datatype Event =
    | Switched(at: int)
    | ProbeStarted(at: int)
    | ProbeFailed(at: int)
    | ProbeInconclusive(at: int)
    | Recovered(at: int)

  datatype Call = OnRPC | OnDirect | Probing

  /** Any number of concurrent invocations, identified by number. */
  datatype World = World(interval: nat, clock: int, conn: Conn, calls: map<nat, Call>, trace: seq<Event>)

  /** A begun invocation asks for a route; a finished one reports what its transport returned. */
  datatype Action =
    | Begin(call: nat, now: int)
    | Finish(call: nat, now: int, err: Option<CallError>, contextDone: bool)

  /** What the end of a probe is written down as. */
  function ProbeEnd(a: Action): Event
    requires a.Finish?
  {
    match ClassifyProbe(a.contextDone, a.err)
    case GrpcAnswered => Recovered(a.now)
    case GrpcDown => ProbeFailed(a.now)
    case NoVerdict => ProbeInconclusive(a.now)
  }

  predicate Enabled(w: World, a: Action) {
    w.clock <= a.now && (if a.Begin? then a.call !in w.calls else a.call in w.calls)
  }

  function Step(w: World, a: Action): World {
    if !Enabled(w, a) then w
    else
      var w := w.(clock := a.now);
      match a
      case Begin(id, now) =>
        var (conn, decision) := Route(w.conn, now);
        match decision {
          case UseRPC => w.(calls := w.calls[id := OnRPC])
          case UseDirect => w.(calls := w.calls[id := OnDirect])
          case UseDirectAsProbe =>
            w.(conn := conn, calls := w.calls[id := Probing], trace := w.trace + [ProbeStarted(now)])
        }
      case Finish(id, now, err, contextDone) =>
        match w.calls[id] {
          case OnRPC => w.(calls := w.calls - {id})
          case OnDirect =>
            if !IsTransportDown(err) then w.(calls := w.calls - {id})
            else w.(conn := EnterRPC(w.conn, now, w.interval), calls := w.calls[id := OnRPC],
                    trace := if w.conn.usingRPC then w.trace else w.trace + [Switched(now)])
          case Probing =>
            var verdict := ClassifyProbe(contextDone, err);
            w.(conn := EndProbe(w.conn, verdict, now, w.interval),
               calls := if verdict.GrpcDown? then w.calls[id := OnRPC] else w.calls - {id},
               trace := w.trace + [ProbeEnd(a)])
        }
  }

  function Run(w: World, actions: seq<Action>): World
    decreases |actions|
  {
    if actions == [] then w else Run(Step(w, actions[0]), actions[1..])
  }

  // Three readings of the trace. None of them knows about the connection's fields.

  predicate TraceOnRPC(trace: seq<Event>) {
    trace != [] &&
    var last := trace[|trace| - 1];
    if last.Switched? then true else if last.Recovered? then false else TraceOnRPC(trace[..|trace| - 1])
  }

  predicate TraceProbing(trace: seq<Event>) {
    trace != [] &&
    var last := trace[|trace| - 1];
    if last.ProbeStarted? then true
    else if last.Switched? then TraceProbing(trace[..|trace| - 1])
    else false
  }

  /** The time of the latest switch or failed probe. */
  function TraceLastDown(trace: seq<Event>): int {
    if trace == [] then 0
    else
      var last := trace[|trace| - 1];
      if last.Switched? || last.ProbeFailed? then last.at else TraceLastDown(trace[..|trace| - 1])
  }

  function Owners(w: World): set<nat> {
    set id | id in w.calls && w.calls[id] == Probing
  }

  /** The fields are what the trace says they are, and the probe has exactly one owner. */
  ghost predicate Agrees(w: World) {
    && w.conn.usingRPC == TraceOnRPC(w.trace)
    && w.conn.probing == TraceProbing(w.trace)
    && (w.conn.usingRPC ==> w.conn.nextProbeAt == TraceLastDown(w.trace) + w.interval)
    && (w.conn.probing ==> w.conn.usingRPC && exists id :: Owners(w) == {id})
    && (!w.conn.probing ==> Owners(w) == {})
    && (forall e :: e in w.trace ==> e.at <= w.clock)
  }

  /** In a well-behaved trace a probe starts only on RPC, never beside another one and never sooner than
      the interval after any earlier switch or failure; every probe end ends a running probe; the mode is
      left only through a recovery, which is itself the end of a probe. */
  ghost predicate Disciplined(trace: seq<Event>, interval: nat) {
    forall j :: 0 <= j < |trace| ==>
      var before := trace[..j];
      match trace[j]
      case Switched(_) => !TraceOnRPC(before)
      case ProbeStarted(at) =>
        && TraceOnRPC(before) && !TraceProbing(before)
        && forall i :: 0 <= i < j && (trace[i].Switched? || trace[i].ProbeFailed?) ==> trace[i].at + interval <= at
      case _ => TraceOnRPC(before) && TraceProbing(before)
  }

  ghost predicate Ordered(trace: seq<Event>) {
    forall i, j :: 0 <= i <= j < |trace| ==> trace[i].at <= trace[j].at
  }

  ghost predicate Good(w: World) {
    Agrees(w) && Ordered(w.trace) && Disciplined(w.trace, w.interval)
  }

  lemma {:induction false} DownEventsAreOld(trace: seq<Event>, k: nat)
    requires k < |trace| && (trace[k].Switched? || trace[k].ProbeFailed?) && Ordered(trace)
    ensures trace[k].at <= TraceLastDown(trace)
  {
    var front := trace[..|trace| - 1];
    if k < |front| {
      assert trace[k] == front[k];
      DownEventsAreOld(front, k);
    }
  }

  lemma ReadExtended(trace: seq<Event>, e: Event)
    ensures var t := trace + [e];
            && TraceOnRPC(t) == (if e.Switched? then true else if e.Recovered? then false else TraceOnRPC(trace))
            && TraceProbing(t) == (if e.ProbeStarted? then true else if e.Switched? then TraceProbing(trace) else false)
            && TraceLastDown(t) == (if e.Switched? || e.ProbeFailed? then e.at else TraceLastDown(trace))
  {
    assert (trace + [e])[..|trace|] == trace;
  }

  /** The event may come next: the connection's fields allow it. */
  predicate MayFollow(w: World, e: Event) {
    && w.clock <= e.at
    && match e
       case Switched(_) => !w.conn.usingRPC
       case ProbeStarted(at) => w.conn.usingRPC && !w.conn.probing && w.conn.nextProbeAt <= at
       case _ => w.conn.probing
  }

  lemma ExtendTrace(w: World, e: Event)
    requires Good(w) && MayFollow(w, e)
    ensures Ordered(w.trace + [e]) && Disciplined(w.trace + [e], w.interval)
  {
    var t := w.trace + [e];
    assert t[..|w.trace|] == w.trace;
    forall j | 0 <= j < |w.trace| ensures t[..j] == w.trace[..j] {
    }
    if e.ProbeStarted? {
      forall i | 0 <= i < |w.trace| && (t[i].Switched? || t[i].ProbeFailed?)
        ensures t[i].at + w.interval <= e.at
      {
        DownEventsAreOld(w.trace, i);
      }
    }
    forall i, j | 0 <= i <= j < |t| ensures t[i].at <= t[j].at {
      assert i < |w.trace| ==> w.trace[i] in w.trace;
    }
  }

  lemma ExtendedIsGood(w: World, e: Event, w': World)
    requires Good(w) && MayFollow(w, e)
    requires Agrees(w') && w'.trace == w.trace + [e] && w'.interval == w.interval
    ensures Good(w')
  {
    ExtendTrace(w, e);
  }

  /** A step that writes nothing down and moves no probe. */
  lemma SameTraceIsGood(w: World, w': World)
    requires Good(w) && w'.trace == w.trace && w'.interval == w.interval && w'.conn == w.conn && w.clock <= w'.clock
    requires Owners(w') == Owners(w)
    ensures Good(w')
  {
  }

  lemma OwnersAfterPut(w: World, id: nat, call: Call)
    ensures Owners(w.(calls := w.calls[id := call])) == Owners(w) - {id} + (if call == Probing then {id} else {})
    ensures Owners(w.(calls := w.calls - {id})) == Owners(w) - {id}
  {
  }

  lemma BeginProbeAgrees(w: World, a: Action)
    requires Good(w) && a.Begin? && Enabled(w, a) && Route(w.conn, a.now).1.UseDirectAsProbe?
    ensures Agrees(Step(w, a)) && MayFollow(w, ProbeStarted(a.now))
  {
    var w' := Step(w, a);
    OwnersAfterPut(w, a.call, Probing);
    assert Owners(w') == Owners(w.(calls := w'.calls)) == {a.call};
    ReadExtended(w.trace, ProbeStarted(a.now));
  }

  lemma BeginKeepsGood(w: World, a: Action)
    requires Good(w) && a.Begin? && Enabled(w, a)
    ensures Good(Step(w, a))
  {
    var w' := Step(w, a);
    if Route(w.conn, a.now).1.UseDirectAsProbe? {
      BeginProbeAgrees(w, a);
      ExtendedIsGood(w, ProbeStarted(a.now), w');
    } else {
      OwnersAfterPut(w, a.call, w'.calls[a.call]);
      assert Owners(w') == Owners(w.(calls := w'.calls)) == Owners(w);
      SameTraceIsGood(w, w');
    }
  }

  lemma FinishProbeAgrees(w: World, a: Action)
    requires Good(w) && a.Finish? && Enabled(w, a) && w.calls[a.call] == Probing
    ensures Step(w, a).trace == w.trace + [ProbeEnd(a)]
    ensures Agrees(Step(w, a)) && MayFollow(w, ProbeEnd(a))
  {
    var w' := Step(w, a);
    assert a.call in Owners(w);
    OwnersAfterPut(w, a.call, OnRPC);
    assert Owners(w') == Owners(w.(calls := w'.calls)) == {};
    ReadExtended(w.trace, ProbeEnd(a));
  }

  lemma FinishProbeKeepsGood(w: World, a: Action)
    requires Good(w) && a.Finish? && Enabled(w, a) && w.calls[a.call] == Probing
    ensures Good(Step(w, a))
  {
    FinishProbeAgrees(w, a);
    ExtendedIsGood(w, ProbeEnd(a), Step(w, a));
  }

  lemma FinishPlainOwners(w: World, a: Action)
    requires a.Finish? && Enabled(w, a) && w.calls[a.call] != Probing
    ensures Owners(Step(w, a)) == Owners(w)
  {
    var w' := Step(w, a);
    assert a.call !in Owners(w);
    OwnersAfterPut(w, a.call, OnRPC);
    assert Owners(w') == Owners(w.(calls := w'.calls));
  }

  /** The first direct call that fails since the last recovery is the switch. */
  lemma SwitchAgrees(w: World, a: Action)
    requires Good(w) && a.Finish? && Enabled(w, a) && w.calls[a.call] == OnDirect && IsTransportDown(a.err)
    requires !w.conn.usingRPC
    ensures Step(w, a).trace == w.trace + [Switched(a.now)]
    ensures Agrees(Step(w, a)) && MayFollow(w, Switched(a.now))
  {
    FinishPlainOwners(w, a);
    ReadExtended(w.trace, Switched(a.now));
  }

  lemma FinishPlainKeepsGood(w: World, a: Action)
    requires Good(w) && a.Finish? && Enabled(w, a) && w.calls[a.call] != Probing
    ensures Good(Step(w, a))
  {
    if w.calls[a.call] == OnDirect && IsTransportDown(a.err) && !w.conn.usingRPC {
      SwitchAgrees(w, a);
      ExtendedIsGood(w, Switched(a.now), Step(w, a));
    } else {
      FinishPlainOwners(w, a);
      SameTraceIsGood(w, Step(w, a));
    }
  }

  /** Every interleaving of concurrent invocations leaves a disciplined trace that determines the
      connection's fields, with at most one call owning the probe. */
  lemma {:induction false} EveryRunIsDisciplined(w: World, actions: seq<Action>)
    requires Good(w)
    ensures Good(Run(w, actions))
    decreases |actions|
  {
    if actions != [] {
      var a := actions[0];
      if Enabled(w, a) {
        if a.Begin? {
          BeginKeepsGood(w, a);
        } else if w.calls[a.call] == Probing {
          FinishProbeKeepsGood(w, a);
        } else {
          FinishPlainKeepsGood(w, a);
        }
      }
      EveryRunIsDisciplined(Step(w, a), actions[1..]);
    }
  }

  lemma FreshConnIsGood(w: World)
    requires w.conn == Conn(false, false, 0) && w.calls == map[] && w.trace == []
    ensures Good(w)
  {
  }

  /** A probe is handed out exactly when the interval since the last switch or failed probe has passed and
      no probe is running; an inconclusive probe leaves that moment where it was. */
  lemma ProbeIffDue(w: World, id: nat, now: int)
    requires Good(w) && Enabled(w, Begin(id, now))
    ensures Step(w, Begin(id, now)).calls[id] == Probing <==>
            && TraceOnRPC(w.trace) && !TraceProbing(w.trace)
            && TraceLastDown(w.trace) + w.interval <= now
    ensures TraceLastDown(w.trace + [ProbeInconclusive(now)]) == TraceLastDown(w.trace)
    ensures TraceOnRPC(w.trace + [ProbeInconclusive(now)]) == TraceOnRPC(w.trace)
  {
    ReadExtended(w.trace, ProbeInconclusive(now));
  }
}
