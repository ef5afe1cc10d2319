/** The subscribe, read, wait protocol between one host-events client and the server, run against
    every interleaving of appends, wake-ups, timer expiries and server restarts. Reads never change
    the ring, so other clients only add appends between the steps shown here. */
module HostEventPoll {
  import opened Common
  import opened HostEvents

  /** Where the request in flight stands. `since` is the log length at registration of its waiter,
      `readAt` the log length at its first read. */
  datatype Request =
    | Idle
    | Immediate
    | Registered(since: nat)
    | Blocked(since: nat, readAt: nat)
    | Expired(since: nat, readAt: nat)

  /** `dropped` counts subscribed events that a reply skipped past without delivering them. */
  datatype Client = Client(
    kinds: set<int>, start: nat, cursor: nat, generation: nat,
    received: seq<HostEvent>, dropped: nat, mustRehydrate: bool, request: Request)

  /** `logs` holds what each boot appended; the running boot is `generation`. */
  datatype World = World(generation: nat, capacity: nat, logs: map<nat, seq<HostEvent>>, client: Client)

  datatype Action =
    | Append(ev: HostEvent)
    | Restart(bootNonce: nat)
    | Issue(longPoll: bool)
    | Read
    | Wake
    | TimerFires
    | ReRead
    | Disconnect

  ghost predicate WellFormed(w: World) {
    && w.generation in w.logs && w.generation != 0 && 0 < w.capacity
  }

  function Log(w: World): seq<HostEvent>
    requires w.generation in w.logs
  {
    w.logs[w.generation]
  }

  /** The wake channel of the request in flight has been closed. */
  ghost predicate ChannelClosed(w: World)
    requires WellFormed(w) && (w.client.request.Blocked? || w.client.request.Expired?)
  {
    Woken(Log(w), w.client.request.since, w.client.kinds)
  }

  function ClientRead(w: World): SinceReply
    requires w.generation in w.logs
  {
    ReadSince(Log(w), w.capacity, w.generation, w.client.cursor, w.client.generation, w.client.kinds)
  }

  /** The client takes a reply: the cursor and generation are fed back, a reset ends the session. */
  function Take(c: Client, reply: SinceReply, delivered: seq<HostEvent>): Client
    requires |delivered| <= |reply.events|
  {
    if reply.reset then c.(mustRehydrate := true, request := Idle)
    else c.(cursor := reply.nextCursor, generation := reply.generation,
            received := c.received + delivered,
            dropped := c.dropped + |reply.events| - |delivered|, request := Idle)
  }

  ghost function Step(w: World, a: Action): World
    requires WellFormed(w)
  {
    var c := w.client;
    var log := Log(w);
    match a
    case Append(ev) =>
      w.(logs := w.logs[w.generation := log + [ev.(seqNo := |log| + 1)]])
    case Restart(g) =>
      if g in w.logs || g == 0 then w
      else w.(generation := g, logs := w.logs[g := []], client := c.(request := Idle))
    case Issue(longPoll) =>
      if !c.request.Idle? || c.mustRehydrate then w
      else w.(client := c.(request := if longPoll then Registered(|log|) else Immediate))
    case Read =>
      if !c.request.Registered? && !c.request.Immediate? then w
      else
        var reply := ClientRead(w);
        if reply.reset || reply.events != [] || c.request.Immediate? then
          w.(client := Take(c, reply, reply.events))
        else w.(client := c.(request := Blocked(c.request.since, |log|)))
    case Wake =>
      if c.request.Blocked? && ChannelClosed(w) then w.(client := c.(request := Registered(|log|))) else w
    case TimerFires =>
      if c.request.Blocked? then w.(client := c.(request := Expired(c.request.since, c.request.readAt))) else w
    case ReRead =>
      // The timed-out reply carries no events but still the advanced cursor.
      if c.request.Expired? then w.(client := Take(c, ClientRead(w), [])) else w
    case Disconnect =>
      w.(client := c.(request := Idle))
  }

  ghost function Run(w: World, actions: seq<Action>): (r: World)
    requires WellFormed(w)
    ensures WellFormed(r)
    decreases |actions|
  {
    if actions == [] then w else Run(Step(w, actions[0]), actions[1..])
  }

  /** A session starts from a cursor and generation taken from some earlier reply. */
  ghost predicate Start(w: World) {
    && WellFormed(w)
    && var c := w.client;
       && c.generation in w.logs && c.generation != 0
       && 0 < c.start == c.cursor <= |w.logs[c.generation]|
       && c.received == [] && c.dropped == 0 && !c.mustRehydrate && c.request == Idle
  }

  /** Every subscribed event between the session's start and its cursor. */
  function Due(w: World): seq<HostEvent>
    requires w.client.generation in w.logs
    requires w.client.start <= w.client.cursor <= |w.logs[w.client.generation]|
  {
    Matching(w.logs[w.client.generation][w.client.start..w.client.cursor], w.client.kinds)
  }

  ghost predicate Sound(w: World) {
    && WellFormed(w)
    && var c := w.client;
       && c.generation in w.logs && c.generation != 0
       && 0 < c.start <= c.cursor <= |w.logs[c.generation]|
       && |c.received| + c.dropped == |Due(w)|
       && (c.dropped == 0 ==> c.received == Due(w))
       && (!c.request.Idle? && !c.request.Immediate? && c.generation == w.generation ==>
             c.cursor <= c.request.since <= |Log(w)|)
       && (c.request.Blocked? || c.request.Expired? ==>
             && c.generation == w.generation
             && c.request.since <= c.request.readAt <= |Log(w)|
             && Matching(Log(w)[c.cursor..c.request.readAt], c.kinds) == [])
  }

  /** Between the first read and now, "something is due" and "the channel was closed" agree. */
  lemma ClosedIffDue(w: World)
    requires Sound(w) && (w.client.request.Blocked? || w.client.request.Expired?)
    ensures ChannelClosed(w) <==> Matching(Log(w)[w.client.cursor..], w.client.kinds) != []
  {
    var c, log := w.client, Log(w);
    WokenIffMatching(log, c.request.since, c.kinds);
    MatchingSplit(log, c.cursor, c.request.since, c.request.readAt, c.kinds);
    MatchingSplit(log, c.cursor, c.request.readAt, |log|, c.kinds);
    MatchingSplit(log, c.request.since, c.request.readAt, |log|, c.kinds);
    assert log[c.cursor..] == log[c.cursor..|log|] && log[c.request.since..] == log[c.request.since..|log|];
  }

  /** A read that does not reset returns everything due after the cursor. */
  lemma ReadIsComplete(w: World)
    requires Sound(w) && !ClientRead(w).reset
    ensures w.client.generation == w.generation
    ensures ClientRead(w).events == Matching(Log(w)[w.client.cursor..], w.client.kinds)
    ensures ClientRead(w).nextCursor == |Log(w)|
  {
  }

  lemma TakeKeepsSound(w: World, delivered: seq<HostEvent>)
    requires Sound(w)
    requires delivered == ClientRead(w).events || delivered == []
    ensures Sound(w.(client := Take(w.client, ClientRead(w), delivered)))
  {
    var c, reply := w.client, ClientRead(w);
    if !reply.reset {
      ReadIsComplete(w);
      MatchingSplit(Log(w), c.start, c.cursor, |Log(w)|, c.kinds);
      assert Log(w)[c.cursor..] == Log(w)[c.cursor..|Log(w)|];
    }
  }

  lemma AppendKeepsSound(w: World, ev: HostEvent)
    requires Sound(w)
    ensures Sound(Step(w, Append(ev)))
  {
    var c, log, w' := w.client, Log(w), Step(w, Append(ev));
    if c.generation == w.generation {
      assert w'.logs[c.generation][c.start..c.cursor] == log[c.start..c.cursor];
    }
    if c.request.Blocked? || c.request.Expired? {
      assert Log(w')[c.cursor..c.request.readAt] == log[c.cursor..c.request.readAt];
    }
  }

  lemma ReadKeepsSound(w: World)
    requires Sound(w)
    ensures Sound(Step(w, Read))
  {
    var c, log := w.client, Log(w);
    TakeKeepsSound(w, ClientRead(w).events);
    if c.request.Registered? && !ClientRead(w).reset && ClientRead(w).events == [] {
      ReadIsComplete(w);
      assert log[c.cursor..] == log[c.cursor..|log|];
    }
  }

  lemma StepKeepsSound(w: World, a: Action)
    requires Sound(w)
    ensures Sound(Step(w, a))
  {
    match a
    case Append(ev) => AppendKeepsSound(w, ev);
    case Read => ReadKeepsSound(w);
    case ReRead => TakeKeepsSound(w, []);
    case _ =>
  }

  lemma {:induction false} RunKeepsSound(w: World, actions: seq<Action>)
    requires Sound(w)
    ensures Sound(Run(w, actions))
    decreases |actions|
  {
    if actions != [] {
      StepKeepsSound(w, actions[0]);
      RunKeepsSound(Step(w, actions[0]), actions[1..]);
    }
  }

  /** A timed-out request reads again although its wake channel was already closed, and the reply does not reset. */
  ghost predicate LateReRead(w: World, a: Action)
    requires WellFormed(w)
  {
    a == ReRead && w.client.request.Expired? && ChannelClosed(w) && !ClientRead(w).reset
  }

  /** The only step that drops events is the re-read after a timeout, and it does so exactly when the
      wake channel was already closed and the reply does not ask for a reset. */
  lemma DropsIffLateWake(w: World, a: Action)
    requires Sound(w)
    ensures Step(w, a).client.dropped != w.client.dropped <==>
            LateReRead(w, a)
  {
    if a == ReRead && w.client.request.Expired? {
      ClosedIffDue(w);
      if !ClientRead(w).reset {
        ReadIsComplete(w);
      }
    }
  }

  /** No step of the run is a late re-read. */
  ghost predicate NeverLate(w: World, actions: seq<Action>)
    requires WellFormed(w)
    decreases |actions|
  {
    actions == [] || (!LateReRead(w, actions[0]) && NeverLate(Step(w, actions[0]), actions[1..]))
  }

  lemma {:induction false} DropsOnlyGrow(w: World, actions: seq<Action>)
    requires Sound(w)
    ensures Run(w, actions).client.dropped >= w.client.dropped
    ensures Run(w, actions).client.dropped == w.client.dropped <==> NeverLate(w, actions)
    decreases |actions|
  {
    if actions != [] {
      StepKeepsSound(w, actions[0]);
      DropsIffLateWake(w, actions[0]);
      DropsOnlyGrow(Step(w, actions[0]), actions[1..]);
    }
  }

  lemma StartIsSound(w: World)
    requires Start(w)
    ensures Sound(w)
  {
    assert w.logs[w.client.generation][w.client.start..w.client.cursor] == [];
  }

  /** For every run, the client has received exactly the subscribed events after its start, in order and
      once each, if and only if no timed-out request read again with its channel already closed. */
  lemma ExactDelivery(w: World, actions: seq<Action>)
    requires Start(w)
    ensures var r := Run(w, actions);
            && Sound(r)
            && (r.client.received == Due(r) <==> NeverLate(w, actions))
  {
    StartIsSound(w);
    RunKeepsSound(w, actions);
    DropsOnlyGrow(w, actions);
  }

  /** No wake-up is lost: a client blocked on an open channel has no subscribed event beyond its cursor. */
  lemma NoLostWakeUp(w: World, actions: seq<Action>)
    requires Start(w)
    ensures var r := Run(w, actions);
            && WellFormed(r)
            && (r.client.request.Blocked? && !ChannelClosed(r) ==>
                  && r.client.generation == r.generation
                  && r.client.cursor <= |Log(r)|
                  && forall i :: r.client.cursor <= i < |Log(r)| ==> Log(r)[i].kind !in r.client.kinds)
  {
    ExactDelivery(w, actions);
    var r := Run(w, actions);
    var c, log := r.client, Log(r);
    if c.request.Blocked? && !ChannelClosed(r) {
      ClosedIffDue(r);
      MatchingNone(log[c.cursor..], c.kinds);
      forall i | c.cursor <= i < |log| ensures log[i].kind !in c.kinds {
        assert log[c.cursor..][i - c.cursor] == log[i];
      }
    }
  }

  /** Exact delivery does fail: an event appended between the timer and the re-read is skipped. */
  lemma LateEventIsDropped(w: World, ev: HostEvent)
    requires Start(w) && w.client.generation == w.generation
    requires w.client.cursor == |Log(w)| && ev.kind in w.client.kinds
    ensures var r := Run(w, [Issue(true), Read, TimerFires, Append(ev), ReRead]);
            && Sound(r) && r.client.dropped == 1 && !r.client.mustRehydrate && r.client.received != Due(r)
  {
    var acts := [Issue(true), Read, TimerFires, Append(ev), ReRead];
    var w1 := Step(w, Issue(true));
    var w2 := Step(w1, Read);
    var w3 := Step(w2, TimerFires);
    var w4 := Step(w3, Append(ev));
    var w5 := Step(w4, ReRead);
    assert Log(w)[w.client.cursor..] == [];
    assert w2.client.request == Blocked(|Log(w)|, |Log(w)|);
    assert Log(w4)[w4.client.cursor..] == [ev.(seqNo := |Log(w)| + 1)];
    assert acts[1..] == [Read, TimerFires, Append(ev), ReRead];
    assert acts[1..][1..] == [TimerFires, Append(ev), ReRead];
    assert acts[1..][1..][1..] == [Append(ev), ReRead];
    assert acts[1..][1..][1..][1..] == [ReRead];
    assert acts[1..][1..][1..][1..][1..] == [];
    assert Run(w4, [ReRead]) == Run(w5, []) == w5;
    assert Run(w2, [TimerFires, Append(ev), ReRead]) == Run(w3, [Append(ev), ReRead]) == w5;
    ExactDelivery(w, acts);
  }

  /** A reader that starts at cursor 0 is never told about a gap, and misses an event if and only if a
      subscribed one was already evicted. */
  lemma ColdReadMissesOnlyEvicted(log: seq<HostEvent>, capacity: nat, generation: nat, kinds: set<int>)
    ensures var r := ReadSince(log, capacity, generation, 0, 0, kinds);
            && !r.reset
            && (r.events == Matching(log, kinds) <==>
                  forall i :: 0 <= i < Evicted(log, capacity) ==> log[i].kind !in kinds)
  {
    var e := Evicted(log, capacity);
    assert log == log[..e] + log[e..];
    MatchingConcat(log[..e], log[e..], kinds);
    MatchingNone(log[..e], kinds);
    assert Matching(log, kinds) == Matching(log[e..], kinds) ==> |Matching(log[..e], kinds)| == 0;
  }

  /** For a matching generation and a cursor above 0, a read resets exactly when the cursor is ahead of
      the log or an event after it has been evicted. */
  lemma ResetIffAheadOrGap(log: seq<HostEvent>, capacity: nat, generation: nat, cursor: nat, kinds: set<int>)
    requires Contiguous(log) && 0 < cursor
    ensures ReadSince(log, capacity, generation, cursor, generation, kinds).reset <==>
            || (forall i :: 0 <= i < |log| ==> log[i].seqNo < cursor)
            || (exists i :: 0 <= i < Evicted(log, capacity) && log[i].seqNo > cursor)
  {
    var e := Evicted(log, capacity);
    if cursor < e {
      assert log[e - 1].seqNo > cursor;
    }
    if cursor <= |log| {
      assert log[cursor - 1].seqNo == cursor;
    }
  }
}
