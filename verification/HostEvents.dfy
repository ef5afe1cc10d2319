/** Host events and what a bounded ring must show of the unbounded log of everything ever appended. */
module HostEvents {
  import opened Common

  datatype EscrowPayload = EscrowPayload(
    escrowId: nat, epochIndex: nat, modelId: string, creator: string, amount: string,
    settler: string, totalPayout: string, fees: string, remainder: string)

  datatype MaintenancePayload = MaintenancePayload(
    reservationId: nat, participant: string, startHeight: int, durationBlocks: nat, reason: string)

  datatype HostEvent = HostEvent(
    seqNo: nat, kind: int, observedAt: int,
    escrow: Option<EscrowPayload>, maintenance: Option<MaintenancePayload>)

  /** The answer to "what happened after my cursor". */
  datatype SinceReply = SinceReply(events: seq<HostEvent>, nextCursor: nat, reset: bool, generation: nat)

  /** Sequence numbers start at 1 and have no gaps. */
  ghost predicate Contiguous(log: seq<HostEvent>) {
    forall i :: 0 <= i < |log| ==> log[i].seqNo == i + 1
  }

  /** How many of the oldest events a ring of this capacity no longer holds. */
  function Evicted(log: seq<HostEvent>, capacity: nat): nat {
    if |log| <= capacity then 0 else |log| - capacity
  }

  /** The events of the given kinds, in order. */
  function Matching(events: seq<HostEvent>, kinds: set<int>): seq<HostEvent> {
    if events == [] then []
    else
      var last := events[|events| - 1];
      Matching(events[..|events| - 1], kinds) + if last.kind in kinds then [last] else []
  }

  /** A reader at `cursor` cannot be served from this ring: it belongs to another boot,
      it is ahead of the log, or an event it has not seen is gone. */
  predicate MustReset(log: seq<HostEvent>, capacity: nat, generation: nat, cursor: nat, clientGeneration: nat) {
    || (clientGeneration != 0 && clientGeneration != generation)
    || cursor > |log|
    || (cursor > 0 && cursor < Evicted(log, capacity))
  }

  /** What a read must return, stated on the unbounded log. Cursor 0 asks for whatever is retained. */
  function ReadSince(log: seq<HostEvent>, capacity: nat, generation: nat,
                     cursor: nat, clientGeneration: nat, kinds: set<int>): SinceReply
  {
    if MustReset(log, capacity, generation, cursor, clientGeneration) then
      SinceReply([], |log|, true, generation)
    else
      var from := if cursor < Evicted(log, capacity) then Evicted(log, capacity) else cursor;
      SinceReply(Matching(log[from..], kinds), |log|, false, generation)
  }

  /** An event of a subscribed kind was appended after the waiter registered at log length `since`. */
  ghost predicate Woken(log: seq<HostEvent>, since: nat, kinds: set<int>) {
    exists i :: since <= i < |log| && log[i].kind in kinds
  }

  lemma WokenByAppend(log: seq<HostEvent>, ev: HostEvent, since: nat, kinds: set<int>)
    requires since <= |log|
    ensures Woken(log + [ev], since, kinds) <==> Woken(log, since, kinds) || ev.kind in kinds
  {
    if Woken(log, since, kinds) {
      var i :| since <= i < |log| && log[i].kind in kinds;
      assert (log + [ev])[i] == log[i];
    }
    assert (log + [ev])[|log|] == ev;
  }

  lemma {:induction false} MatchingConcat(a: seq<HostEvent>, b: seq<HostEvent>, kinds: set<int>)
    ensures Matching(a + b, kinds) == Matching(a, kinds) + Matching(b, kinds)
    decreases |b|
  {
    if b == [] {
      assert a + b == a;
    } else {
      var front := b[..|b| - 1];
      assert (a + b)[..|a + b| - 1] == a + front;
      MatchingConcat(a, front, kinds);
    }
  }

  lemma {:induction false} MatchingNone(events: seq<HostEvent>, kinds: set<int>)
    ensures Matching(events, kinds) == [] <==> forall i :: 0 <= i < |events| ==> events[i].kind !in kinds
  {
    if events != [] {
      var front := events[..|events| - 1];
      MatchingNone(front, kinds);
      assert forall i :: 0 <= i < |front| ==> front[i] == events[i];
    }
  }

  /** Splitting a read at `mid` loses and repeats nothing. */
  lemma MatchingSplit(log: seq<HostEvent>, from: nat, mid: nat, to: nat, kinds: set<int>)
    requires from <= mid <= to <= |log|
    ensures Matching(log[from..to], kinds) == Matching(log[from..mid], kinds) + Matching(log[mid..to], kinds)
  {
    assert log[from..to] == log[from..mid] + log[mid..to];
    MatchingConcat(log[from..mid], log[mid..to], kinds);
  }

  /** The wake condition and "a read from there would return something" are the same thing. */
  lemma WokenIffMatching(log: seq<HostEvent>, since: nat, kinds: set<int>)
    requires since <= |log|
    ensures Woken(log, since, kinds) <==> Matching(log[since..], kinds) != []
  {
    MatchingNone(log[since..], kinds);
    forall i | since <= i < |log| ensures log[i] == log[since..][i - since] {
    }
  }
}
