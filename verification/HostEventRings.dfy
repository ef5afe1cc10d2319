/** The bounded in-memory event log with its kind-filtered wake registry. */
module HostEventRings {
  import opened Common
  import opened HostEvents

  const DEFAULT_CAPACITY := 4096

  /** Buffer index of the i-th live event. */
  function Slot(start: nat, i: nat, capacity: nat): nat
    requires start < capacity && i <= capacity
  {
    Wrap(start + i, capacity)
  }

  function Predecessor(n: nat): nat {
    if n == 0 then 0 else n - 1
  }

  lemma SlotIsModulo(start: nat, i: nat, capacity: nat)
    requires start < capacity && i <= capacity
    ensures Slot(start, i, capacity) == (start + i) % capacity
  {
    WrapIsModulo(start + i, capacity);
  }

  /** The part of the log from `from` on that a scan up to position `to` has seen. */
  ghost function Scanned(log: seq<HostEvent>, from: nat, to: nat): seq<HostEvent>
    requires from <= |log| && to <= |log|
  {
    if to < from then [] else log[from..to]
  }

  lemma ScannedOneMore(log: seq<HostEvent>, from: nat, to: nat, kinds: set<int>)
    requires from <= |log| && to < |log|
    ensures Matching(Scanned(log, from, to + 1), kinds) ==
            Matching(Scanned(log, from, to), kinds) + if to >= from && log[to].kind in kinds then [log[to]] else []
  {
    if to >= from {
      assert Scanned(log, from, to + 1) == Scanned(log, from, to) + [log[to]];
    }
  }

  lemma ScannedAll(log: seq<HostEvent>, from: nat)
    requires from <= |log|
    ensures Scanned(log, from, |log|) == log[from..]
  {
  }

  /** One registered long-poll waiter. `open` is its wake channel: closing it twice would panic. */
  class Waiter {
    const kinds: set<int>
    ghost const since: nat
    var open: bool
    ghost var released: bool

    constructor (kinds: set<int>, ghost since: nat)
      ensures this.kinds == kinds && this.since == since && open && !released
    {
      this.kinds, this.since, open, released := kinds, since, true, false;
    }

    method Close()
      requires open
      modifies this`open
      ensures !open
    {
      open := false;
    }
  }

  class HostEventRing {
    const generation: nat
    const capacity: nat
    const buf: array<HostEvent>
    var start: nat
    var size: nat
    var nextSeq: nat
    var lastByKind: map<int, nat>
    var waiters: set<Waiter>

    ghost var log: seq<HostEvent>
    ghost var issued: set<Waiter>

    /** The buffer read from `start` is the newest part of the log. */
    ghost predicate Mirrors()
      reads this, buf
    {
      && 0 < capacity == buf.Length
      && start < capacity
      && size == (if |log| < capacity then |log| else capacity)
      && nextSeq == |log| + 1
      && forall i :: 0 <= i < size ==> buf[Slot(start, i, capacity)] == log[|log| - size + i]
    }

    /** The live events, oldest first. */
    ghost function Retained(): seq<HostEvent>
      requires Mirrors()
      reads this, buf
    {
      seq(size, i requires Mirrors() && 0 <= i < size reads this, buf => buf[Slot(start, i, capacity)])
    }

    lemma RetainedIsNewestPartOfLog()
      requires Valid()
      ensures Retained() == log[Evicted(log, capacity)..]
      ensures forall i :: 0 <= i < size ==> Retained()[i].seqNo == |log| - size + i + 1
    {
    }

    ghost predicate Valid()
      reads this, buf, issued
    {
      && Mirrors()
      && Contiguous(log)
      && waiters <= issued
      && (forall w :: w in issued ==> w.since <= |log|)
      && (forall w :: w in waiters ==> w.open && !w.released)
      && (forall w :: w in issued && !w.released ==>
            (w.open <==> w in waiters) && (w.open <==> !Woken(log, w.since, w.kinds)))
      && (forall w :: w in issued && !w.open ==> Woken(log, w.since, w.kinds))
    }

    constructor (capacity: int, generation: nat)
      ensures Valid() && fresh(buf)
      ensures log == [] && issued == {} && this.generation == generation
      ensures this.capacity == if capacity <= 0 then DEFAULT_CAPACITY else capacity
    {
      var c: nat := if capacity <= 0 then DEFAULT_CAPACITY else capacity;
      this.capacity, this.generation := c, generation;
      buf := new HostEvent[c](_ => HostEvent(0, 0, 0, None, None));
      start, size, nextSeq, lastByKind, waiters := 0, 0, 1, map[], {};
      log, issued := [], {};
    }

    /** The number of the newest event ever appended, 0 before the first. */
    method Head() returns (head: nat)
      requires Valid()
      ensures head == |log| && (log != [] ==> log[|log| - 1].seqNo == head)
    {
      head := Predecessor(nextSeq);
    }

    method Subscribe(kinds: set<int>) returns (w: Waiter)
      requires Valid()
      modifies this`waiters, this`issued
      ensures Valid() && fresh(w) && w.kinds == kinds && w.since == |log|
      ensures w.open && !w.released
      ensures issued == old(issued) + {w} && waiters == old(waiters) + {w}
    {
      w := new Waiter(kinds, |log|);
      waiters := waiters + {w};
      issued := issued + {w};
    }

    /** The release function handed out by Subscribe. */
    method Release(w: Waiter)
      requires Valid() && w in issued
      modifies this`waiters, w`released
      ensures Valid() && w.released && waiters == old(waiters) - {w}
    {
      waiters := waiters - {w};
      w.released := true;
    }

    /** Stores the event in the oldest slot once the ring is full. */
    method Store(ev: HostEvent)
      requires Mirrors() && ev.seqNo == nextSeq
      modifies this`start, this`size, this`nextSeq, this`lastByKind, this`log, buf
      ensures Mirrors() && log == old(log) + [ev]
      ensures lastByKind == old(lastByKind)[ev.kind := ev.seqNo]
    {
      nextSeq := nextSeq + 1;
      lastByKind := lastByKind[ev.kind := ev.seqNo];
      if size < capacity {
        buf[Slot(start, size, capacity)] := ev;
        size := size + 1;
      } else {
        buf[start] := ev;
        start := Slot(start, 1, capacity);
      }
      log := log + [ev];
      if |log| > capacity {
        forall i | 0 <= i < size
          ensures buf[Slot(start, i, capacity)] == log[|log| - size + i]
        {
          assert Slot(start, i, capacity) == Slot(old(start), if i + 1 < size then i + 1 else 0, capacity);
        }
      }
    }

    method Append(ev: HostEvent, clock: int) returns (stored: HostEvent)
      requires Valid()
      modifies this`start, this`size, this`nextSeq, this`lastByKind, this`waiters, this`log, buf, waiters`open
      ensures Valid() && issued == old(issued)
      ensures stored == ev.(seqNo := |old(log)| + 1,
                            observedAt := if ev.observedAt == 0 then clock else ev.observedAt)
      ensures log == old(log) + [stored]
      ensures lastByKind == old(lastByKind)[stored.kind := stored.seqNo]
      // Exactly the waiters subscribed to this kind are woken and deregistered.
      ensures forall w :: w in old(waiters) ==> (w.open <==> ev.kind !in w.kinds) && (w.open <==> w in waiters)
      ensures waiters <= old(waiters)
    {
      stored := ev;
      if stored.observedAt == 0 {
        stored := stored.(observedAt := clock);
      }
      stored := stored.(seqNo := nextSeq);
      Store(stored);

      var todo := waiters;
      while todo != {}
        invariant todo <= old(waiters) && waiters <= old(waiters)
        invariant forall w :: w in todo ==> w.open && w in waiters
        invariant forall w :: w in old(waiters) && w !in todo ==>
                    (w.open <==> ev.kind !in w.kinds) && (w.open <==> w in waiters)
        invariant forall w :: w in issued && w !in old(waiters) ==> w.open == old(w.open)
        modifies this`waiters, old(waiters)`open
        decreases todo
      {
        var w :| w in todo;
        if stored.kind in w.kinds {
          w.Close();
          waiters := waiters - {w};
        }
        todo := todo - {w};
      }
      forall w | w in issued
        ensures Woken(log, w.since, w.kinds) <==> old(Woken(log, w.since, w.kinds)) || stored.kind in w.kinds
      {
        WokenByAppend(old(log), stored, w.since, w.kinds);
      }
    }

    /** The i-th live event. */
    method At(i: nat) returns (ev: HostEvent)
      requires Mirrors() && i < size
      ensures ev == log[|log| - size + i]
    {
      ev := buf[Slot(start, i, capacity)];
    }

    /** One slot of the scan. */
    method Visit(events: seq<HostEvent>, i: nat, cursor: nat, kinds: set<int>, ghost from: nat)
      returns (more: seq<HostEvent>)
      requires Mirrors() && Contiguous(log) && i < size && cursor <= |log|
      requires from == if cursor < |log| - size then |log| - size else cursor
      requires events == Matching(Scanned(log, from, |log| - size + i), kinds)
      ensures more == Matching(Scanned(log, from, |log| - size + i + 1), kinds)
    {
      more := events;
      var ev := At(i);
      ScannedOneMore(log, from, |log| - size + i, kinds);
      if ev.seqNo > cursor {
        if ev.kind in kinds {
          more := more + [ev];
        }
      }
    }

    /** The scan over the live slots. */
    method Collect(cursor: nat, kinds: set<int>) returns (events: seq<HostEvent>)
      requires Mirrors() && Contiguous(log) && cursor <= |log|
      ensures events == Matching(log[if cursor < |log| - size then |log| - size else cursor..], kinds)
    {
      ghost var low := |log| - size;
      ghost var from := if cursor < low then low else cursor;
      events := [];
      for i := 0 to size
        invariant events == Matching(Scanned(log, from, low + i), kinds)
      {
        events := Visit(events, i, cursor, kinds, from);
      }
      ScannedAll(log, from);
    }

    /** The reader belongs to another boot, is ahead of the log, or has missed an evicted event. */
    method NeedsReset(cursor: nat, clientGeneration: nat, head: nat) returns (reset: bool)
      requires Valid() && head == |log|
      ensures reset <==> MustReset(log, capacity, generation, cursor, clientGeneration)
    {
      if clientGeneration != 0 && clientGeneration != generation {
        return true;
      }
      if cursor > head {
        return true;
      }
      if size > 0 {
        var oldest := At(0);
        return cursor > 0 && oldest.seqNo > cursor + 1;
      }
      return cursor > 0 && head == 0;
    }

    method Since(cursor: nat, clientGeneration: nat, kinds: set<int>) returns (r: SinceReply)
      requires Valid()
      ensures r == ReadSince(log, capacity, generation, cursor, clientGeneration, kinds)
    {
      var head := Head();
      r := SinceReply([], head, false, generation);
      var reset := NeedsReset(cursor, clientGeneration, head);
      if reset {
        return r.(reset := true);
      }
      if |kinds| == 0 {
        MatchingNone(log[if cursor < |log| - size then |log| - size else cursor..], kinds);
        return;
      }
      var events := Collect(cursor, kinds);
      r := r.(events := events);
    }
  }
}
