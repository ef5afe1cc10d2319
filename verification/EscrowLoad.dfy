/** The per-escrow acquire counter: one decayed number per escrow stands in for the whole list of acquire times.
    The decay is any function that is 1 at age 0 and turns sums of ages into products, as exp(-age / window) does. */
module EscrowLoad {
  import opened Common

  // ---- Decay ----------------------------------------------------------------------------------------------------

  ghost predicate Splits(d: int -> real, a: int, b: int) {
    d(a + b) == d(a) * d(b)
  }

  ghost predicate IsDecay(d: int -> real) {
    d(0) == 1.0 && forall a, b :: 0 <= a && 0 <= b ==> Splits(d, a, b)
  }

  /** The reference: every acquire weighs its own decayed age. */
  ghost function Weighted(d: int -> real, times: seq<int>, at: int): real {
    if times == [] then 0.0 else Weighted(d, times[..|times| - 1], at) + d(at - times[|times| - 1])
  }

  /** Moving the reading time on multiplies the whole sum by one factor. */
  lemma {:induction false} WeightedShifts(d: int -> real, times: seq<int>, at: int, later: int)
    requires IsDecay(d) && at <= later
    requires forall i :: 0 <= i < |times| ==> times[i] <= at
    ensures Weighted(d, times, later) == Weighted(d, times, at) * d(later - at)
  {
    if times != [] {
      var n := |times| - 1;
      WeightedShifts(d, times[..n], at, later);
      assert Splits(d, at - times[n], later - at);
      assert d(later - times[n]) == d(at - times[n]) * d(later - at);
      Distribute(Weighted(d, times[..n], at), d(at - times[n]), d(later - at));
    }
  }

  lemma {:induction false} WeightedPositive(d: int -> real, times: seq<int>, at: int)
    requires forall age :: 0 <= age ==> d(age) > 0.0
    requires forall i :: 0 <= i < |times| ==> times[i] <= at
    ensures Weighted(d, times, at) >= 0.0 && (times != [] ==> Weighted(d, times, at) > 0.0)
  {
    if times != [] {
      WeightedPositive(d, times[..|times| - 1], at);
    }
  }

  // ---- Escrow ids -----------------------------------------------------------------------------------------------

  predicate IsDigit(c: char) {
    '0' <= c <= '9'
  }

  function Decimal(s: string): nat
    requires forall i :: 0 <= i < |s| ==> IsDigit(s[i])
  {
    if s == [] then 0
    else
      assert IsDigit(s[|s| - 1]);
      Decimal(s[..|s| - 1]) * 10 + (s[|s| - 1] as int - '0' as int)
  }

  /** An unsigned 64-bit decimal number, or nothing. */
  function ParseUint(s: string): Option<nat> {
    if s == [] || exists i :: 0 <= i < |s| && !IsDigit(s[i]) then None
    else if Decimal(s) >= 0x1_0000_0000_0000_0000 then None
    else Some(Decimal(s))
  }

  // ---- The tracker's state --------------------------------------------------------------------------------------

  datatype Stat = Stat(count: real, last: int)

  function DecayFactor(d: int -> real, elapsed: int): real {
    if elapsed <= 0 then 1.0 else d(elapsed)
  }

  /** A last time of 0 is read as "no acquire yet". */
  function Bumped(d: int -> real, s: Stat, now: int): Stat {
    Stat((if s.last != 0 then s.count * DecayFactor(d, now - s.last) else s.count) + 1.0, now)
  }

  function StatOf(stats: map<nat, Stat>, id: nat): Stat {
    if id in stats then stats[id] else Stat(0.0, 0)
  }

  function Recorded(d: int -> real, stats: map<nat, Stat>, escrow: string, now: int): map<nat, Stat> {
    match ParseUint(escrow)
    case None => stats
    case Some(id) => stats[id := Bumped(d, StatOf(stats, id), now)]
  }

  function Active(stats: map<nat, Stat>, now: int, window: int): map<nat, Stat> {
    map id | id in stats && now - stats[id].last <= window :: stats[id]
  }

  // ---- Traces ---------------------------------------------------------------------------------------------------

  datatype Event = Acquire(escrow: string, now: int) | Look(now: int)

  ghost function StatsAfter(d: int -> real, window: int, trace: seq<Event>): map<nat, Stat> {
    if trace == [] then map[]
    else
      var before := StatsAfter(d, window, trace[..|trace| - 1]);
      match trace[|trace| - 1]
      case Acquire(escrow, now) => Recorded(d, before, escrow, now)
      case Look(now) => Active(before, now, window)
  }

  /** The acquire times of `id` since it was last dropped for being idle longer than the window. */
  ghost function History(window: int, trace: seq<Event>, id: nat): seq<int> {
    if trace == [] then []
    else
      var before := History(window, trace[..|trace| - 1], id);
      match trace[|trace| - 1]
      case Acquire(escrow, now) => if ParseUint(escrow) == Some(id) then before + [now] else before
      case Look(now) => if before != [] && now - before[|before| - 1] > window then [] else before
  }

  /** The latest acquire of `id` in the whole trace. */
  ghost function Latest(trace: seq<Event>, id: nat): Option<int> {
    if trace == [] then None
    else
      match trace[|trace| - 1]
      case Acquire(escrow, now) => if ParseUint(escrow) == Some(id) then Some(now) else Latest(trace[..|trace| - 1], id)
      case Look(_) => Latest(trace[..|trace| - 1], id)
  }

  ghost predicate Ordered(trace: seq<Event>) {
    forall i, j :: 0 <= i < j < |trace| ==> trace[i].now <= trace[j].now
  }

  /** No acquire happens at clock reading 0. */
  ghost predicate ClockNonZero(trace: seq<Event>) {
    forall i :: 0 <= i < |trace| && trace[i].Acquire? ==> trace[i].now != 0
  }

  ghost predicate NotAfter(times: seq<int>, at: int) {
    forall i :: 0 <= i < |times| ==> times[i] <= at
  }

  /** What the single number has to mean. */
  ghost predicate Exact(d: int -> real, s: Stat, times: seq<int>) {
    times != [] && s.last == times[|times| - 1] && s.count == Weighted(d, times, s.last)
  }

  /** What the number says when it is read at `now`. */
  ghost predicate ReadsAs(d: int -> real, s: Stat, times: seq<int>, now: int) {
    s.count * DecayFactor(d, now - s.last) == Weighted(d, times, now)
  }

  ghost predicate Sorted(times: seq<int>) {
    forall i, j :: 0 <= i < j < |times| ==> times[i] <= times[j]
  }

  lemma SortedOneMore(times: seq<int>, now: int)
    requires Sorted(times) && NotAfter(times, now)
    ensures Sorted(times + [now]) && NotAfter(times + [now], now)
  {
  }

  /** The history of a trace is sorted and not after its end. */
  lemma {:induction false} HistoryIsPast(window: int, trace: seq<Event>, id: nat)
    requires Ordered(trace)
    ensures Sorted(History(window, trace, id)) && (History(window, trace, id) != [] ==> trace != [])
    ensures trace != [] ==> NotAfter(History(window, trace, id), trace[|trace| - 1].now)
  {
    if trace != [] {
      var n := |trace| - 1;
      HistoryIsPast(window, trace[..n], id);
      var h := History(window, trace[..n], id);
      assert NotAfter(h, trace[n].now);
      if trace[n].Acquire? {
        SortedOneMore(h, trace[n].now);
      }
    }
  }

  /** One acquire keeps the number exact if and only if the previous acquire was not at clock reading 0, or no decay was
      due since then. */
  lemma {:induction false} BumpExactIff(d: int -> real, s: Stat, times: seq<int>, now: int)
    requires IsDecay(d) && forall age :: 0 <= age ==> d(age) > 0.0
    requires Exact(d, s, times) && NotAfter(times, s.last) && s.last <= now
    ensures Exact(d, Bumped(d, s, now), times + [now]) <==> s.last != 0 || d(now - s.last) == 1.0
  {
    BumpWeight(d, s, times, now);
    WeightedPositive(d, times, s.last);
    CancelPositive(s.count, d(now - s.last));
  }

  lemma CancelPositive(c: real, k: real)
    requires c > 0.0
    ensures c * k == c <==> k == 1.0
  {
    if c * k == c {
      assert c * (k - 1.0) == 0.0;
    }
  }

  lemma {:induction false} BumpWeight(d: int -> real, s: Stat, times: seq<int>, now: int)
    requires IsDecay(d) && Exact(d, s, times) && NotAfter(times, s.last) && s.last <= now
    ensures Weighted(d, times + [now], now) == s.count * d(now - s.last) + 1.0
    ensures DecayFactor(d, now - s.last) == d(now - s.last)
  {
    WeightedShifts(d, times, s.last, now);
    assert (times + [now])[..|times|] == times;
  }

  // ---- Any clock --------------------------------------------------------------------------------------------------

  /** The times on a clock that stands still whenever the real one goes back. Two acquires that read the clock before
      either holds the lock may be applied in the other order. */
  ghost function Forward(times: seq<int>): (f: seq<int>)
    ensures |f| == |times|
  {
    if |times| <= 1 then times
    else
      var n := |times| - 1;
      var f, step := Forward(times[..n]), times[n] - times[n - 1];
      f + [f[n - 1] + if step > 0 then step else 0]
  }

  lemma {:induction false} ForwardIsPast(times: seq<int>)
    requires times != []
    ensures NotAfter(Forward(times), Forward(times)[|times| - 1])
  {
    if |times| > 1 {
      ForwardIsPast(times[..|times| - 1]);
    }
  }

  lemma {:induction false} ForwardAt(times: seq<int>, i: nat)
    requires Sorted(times) && i < |times|
    ensures Forward(times)[i] == times[i]
  {
    var n := |times| - 1;
    if n > 0 {
      ForwardAt(times[..n], if i < n then i else n - 1);
      assert times[n - 1] <= times[n];
    }
  }

  /** On a clock that never goes back it is the clock itself. */
  lemma ForwardOfOrdered(times: seq<int>)
    requires Sorted(times)
    ensures Forward(times) == times
  {
    forall i | 0 <= i < |times| ensures Forward(times)[i] == times[i] {
      ForwardAt(times, i);
    }
  }

  /** What the number means whatever the clock does: every acquire decays by the forward movement since. */
  ghost predicate ExactForward(d: int -> real, s: Stat, times: seq<int>) {
    && times != [] && s.last == times[|times| - 1]
    && s.count == Weighted(d, Forward(times), Forward(times)[|times| - 1])
  }

  lemma {:induction false} BumpKeepsForward(d: int -> real, s: Stat, times: seq<int>, now: int)
    requires IsDecay(d) && ExactForward(d, s, times) && s.last != 0
    ensures ExactForward(d, Bumped(d, s, now), times + [now])
  {
    var n, f := |times|, Forward(times);
    var all := times + [now];
    var step := if now - s.last > 0 then now - s.last else 0;
    var next := f[n - 1] + step;
    assert all[..n] == times;
    assert Forward(all) == f + [next];
    assert (f + [next])[..n] == f;
    ForwardIsPast(times);
    WeightedShifts(d, f, f[n - 1], next);
    assert DecayFactor(d, now - s.last) == d(step);
  }

  lemma {:induction false} FirstBump(d: int -> real, now: int)
    requires IsDecay(d)
    ensures ExactForward(d, Bumped(d, Stat(0.0, 0), now), [now])
  {
    assert [now][..0] == [];
    assert Weighted(d, [now], now) == d(0);
  }

  lemma {:induction false} HistoryNonZero(window: int, trace: seq<Event>, id: nat)
    requires ClockNonZero(trace)
    ensures forall i :: 0 <= i < |History(window, trace, id)| ==> History(window, trace, id)[i] != 0
  {
    if trace != [] {
      HistoryNonZero(window, trace[..|trace| - 1], id);
    }
  }

  /** For any clock that is never 0, in whatever order acquires read it, the number kept for each escrow is the sum over
      all its acquires since its last eviction, each decayed by the forward movement of the clock since. */
  lemma {:induction false} CountsUnderAnyClock(d: int -> real, window: int, trace: seq<Event>, id: nat)
    requires IsDecay(d) && ClockNonZero(trace)
    ensures var stats, h := StatsAfter(d, window, trace), History(window, trace, id);
            && (id in stats <==> h != [])
            && (id in stats ==> ExactForward(d, stats[id], h))
  {
    if trace != [] {
      var n := |trace| - 1;
      var t := trace[..n];
      CountsUnderAnyClock(d, window, t, id);
      HistoryNonZero(window, t, id);
      var stats, h := StatsAfter(d, window, t), History(window, t, id);
      if trace[n].Acquire? && ParseUint(trace[n].escrow) == Some(id) {
        if h == [] {
          assert h + [trace[n].now] == [trace[n].now];
          FirstBump(d, trace[n].now);
        } else {
          BumpKeepsForward(d, stats[id], h, trace[n].now);
        }
      }
    }
  }

  // ---- A clock that does not go back ------------------------------------------------------------------------------

  /** For any nondecreasing clock that is never 0, the number kept for each escrow is the decayed sum over all its
      acquires since its last eviction. */
  lemma {:induction false} CountsAreExact(d: int -> real, window: int, trace: seq<Event>, id: nat)
    requires IsDecay(d) && Ordered(trace) && ClockNonZero(trace)
    ensures var stats, h := StatsAfter(d, window, trace), History(window, trace, id);
            && (id in stats <==> h != [])
            && (id in stats ==> Exact(d, stats[id], h))
  {
    CountsUnderAnyClock(d, window, trace, id);
    HistoryIsPast(window, trace, id);
    ForwardOfOrdered(History(window, trace, id));
  }

  /** The rate a snapshot reports is the decayed sum at the time of looking. */
  lemma {:induction false} SnapshotIsExact(d: int -> real, window: int, trace: seq<Event>, now: int, id: nat)
    requires IsDecay(d) && Ordered(trace) && ClockNonZero(trace)
    requires trace != [] ==> trace[|trace| - 1].now <= now
    requires id in StatsAfter(d, window, trace)
    ensures ReadsAs(d, StatsAfter(d, window, trace)[id], History(window, trace, id), now)
  {
    CountsAreExact(d, window, trace, id);
    HistoryIsPast(window, trace, id);
    ReadsExact(d, StatsAfter(d, window, trace)[id], History(window, trace, id), now);
  }

  lemma {:induction false} ReadsExact(d: int -> real, s: Stat, times: seq<int>, now: int)
    requires IsDecay(d) && Exact(d, s, times) && NotAfter(times, s.last) && s.last <= now
    ensures ReadsAs(d, s, times, now)
  {
    WeightedShifts(d, times, s.last, now);
  }

  lemma {:induction false} DroppedMeansIdle(d: int -> real, window: int, trace: seq<Event>, id: nat)
    requires Ordered(trace)
    ensures var stats, latest := StatsAfter(d, window, trace), Latest(trace, id);
            && (id in stats ==> latest == Some(stats[id].last))
            && (id !in stats && latest.Some? ==> trace != [] && trace[|trace| - 1].now - latest.value > window)
  {
    if trace != [] {
      DroppedMeansIdle(d, window, trace[..|trace| - 1], id);
    }
  }

  /** A snapshot lists an escrow if and only if its latest acquire, in the whole past, lies within the window. */
  lemma {:induction false} ListedIffRecent(d: int -> real, window: int, trace: seq<Event>, now: int, id: nat)
    requires Ordered(trace) && (trace != [] ==> trace[|trace| - 1].now <= now)
    ensures id in Active(StatsAfter(d, window, trace), now, window) <==>
            Latest(trace, id).Some? && now - Latest(trace, id).value <= window
  {
    DroppedMeansIdle(d, window, trace, id);
  }

  /** Clock reading 0 is taken for "never": the acquire at 0 is then counted without decay. */
  lemma {:induction false} AcquireAtZeroOvercounts(d: int -> real, window: int) returns (trace: seq<Event>)
    requires IsDecay(d) && d(1) < 1.0
    ensures Ordered(trace) && 7 in StatsAfter(d, window, trace)
    ensures StatsAfter(d, window, trace)[7].count > Weighted(d, History(window, trace, 7), 1)
  {
    trace := [Acquire("7", 0), Acquire("7", 1)];
    assert Decimal("7") == 7 by {
      assert "7"[..0] == [];
    }
    assert trace[..1] == [Acquire("7", 0)] && trace[..1][..0] == [];
    assert StatsAfter(d, window, trace[..1]) == map[7 := Stat(1.0, 0)];
    assert History(window, trace[..1], 7) == [0];
    assert [0, 1][..1] == [0] && [0][..0] == [];
    assert Weighted(d, [0], 1) == d(1);
    assert Weighted(d, [0, 1], 1) == d(1) + d(0);
  }

  // ---- The object -----------------------------------------------------------------------------------------------

  datatype Load = Load(escrowID: nat, requestsPerMin: real)

  const NANOS_PER_MINUTE := 60_000_000_000

  /** The load is the decayed count per minute of the window, multiplied out. */
  ghost predicate Reports(l: Load, id: nat, s: Stat, d: int -> real, now: int, window: int) {
    && l.escrowID == id
    && l.requestsPerMin * (window as real / 60_000_000_000.0) == s.count * DecayFactor(d, now - s.last)
  }

  /** `out` holds each escrow of `active` exactly once, with its rate. */
  ghost predicate Lists(out: seq<Load>, active: map<nat, Stat>, d: int -> real, now: int, window: int) {
    && |out| == |active.Keys|
    && (forall i, j :: 0 <= i < j < |out| ==> out[i].escrowID != out[j].escrowID)
    && (forall i :: 0 <= i < |out| ==>
          out[i].escrowID in active && Reports(out[i], out[i].escrowID, active[out[i].escrowID], d, now, window))
  }

  lemma {:induction false} ListsOneMore(out: seq<Load>, active: map<nat, Stat>, l: Load, id: nat, s: Stat,
                                        d: int -> real, now: int, window: int)
    requires Lists(out, active, d, now, window) && id !in active && Reports(l, id, s, d, now, window)
    ensures Lists(out + [l], active[id := s], d, now, window)
  {
    assert active[id := s].Keys == active.Keys + {id};
  }

  /** Part-way through the scan: `todo` is still to be visited, `done` was visited and kept. */
  ghost predicate Scanned(before: map<nat, Stat>, stats: map<nat, Stat>, done: map<nat, Stat>, todo: set<nat>, now: int,
                          window: int) {
    && stats.Keys == done.Keys + todo && done.Keys !! todo && stats.Keys <= before.Keys
    && (forall id :: id in stats ==> stats[id] == before[id])
    && (forall id :: id in done ==> done[id] == before[id])
    && (forall id :: id in before && id !in todo ==> (id in done <==> now - before[id].last <= window))
  }

  lemma ScanOne(before: map<nat, Stat>, stats: map<nat, Stat>, done: map<nat, Stat>, todo: set<nat>, now: int,
                window: int, id: nat)
    requires Scanned(before, stats, done, todo, now, window) && id in todo
    ensures now - stats[id].last > window ==> Scanned(before, stats - {id}, done, todo - {id}, now, window)
    ensures now - stats[id].last <= window ==> Scanned(before, stats, done[id := stats[id]], todo - {id}, now, window)
  {
  }

  lemma ScanAll(before: map<nat, Stat>, stats: map<nat, Stat>, done: map<nat, Stat>, now: int, window: int)
    requires Scanned(before, stats, done, {}, now, window)
    ensures stats == done == Active(before, now, window)
  {
  }

  class EscrowLoadTracker {
    const window: int
    const decay: int -> real
    var stats: map<nat, Stat>

    constructor (window: int, decay: int -> real)
      ensures this.window == (if window <= 0 then 30 * NANOS_PER_MINUTE else window)
      ensures this.decay == decay && stats == map[]
    {
      this.window := if window <= 0 then 30 * NANOS_PER_MINUTE else window;
      this.decay := decay;
      stats := map[];
    }

    method Record(escrow: string, now: int)
      modifies this
      ensures stats == Recorded(decay, old(stats), escrow, now)
    {
      if escrow == "" {
        return;
      }
      match ParseUint(escrow)
      case None => return;
      case Some(id) =>
        var s := StatOf(stats, id);
        if s.last != 0 {
          s := s.(count := s.count * DecayFactor(decay, now - s.last));
        }
        s := s.(count := s.count + 1.0);
        s := s.(last := now);
        assert s == Bumped(decay, StatOf(old(stats), id), now);
        stats := stats[id := s];
    }

    method LoadOf(id: nat, s: Stat, now: int) returns (l: Load)
      requires window > 0
      ensures Reports(l, id, s, decay, now, window)
    {
      var mins := window as real / 60_000_000_000.0;
      var decayed := s.count * DecayFactor(decay, now - s.last);
      l := Load(id, decayed / mins);
    }

    /** Each active escrow once, with its decayed count per minute; the others are evicted. */
    method Snapshot(now: int) returns (out: seq<Load>)
      requires window > 0
      modifies this
      ensures stats == Active(old(stats), now, window)
      ensures Lists(out, stats, decay, now, window)
    {
      out := [];
      ghost var before, done: map<nat, Stat> := stats, map[];
      var todo := stats.Keys;
      while todo != {}
        invariant Scanned(before, stats, done, todo, now, window)
        invariant Lists(out, done, decay, now, window)
        decreases todo
      {
        ghost var any := Member(todo);
        var id :| id in todo;
        ScanOne(before, stats, done, todo, now, window, id);
        todo := todo - {id};
        if now - stats[id].last > window {
          stats := stats - {id};
        } else {
          var load := LoadOf(id, stats[id], now);
          ListsOneMore(out, done, load, id, stats[id], decay, now, window);
          out, done := out + [load], done[id := stats[id]];
        }
      }
      ScanAll(before, stats, done, now, window);
    }
  }
}
