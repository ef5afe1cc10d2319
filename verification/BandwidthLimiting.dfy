/** Sliding-window admission by estimated bandwidth and request count, with garbage collection of old blocks.
    Amounts are exact reals: rounding is not the point of the window argument. */
module BandwidthLimiting {
  import opened Common

  // ---- Windows --------------------------------------------------------------------------------------------

  /** The amount in the `n` blocks starting at `low`. */
  ghost function Window(at: int -> real, low: int, n: nat): real {
    if n == 0 then 0.0 else Window(at, low, n - 1) + at(low + n - 1)
  }

  lemma {:induction false} WindowAgrees(f: int -> real, g: int -> real, low: int, n: nat)
    requires forall b :: low <= b < low + n ==> f(b) == g(b)
    ensures Window(f, low, n) == Window(g, low, n)
  {
    if n > 0 {
      WindowAgrees(f, g, low, n - 1);
    }
  }

  lemma {:induction false} WindowSlides(at: int -> real, low: int, n: nat)
    ensures Window(at, low + 1, n) == Window(at, low, n) - at(low) + at(low + n)
  {
    if n > 0 {
      WindowSlides(at, low, n - 1);
    }
  }

  /** Nothing is recorded past the window at `h`, so moving the window up only loses blocks. */
  lemma {:induction false} LaterWindowsAreSmaller(at: int -> real, h: int, low: int, n: nat)
    requires h <= low
    requires forall b :: at(b) >= 0.0 && (b >= h + n ==> at(b) == 0.0)
    ensures Window(at, low, n) <= Window(at, h, n)
    decreases low - h
  {
    if h < low {
      LaterWindowsAreSmaller(at, h, low - 1, n);
      WindowSlides(at, low - 1, n);
    }
  }

  // ---- The ledger -------------------------------------------------------------------------------------------

  /** An admitted request and what it was charged. */
  datatype Request = Request(start: int, kb: real)

  /** What is measured of a request: its kilobytes, or simply one. */
  datatype Measure = Kilobytes | Inferences

  function Weight(m: Measure, r: Request): real {
    match m
    case Kilobytes => r.kb
    case Inferences => 1.0
  }

  /** What the open requests charge to completion block `b`. */
  function OpenAt(open: seq<Request>, lifespan: nat, m: Measure, b: int): real {
    if open == [] then 0.0
    else
      var last := open[|open| - 1];
      OpenAt(open[..|open| - 1], lifespan, m, b) + if last.start + lifespan == b then Weight(m, last) else 0.0
  }

  ghost predicate Sensible(open: seq<Request>) {
    forall i :: 0 <= i < |open| ==> open[i].kb >= 0.0
  }

  lemma OpenAtAppend(open: seq<Request>, r: Request, lifespan: nat, m: Measure, b: int)
    ensures OpenAt(open + [r], lifespan, m, b) ==
            OpenAt(open, lifespan, m, b) + if r.start + lifespan == b then Weight(m, r) else 0.0
  {
    assert (open + [r])[..|open|] == open;
  }

  function Without(open: seq<Request>, i: nat): seq<Request>
    requires i < |open|
  {
    open[..i] + open[i + 1..]
  }

  lemma {:induction false} OpenAtWithout(open: seq<Request>, i: nat, lifespan: nat, m: Measure, b: int)
    requires i < |open|
    ensures OpenAt(Without(open, i), lifespan, m, b) ==
            OpenAt(open, lifespan, m, b) - if open[i].start + lifespan == b then Weight(m, open[i]) else 0.0
  {
    var n := |open| - 1;
    if i == n {
      assert Without(open, i) == open[..n];
    } else {
      OpenAtWithout(open[..n], i, lifespan, m, b);
      assert Without(open, i) == Without(open[..n], i) + [open[n]];
      OpenAtAppend(Without(open[..n], i), open[n], lifespan, m, b);
    }
  }

  lemma {:induction false} OpenAtRange(open: seq<Request>, lifespan: nat, m: Measure, b: int, newest: int)
    requires Sensible(open) && forall i :: 0 <= i < |open| ==> open[i].start <= newest
    ensures OpenAt(open, lifespan, m, b) >= 0.0
    ensures b > newest + lifespan ==> OpenAt(open, lifespan, m, b) == 0.0
  {
    if open != [] {
      OpenAtRange(open[..|open| - 1], lifespan, m, b, newest);
    }
  }

  // ---- The limiter --------------------------------------------------------------------------------------------

  datatype Books = Books(usage: map<int, real>, inferences: map<int, int>)

  function UsageAt(k: Books, b: int): real {
    if b in k.usage then k.usage[b] else 0.0
  }

  function CountAt(k: Books, b: int): int {
    if b in k.inferences then k.inferences[b] else 0
  }

  function BookAt(k: Books, m: Measure, b: int): real {
    match m
    case Kilobytes => UsageAt(k, b)
    case Inferences => CountAt(k, b) as real
  }

  /** Adding `amount` keeps the average over `n` blocks within `limit`, multiplied out. */
  predicate Fits(total: real, amount: real, limit: nat, n: nat) {
    total + amount <= limit as real * n as real
  }

  /** The admission rule; a count limit of 0 means no count limit. `at` gives what each block holds. */
  ghost predicate Admits(at: Measure -> int -> real, lifespan: nat, h: int, kb: real, limitKB: nat,
                         maxInferences: nat) {
    && Fits(Window(at(Kilobytes), h, lifespan + 1), kb, limitKB, lifespan + 1)
    && (maxInferences > 0 ==> Fits(Window(at(Inferences), h, lifespan + 1), 1.0, maxInferences, lifespan + 1))
  }

  function Record(k: Books, r: Request, lifespan: nat): Books {
    var c := r.start + lifespan;
    Books(k.usage[c := UsageAt(k, c) + r.kb], k.inferences[c := CountAt(k, c) + 1])
  }

  /** Entries that drop to zero or below are deleted. */
  function Release(k: Books, r: Request, lifespan: nat): Books {
    var c := r.start + lifespan;
    var u, n := UsageAt(k, c) - r.kb, CountAt(k, c) - 1;
    Books(if u <= 0.0 then k.usage - {c} else k.usage[c := u],
          if n <= 0 then k.inferences - {c} else k.inferences[c := n])
  }

  /** The newest block on either book, or 0. */
  ghost predicate IsNewest(k: Books, newest: int) {
    && newest >= 0
    && (forall b :: b in k.usage.Keys + k.inferences.Keys ==> b <= newest)
    && (newest == 0 || newest in k.usage.Keys + k.inferences.Keys)
  }

  function Cleaned(k: Books, newest: int, lifespan: nat): Books {
    if newest == 0 then k
    else
      var cutoff := newest - lifespan * 2;
      Books(map b | b in k.usage && !(b < cutoff) :: k.usage[b],
            map b | b in k.inferences && !(b < cutoff) :: k.inferences[b])
  }

  lemma AverageForm(total: real, amount: real, limit: nat, n: nat)
    requires 0 < n
    ensures Fits(total, amount, limit, n) <==> total / n as real + amount / n as real <= limit as real
  {
    var w := n as real;
    assert (total / w + amount / w) * w == total + amount;
  }

  // ---- Runs ------------------------------------------------------------------------------------------------------

  /** `pending` are the requests whose check has passed and that are not recorded yet, `open` the recorded ones not yet
      released, `last` the height of the latest check. */
  datatype World = World(lifespan: nat, books: Books, pending: seq<Request>, open: seq<Request>, last: int)

  /** A caller first checks and, if the check passes, records in a second call; others may come in between. */
  datatype Action =
    | Check(h: int, kb: real, limitKB: nat, maxInferences: nat)
    | Charge(i: nat)
    | Finish(i: nat)
    | Cleanup(newest: int)

  ghost predicate Enabled(w: World, a: Action) {
    match a
    case Check(h, kb, _, _) => w.last <= h && kb >= 0.0
    case Charge(i) => i < |w.pending|
    case Finish(i) => i < |w.open|
    case Cleanup(newest) => IsNewest(w.books, newest)
  }

  ghost function BookView(k: Books): Measure -> int -> real {
    m => b => BookAt(k, m, b)
  }

  ghost function LedgerView(open: seq<Request>, lifespan: nat): Measure -> int -> real {
    m => b => OpenAt(open, lifespan, m, b)
  }

  ghost predicate Accepts(w: World, a: Action)
    requires a.Check?
  {
    Admits(BookView(w.books), w.lifespan, a.h, a.kb, a.limitKB, a.maxInferences)
  }

  ghost function Step(w: World, a: Action): World {
    if !Enabled(w, a) then w
    else
      match a
      case Check(h, kb, _, _) =>
        if Accepts(w, a) then w.(pending := w.pending + [Request(h, kb)], last := h) else w.(last := h)
      case Charge(i) =>
        var r := w.pending[i];
        w.(books := Record(w.books, r, w.lifespan), pending := Without(w.pending, i), open := w.open + [r])
      case Finish(i) =>
        w.(books := Release(w.books, w.open[i], w.lifespan), open := Without(w.open, i))
      case Cleanup(newest) => w.(books := Cleaned(w.books, newest, w.lifespan))
  }

  ghost function Run(w: World, actions: seq<Action>): World
    decreases |actions|
  {
    if actions == [] then w else Run(Step(w, actions[0]), actions[1..])
  }

  /** Charges are not negative and start no later than the latest check. */
  ghost predicate Plausible(s: seq<Request>, last: int) {
    Sensible(s) && forall i :: 0 <= i < |s| ==> s[i].start <= last
  }

  /** The books agree with the ledger on every block an admission can still look at. */
  ghost predicate Faithful(w: World) {
    && Plausible(w.open, w.last) && Plausible(w.pending, w.last)
    && (forall b :: b in w.books.usage.Keys + w.books.inferences.Keys ==> b <= w.last + w.lifespan)
    && (forall m, b :: w.last <= b ==> BookAt(w.books, m, b) == OpenAt(w.open, w.lifespan, m, b))
  }

  /** An admission decides by the true ledger, whatever was collected before. */
  lemma DecidesByLedger(w: World, a: Action)
    requires Faithful(w) && a.Check? && Enabled(w, a)
    ensures Accepts(w, a) <==>
            Admits(LedgerView(w.open, w.lifespan), w.lifespan, a.h, a.kb, a.limitKB, a.maxInferences)
  {
    var k, l := BookView(w.books), LedgerView(w.open, w.lifespan);
    WindowAgrees(k(Kilobytes), l(Kilobytes), a.h, w.lifespan + 1);
    WindowAgrees(k(Inferences), l(Inferences), a.h, w.lifespan + 1);
  }

  lemma WithoutIsPlausible(s: seq<Request>, i: nat, last: int)
    requires Plausible(s, last) && i < |s|
    ensures Plausible(Without(s, i), last)
  {
    assert forall k :: 0 <= k < |s| - 1 ==> Without(s, i)[k] == s[if k < i then k else k + 1];
  }

  lemma ChargeKeepsFaithful(w: World, a: Action)
    requires Faithful(w) && a.Charge? && Enabled(w, a)
    ensures Faithful(Step(w, a))
  {
    var w', r := Step(w, a), w.pending[a.i];
    WithoutIsPlausible(w.pending, a.i, w.last);
    forall m, b | w'.last <= b ensures BookAt(w'.books, m, b) == OpenAt(w'.open, w.lifespan, m, b) {
      OpenAtAppend(w.open, r, w.lifespan, m, b);
    }
  }

  lemma FinishKeepsFaithful(w: World, a: Action)
    requires Faithful(w) && a.Finish? && Enabled(w, a)
    ensures Faithful(Step(w, a))
  {
    var w' := Step(w, a);
    WithoutIsPlausible(w.open, a.i, w.last);
    forall m, b | w'.last <= b ensures BookAt(w'.books, m, b) == OpenAt(w'.open, w.lifespan, m, b) {
      OpenAtWithout(w.open, a.i, w.lifespan, m, b);
      OpenAtRange(w'.open, w.lifespan, m, b, w.last);
    }
  }

  lemma CleanupKeepsFaithful(w: World, a: Action)
    requires Faithful(w) && a.Cleanup? && Enabled(w, a)
    ensures Faithful(Step(w, a))
  {
    if a.newest != 0 {
      assert a.newest - w.lifespan * 2 <= w.last;
    }
  }

  lemma StepKeepsFaithful(w: World, a: Action)
    requires Faithful(w)
    ensures Faithful(Step(w, a))
  {
    if Enabled(w, a) {
      match a
      case Check(_, _, _, _) =>
      case Charge(_) => ChargeKeepsFaithful(w, a);
      case Finish(_) => FinishKeepsFaithful(w, a);
      case Cleanup(_) => CleanupKeepsFaithful(w, a);
    }
  }

  // ---- The window bound -------------------------------------------------------------------------------------------

  /** Open weight in the window of `lifespan + 1` completion blocks starting at `low`. */
  ghost function OpenWindow(open: seq<Request>, lifespan: nat, m: Measure, low: int): real {
    Window(LedgerView(open, lifespan)(m), low, lifespan + 1)
  }

  function Budget(cap: nat, lifespan: nat): real {
    cap as real * (lifespan + 1) as real
  }

  /** All a set of requests charges together. */
  function Charges(s: seq<Request>, m: Measure): real {
    if s == [] then 0.0 else Charges(s[..|s| - 1], m) + Weight(m, s[|s| - 1])
  }

  /** What is recorded and what is about to be, together, exceeds no window's budget by more than `slack`. */
  ghost predicate Bounded(w: World, m: Measure, cap: nat, slack: real) {
    forall low :: Committed(w, m, low) <= Budget(cap, w.lifespan) + slack
  }

  ghost function Committed(w: World, m: Measure, low: int): real {
    OpenWindow(w.open, w.lifespan, m, low) + OpenWindow(w.pending, w.lifespan, m, low)
  }

  /** The limits in force at a check do not exceed `cap`; the count limit must be switched on. */
  predicate Capped(a: Action, m: Measure, cap: nat) {
    a.Check? ==> match m
                 case Kilobytes => a.limitKB <= cap
                 case Inferences => 0 < a.maxInferences <= cap
  }

  /** Whenever a check passes, the requests checked before it and not yet recorded charge at most `slack`. */
  ghost predicate OverlapWithin(w: World, actions: seq<Action>, m: Measure, slack: real)
    decreases |actions|
  {
    actions == [] ||
    (&& (actions[0].Check? && Enabled(w, actions[0]) && Accepts(w, actions[0]) ==> Charges(w.pending, m) <= slack)
     && OverlapWithin(Step(w, actions[0]), actions[1..], m, slack))
  }

  lemma Scale(limit: nat, cap: nat, lifespan: nat)
    requires limit <= cap
    ensures Budget(limit, lifespan) <= Budget(cap, lifespan)
  {
    assert (cap - limit) as real * (lifespan + 1) as real >= 0.0;
  }

  lemma {:induction false} WindowAfterAppend(open: seq<Request>, r: Request, lifespan: nat, m: Measure, low: int,
                                             n: nat)
    ensures var before, after := LedgerView(open, lifespan)(m), LedgerView(open + [r], lifespan)(m);
            Window(after, low, n) == Window(before, low, n) +
              if low <= r.start + lifespan < low + n then Weight(m, r) else 0.0
  {
    if n > 0 {
      WindowAfterAppend(open, r, lifespan, m, low, n - 1);
      OpenAtAppend(open, r, lifespan, m, low + n - 1);
    }
  }

  lemma {:induction false} WindowWithout(open: seq<Request>, i: nat, lifespan: nat, m: Measure, low: int, n: nat)
    requires i < |open|
    ensures Window(LedgerView(Without(open, i), lifespan)(m), low, n) ==
            Window(LedgerView(open, lifespan)(m), low, n) -
              if low <= open[i].start + lifespan < low + n then Weight(m, open[i]) else 0.0
  {
    if n > 0 {
      WindowWithout(open, i, lifespan, m, low, n - 1);
      OpenAtWithout(open, i, lifespan, m, low + n - 1);
    }
  }

  lemma {:induction false} EmptyWindow(lifespan: nat, m: Measure, low: int, n: nat)
    ensures Window(LedgerView([], lifespan)(m), low, n) == 0.0
  {
    if n > 0 {
      EmptyWindow(lifespan, m, low, n - 1);
    }
  }

  /** One window holds at most everything. */
  lemma {:induction false} WindowWithinCharges(s: seq<Request>, lifespan: nat, m: Measure, low: int)
    requires Sensible(s)
    ensures 0.0 <= OpenWindow(s, lifespan, m, low) <= Charges(s, m)
  {
    if s == [] {
      EmptyWindow(lifespan, m, low, lifespan + 1);
    } else {
      var n := |s| - 1;
      WindowWithinCharges(s[..n], lifespan, m, low);
      assert s == s[..n] + [s[n]];
      WindowAfterAppend(s[..n], s[n], lifespan, m, low, lifespan + 1);
    }
  }

  /** At a passing check the recorded window and the new request are within the limit it was checked with. */
  lemma CheckedWindowFits(w: World, a: Action, m: Measure, cap: nat)
    requires Faithful(w) && Capped(a, m, cap) && a.Check? && Enabled(w, a) && Accepts(w, a)
    ensures OpenWindow(w.open, w.lifespan, m, a.h) + Weight(m, Request(a.h, a.kb)) <= Budget(cap, w.lifespan)
  {
    DecidesByLedger(w, a);
    Scale(if m.Kilobytes? then a.limitKB else a.maxInferences, cap, w.lifespan);
  }

  lemma LaterWindowFits(open: seq<Request>, lifespan: nat, m: Measure, h: int, low: int)
    requires Plausible(open, h) && h <= low
    ensures OpenWindow(open, lifespan, m, low) <= OpenWindow(open, lifespan, m, h)
  {
    var view := LedgerView(open, lifespan)(m);
    forall b ensures view(b) >= 0.0 && (b >= h + (lifespan + 1) ==> view(b) == 0.0) {
      OpenAtRange(open, lifespan, m, b, h);
    }
    LaterWindowsAreSmaller(view, h, low, lifespan + 1);
  }

  lemma PassedCheckKeepsBounded(w: World, a: Action, m: Measure, cap: nat, slack: real)
    requires Faithful(w) && Bounded(w, m, cap, slack) && Capped(a, m, cap)
    requires a.Check? && Enabled(w, a) && Accepts(w, a) && Charges(w.pending, m) <= slack
    ensures Bounded(Step(w, a), m, cap, slack)
  {
    var w', r := Step(w, a), Request(a.h, a.kb);
    CheckedWindowFits(w, a, m, cap);
    forall low ensures Committed(w', m, low) <= Budget(cap, w.lifespan) + slack {
      WindowAfterAppend(w.pending, r, w.lifespan, m, low, w.lifespan + 1);
      if a.h <= low {
        LaterWindowFits(w.open, w.lifespan, m, a.h, low);
        WindowWithinCharges(w.pending, w.lifespan, m, low);
      } else {
        // The new request completes after this window ends.
        assert Committed(w, m, low) <= Budget(cap, w.lifespan) + slack;
      }
    }
  }

  /** Recording moves a request from checked to recorded and changes no sum of the two. */
  lemma ChargeKeepsCommitted(w: World, i: nat, m: Measure, low: int)
    requires i < |w.pending|
    ensures Committed(Step(w, Charge(i)), m, low) == Committed(w, m, low)
  {
    WindowAfterAppend(w.open, w.pending[i], w.lifespan, m, low, w.lifespan + 1);
    WindowWithout(w.pending, i, w.lifespan, m, low, w.lifespan + 1);
  }

  lemma ChargeKeepsBounded(w: World, a: Action, m: Measure, cap: nat, slack: real)
    requires Bounded(w, m, cap, slack) && a.Charge? && Enabled(w, a)
    ensures Bounded(Step(w, a), m, cap, slack)
  {
    forall low ensures Committed(Step(w, a), m, low) <= Budget(cap, w.lifespan) + slack {
      ChargeKeepsCommitted(w, a.i, m, low);
      assert Committed(w, m, low) <= Budget(cap, w.lifespan) + slack;
    }
  }

  lemma FinishKeepsBounded(w: World, a: Action, m: Measure, cap: nat, slack: real)
    requires Faithful(w) && Bounded(w, m, cap, slack) && a.Finish? && Enabled(w, a)
    ensures Bounded(Step(w, a), m, cap, slack)
  {
    forall low ensures Committed(Step(w, a), m, low) <= Budget(cap, w.lifespan) + slack {
      WindowWithout(w.open, a.i, w.lifespan, m, low, w.lifespan + 1);
      assert Committed(w, m, low) <= Budget(cap, w.lifespan) + slack;
    }
  }

  lemma StepKeepsBounded(w: World, a: Action, m: Measure, cap: nat, slack: real)
    requires Faithful(w) && Bounded(w, m, cap, slack) && Capped(a, m, cap)
    requires a.Check? && Enabled(w, a) && Accepts(w, a) ==> Charges(w.pending, m) <= slack
    ensures Bounded(Step(w, a), m, cap, slack)
  {
    if Enabled(w, a) {
      if a.Check? && Accepts(w, a) {
        PassedCheckKeepsBounded(w, a, m, cap, slack);
      } else if a.Charge? {
        ChargeKeepsBounded(w, a, m, cap, slack);
      } else if a.Finish? {
        FinishKeepsBounded(w, a, m, cap, slack);
      } else {
        SameRequests(w, Step(w, a), m, cap, slack);
      }
    }
  }

  lemma SameRequests(w: World, v: World, m: Measure, cap: nat, slack: real)
    requires Bounded(w, m, cap, slack) && v.open == w.open && v.pending == w.pending && v.lifespan == w.lifespan
    ensures Bounded(v, m, cap, slack)
  {
    forall low ensures Committed(v, m, low) <= Budget(cap, v.lifespan) + slack {
      assert Committed(w, m, low) <= Budget(cap, w.lifespan) + slack;
    }
  }

  lemma {:induction false} RunKeepsBounded(w: World, actions: seq<Action>, m: Measure, cap: nat, slack: real)
    requires Faithful(w) && Bounded(w, m, cap, slack) && OverlapWithin(w, actions, m, slack)
    requires forall i :: 0 <= i < |actions| ==> Capped(actions[i], m, cap)
    ensures Faithful(Run(w, actions)) && Bounded(Run(w, actions), m, cap, slack)
    decreases |actions|
  {
    if actions != [] {
      StepKeepsFaithful(w, actions[0]);
      StepKeepsBounded(w, actions[0], m, cap, slack);
      RunKeepsBounded(Step(w, actions[0]), actions[1..], m, cap, slack);
    }
  }

  /** A limiter with nothing on its books. */
  ghost predicate New(w: World) {
    w.books == Books(map[], map[]) && w.open == [] && w.pending == []
  }

  lemma NewLimiterIsBounded(w: World, m: Measure, cap: nat, slack: real)
    requires New(w) && slack >= 0.0
    ensures Faithful(w) && Bounded(w, m, cap, slack)
  {
    forall low ensures Committed(w, m, low) <= Budget(cap, w.lifespan) + slack {
      EmptyWindow(w.lifespan, m, low, w.lifespan + 1);
      Scale(0, cap, w.lifespan);
    }
  }

  /** Through any mix of checks, records, releases and cleanups, every window of `lifespan + 1` consecutive completion
      blocks exceeds the largest limit that was in force by no more than the requests that were checked and not yet
      recorded when a later check passed, for kilobytes and, while the count limit is on, for inferences. */
  lemma WindowsExceedLimitByOverlap(w: World, actions: seq<Action>, m: Measure, cap: nat, slack: real, low: int)
    requires New(w) && slack >= 0.0 && OverlapWithin(w, actions, m, slack)
    requires forall i :: 0 <= i < |actions| ==> Capped(actions[i], m, cap)
    ensures OpenWindow(Run(w, actions).open, Run(w, actions).lifespan, m, low) <=
            Budget(cap, Run(w, actions).lifespan) + slack
  {
    NewLimiterIsBounded(w, m, cap, slack);
    RunKeepsBounded(w, actions, m, cap, slack);
    var v := Run(w, actions);
    assert Committed(v, m, low) <= Budget(cap, v.lifespan) + slack;
    WindowWithinCharges(v.pending, v.lifespan, m, low);
  }

  // ---- The exact condition ---------------------------------------------------------------------------------------

  /** If the check passes, its window also has room for the new request on top of what was checked before and is not yet
      recorded. The check itself looks only at what is recorded. */
  ghost predicate HasRoom(w: World, a: Action, m: Measure, cap: nat) {
    a.Check? && Enabled(w, a) && Accepts(w, a) ==>
      Committed(w, m, a.h) + Weight(m, Request(a.h, a.kb)) <= Budget(cap, w.lifespan)
  }

  /** A passing check keeps every window within the limit if and only if it has room. */
  lemma CheckKeepsLimitIffRoom(w: World, a: Action, m: Measure, cap: nat)
    requires Faithful(w) && Bounded(w, m, cap, 0.0) && a.Check? && Enabled(w, a) && Accepts(w, a)
    ensures Bounded(Step(w, a), m, cap, 0.0) <==> HasRoom(w, a, m, cap)
  {
    var w', r := Step(w, a), Request(a.h, a.kb);
    WindowAfterAppend(w.pending, r, w.lifespan, m, a.h, w.lifespan + 1);
    assert Committed(w', m, a.h) == Committed(w, m, a.h) + Weight(m, r);
    if HasRoom(w, a, m, cap) {
      forall low ensures Committed(w', m, low) <= Budget(cap, w.lifespan) + 0.0 {
        WindowAfterAppend(w.pending, r, w.lifespan, m, low, w.lifespan + 1);
        if a.h <= low {
          LaterWindowFits(w.open, w.lifespan, m, a.h, low);
          LaterWindowFits(w.pending, w.lifespan, m, a.h, low);
        } else {
          assert Committed(w, m, low) <= Budget(cap, w.lifespan) + 0.0;
        }
      }
    }
  }

  lemma OtherStepsKeepLimit(w: World, a: Action, m: Measure, cap: nat)
    requires Faithful(w) && Bounded(w, m, cap, 0.0) && !(a.Check? && Enabled(w, a) && Accepts(w, a))
    ensures Bounded(Step(w, a), m, cap, 0.0)
  {
    if Enabled(w, a) && a.Charge? {
      ChargeKeepsBounded(w, a, m, cap, 0.0);
    } else if Enabled(w, a) && a.Finish? {
      FinishKeepsBounded(w, a, m, cap, 0.0);
    } else {
      SameRequests(w, Step(w, a), m, cap, 0.0);
    }
  }

  /** All through the run no window holds more than its limit, recorded and checked requests together. */
  ghost predicate StaysWithinLimit(w: World, actions: seq<Action>, m: Measure, cap: nat)
    decreases |actions|
  {
    Bounded(w, m, cap, 0.0) && (actions == [] || StaysWithinLimit(Step(w, actions[0]), actions[1..], m, cap))
  }

  ghost predicate ChecksHaveRoom(w: World, actions: seq<Action>, m: Measure, cap: nat)
    decreases |actions|
  {
    actions == [] || (HasRoom(w, actions[0], m, cap) && ChecksHaveRoom(Step(w, actions[0]), actions[1..], m, cap))
  }

  lemma {:induction false} LimitKeptIffRoom(w: World, actions: seq<Action>, m: Measure, cap: nat)
    requires Faithful(w) && Bounded(w, m, cap, 0.0)
    ensures StaysWithinLimit(w, actions, m, cap) <==> ChecksHaveRoom(w, actions, m, cap)
    decreases |actions|
  {
    if actions != [] {
      var a := actions[0];
      StepKeepsFaithful(w, a);
      if a.Check? && Enabled(w, a) && Accepts(w, a) {
        CheckKeepsLimitIffRoom(w, a, m, cap);
      } else {
        OtherStepsKeepLimit(w, a, m, cap);
      }
      if Bounded(Step(w, a), m, cap, 0.0) {
        LimitKeptIffRoom(Step(w, a), actions[1..], m, cap);
      } else {
        assert !StaysWithinLimit(Step(w, a), actions[1..], m, cap);
      }
    }
  }

  /** From a new limiter, over every interleaving of checks, records, releases and cleanups and whatever limits the
      checks were made with: every window stays within the limit all through the run if and only if every check that
      passes has room for its request beside those checked and not yet recorded. */
  lemma WindowsStayWithinLimitIffRoom(w: World, actions: seq<Action>, m: Measure, cap: nat)
    requires New(w)
    ensures StaysWithinLimit(w, actions, m, cap) <==> ChecksHaveRoom(w, actions, m, cap)
  {
    NewLimiterIsBounded(w, m, cap, 0.0);
    LimitKeptIffRoom(w, actions, m, cap);
  }

  lemma RunFirst(w: World, rest: seq<Action>)
    requires w.pending != [] && rest == ChargeAll(|w.pending| - 1)
    ensures Run(w, ChargeAll(|w.pending|)) == Run(Step(w, Charge(0)), rest)
  {
    assert ChargeAll(|w.pending|)[0] == Charge(0) && ChargeAll(|w.pending|)[1..] == rest;
  }

  function ChargeAll(n: nat): seq<Action> {
    seq(n, _ => Charge(0))
  }

  /** What is committed is what is on the books once every checked request is recorded. */
  lemma {:induction false} CommittedGetsRecorded(w: World, m: Measure, low: int)
    ensures var v := Run(w, ChargeAll(|w.pending|));
            && v.pending == [] && v.lifespan == w.lifespan
            && OpenWindow(v.open, v.lifespan, m, low) == Committed(w, m, low)
    decreases |w.pending|
  {
    if w.pending == [] {
      EmptyWindow(w.lifespan, m, low, w.lifespan + 1);
    } else {
      var v := Step(w, Charge(0));
      CommittedGetsRecorded(v, m, low);
      ChargeKeepsCommitted(w, 0, m, low);
      RunFirst(w, ChargeAll(|v.pending|));
    }
  }

  /** Every check that passes finds no other request between check and record. */
  ghost predicate OneAtATime(w: World, actions: seq<Action>)
    decreases |actions|
  {
    actions == [] ||
    (&& (actions[0].Check? && Enabled(w, actions[0]) && Accepts(w, actions[0]) ==> w.pending == [])
     && OneAtATime(Step(w, actions[0]), actions[1..]))
  }

  lemma {:induction false} OneAtATimeHasNoOverlap(w: World, actions: seq<Action>, m: Measure)
    requires OneAtATime(w, actions)
    ensures OverlapWithin(w, actions, m, 0.0)
    decreases |actions|
  {
    if actions != [] {
      OneAtATimeHasNoOverlap(Step(w, actions[0]), actions[1..], m);
    }
  }

  /** With check and record not interleaved, every window stays within the limit. */
  lemma EveryWindowStaysWithinLimit(w: World, actions: seq<Action>, m: Measure, cap: nat, low: int)
    requires New(w) && OneAtATime(w, actions)
    requires forall i :: 0 <= i < |actions| ==> Capped(actions[i], m, cap)
    ensures OpenWindow(Run(w, actions).open, Run(w, actions).lifespan, m, low) <= Budget(cap, Run(w, actions).lifespan)
  {
    OneAtATimeHasNoOverlap(w, actions, m);
    WindowsExceedLimitByOverlap(w, actions, m, cap, 0.0, low);
  }

  /** Interleaved they do not: two requests that each fill the window are both admitted before either is recorded. The
      second check is the one without room. */
  lemma OverlappingChecksOvershoot(w: World, cap: nat, h: int)
    requires New(w) && w.lifespan == 0 && w.last <= h && cap > 0
    ensures var check := Check(h, cap as real, cap, 0);
            var w1 := Step(w, check);
            var v := Step(Step(Step(w1, check), Charge(0)), Charge(0));
            && HasRoom(w, check, Kilobytes, cap) && !HasRoom(w1, check, Kilobytes, cap)
            && OpenWindow(v.open, v.lifespan, Kilobytes, h) == 2.0 * Budget(cap, 0)
  {
    var check, r := Check(h, cap as real, cap, 0), Request(h, cap as real);
    NewLimiterIsBounded(w, Kilobytes, cap, 0.0);
    EmptyWindow(0, Kilobytes, h, 1);
    DecidesByLedger(w, check);
    var w1 := Step(w, check);
    StepKeepsFaithful(w, check);
    DecidesByLedger(w1, check);
    assert [] + [r] == [r];
    WindowAfterAppend([], r, 0, Kilobytes, h, 1);
    WindowAfterAppend([r], r, 0, Kilobytes, h, 1);
    assert w1.pending == [r];
    assert Committed(w1, Kilobytes, h) == Budget(cap, 0);
    var w2 := Step(w1, check);
    assert w2.pending == [r, r] && Without([r, r], 0) == [r] && Without([r], 0) == [];
    var v := Step(Step(w2, Charge(0)), Charge(0));
    assert v.open == [r] + [r];
  }

  // ---- Cleanup is invisible ---------------------------------------------------------------------------------------

  /** The admission decisions of a run, in order. */
  ghost function Decisions(w: World, actions: seq<Action>): seq<bool>
    decreases |actions|
  {
    if actions == [] then []
    else
      var a := actions[0];
      (if a.Check? && Enabled(w, a) then [Accepts(w, a)] else []) + Decisions(Step(w, a), actions[1..])
  }

  function WithoutCleanups(actions: seq<Action>): seq<Action>
    decreases |actions|
  {
    if actions == [] then []
    else (if actions[0].Cleanup? then [] else [actions[0]]) + WithoutCleanups(actions[1..])
  }

  /** Two worlds that differ at most in what their books still hold of the past. */
  ghost predicate SameLedger(v: World, w: World) {
    && Faithful(v) && Faithful(w)
    && v.open == w.open && v.pending == w.pending && v.last == w.last && v.lifespan == w.lifespan
  }

  lemma SameStep(v: World, w: World, a: Action)
    requires SameLedger(v, w)
    ensures a.Check? && Enabled(v, a) ==> (Accepts(v, a) <==> Accepts(w, a))
    ensures a.Cleanup? ==> SameLedger(Step(v, a), w)
    ensures !a.Cleanup? ==> SameLedger(Step(v, a), Step(w, a))
  {
    StepKeepsFaithful(v, a);
    StepKeepsFaithful(w, a);
    if a.Check? && Enabled(v, a) {
      DecidesByLedger(v, a);
      DecidesByLedger(w, a);
    }
  }

  /** Leaving every cleanup out of a run changes none of its admission decisions. */
  lemma {:induction false} CleanupIsInvisible(v: World, w: World, actions: seq<Action>)
    requires SameLedger(v, w)
    ensures Decisions(v, actions) == Decisions(w, WithoutCleanups(actions))
    decreases |actions|
  {
    if actions != [] {
      var a, rest := actions[0], actions[1..];
      SameStep(v, w, a);
      if a.Cleanup? {
        CleanupIsInvisible(Step(v, a), w, rest);
        assert WithoutCleanups(actions) == WithoutCleanups(rest);
      } else {
        CleanupIsInvisible(Step(v, a), Step(w, a), rest);
        assert WithoutCleanups(actions)[0] == a && WithoutCleanups(actions)[1..] == WithoutCleanups(rest);
      }
    }
  }

  // ---- The object -------------------------------------------------------------------------------------------------

  class BandwidthLimiter {
    const lifespan: nat
    const limitKB: nat
    const maxInferences: nat
    const kbPerInputToken: real
    const kbPerOutputToken: real
    var usagePerBlock: map<int, real>
    var inferencesPerBlock: map<int, int>

    function State(): Books
      reads this
    {
      Books(usagePerBlock, inferencesPerBlock)
    }

    constructor (lifespan: nat, limitKB: nat, maxInferences: nat, kbPerInputToken: real, kbPerOutputToken: real)
      ensures State() == Books(map[], map[])
      ensures this.lifespan == (if lifespan == 0 then 10 else lifespan)
      ensures this.limitKB == (if limitKB == 0 then 21 * 1024 else limitKB) && this.maxInferences == maxInferences
      ensures this.kbPerInputToken == (if kbPerInputToken == 0.0 then 0.0023 else kbPerInputToken)
      ensures this.kbPerOutputToken == (if kbPerOutputToken == 0.0 then 0.64 else kbPerOutputToken)
    {
      this.lifespan := if lifespan == 0 then 10 else lifespan;
      this.limitKB := if limitKB == 0 then 21 * 1024 else limitKB;
      this.maxInferences := maxInferences;
      this.kbPerInputToken := if kbPerInputToken == 0.0 then 0.0023 else kbPerInputToken;
      this.kbPerOutputToken := if kbPerOutputToken == 0.0 then 0.64 else kbPerOutputToken;
      usagePerBlock, inferencesPerBlock := map[], map[];
    }

    method CanAcceptRequest(h: int, promptTokens: int, maxTokens: int) returns (ok: bool, estimatedKB: real)
      ensures estimatedKB == promptTokens as real * kbPerInputToken + maxTokens as real * kbPerOutputToken
      ensures ok <==> Admits(BookView(State()), lifespan, h, estimatedKB, limitKB, maxInferences)
    {
      var windowSize := lifespan + 1;
      estimatedKB := promptTokens as real * kbPerInputToken + maxTokens as real * kbPerOutputToken;
      ghost var view := BookView(State());

      var totalUsage := 0.0;
      for i := 0 to windowSize
        invariant totalUsage == Window(view(Kilobytes), h, i)
      {
        totalUsage := totalUsage + UsageAt(State(), h + i);
      }
      AverageForm(totalUsage, estimatedKB, limitKB, windowSize);
      if totalUsage / windowSize as real + estimatedKB / windowSize as real > limitKB as real {
        return false, estimatedKB;
      }
      if maxInferences > 0 {
        var totalInferences := 0;
        for i := 0 to windowSize
          invariant totalInferences as real == Window(view(Inferences), h, i)
        {
          totalInferences := totalInferences + CountAt(State(), h + i);
        }
        AverageForm(totalInferences as real, 1.0, maxInferences, windowSize);
        if totalInferences as real / windowSize as real + 1.0 / windowSize as real > maxInferences as real {
          return false, estimatedKB;
        }
      }
      return true, estimatedKB;
    }

    method RecordRequest(start: int, estimatedKB: real)
      modifies this
      ensures State() == Record(old(State()), Request(start, estimatedKB), lifespan)
    {
      var c := start + lifespan;
      usagePerBlock := usagePerBlock[c := UsageAt(State(), c) + estimatedKB];
      inferencesPerBlock := inferencesPerBlock[c := CountAt(State(), c) + 1];
    }

    method ReleaseRequest(start: int, estimatedKB: real)
      modifies this
      ensures State() == Release(old(State()), Request(start, estimatedKB), lifespan)
    {
      var c := start + lifespan;
      usagePerBlock := usagePerBlock[c := UsageAt(State(), c) - estimatedKB];
      inferencesPerBlock := inferencesPerBlock[c := CountAt(State(), c) - 1];
      if usagePerBlock[c] <= 0.0 {
        usagePerBlock := usagePerBlock - {c};
        assert usagePerBlock == old(usagePerBlock) - {c};
      }
      if inferencesPerBlock[c] <= 0 {
        inferencesPerBlock := inferencesPerBlock - {c};
        assert inferencesPerBlock == old(inferencesPerBlock) - {c};
      }
    }

    static method Latest(blocks: set<int>, floor: int) returns (newest: int)
      ensures newest >= floor && (newest == floor || newest in blocks)
      ensures forall b :: b in blocks ==> b <= newest
    {
      newest := floor;
      var todo := blocks;
      while todo != {}
        invariant todo <= blocks
        invariant newest >= floor && (newest == floor || newest in blocks)
        invariant forall b :: b in blocks && b !in todo ==> b <= newest
        decreases todo
      {
        ghost var any := Member(todo);
        var b :| b in todo;
        todo := todo - {b};
        if b > newest {
          newest := b;
        }
      }
    }

    method CleanupOldEntries()
      modifies this
      ensures exists newest :: IsNewest(old(State()), newest) && State() == Cleaned(old(State()), newest, lifespan)
    {
      var newest := Latest(usagePerBlock.Keys, 0);
      newest := Latest(inferencesPerBlock.Keys, newest);
      assert IsNewest(State(), newest);
      if newest == 0 {
        return;
      }
      var cutoff := newest - lifespan * 2;
      usagePerBlock := map b | b in usagePerBlock && !(b < cutoff) :: usagePerBlock[b];
      inferencesPerBlock := map b | b in inferencesPerBlock && !(b < cutoff) :: inferencesPerBlock[b];
    }
  }
}
