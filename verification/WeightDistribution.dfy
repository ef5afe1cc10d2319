/** Scaling a per-node artifact distribution to the count committed on chain. */
module WeightDistribution {
  import opened Common

  datatype NodeCount = NodeCount(nodeId: string, count: nat)
  datatype NodeWeight = NodeWeight(nodeId: string, weight: nat)
  datatype Result<T> = Ok(value: T) | EmptyDistribution | ZeroTarget | ZeroSum

  /** `y` is `x` after one binary64 rounding to nearest: the relative error is at most 2^-53. */
  predicate Rounded(x: real, y: real) {
    x - x / 9007199254740992.0 <= y <= x + x / 9007199254740992.0
  }

  /** The two floating-point operations the scaling uses: quotient of two integers, integer times ratio. */
  datatype Float64 = Float64(div: (nat, nat) -> real, mul: (nat, real) -> real)

  /** Each result is one rounding away from the exact one. For the quotient this is said after multiplying
      by the divisor, which leaves the relative error as it is. */
  ghost predicate Binary64(f: Float64) {
    && (forall a: nat, b: nat :: 0 < b ==> 0.0 <= f.div(a, b) && Rounded(a as real, b as real * f.div(a, b)))
    && (forall c: nat, r: real :: 0.0 <= r ==> Rounded(c as real * r, f.mul(c, r)))
  }

  function Total(d: seq<NodeCount>): nat {
    if d == [] then 0 else Total(d[..|d| - 1]) + d[|d| - 1].count
  }

  function TotalWeight(ws: seq<NodeWeight>): nat {
    if ws == [] then 0 else TotalWeight(ws[..|ws| - 1]) + ws[|ws| - 1].weight
  }

  function Sum(xs: seq<real>): real {
    if xs == [] then 0.0 else Sum(xs[..|xs| - 1]) + xs[|xs| - 1]
  }

  /** Conversion to uint32 truncates; a value out of range keeps its low 32 bits, as on amd64. */
  function Truncate(x: real): nat {
    x.Floor % 0x1_0000_0000
  }

  /** The truncated shares, before any top-up. */
  function Shares(f: Float64, d: seq<NodeCount>, ratio: real): seq<NodeWeight> {
    seq(|d|, i requires 0 <= i < |d| => NodeWeight(d[i].nodeId, Truncate(f.mul(d[i].count, ratio))))
  }

  // ---- Sums -----------------------------------------------------------------------------------------

  lemma {:induction false} WeightIsPartOfTotal(ws: seq<NodeWeight>, i: nat)
    requires i < |ws|
    ensures ws[i].weight <= TotalWeight(ws)
  {
    if i < |ws| - 1 {
      WeightIsPartOfTotal(ws[..|ws| - 1], i);
    }
  }

  lemma {:induction false} TotalAfterUpdate(ws: seq<NodeWeight>, i: nat, w: NodeWeight)
    requires i < |ws|
    ensures TotalWeight(ws[i := w]) == TotalWeight(ws) - ws[i].weight + w.weight
  {
    var n := |ws| - 1;
    if i == n {
      assert ws[i := w][..n] == ws[..n];
    } else {
      assert ws[i := w][..n] == ws[..n][i := w];
      TotalAfterUpdate(ws[..n], i, w);
    }
  }

  lemma {:induction false} SameTotal(d: seq<NodeCount>, ws: seq<NodeWeight>)
    requires |ws| == |d| && forall i :: 0 <= i < |d| ==> ws[i].weight == d[i].count
    ensures TotalWeight(ws) == Total(d)
  {
    if d != [] {
      SameTotal(d[..|d| - 1], ws[..|d| - 1]);
    }
  }

  lemma {:induction false} PartOfSum(xs: seq<real>, i: nat)
    requires i < |xs| && forall k :: 0 <= k < |xs| ==> 0.0 <= xs[k]
    ensures xs[i] <= Sum(xs) && 0.0 <= Sum(xs)
  {
    var n := |xs| - 1;
    if n > 0 {
      PartOfSum(xs[..n], if i < n then i else 0);
    }
  }

  lemma Times(s: real, a: real, b: real)
    requires 0.0 <= s && a <= b
    ensures s * a <= s * b
  {
  }

  // ---- Rounding ---------------------------------------------------------------------------------------

  ghost predicate AddsUp(p: nat -> real, a: nat, b: nat) {
    p(a + b) == p(a) + p(b)
  }

  /** A measure that adds up gives the whole as the sum over the parts. */
  lemma {:induction false} AdditiveParts(d: seq<NodeCount>, p: nat -> real) returns (xs: seq<real>)
    requires p(0) == 0.0 && forall a: nat, b: nat :: AddsUp(p, a, b)
    ensures |xs| == |d| && Sum(xs) == p(Total(d))
    ensures forall i :: 0 <= i < |d| ==> xs[i] == p(d[i].count)
  {
    if d == [] {
      xs := [];
    } else {
      var n := |d| - 1;
      var front := AdditiveParts(d[..n], p);
      xs := front + [p(d[n].count)];
      assert xs[..n] == front;
      assert AddsUp(p, Total(d[..n]), d[n].count);
      forall i | 0 <= i < n ensures xs[i] == p(d[i].count) {
        assert xs[i] == front[i] && d[..n][i] == d[i];
      }
    }
  }

  /** The products fit, for a target in proportion. */
  ghost predicate HasRoom(sum: nat, wrapped: nat, target: nat) {
    target as real * sum as real <= wrapped as real * 4294967295.0
  }

  lemma CancelFactor(w: real, x: real, y: real)
    requires w > 0.0 && w * x <= w * y
    ensures x <= y
  {
    if x > y {
      Times(w, 0.0, x - y);
    }
  }

  lemma CrossProduct(w: real, s: real, ratio: real)
    ensures w * (s * ratio) == s * (w * ratio)
  {
  }

  /** In proportion to a target that fits 32 bits, the products add up to less than 2^32. */
  lemma {:induction false} ProductsFit(f: Float64, sum: nat, wrapped: nat, target: nat)
    requires Binary64(f) && 0 < target < 0x1_0000_0000 && 0 < wrapped
    requires HasRoom(sum, wrapped, target)
    ensures sum as real * f.div(target, wrapped) <= 4294967295.25
  {
    var w, s, ratio, t := wrapped as real, sum as real, f.div(target, wrapped), target as real;
    CrossProduct(w, s, ratio);
    Times(s, w * ratio, t + t / 9007199254740992.0);
    var bound := 4294967295.0 + 4294967295.0 / 9007199254740992.0;
    assert s * (t + t / 9007199254740992.0) == t * s + t * s / 9007199254740992.0;
    assert t * s + t * s / 9007199254740992.0 <= w * 4294967295.0 + w * 4294967295.0 / 9007199254740992.0 == w * bound;
    CancelFactor(w, s * ratio, bound);
  }

  /** The exact product with the rounded ratio: it adds up, each share is one rounding of it, over the whole sum it is
      one rounding away from the target, and a total in proportion stays within 32 bits. */
  lemma {:induction false} ExactProduct(f: Float64, target: nat, sum: nat, total: nat) returns (p: nat -> real)
    requires Binary64(f) && 0 < target < 0x1_0000_0000 && 0 < sum
    ensures p(0) == 0.0 && forall a: nat, b: nat :: AddsUp(p, a, b)
    ensures forall c: nat :: 0.0 <= p(c) && Rounded(p(c), f.mul(c, f.div(target, sum)))
    ensures Rounded(target as real, p(sum))
    ensures HasRoom(total, sum, target) ==> p(total) <= 4294967295.25
  {
    var ratio := f.div(target, sum);
    p := n => n as real * ratio;
    forall a: nat, b: nat ensures AddsUp(p, a, b) {
      Distribute(a as real, b as real, ratio);
    }
    forall c: nat ensures 0.0 <= p(c) && Rounded(p(c), f.mul(c, ratio)) {
      ShareIsRounded(f, c, ratio);
    }
    if HasRoom(total, sum, target) {
      ProductsFit(f, total, sum, target);
    }
  }

  lemma {:induction false} ShareIsRounded(f: Float64, c: nat, ratio: real)
    requires Binary64(f) && 0.0 <= ratio
    ensures 0.0 <= c as real * ratio && Rounded(c as real * ratio, f.mul(c, ratio))
  {
    Times(c as real, 0.0, ratio);
  }

  /** What a truncated share may be, given the exact product. */
  predicate NearProduct(exact: real, weight: nat) {
    exact - exact / 9007199254740992.0 - 1.0 < weight as real <= exact + exact / 9007199254740992.0
  }

  lemma TruncateBounds(exact: real, y: real)
    requires 0.0 <= exact <= 4294967295.5 && Rounded(exact, y)
    ensures NearProduct(exact, Truncate(y))
  {
    assert 0 <= y.Floor < 0x1_0000_0000;
  }

  lemma {:induction false} SumBetween(xs: seq<real>, ws: seq<NodeWeight>)
    requires |ws| == |xs| && forall i :: 0 <= i < |xs| ==> NearProduct(xs[i], ws[i].weight)
    ensures Sum(xs) - Sum(xs) / 9007199254740992.0 - |xs| as real <= TotalWeight(ws) as real
    ensures TotalWeight(ws) as real <= Sum(xs) + Sum(xs) / 9007199254740992.0
  {
    if xs != [] {
      var n := |xs| - 1;
      SumBetween(xs[..n], ws[..n]);
      assert NearProduct(xs[n], ws[n].weight);
    }
  }

  /** Each share is near its product, and a whole number within a hair of the target is at most the target. */
  lemma TruncatedSum(xs: seq<real>, ys: seq<real>, ws: seq<NodeWeight>, target: nat)
    requires target < 0x1_0000_0000 && |xs| == |ys| == |ws| && Rounded(target as real, Sum(xs))
    requires forall i :: 0 <= i < |xs| ==> 0.0 <= xs[i] && Rounded(xs[i], ys[i]) && ws[i].weight == Truncate(ys[i])
    ensures forall i :: 0 <= i < |xs| ==> NearProduct(xs[i], ws[i].weight)
    ensures target - |xs| <= TotalWeight(ws) <= target
  {
    forall i | 0 <= i < |xs| ensures NearProduct(xs[i], ws[i].weight) {
      PartOfSum(xs, i);
      TruncateBounds(xs[i], ys[i]);
    }
    SumBetween(xs, ws);
    assert TotalWeight(ws) as real < target as real + 1.0;
    assert target as real - |xs| as real - 1.0 < TotalWeight(ws) as real;
  }

  /** For every distribution the truncated shares never exceed the target and fall short of it by at most
      one unit per node. */
  lemma {:induction false} ScaledSumNearTarget(f: Float64, d: seq<NodeCount>, target: nat)
    requires Binary64(f) && 0 < target < 0x1_0000_0000 && 0 < Total(d)
    ensures target - |d| <= TotalWeight(Shares(f, d, f.div(target, Total(d)))) <= target
  {
    var ratio := f.div(target, Total(d));
    var p := ExactProduct(f, target, Total(d), Total(d));
    var xs := AdditiveParts(d, p);
    var ys := seq(|d|, i requires 0 <= i < |d| => f.mul(d[i].count, ratio));
    TruncatedSum(xs, ys, Shares(f, d, ratio), target);
  }

  // ---- Handing out the missing units ----------------------------------------------------------------

  function RoundRobin(i: nat, n: nat): (at: nat)
    requires 0 < n
    ensures at < n && (i < n ==> at == i)
  {
    i % n
  }

  /** One increment of the top-up loop, in uint32. */
  function Bump(ws: seq<NodeWeight>, at: nat): seq<NodeWeight>
    requires at < |ws|
  {
    ws[at := ws[at].(weight := (ws[at].weight + 1) % 0x1_0000_0000)]
  }

  /** The first `missing` increments, handed out round robin. */
  function BumpFirst(ws: seq<NodeWeight>, missing: nat): (out: seq<NodeWeight>)
    requires ws != []
    ensures |out| == |ws|
  {
    if missing == 0 then ws else Bump(BumpFirst(ws, missing - 1), RoundRobin(missing - 1, |ws|))
  }

  lemma BumpAdds(ws: seq<NodeWeight>, at: nat)
    requires at < |ws| && TotalWeight(ws) + 1 < 0x1_0000_0000
    ensures TotalWeight(Bump(ws, at)) == TotalWeight(ws) + 1
    ensures Bump(ws, at)[at].weight == ws[at].weight + 1
  {
    WeightIsPartOfTotal(ws, at);
    TotalAfterUpdate(ws, at, Bump(ws, at)[at]);
  }

  /** Every missing unit arrives; with at most one missing unit per node, nobody receives two. */
  lemma {:induction false} BumpFirstAdds(ws: seq<NodeWeight>, missing: nat)
    requires ws != [] && TotalWeight(ws) + missing < 0x1_0000_0000
    ensures TotalWeight(BumpFirst(ws, missing)) == TotalWeight(ws) + missing
    ensures missing <= |ws| ==> forall i :: 0 <= i < |ws| ==>
              BumpFirst(ws, missing)[i] == ws[i].(weight := ws[i].weight + if i < missing then 1 else 0)
  {
    if missing > 0 {
      BumpFirstAdds(ws, missing - 1);
      BumpAdds(BumpFirst(ws, missing - 1), RoundRobin(missing - 1, |ws|));
    }
  }

  method TopUp(ws: seq<NodeWeight>, missing: int) returns (out: seq<NodeWeight>)
    requires ws != []
    ensures out == BumpFirst(ws, if missing < 0 then 0 else missing)
  {
    out := ws;
    var diff, i := missing, 0;
    while diff > 0
      invariant 0 <= i && diff == missing - i && (i == 0 || 0 <= diff)
      invariant out == BumpFirst(ws, i)
    {
      out := Bump(out, RoundRobin(i, |out|));
      diff := diff - 1;
      i := i + 1;
    }
  }

  // ---- The operation ----------------------------------------------------------------------------------

  method SumCounts(d: seq<NodeCount>) returns (sum: nat)
    ensures sum == Total(d) % 0x1_0000_0000
  {
    sum := 0;
    for i := 0 to |d|
      invariant sum == Total(d[..i]) % 0x1_0000_0000
    {
      assert d[..i + 1][..i] == d[..i];
      sum := (sum + d[i].count) % 0x1_0000_0000;
    }
    assert d[..|d|] == d;
  }

  method ScaleAll(f: Float64, d: seq<NodeCount>, ratio: real) returns (weights: seq<NodeWeight>, scaledSum: nat)
    ensures weights == Shares(f, d, ratio)
    ensures scaledSum == TotalWeight(weights) % 0x1_0000_0000
  {
    weights, scaledSum := [], 0;
    for i := 0 to |d|
      invariant |weights| == i && scaledSum == TotalWeight(weights) % 0x1_0000_0000
      invariant forall k :: 0 <= k < i ==> weights[k] == Shares(f, d, ratio)[k]
    {
      var w := NodeWeight(d[i].nodeId, Truncate(f.mul(d[i].count, ratio)));
      assert (weights + [w])[..i] == weights;
      weights := weights + [w];
      scaledSum := (scaledSum + w.weight) % 0x1_0000_0000;
    }
  }

  function Counts(d: seq<NodeCount>): seq<NodeWeight> {
    seq(|d|, i requires 0 <= i < |d| => NodeWeight(d[i].nodeId, d[i].count))
  }

  /** What the operation computes, with every uint32 sum taken modulo 2^32. `d` is the map in sorted key order, `scan`
      the same map in the order in which it happens to be iterated. */
  function Distribution(f: Float64, d: seq<NodeCount>, scan: seq<NodeCount>, target: nat): Result<seq<NodeWeight>> {
    var localSum := Total(scan) % 0x1_0000_0000;
    if d == [] then EmptyDistribution
    else if target == 0 then ZeroTarget
    else if localSum == 0 then ZeroSum
    else if localSum == target then Ok(Counts(scan))
    else
      var shares := Shares(f, d, f.div(target, localSum));
      var scaledSum := TotalWeight(shares) % 0x1_0000_0000;
      Ok(BumpFirst(shares, if target < scaledSum then 0 else target - scaledSum))
  }

  method GetWeightDistribution(f: Float64, d: seq<NodeCount>, scan: seq<NodeCount>, target: nat)
    returns (r: Result<seq<NodeWeight>>)
    ensures r == Distribution(f, d, scan, target)
  {
    if |d| == 0 {
      return EmptyDistribution;
    }
    if target == 0 {
      return ZeroTarget;
    }
    var localSum := SumCounts(scan);
    if localSum == 0 {
      return ZeroSum;
    }
    if localSum == target {
      return Ok(Counts(scan));
    }
    var weights, scaledSum := ScaleAll(f, d, f.div(target, localSum));
    var out := TopUp(weights, target - scaledSum);
    r := Ok(out);
  }

  /** The final weights, once the truncated shares are known to be short by at most one unit per node. */
  ghost predicate MeetsTarget(shares: seq<NodeWeight>, out: seq<NodeWeight>, target: nat) {
    && |out| == |shares| && TotalWeight(out) == target
    && forall i :: 0 <= i < |out| ==> out[i] == shares[i] || out[i] == shares[i].(weight := shares[i].weight + 1)
  }

  lemma TopUpMeetsTarget(shares: seq<NodeWeight>, target: nat)
    requires shares != [] && target < 0x1_0000_0000 && target - |shares| <= TotalWeight(shares) <= target
    ensures MeetsTarget(shares, BumpFirst(shares, target - TotalWeight(shares)), target)
  {
    BumpFirstAdds(shares, target - TotalWeight(shares));
  }

  /** What the operation guarantees: exactly the target, with a share or a share plus one per node. */
  ghost predicate Exact(f: Float64, d: seq<NodeCount>, scan: seq<NodeCount>, target: nat) {
    && Distribution(f, d, scan, target).Ok?
    && var out := Distribution(f, d, scan, target).value;
       if Total(d) == target then out == Counts(scan) && TotalWeight(out) == target
       else MeetsTarget(Shares(f, d, f.div(target, Total(d))), out, target)
  }

  /** One map in two orders has one total. */
  lemma {:induction false} TotalIgnoresOrder(d: seq<NodeCount>, scan: seq<NodeCount>)
    requires multiset(d) == multiset(scan)
    ensures Total(d) == Total(scan)
  {
    if d == [] {
      assert |multiset(scan)| == 0;
    } else {
      var n, x := |d| - 1, d[|d| - 1];
      assert d == d[..n] + [x];
      assert x in multiset(scan);
      var k :| 0 <= k < |scan| && scan[k] == x;
      assert scan == scan[..k] + [x] + scan[k + 1..];
      assert multiset(d[..n]) == multiset(d) - multiset{x};
      assert multiset(scan[..k] + scan[k + 1..]) == multiset(scan) - multiset{x};
      TotalIgnoresOrder(d[..n], scan[..k] + scan[k + 1..]);
      TotalWithout(scan, k);
    }
  }

  lemma {:induction false} TotalWithout(d: seq<NodeCount>, k: nat)
    requires k < |d|
    ensures Total(d) == Total(d[..k] + d[k + 1..]) + d[k].count
  {
    var n := |d| - 1;
    if k == n {
      assert d[..k] + d[k + 1..] == d[..n];
    } else {
      TotalWithout(d[..n], k);
      assert (d[..k] + d[k + 1..])[..n - 1] == d[..n][..k] + d[..n][k + 1..];
    }
  }

  lemma {:induction false} EqualIsExact(f: Float64, d: seq<NodeCount>, scan: seq<NodeCount>, target: nat)
    requires Total(d) == Total(scan) == target && d != [] && 0 < target < 0x1_0000_0000
    ensures Exact(f, d, scan, target)
  {
    SameTotal(scan, Counts(scan));
  }

  lemma SmallModulo(x: nat)
    requires x < 0x1_0000_0000
    ensures x % 0x1_0000_0000 == x
  {
  }

  lemma {:induction false} ScaledBranch(f: Float64, d: seq<NodeCount>, scan: seq<NodeCount>, target: nat, sum: nat,
                                        shares: seq<NodeWeight>, scaled: nat)
    requires d != [] && 0 < target != sum && 0 < sum == Total(scan) % 0x1_0000_0000
    requires shares == Shares(f, d, f.div(target, sum)) && scaled == TotalWeight(shares) % 0x1_0000_0000 <= target
    ensures Distribution(f, d, scan, target) == Ok(BumpFirst(shares, target - scaled))
  {
  }

  lemma {:induction false} ScaledDistribution(f: Float64, d: seq<NodeCount>, scan: seq<NodeCount>, target: nat,
                                              shares: seq<NodeWeight>)
    requires 0 < Total(scan) < 0x1_0000_0000 && Total(scan) != target && d != [] && 0 < target < 0x1_0000_0000
    requires shares == Shares(f, d, f.div(target, Total(scan))) && TotalWeight(shares) <= target
    ensures Distribution(f, d, scan, target) == Ok(BumpFirst(shares, target - TotalWeight(shares)))
  {
    SmallModulo(Total(scan));
    SmallModulo(TotalWeight(shares));
    ScaledBranch(f, d, scan, target, Total(scan), shares, TotalWeight(shares));
  }

  lemma {:induction false} ScaledIsExact(f: Float64, d: seq<NodeCount>, scan: seq<NodeCount>, target: nat)
    requires 0 < Total(d) == Total(scan) < 0x1_0000_0000 && Total(d) != target && d != [] && 0 < target < 0x1_0000_0000
    requires target - |d| <= TotalWeight(Shares(f, d, f.div(target, Total(d)))) <= target
    ensures Exact(f, d, scan, target)
  {
    var shares := Shares(f, d, f.div(target, Total(d)));
    ScaledDistribution(f, d, scan, target, shares);
    TopUpMeetsTarget(shares, target);
  }

  /** Whenever the counts add up without wrapping, the returned weights sum to exactly the target, and
      each node gets its truncated share or one unit more. */
  lemma {:induction false} DistributionMeetsTarget(f: Float64, d: seq<NodeCount>, scan: seq<NodeCount>, target: nat)
    requires multiset(d) == multiset(scan)
    requires Binary64(f) && d != [] && 0 < target < 0x1_0000_0000 && 0 < Total(d) < 0x1_0000_0000
    ensures Exact(f, d, scan, target)
  {
    TotalIgnoresOrder(d, scan);
    if Total(d) == target {
      EqualIsExact(f, d, scan, target);
    } else {
      ScaledSumNearTarget(f, d, target);
      ScaledIsExact(f, d, scan, target);
    }
  }

  /** Shares are proportional: with the ratio the code uses, a share is `c * ratio` rounded once and
      truncated, so off by less than one unit, and over the whole sum that same ratio gives the target up
      to one rounding. */
  lemma {:induction false} SharesAreProportional(f: Float64, c: nat, sum: nat, target: nat)
    requires Binary64(f) && 0 < target < 0x1_0000_0000 && 0 < sum && c <= sum
    ensures var ratio := f.div(target, sum);
            && Rounded(target as real, sum as real * ratio)
            && NearProduct(c as real * ratio, Truncate(f.mul(c, ratio)))
  {
    ShareOfTarget(f, c, sum - c, f.div(target, sum), target);
  }

  lemma {:induction false} ShareOfTarget(f: Float64, c: nat, rest: nat, ratio: real, target: nat)
    requires Binary64(f) && 0.0 <= ratio && target < 0x1_0000_0000
    requires Rounded(target as real, (c + rest) as real * ratio)
    ensures NearProduct(c as real * ratio, Truncate(f.mul(c, ratio)))
  {
    PartWithinTarget(c as real, rest as real, ratio, target);
    TruncateBounds(c as real * ratio, f.mul(c, ratio));
  }

  lemma PartWithinTarget(part: real, rest: real, ratio: real, target: nat)
    requires 0.0 <= part && 0.0 <= rest && 0.0 <= ratio && target < 0x1_0000_0000
    requires Rounded(target as real, (part + rest) * ratio)
    ensures 0.0 <= part * ratio <= 4294967295.5
  {
    Times(part, 0.0, ratio);
    Times(rest, 0.0, ratio);
    Distribute(part, rest, ratio);
  }

  // ---- When the total wraps -----------------------------------------------------------------------------------

  /** The uint32 sum can wrap. When the wrapped sum happens to equal the target, the counts are returned
      as they are, and they meet the target if and only if the sum did not wrap. */
  lemma {:induction false} EqualBranchExactIffNoWrap(f: Float64, d: seq<NodeCount>, scan: seq<NodeCount>, target: nat)
    requires multiset(d) == multiset(scan)
    requires d != [] && 0 < target < 0x1_0000_0000 && Total(d) % 0x1_0000_0000 == target
    ensures Distribution(f, d, scan, target).Ok?
    ensures TotalWeight(Distribution(f, d, scan, target).value) == target <==> Total(d) < 0x1_0000_0000
  {
    TotalIgnoresOrder(d, scan);
    SameTotal(scan, Counts(scan));
  }

  /** A wrapped total is at least twice the sum the code works with, so the products add up to at least twice what they
      should. */
  lemma {:induction false} WrappedProductsDouble(p: nat -> real, sum: nat, wrapped: nat)
    requires p(0) == 0.0 && (forall a: nat, b: nat :: AddsUp(p, a, b)) && forall c: nat :: 0.0 <= p(c)
    requires 2 * wrapped <= sum
    ensures 2.0 * p(wrapped) <= p(sum)
  {
    assert AddsUp(p, wrapped, sum - wrapped) && AddsUp(p, wrapped, sum - 2 * wrapped);
    assert p(sum) == p(wrapped) + p(sum - wrapped) && p(sum - wrapped) == p(wrapped) + p(sum - 2 * wrapped);
  }

  lemma TruncatedDouble(xs: seq<real>, ys: seq<real>, ws: seq<NodeWeight>, target: nat, one: real)
    requires |xs| < target < 0x1_0000_0000 && |xs| == |ys| == |ws| && Rounded(target as real, one)
    requires 2.0 * one <= Sum(xs) <= 4294967295.25
    requires forall i :: 0 <= i < |xs| ==> 0.0 <= xs[i] && Rounded(xs[i], ys[i]) && ws[i].weight == Truncate(ys[i])
    ensures target < TotalWeight(ws) < 0x1_0000_0000
  {
    forall i | 0 <= i < |xs| ensures NearProduct(xs[i], ws[i].weight) {
      PartOfSum(xs, i);
      TruncateBounds(xs[i], ys[i]);
    }
    SumBetween(xs, ws);
    assert TotalWeight(ws) as real < 4294967296.0;
    assert TotalWeight(ws) as real > target as real;
  }

  /** Scaling by a wrapped total overshoots: the shares alone exceed the target. */
  lemma {:induction false} WrappedSharesOvershoot(f: Float64, d: seq<NodeCount>, target: nat, wrapped: nat)
    requires Binary64(f) && |d| < target < 0x1_0000_0000 && 0 < wrapped && 2 * wrapped <= Total(d)
    requires HasRoom(Total(d), wrapped, target)
    ensures target < TotalWeight(Shares(f, d, f.div(target, wrapped))) < 0x1_0000_0000
  {
    var ratio := f.div(target, wrapped);
    var p := ExactProduct(f, target, wrapped, Total(d));
    var xs := AdditiveParts(d, p);
    WrappedProductsDouble(p, Total(d), wrapped);
    var ys := seq(|d|, i requires 0 <= i < |d| => f.mul(d[i].count, ratio));
    TruncatedDouble(xs, ys, Shares(f, d, ratio), target, p(wrapped));
  }

  lemma WrappedIsHalf(sum: nat)
    requires sum >= 0x1_0000_0000
    ensures 2 * (sum % 0x1_0000_0000) <= sum
  {
    assert sum == sum / 0x1_0000_0000 * 0x1_0000_0000 + sum % 0x1_0000_0000;
  }

  /** A wrapped sum equal to the target leaves no room for the products. */
  lemma RoomMeansUnequal(sum: nat, wrapped: nat, target: nat)
    requires 0 < target && sum >= 0x1_0000_0000 && HasRoom(sum, wrapped, target)
    ensures wrapped != target
  {
    if wrapped == target {
      CancelFactor(target as real, sum as real, 4294967295.0);
    }
  }

  lemma {:induction false} WrappedSumMissesTarget(f: Float64, d: seq<NodeCount>, scan: seq<NodeCount>, target: nat)
    requires Binary64(f) && multiset(d) == multiset(scan) && d != [] && |d| < target < 0x1_0000_0000
    requires 0 < Total(d) % 0x1_0000_0000 && Total(d) >= 0x1_0000_0000
    requires HasRoom(Total(d), Total(d) % 0x1_0000_0000, target)
    ensures Distribution(f, d, scan, target).Ok? && TotalWeight(Distribution(f, d, scan, target).value) > target
  {
    TotalIgnoresOrder(d, scan);
    WrappedIsHalf(Total(d));
    Overshoots(f, d, scan, target, Total(d) % 0x1_0000_0000);
  }

  lemma {:induction false} Overshoots(f: Float64, d: seq<NodeCount>, scan: seq<NodeCount>, target: nat, wrapped: nat)
    requires Binary64(f) && d != [] && |d| < target < 0x1_0000_0000
    requires 0 < wrapped == Total(scan) % 0x1_0000_0000 && 2 * wrapped <= Total(d) && Total(d) >= 0x1_0000_0000
    requires HasRoom(Total(d), wrapped, target)
    ensures Distribution(f, d, scan, target).Ok? && TotalWeight(Distribution(f, d, scan, target).value) > target
  {
    RoomMeansUnequal(Total(d), wrapped, target);
    WrappedSharesOvershoot(f, d, target, wrapped);
    OvershootIsKept(f, d, scan, target, wrapped);
  }

  /** Shares beyond the target get no top-up and stay as they are. */
  lemma {:induction false} OvershootIsKept(f: Float64, d: seq<NodeCount>, scan: seq<NodeCount>, target: nat,
                                           wrapped: nat)
    requires d != [] && 0 < target && 0 < wrapped == Total(scan) % 0x1_0000_0000 != target
    requires target < TotalWeight(Shares(f, d, f.div(target, wrapped))) < 0x1_0000_0000
    ensures Distribution(f, d, scan, target) == Ok(Shares(f, d, f.div(target, wrapped)))
  {
  }

  /** With more units to hand out than nodes and products that add up to no more than 32 bits, the weights meet the
      target if and only if the counts add up without wrapping. */
  lemma {:induction false} TargetMetIffNoWrap(f: Float64, d: seq<NodeCount>, scan: seq<NodeCount>, target: nat)
    requires Binary64(f) && multiset(d) == multiset(scan) && d != [] && |d| < target < 0x1_0000_0000
    requires 0 < Total(d) % 0x1_0000_0000
    requires HasRoom(Total(d), Total(d) % 0x1_0000_0000, target)
    ensures Distribution(f, d, scan, target).Ok?
    ensures TotalWeight(Distribution(f, d, scan, target).value) == target <==> Total(d) < 0x1_0000_0000
  {
    if Total(d) < 0x1_0000_0000 {
      DistributionMeetsTarget(f, d, scan, target);
    } else {
      WrappedSumMissesTarget(f, d, scan, target);
    }
  }

  // ---- Wrapped inputs -------------------------------------------------------------------------------------------

  /** Two uint32 counts whose sum wraps onto the target: they are returned as they are, and miss it. */
  lemma {:induction false} WrappingDistribution(f: Float64, target: nat) returns (d: seq<NodeCount>)
    requires 0 < target < 0xFFFF_FFFF
    ensures d == [NodeCount("a", 0xFFFF_FFFF), NodeCount("b", target + 1)]
    ensures Total(d) % 0x1_0000_0000 == target
    ensures Distribution(f, d, d, target).Ok? && TotalWeight(Distribution(f, d, d, target).value) != target
  {
    d := [NodeCount("a", 0xFFFF_FFFF), NodeCount("b", target + 1)];
    assert d[..1] == [NodeCount("a", 0xFFFF_FFFF)] && d[..1][..0] == [];
    assert Total(d[..1]) == 0xFFFF_FFFF;
    EqualBranchExactIffNoWrap(f, d, d, target);
  }

  function Three(count: nat): seq<NodeCount> {
    [NodeCount("a", count), NodeCount("b", count), NodeCount("c", count)]
  }

  lemma TotalOfThree(count: nat)
    ensures Total(Three(count)) == 3 * count
  {
    var d := Three(count);
    assert d[..2][..1] == d[..1] && d[..1][..0] == [];
    assert Total(d[..1]) == count && Total(d[..2]) == 2 * count;
  }

  lemma WeightOfThree(ws: seq<NodeWeight>)
    requires |ws| == 3
    ensures TotalWeight(ws) == ws[0].weight + ws[1].weight + ws[2].weight
  {
    assert ws[..2][..1] == ws[..1] && ws[..1][..0] == [];
    assert TotalWeight(ws[..1]) == ws[0].weight && TotalWeight(ws[..2]) == ws[0].weight + ws[1].weight;
  }

  /** Three counts of 2^31 wrap to 2^31, and scaling by that overshoots every target with room for the products. */
  lemma {:induction false} ScalingByWrappedSumMisses(f: Float64, target: nat)
    requires Binary64(f) && 3 < target <= 1431655765
    ensures var d := Three(0x8000_0000);
            && Total(d) % 0x1_0000_0000 == 0x8000_0000
            && Distribution(f, d, d, target).Ok? && TotalWeight(Distribution(f, d, d, target).value) != target
  {
    TotalOfThree(0x8000_0000);
    WrappedSumMissesTarget(f, Three(0x8000_0000), Three(0x8000_0000), target);
  }

  /** Why room is asked for: the same counts with target 2^32 - 1 and exact products meet it, because the sum of the
      shares and two of the topped-up weights wrap as well. */
  lemma {:induction false} WrapsCanCancel(f: Float64)
    requires f.mul(0x8000_0000, f.div(0xFFFF_FFFF, 0x8000_0000)) == 4294967295.0
    ensures var d := Three(0x8000_0000);
            && Distribution(f, d, d, 0xFFFF_FFFF) ==
               Ok([NodeWeight("a", 0), NodeWeight("b", 0), NodeWeight("c", 0xFFFF_FFFF)])
            && TotalWeight(Distribution(f, d, d, 0xFFFF_FFFF).value) == 0xFFFF_FFFF
  {
    var d := Three(0x8000_0000);
    TotalOfThree(0x8000_0000);
    var shares := Shares(f, d, f.div(0xFFFF_FFFF, 0x8000_0000));
    assert Truncate(4294967295.0) == 0xFFFF_FFFF;
    WeightOfThree(shares);
    assert TotalWeight(shares) % 0x1_0000_0000 == 0xFFFF_FFFD;
    assert Distribution(f, d, d, 0xFFFF_FFFF) == Ok(BumpFirst(shares, 2));
    var one := Bump(shares, 0);
    assert BumpFirst(shares, 1) == Bump(BumpFirst(shares, 0), RoundRobin(0, 3)) == one;
    assert BumpFirst(shares, 2) == Bump(one, RoundRobin(1, 3)) == Bump(one, 1);
    var out := Bump(one, 1);
    assert out == [NodeWeight("a", 0), NodeWeight("b", 0), NodeWeight("c", 0xFFFF_FFFF)];
    WeightOfThree(out);
  }

  lemma {:induction false} ThreeQuarters(p: nat -> real, c: nat, w: nat)
    requires (forall a: nat, b: nat :: AddsUp(p, a, b)) && (forall n: nat :: 0.0 <= p(n)) && 4 * c <= 3 * w
    ensures 4.0 * p(c) <= 3.0 * p(w)
  {
    assert AddsUp(p, c, c) && AddsUp(p, 2 * c, 2 * c) && AddsUp(p, w, w) && AddsUp(p, 2 * w, w);
    assert AddsUp(p, 4 * c, 3 * w - 4 * c);
    assert p(c + c) == p(2 * c) && p(2 * c + 2 * c) == p(4 * c) && p(w + w) == p(2 * w) && p(2 * w + w) == p(3 * w);
    assert p(4 * c + (3 * w - 4 * c)) == p(3 * w);
  }

  lemma RoundedBelowOne(x: real, z: real, y: real)
    requires 0.0 <= x && 4.0 * x <= 3.0 * z && Rounded(1.0, z) && Rounded(x, y)
    ensures Truncate(y) == 0
  {
    assert 0.0 <= y < 1.0;
  }

  lemma {:induction false} SmallShareIsZero(f: Float64, count: nat, wrapped: nat)
    requires Binary64(f) && 0 < wrapped && 4 * count <= 3 * wrapped
    ensures Truncate(f.mul(count, f.div(1, wrapped))) == 0
  {
    var p := ExactProduct(f, 1, wrapped, 0);
    ThreeQuarters(p, count, wrapped);
    RoundedBelowOne(p(count), p(wrapped), f.mul(count, f.div(1, wrapped)));
  }

  /** Why more units than nodes are asked for: with one unit and counts that wrap, none of which earns a unit of
      its own, the shares are all 0 and the top-up meets the target. */
  lemma {:induction false} TopUpCanHide(f: Float64, d: seq<NodeCount>, wrapped: nat)
    requires Binary64(f) && d != [] && 1 < wrapped == Total(d) % 0x1_0000_0000
    requires forall i :: 0 <= i < |d| ==> 4 * d[i].count <= 3 * wrapped
    ensures Distribution(f, d, d, 1).Ok? && TotalWeight(Distribution(f, d, d, 1).value) == 1
  {
    var shares := Shares(f, d, f.div(1, wrapped));
    forall i | 0 <= i < |d| ensures shares[i].weight == 0 {
      SmallShareIsZero(f, d[i].count, wrapped);
    }
    ZeroWeights(shares);
    BumpFirstAdds(shares, 1);
  }

  lemma {:induction false} ZeroWeights(ws: seq<NodeWeight>)
    requires forall i :: 0 <= i < |ws| ==> ws[i].weight == 0
    ensures TotalWeight(ws) == 0
  {
    if ws != [] {
      ZeroWeights(ws[..|ws| - 1]);
    }
  }

  /** Such counts exist: four of 3 * 2^29. */
  lemma FourCountsWrap()
    ensures var d := Three(0x6000_0000) + [NodeCount("d", 0x6000_0000)];
            && Total(d) >= 0x1_0000_0000 && Total(d) % 0x1_0000_0000 == 0x8000_0000
            && forall i :: 0 <= i < |d| ==> 4 * d[i].count <= 3 * 0x8000_0000
  {
    var d := Three(0x6000_0000) + [NodeCount("d", 0x6000_0000)];
    TotalOfThree(0x6000_0000);
    assert d[..3] == Three(0x6000_0000);
  }
}
