/** The sample of leaf indices a validator asks for: a Fisher-Yates shuffle of 0..n-1 cut after the sample size, run
    lazily on a map of the places that were swapped. The random draws are inputs. */
module LeafSampling {
  import opened Common

  // ---- The full shuffle ---------------------------------------------------------------------------------------------

  /** Draw `i` picks one of the `n - i` places from `i` on. */
  predicate AreDraws(n: nat, draws: seq<nat>) {
    |draws| <= n && forall i :: 0 <= i < |draws| ==> draws[i] < n - i
  }

  function Identity(n: nat): seq<nat> {
    seq(n, i requires 0 <= i < n => i)
  }

  function Swap(p: seq<nat>, i: nat, j: nat): seq<nat>
    requires i < |p| && j < |p|
  {
    p[i := p[j]][j := p[i]]
  }

  /** The whole sequence after the draws: at step `i` place `i` is swapped with the drawn one. */
  function Shuffled(n: nat, draws: seq<nat>): (p: seq<nat>)
    requires AreDraws(n, draws)
    ensures |p| == n
  {
    if draws == [] then Identity(n)
    else
      var k := |draws| - 1;
      Swap(Shuffled(n, draws[..k]), k, k + draws[k])
  }

  ghost predicate Holds(p: seq<nat>, x: nat) {
    exists k :: 0 <= k < |p| && p[k] == x
  }

  /** Each index below `n` once. */
  ghost predicate IsPermutation(p: seq<nat>, n: nat) {
    && |p| == n && NoDuplicates(p)
    && (forall i :: 0 <= i < n ==> p[i] < n)
    && (forall x :: 0 <= x < n ==> Holds(p, x))
  }

  lemma SwapKeepsPermutation(p: seq<nat>, n: nat, i: nat, j: nat)
    requires IsPermutation(p, n) && i < n && j < n
    ensures IsPermutation(Swap(p, i, j), n)
  {
    var q := Swap(p, i, j);
    forall x | 0 <= x < n
      ensures Holds(q, x)
    {
      assert Holds(p, x);
      var k :| 0 <= k < |p| && p[k] == x;
      assert q[if k == i then j else if k == j then i else k] == x;
    }
  }

  lemma {:induction false} ShuffledIsPermutation(n: nat, draws: seq<nat>)
    requires AreDraws(n, draws)
    ensures IsPermutation(Shuffled(n, draws), n)
  {
    if draws == [] {
      forall x | 0 <= x < n
        ensures Holds(Identity(n), x)
      {
        assert Identity(n)[x] == x;
      }
    } else {
      var k := |draws| - 1;
      ShuffledIsPermutation(n, draws[..k]);
      SwapKeepsPermutation(Shuffled(n, draws[..k]), n, k, k + draws[k]);
    }
  }

  // ---- Draws and samples ------------------------------------------------------------------------------------------

  function Sampled(n: nat, draws: seq<nat>): seq<nat>
    requires AreDraws(n, draws)
  {
    Shuffled(n, draws)[..|draws|]
  }

  /** Later swaps leave the sampled front alone. */
  lemma SampledGrows(n: nat, draws: seq<nat>)
    requires AreDraws(n, draws) && draws != []
    ensures var k := |draws| - 1;
            Sampled(n, draws) == Sampled(n, draws[..k]) + [Shuffled(n, draws[..k])[k + draws[k]]]
  {
  }

  /** One more draw is one more swap and one more index. */
  lemma OneMoreDraw(n: nat, draws: seq<nat>, d: nat)
    requires AreDraws(n, draws) && |draws| < n && d < n - |draws|
    ensures AreDraws(n, draws + [d])
    ensures Shuffled(n, draws + [d]) == Swap(Shuffled(n, draws), |draws|, |draws| + d)
    ensures Sampled(n, draws + [d]) == Sampled(n, draws) + [Shuffled(n, draws)[|draws| + d]]
  {
    assert (draws + [d])[..|draws|] == draws;
    SampledGrows(n, draws + [d]);
  }

  /** The sample holds different indices below `n`. */
  lemma SampleIsDistinct(n: nat, draws: seq<nat>)
    requires AreDraws(n, draws)
    ensures NoDuplicates(Sampled(n, draws)) && forall x :: x in Sampled(n, draws) ==> x < n
  {
    ShuffledIsPermutation(n, draws);
  }

  /** An index that is not in the front of a permutation is further on. */
  lemma FoundAhead(p: seq<nat>, n: nat, sample: seq<nat>, k: nat) returns (j: nat)
    requires IsPermutation(p, n) && NoDuplicates(sample) && k < |sample| <= n && sample[k] < n
    requires p[..k] == sample[..k]
    ensures k <= j < n && p[j] == sample[k]
  {
    forall i | 0 <= i < k
      ensures p[i] != sample[k]
    {
      assert p[i] == p[..k][i] == sample[..k][i] == sample[i];
    }
    assert Holds(p, sample[k]);
    j :| 0 <= j < |p| && p[j] == sample[k];
  }

  /** Every sequence of different indices is the sample of some draws. */
  lemma {:induction false} EverySampleIsDrawn(n: nat, sample: seq<nat>) returns (draws: seq<nat>)
    requires NoDuplicates(sample) && |sample| <= n && forall i :: 0 <= i < |sample| ==> sample[i] < n
    ensures AreDraws(n, draws) && |draws| == |sample| && Sampled(n, draws) == sample
  {
    if sample == [] {
      draws := [];
    } else {
      var k := |sample| - 1;
      var before := EverySampleIsDrawn(n, sample[..k]);
      ShuffledIsPermutation(n, before);
      var j := FoundAhead(Shuffled(n, before), n, sample, k);
      OneMoreDraw(n, before, j - k);
      draws := before + [j - k];
      assert sample == sample[..k] + [sample[k]];
    }
  }

  lemma LastDraw(n: nat, draws: seq<nat>, x: nat, y: nat)
    requires AreDraws(n, draws) && |draws| < n && x < n - |draws| && y < n - |draws|
    ensures AreDraws(n, draws + [x]) && AreDraws(n, draws + [y])
    ensures Sampled(n, draws + [x]) == Sampled(n, draws + [y]) ==> x == y
  {
    OneMoreDraw(n, draws, x);
    OneMoreDraw(n, draws, y);
    ShuffledIsPermutation(n, draws);
    SameLast(Sampled(n, draws), Shuffled(n, draws), |draws| + x, |draws| + y);
  }

  lemma SameLast(front: seq<nat>, p: seq<nat>, i: nat, j: nat)
    requires NoDuplicates(p) && i < |p| && j < |p|
    ensures front + [p[i]] == front + [p[j]] ==> i == j
  {
    assert (front + [p[i]])[|front|] == p[i] && (front + [p[j]])[|front|] == p[j];
  }

  lemma SampledFront(n: nat, draws: seq<nat>)
    requires AreDraws(n, draws) && draws != []
    ensures Sampled(n, draws)[..|draws| - 1] == Sampled(n, draws[..|draws| - 1])
  {
    SampledGrows(n, draws);
  }

  /** Different draws give different samples: with the lemma before, uniform draws give a uniform ordered sample. */
  lemma {:induction false} SampleDeterminesDraws(n: nat, d: seq<nat>, e: seq<nat>)
    requires AreDraws(n, d) && AreDraws(n, e) && |d| == |e|
    ensures Sampled(n, d) == Sampled(n, e) ==> d == e
  {
    if d != [] && Sampled(n, d) == Sampled(n, e) {
      var k := |d| - 1;
      SampledFront(n, d);
      SampledFront(n, e);
      SampleDeterminesDraws(n, d[..k], e[..k]);
      assert d == d[..k] + [d[k]] && e == e[..k] + [e[k]];
      LastDraw(n, d[..k], d[k], e[k]);
    }
  }

  // ---- The lazy shuffle -------------------------------------------------------------------------------------------

  function Get(swaps: map<nat, nat>, i: nat): nat {
    if i in swaps then swaps[i] else i
  }

  /** The map stands for the whole sequence: a place without an entry holds its own index. */
  ghost predicate StandsFor(swaps: map<nat, nat>, p: seq<nat>) {
    forall i :: 0 <= i < |p| ==> Get(swaps, i) == p[i]
  }

  /** One lazy step stands for one swap. */
  lemma LazySwap(swaps: map<nat, nat>, p: seq<nat>, i: nat, j: nat)
    requires StandsFor(swaps, p) && i < |p| && j < |p|
    ensures StandsFor(swaps[i := Get(swaps, j)][j := Get(swaps, i)], Swap(p, i, j))
  {
  }

  lemma KeysGrow(swaps: map<nat, nat>, i: nat, j: nat, x: nat, y: nat)
    ensures |swaps[i := x][j := y].Keys| <= |swaps.Keys| + 2
  {
    assert swaps[i := x][j := y].Keys == (swaps.Keys + {i}) + {j};
  }

  /** After the first draws: the map stands for the shuffle so far, and `result` is its front. */
  ghost predicate Lazily(n: nat, draws: seq<nat>, swaps: map<nat, nat>, result: seq<nat>)
    requires AreDraws(n, draws)
  {
    StandsFor(swaps, Shuffled(n, draws)) && result == Sampled(n, draws) && |swaps.Keys| <= 2 * |draws|
  }

  lemma OneLazyStep(n: nat, draws: seq<nat>, d: nat, swaps: map<nat, nat>, result: seq<nat>)
    requires AreDraws(n, draws) && |draws| < n && d < n - |draws| && Lazily(n, draws, swaps, result)
    ensures AreDraws(n, draws + [d])
    ensures var i, j := |draws|, |draws| + d;
            Lazily(n, draws + [d], swaps[i := Get(swaps, j)][j := Get(swaps, i)], result + [Get(swaps, j)])
  {
    var i := |draws|;
    OneMoreDraw(n, draws, d);
    LazySwap(swaps, Shuffled(n, draws), i, i + d);
    KeysGrow(swaps, i, i + d, Get(swaps, i + d), Get(swaps, i));
  }

  /** The lazy loop gives the front of the full shuffle, and keeps at most two map entries a draw. */
  method LazySample(n: nat, draws: seq<nat>) returns (result: seq<nat>, swaps: map<nat, nat>)
    requires AreDraws(n, draws)
    ensures result == Sampled(n, draws)
    ensures |swaps.Keys| <= 2 * |draws|
  {
    swaps, result := map[], [];
    ghost var done: seq<nat> := [];
    for i := 0 to |draws|
      invariant done == draws[..i] && AreDraws(n, done)
      invariant Lazily(n, done, swaps, result)
    {
      OneLazyStep(n, done, draws[i], swaps, result);
      var j := i + draws[i];
      var vi, vj := Get(swaps, i), Get(swaps, j);
      swaps := swaps[i := vj];
      swaps := swaps[j := vi];
      result := result + [vj];
      done := done + [draws[i]];
    }
    assert done == draws;
  }

  /** The whole function: nothing for an empty tree or a non-positive size, all indices when the size covers them, a
      sample otherwise. `draws` are the outcomes of the generator. */
  method SampleLeafIndices(count: nat, sampleSize: int, draws: seq<nat>) returns (result: seq<nat>)
    requires 0 < sampleSize < count ==> AreDraws(count, draws) && |draws| == sampleSize
    ensures |result| == if sampleSize <= 0 then 0 else if sampleSize < count then sampleSize else count
    ensures NoDuplicates(result) && forall x :: x in result ==> x < count
    ensures sampleSize >= count ==> result == Identity(count)
    ensures 0 < sampleSize < count ==> result == Sampled(count, draws)
  {
    if count == 0 {
      return [];
    }
    if sampleSize <= 0 {
      return [];
    }
    if sampleSize >= count {
      result := [];
      for i := 0 to count
        invariant result == Identity(count)[..i]
      {
        result := result + [i];
      }
      return;
    }
    var swaps;
    result, swaps := LazySample(count, draws);
    SampleIsDistinct(count, draws);
  }
}
