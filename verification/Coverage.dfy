/** What a proof response has to cover, and the early-share inclusion check built on it: the sampled early artifacts
    have to come back unchanged from the final commitment. */
module Coverage {
  import opened Common

  /** An item of a response; once verified, an artifact. */
  datatype Artifact = Artifact(leaf: nat, nonce: int, vector: string)

  datatype Failure = IncompleteCoverage | NonceAbsent | VerificationFailed | InvalidVector | LocalFailure | Unavailable

  // ---- Finite sets --------------------------------------------------------------------------------------------------

  function Leaves(items: seq<Artifact>): (s: seq<int>)
    ensures |s| == |items| && forall i :: 0 <= i < |s| ==> s[i] == items[i].leaf
  {
    if items == [] then [] else Leaves(items[..|items| - 1]) + [items[|items| - 1].leaf]
  }

  function Nonces(items: seq<Artifact>): (s: seq<int>)
    ensures |s| == |items| && forall i :: 0 <= i < |s| ==> s[i] == items[i].nonce
  {
    if items == [] then [] else Nonces(items[..|items| - 1]) + [items[|items| - 1].nonce]
  }

  lemma SameSize(a: set<int>, b: set<int>)
    requires a <= b && |a| >= |b|
    ensures a == b
  {
    assert b == a + (b - a) && |b - a| == |b| - |a|;
  }

  lemma {:induction false} CountOfDistinct(s: seq<int>, x: int)
    ensures multiset(s)[x] >= 1 <==> x in Elements(s)
    ensures NoDuplicates(s) ==> multiset(s)[x] <= 1
  {
    if s != [] {
      var n := |s| - 1;
      CountOfDistinct(s[..n], x);
      assert s == s[..n] + [s[n]];
      ElementsOneMore(s[..n], s[n]);
      NoDuplicatesOneMore(s[..n], s[n]);
    }
  }

  lemma SameElementsSameMultiset(a: seq<int>, b: seq<int>)
    requires NoDuplicates(a) && NoDuplicates(b)
    ensures multiset(a) == multiset(b) <==> Elements(a) == Elements(b)
  {
    forall x
      ensures (multiset(a)[x] >= 1 <==> x in Elements(a)) && (multiset(b)[x] >= 1 <==> x in Elements(b))
      ensures multiset(a)[x] <= 1 && multiset(b)[x] <= 1
    {
      CountOfDistinct(a, x);
      CountOfDistinct(b, x);
    }
    if Elements(a) == Elements(b) {
      forall x
        ensures multiset(a)[x] == multiset(b)[x]
      {
        assert x in Elements(a) <==> x in Elements(b);
      }
    }
    if multiset(a) == multiset(b) {
      forall x
        ensures x in Elements(a) <==> x in Elements(b)
      {
        assert multiset(a)[x] == multiset(b)[x];
      }
    }
  }

  // ---- Coverage of leaf indices -------------------------------------------------------------------------------------

  /** The response is a rearrangement of a request without repeats. */
  ghost predicate LeavesCovered(requested: seq<int>, got: seq<int>) {
    NoDuplicates(requested) && multiset(requested) == multiset(got)
  }

  /** Counting, no repeats and nothing foreign are together as strong as a bijection. */
  lemma CoveredIff(requested: seq<int>, got: seq<int>)
    ensures |got| == |requested| && NoDuplicates(got) && Elements(got) <= Elements(requested) <==>
            LeavesCovered(requested, got)
  {
    DistinctSize(requested);
    DistinctSize(got);
    if |got| == |requested| && NoDuplicates(got) && Elements(got) <= Elements(requested) {
      SameSize(Elements(got), Elements(requested));
      SameElementsSameMultiset(requested, got);
    }
    if LeavesCovered(requested, got) {
      assert |multiset(requested)| == |requested| && |multiset(got)| == |got|;
      forall x
        ensures x in Elements(got) <==> x in Elements(requested)
      {
        CountOfDistinct(got, x);
        CountOfDistinct(requested, x);
      }
      assert Elements(got) == Elements(requested);
    }
  }

  method ValidateLeafCoverage(requested: seq<int>, proofs: seq<Artifact>) returns (r: Option<Failure>)
    ensures r.None? <==> LeavesCovered(requested, Leaves(proofs))
    ensures r.None? || r == Some(IncompleteCoverage)
  {
    ghost var got := Leaves(proofs);
    CoveredIff(requested, got);
    if |proofs| != |requested| {
      return Some(IncompleteCoverage);
    }
    if |requested| == 0 {
      assert NoDuplicates(got) && Elements(got) == {};
      return None;
    }
    var wanted := SetOf(requested);
    var seen: set<int> := {};
    for i := 0 to |proofs|
      invariant seen == Elements(got[..i]) && NoDuplicates(got[..i]) && seen <= wanted
    {
      assert got[..i + 1] == got[..i] + [got[i]];
      ElementsOneMore(got[..i], got[i]);
      NoDuplicatesOneMore(got[..i], got[i]);
      if proofs[i].leaf in seen {
        PartRepeats(got, i + 1);
        return Some(IncompleteCoverage);
      }
      seen := seen + {proofs[i].leaf};
      if proofs[i].leaf !in wanted {
        assert got[i] in Elements(got);
        return Some(IncompleteCoverage);
      }
    }
    assert got[..|proofs|] == got;
    return None;
  }

  method SetOf(s: seq<int>) returns (all: set<int>)
    ensures all == Elements(s)
  {
    all := {};
    for i := 0 to |s|
      invariant all == Elements(s[..i])
    {
      assert s[..i + 1] == s[..i] + [s[i]];
      ElementsOneMore(s[..i], s[i]);
      all := all + {s[i]};
    }
    assert s[..|s|] == s;
  }

  lemma PartRepeats(s: seq<int>, n: nat)
    requires n <= |s| && !NoDuplicates(s[..n])
    ensures !NoDuplicates(s)
  {
    var i, j :| 0 <= i < j < n && s[..n][i] == s[..n][j];
    assert s[i] == s[j];
  }

  /** A request with repeats is never satisfied. */
  lemma RepeatedRequestIsRejected(requested: seq<int>, got: seq<int>)
    requires !NoDuplicates(requested)
    ensures !(|got| == |requested| && NoDuplicates(got) && Elements(got) <= Elements(requested))
  {
    CoveredIff(requested, got);
  }

  // ---- Coverage of nonces -------------------------------------------------------------------------------------------

  /** The verdict on a by-nonce response, by what it repeats, adds and leaves out. */
  ghost function NonceVerdict(requested: seq<int>, got: seq<int>): Option<Failure> {
    if !NoDuplicates(got) || !(Elements(got) <= Elements(requested)) then Some(IncompleteCoverage)
    else if Elements(got) != Elements(requested) then Some(NonceAbsent)
    else None
  }

  method ValidateNonceCoverage(requested: seq<int>, proofs: seq<Artifact>) returns (r: Option<Failure>)
    ensures r == NonceVerdict(requested, Nonces(proofs))
  {
    ghost var got := Nonces(proofs);
    if |requested| == 0 {
      assert Elements(requested) == {};
      if |proofs| == 0 {
        assert Elements(got) == {};
        return None;
      }
      assert got[0] in Elements(got);
      return Some(IncompleteCoverage);
    }
    var missing := SetOf(requested);
    var seen: set<int> := {};
    for i := 0 to |proofs|
      invariant seen == Elements(got[..i]) && NoDuplicates(got[..i]) && seen <= Elements(requested)
      invariant missing == Elements(requested) - seen
    {
      assert got[..i + 1] == got[..i] + [got[i]];
      ElementsOneMore(got[..i], got[i]);
      NoDuplicatesOneMore(got[..i], got[i]);
      if proofs[i].nonce in seen {
        PartRepeats(got, i + 1);
        return Some(IncompleteCoverage);
      }
      seen := seen + {proofs[i].nonce};
      if proofs[i].nonce !in missing {
        assert got[i] in Elements(got);
        return Some(IncompleteCoverage);
      }
      missing := missing - {proofs[i].nonce};
    }
    assert got[..|proofs|] == got;
    if missing != {} {
      return Some(NonceAbsent);
    }
    return None;
  }

  /** Nonce repeats among verified artifacts are found. */
  method CheckDuplicateNonces(artifacts: seq<Artifact>) returns (duplicate: bool)
    ensures duplicate <==> !NoDuplicates(Nonces(artifacts))
  {
    ghost var all := Nonces(artifacts);
    var seen: set<int> := {};
    for i := 0 to |artifacts|
      invariant seen == Elements(all[..i]) && NoDuplicates(all[..i])
    {
      assert all[..i + 1] == all[..i] + [all[i]];
      ElementsOneMore(all[..i], all[i]);
      NoDuplicatesOneMore(all[..i], all[i]);
      if artifacts[i].nonce in seen {
        PartRepeats(all, i + 1);
        return true;
      }
      seen := seen + {artifacts[i].nonce};
    }
    assert all[..|artifacts|] == all;
    return false;
  }

  // ---- Fetching -----------------------------------------------------------------------------------------------------

  datatype Response = NoAnswer(why: Failure) | Items(items: seq<Artifact>)

  datatype Fetched = Rejected(why: Failure) | Verified(artifacts: seq<Artifact>)

  /** The first failing check among the items; `check` is the proof verification. */
  function FirstBad(items: seq<Artifact>, check: Artifact -> Option<Failure>): Option<Failure> {
    if items == [] then None
    else if check(items[0]).Some? then check(items[0]) else FirstBad(items[1..], check)
  }

  function Checked(items: seq<Artifact>, check: Artifact -> Option<Failure>): Fetched {
    match FirstBad(items, check)
    case Some(f) => Rejected(f)
    case None => Verified(items)
  }

  ghost function FetchedByLeaf(requested: seq<int>, r: Response, check: Artifact -> Option<Failure>): Fetched {
    match r
    case NoAnswer(why) => Rejected(why)
    case Items(items) =>
      if LeavesCovered(requested, Leaves(items)) then Checked(items, check) else Rejected(IncompleteCoverage)
  }

  ghost function FetchedByNonce(requested: seq<int>, r: Response, check: Artifact -> Option<Failure>): Fetched {
    match r
    case NoAnswer(why) => Rejected(why)
    case Items(items) =>
      match NonceVerdict(requested, Nonces(items))
      case Some(f) => Rejected(f)
      case None => Checked(items, check)
  }

  method VerifyItems(items: seq<Artifact>, check: Artifact -> Option<Failure>) returns (r: Fetched)
    ensures r == Checked(items, check)
  {
    var verified: seq<Artifact> := [];
    assert items[0..] == items;
    for i := 0 to |items|
      invariant verified == items[..i] && FirstBad(items[i..], check) == FirstBad(items, check)
    {
      assert items[i..][1..] == items[i + 1..];
      var bad := check(items[i]);
      if bad.Some? {
        return Rejected(bad.value);
      }
      verified := verified + [items[i]];
    }
    assert items[..|items|] == items;
    return Verified(verified);
  }

  method FetchAndVerifyProofs(requested: seq<int>, response: Response, check: Artifact -> Option<Failure>)
    returns (r: Fetched)
    ensures r == FetchedByLeaf(requested, response, check)
  {
    match response
    case NoAnswer(why) => return Rejected(why);
    case Items(items) =>
      var bad := ValidateLeafCoverage(requested, items);
      if bad.Some? {
        return Rejected(bad.value);
      }
      r := VerifyItems(items, check);
  }

  method FetchAndVerifyProofsByNonce(requested: seq<int>, response: Response, check: Artifact -> Option<Failure>)
    returns (r: Fetched)
    ensures r == FetchedByNonce(requested, response, check)
  {
    match response
    case NoAnswer(why) => return Rejected(why);
    case Items(items) =>
      var bad := ValidateNonceCoverage(requested, items);
      if bad.Some? {
        return Rejected(bad.value);
      }
      r := VerifyItems(items, check);
  }

  // ---- The inclusion check ------------------------------------------------------------------------------------------

  datatype Outcome = Pass | VoteNo | Retry | AbstainRetry

  /** Failures the participant is answerable for, failures of our own, and the rest. */
  function OutcomeOf(f: Failure): Outcome {
    match f
    case LocalFailure => AbstainRetry
    case Unavailable => Retry
    case _ => VoteNo
  }

  /** The vector kept for a nonce: the last one, and the empty text when there is none. */
  function VectorFor(early: seq<Artifact>, nonce: int): string {
    if early == [] then ""
    else if early[|early| - 1].nonce == nonce then early[|early| - 1].vector
    else VectorFor(early[..|early| - 1], nonce)
  }

  ghost predicate SameVectors(early: seq<Artifact>, final: seq<Artifact>) {
    forall i :: 0 <= i < |final| ==> final[i].vector == VectorFor(early, final[i].nonce)
  }

  /** `leaves` is the sample of early leaf indices. */
  ghost function Inclusion(earlyCount: nat, hasRoot: bool, leaves: seq<int>, early: Response, final: Response,
                           checkEarly: Artifact -> Option<Failure>, checkFinal: Artifact -> Option<Failure>): Outcome {
    if earlyCount == 0 || !hasRoot || leaves == [] then Pass
    else
      match FetchedByLeaf(leaves, early, checkEarly)
      case Rejected(why) => OutcomeOf(why)
      case Verified(es) =>
        match FetchedByNonce(Nonces(es), final, checkFinal)
        case Rejected(why) => OutcomeOf(why)
        case Verified(fs) => if SameVectors(es, fs) then Pass else VoteNo
  }

  /** Exactly one final artifact carries the nonce, with the same vector. */
  ghost predicate Survives(e: Artifact, final: seq<Artifact>) {
    exists i :: CarriedAt(e, final, i)
  }

  ghost predicate CarriedAt(e: Artifact, final: seq<Artifact>, i: int) {
    && 0 <= i < |final| && final[i].nonce == e.nonce && final[i].vector == e.vector
    && forall j :: 0 <= j < |final| && final[j].nonce == e.nonce ==> j == i
  }

  /** No nonce stands for two different vectors in the early sample. */
  ghost predicate Consistent(early: seq<Artifact>) {
    forall i, j :: 0 <= i < |early| && 0 <= j < |early| && early[i].nonce == early[j].nonce ==>
      early[i].vector == early[j].vector
  }

  lemma {:induction false} VectorForIsLast(early: seq<Artifact>, nonce: int) returns (k: int)
    requires nonce in Elements(Nonces(early))
    ensures 0 <= k < |early| && early[k].nonce == nonce && VectorFor(early, nonce) == early[k].vector
    ensures forall j :: k < j < |early| ==> early[j].nonce != nonce
  {
    var n := |early| - 1;
    if early[n].nonce == nonce {
      k := n;
    } else {
      assert Nonces(early) == Nonces(early[..n]) + [early[n].nonce];
      ElementsOneMore(Nonces(early[..n]), early[n].nonce);
      k := VectorForIsLast(early[..n], nonce);
    }
  }

  /** What the two accepted responses look like when the check passes. */
  ghost predicate Accepted(early: seq<Artifact>, final: seq<Artifact>) {
    && NoDuplicates(Nonces(final)) && Elements(Nonces(final)) == Elements(Nonces(early)) && SameVectors(early, final)
  }

  lemma FinalOf(early: seq<Artifact>, final: seq<Artifact>, k: int) returns (i: int)
    requires Accepted(early, final) && 0 <= k < |early|
    ensures 0 <= i < |final| && final[i].nonce == early[k].nonce
    ensures final[i].vector == VectorFor(early, early[k].nonce)
    ensures forall j :: 0 <= j < |final| && final[j].nonce == early[k].nonce ==> j == i
  {
    var nonces := Nonces(final);
    assert Nonces(early)[k] in Elements(nonces);
    i :| 0 <= i < |nonces| && nonces[i] == early[k].nonce;
    assert forall j :: 0 <= j < |final| ==> nonces[j] == final[j].nonce;
  }

  /** After a pass every early artifact survives unchanged if and only if no nonce stands for two vectors. */
  lemma AllSurviveIffConsistent(early: seq<Artifact>, final: seq<Artifact>)
    requires Accepted(early, final)
    ensures (forall k :: 0 <= k < |early| ==> Survives(early[k], final)) <==> Consistent(early)
  {
    if Consistent(early) {
      forall k | 0 <= k < |early|
        ensures Survives(early[k], final)
      {
        var i := FinalOf(early, final, k);
        assert Nonces(early)[k] in Elements(Nonces(early));
        var last := VectorForIsLast(early, early[k].nonce);
        assert CarriedAt(early[k], final, i);
      }
    }
    if forall k :: 0 <= k < |early| ==> Survives(early[k], final) {
      forall k, m | 0 <= k < |early| && 0 <= m < |early| && early[k].nonce == early[m].nonce
        ensures early[k].vector == early[m].vector
      {
        assert Survives(early[k], final) && Survives(early[m], final);
        var i :| CarriedAt(early[k], final, i);
        var j :| CarriedAt(early[m], final, j);
      }
    }
  }

  /** A pass on a real sample means: the early items answer the sample one to one, and, when their nonces differ, each
      has exactly one final artifact, with the same vector. */
  lemma PassMeansIncluded(earlyCount: nat, leaves: seq<int>, early: Response, final: Response,
                          checkEarly: Artifact -> Option<Failure>, checkFinal: Artifact -> Option<Failure>)
    requires earlyCount > 0 && leaves != []
    requires Inclusion(earlyCount, true, leaves, early, final, checkEarly, checkFinal) == Pass
    ensures early.Items? && final.Items? && LeavesCovered(leaves, Leaves(early.items))
    ensures Accepted(early.items, final.items)
    ensures NoDuplicates(Nonces(early.items)) ==>
              |final.items| == |early.items| &&
              forall k :: 0 <= k < |early.items| ==> Survives(early.items[k], final.items)
  {
    var es, fs := early.items, final.items;
    if NoDuplicates(Nonces(es)) {
      DistinctMeansConsistent(es);
      AllSurviveIffConsistent(es, fs);
      DistinctSize(Nonces(es));
      DistinctSize(Nonces(fs));
    }
  }

  lemma DistinctMeansConsistent(early: seq<Artifact>)
    requires NoDuplicates(Nonces(early))
    ensures Consistent(early)
  {
    forall i, j | 0 <= i < |early| && 0 <= j < |early| && early[i].nonce == early[j].nonce
      ensures i == j
    {
      assert Nonces(early)[i] == Nonces(early)[j];
    }
  }

  lemma RepeatedNonceAccepted(x: Artifact, y: Artifact, f: Artifact)
    requires x.nonce == y.nonce == f.nonce && f.vector == y.vector
    ensures Accepted([x, y], [f])
  {
    assert Elements(Nonces([x, y])) == {f.nonce} by {
      assert Nonces([x, y])[0] == f.nonce;
    }
    assert Elements(Nonces([f])) == {f.nonce} by {
      assert Nonces([f])[0] == f.nonce;
    }
  }

  lemma TwoLeavesCovered(x: Artifact, y: Artifact)
    requires x.leaf != y.leaf
    ensures LeavesCovered([x.leaf, y.leaf], Leaves([x, y]))
  {
    assert Leaves([x, y]) == [x.leaf, y.leaf];
  }

  lemma AllVerify(items: seq<Artifact>, check: Artifact -> Option<Failure>)
    requires forall i :: 0 <= i < |items| ==> check(items[i]).None?
    ensures Checked(items, check) == Verified(items)
  {
    if items != [] {
      AllVerify(items[1..], check);
    }
  }

  /** With a repeated nonce only the last early vector is compared, so the check passes and the other is lost. */
  lemma RepeatedNoncePasses(x: Artifact, y: Artifact, f: Artifact, check: Artifact -> Option<Failure>)
    requires x.nonce == y.nonce == f.nonce && f.vector == y.vector != x.vector && x.leaf != y.leaf
    requires check(x).None? && check(y).None? && check(f).None?
    ensures Inclusion(2, true, [x.leaf, y.leaf], Items([x, y]), Items([f]), check, check) == Pass
    ensures !Survives(x, [f])
  {
    TwoLeavesCovered(x, y);
    AllVerify([x, y], check);
    AllVerify([f], check);
    RepeatedNonceAccepted(x, y, f);
    assert FetchedByLeaf([x.leaf, y.leaf], Items([x, y]), check) == Verified([x, y]);
    assert FetchedByNonce(Nonces([x, y]), Items([f]), check) == Verified([f]);
  }

  method CheckInclusion(earlyCount: nat, hasRoot: bool, leaves: seq<int>, early: Response, final: Response,
                        checkEarly: Artifact -> Option<Failure>, checkFinal: Artifact -> Option<Failure>)
    returns (outcome: Outcome)
    ensures outcome == Inclusion(earlyCount, hasRoot, leaves, early, final, checkEarly, checkFinal)
  {
    if earlyCount == 0 || !hasRoot {
      return Pass;
    }
    if |leaves| == 0 {
      return Pass;
    }
    var es := FetchAndVerifyProofs(leaves, early, checkEarly);
    if es.Rejected? {
      return OutcomeOf(es.why);
    }
    var vectors, nonces := IndexByNonce(es.artifacts);
    var fs := FetchAndVerifyProofsByNonce(nonces, final, checkFinal);
    if fs.Rejected? {
      return OutcomeOf(fs.why);
    }
    outcome := CompareVectors(es.artifacts, vectors, fs.artifacts);
  }

  ghost predicate Indexes(vectors: map<int, string>, early: seq<Artifact>) {
    forall nonce :: VectorFor(early, nonce) == if nonce in vectors then vectors[nonce] else ""
  }

  method IndexByNonce(early: seq<Artifact>) returns (vectors: map<int, string>, nonces: seq<int>)
    ensures Indexes(vectors, early) && nonces == Nonces(early)
  {
    vectors, nonces := map[], [];
    for i := 0 to |early|
      invariant Indexes(vectors, early[..i]) && nonces == Nonces(early[..i])
    {
      assert early[..i + 1][..i] == early[..i];
      vectors := vectors[early[i].nonce := early[i].vector];
      nonces := nonces + [early[i].nonce];
    }
    assert early[..|early|] == early;
  }

  method CompareVectors(ghost early: seq<Artifact>, vectors: map<int, string>, final: seq<Artifact>)
    returns (outcome: Outcome)
    requires Indexes(vectors, early)
    ensures outcome == if SameVectors(early, final) then Pass else VoteNo
  {
    for i := 0 to |final|
      invariant SameVectors(early, final[..i])
    {
      var kept := if final[i].nonce in vectors then vectors[final[i].nonce] else "";
      if final[i].vector != kept {
        return VoteNo;
      }
    }
    return Pass;
  }

  /** An early share that is too low votes no, and a failed inclusion check comes first. */
  method Decide(requireInclusion: bool, shareVoteNo: bool, inclusion: Outcome) returns (outcome: Outcome)
    ensures outcome == Pass <==> !shareVoteNo && (requireInclusion ==> inclusion == Pass)
    ensures requireInclusion && inclusion != Pass ==> outcome == inclusion
    ensures outcome != Pass && !(requireInclusion && inclusion != Pass) ==> outcome == VoteNo
  {
    if requireInclusion {
      if inclusion != Pass {
        return inclusion;
      }
    }
    if shareVoteNo {
      return VoteNo;
    }
    return Pass;
  }
}
