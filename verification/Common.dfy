/** Small vocabulary shared by the component models. */
module Common {

  datatype Option<+T> = None | Some(value: T)

  /** The name of an ML node. */
  datatype NodeId = NodeId(name: string)

  /** No element of `s` occurs at two positions. */
  ghost predicate NoDuplicates<T>(s: seq<T>) {
    forall i, j :: 0 <= i < j < |s| ==> s[i] != s[j]
  }

  ghost function Elements<T>(s: seq<T>): set<T> {
    set x | x in s
  }

  lemma ElementsOneMore<T>(s: seq<T>, x: T)
    ensures Elements(s + [x]) == Elements(s) + {x}
  {
    assert (s + [x])[|s|] == x;
  }

  lemma NoDuplicatesOneMore<T>(s: seq<T>, x: T)
    ensures NoDuplicates(s + [x]) <==> NoDuplicates(s) && x !in Elements(s)
  {
    var t := s + [x];
    assert forall i :: 0 <= i < |s| ==> t[i] == s[i];
    if x in Elements(s) {
      var i :| 0 <= i < |s| && s[i] == x;
      assert t[i] == t[|s|];
    } else {
      assert forall i :: 0 <= i < |s| ==> s[i] in Elements(s);
      if !NoDuplicates(s) {
        var i, j :| 0 <= i < j < |s| && s[i] == s[j];
        assert t[i] == t[j];
      }
    }
  }

  /** A sequence has as many elements as places exactly when none occurs twice. */
  lemma {:induction false} DistinctSize<T>(s: seq<T>)
    ensures |Elements(s)| <= |s|
    ensures NoDuplicates(s) <==> |Elements(s)| == |s|
  {
    if s != [] {
      var n := |s| - 1;
      var front := s[..n];
      DistinctSize(front);
      assert s == front + [s[n]];
      ElementsOneMore(front, s[n]);
      NoDuplicatesOneMore(front, s[n]);
    }
  }

  lemma Distribute(a: real, b: real, k: real)
    ensures (a + b) * k == a * k + b * k
  {
  }

  lemma Member<T>(s: set<T>) returns (x: T)
    requires s != {}
    ensures x in s
  {
    x :| x in s;
  }

  /** Position `i` steps round a circle of `n`, for less than two turns. */
  function Wrap(i: nat, n: nat): nat
    requires i < 2 * n
  {
    if i < n then i else i - n
  }

  lemma WrapIsModulo(i: nat, n: nat)
    requires i < 2 * n
    ensures Wrap(i, n) == i % n
  {
    if i >= n {
      assert i % n == (i - n) % n;
    }
  }
}
