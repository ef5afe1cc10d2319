/** Command-line arguments of a model deployment: merging the chain's arguments with local ones, and rewriting them for
    a local model override. */
module ModelArgs {
  import opened Common

  datatype Arg = Arg(text: string)

  /** Starts with two dashes. */
  predicate IsFlag(a: Arg) {
    |a.text| >= 2 && a.text[0] == '-' && a.text[1] == '-'
  }

  // ---- Merging ----------------------------------------------------------------------------------------------------

  datatype Flag = Flag(key: Arg, value: Option<Arg>)

  /** How many places the flag at the front takes: itself and, if one follows, its value. */
  function Width(args: seq<Arg>): (n: nat)
    requires args != []
    ensures 1 <= n <= |args|
  {
    if |args| > 1 && !IsFlag(args[1]) then 2 else 1
  }

  /** The meaning of an argument list: its flags with their values. Arguments that belong to no flag mean nothing. */
  function Meaning(args: seq<Arg>): seq<Flag>
    decreases |args|
  {
    if args == [] then []
    else if !IsFlag(args[0]) then Meaning(args[1..])
    else
      var n := Width(args);
      [Flag(args[0], if n == 2 then Some(args[1]) else None)] + Meaning(args[n..])
  }

  function Keys(args: seq<Arg>): set<Arg> {
    set a | a in args && IsFlag(a)
  }

  /** The flags of `args` whose key is not taken, with their values. */
  function Kept(args: seq<Arg>, taken: set<Arg>): seq<Arg>
    decreases |args|
  {
    if args == [] then []
    else if !IsFlag(args[0]) then Kept(args[1..], taken)
    else
      var n := Width(args);
      (if args[0] in taken then [] else args[..n]) + Kept(args[n..], taken)
  }

  function Merged(epoch: seq<Arg>, local: seq<Arg>): seq<Arg> {
    epoch + Kept(local, Keys(epoch))
  }

  function NotTaken(flags: seq<Flag>, taken: set<Arg>): seq<Flag> {
    if flags == [] then []
    else (if flags[0].key in taken then [] else [flags[0]]) + NotTaken(flags[1..], taken)
  }

  /** `s` can be got from `t` by leaving arguments out. */
  predicate Sublist(s: seq<Arg>, t: seq<Arg>) {
    s == [] || (t != [] && ((s[0] == t[0] && Sublist(s[1..], t[1..])) || Sublist(s, t[1..])))
  }

  lemma {:induction false} SublistSkips(s: seq<Arg>, t: seq<Arg>, n: nat)
    requires n <= |t| && Sublist(s, t[n..])
    ensures Sublist(s, t)
  {
    if n > 0 {
      assert t[1..][n - 1..] == t[n..];
      SublistSkips(s, t[1..], n - 1);
    } else {
      assert t[0..] == t;
    }
  }

  lemma {:induction false} SublistTakes(front: seq<Arg>, s: seq<Arg>, t: seq<Arg>)
    requires front <= t && Sublist(s, t[|front|..])
    ensures Sublist(front + s, t)
  {
    if front == [] {
      assert front + s == s && t[0..] == t;
    } else {
      assert t[1..][|front| - 1..] == t[|front|..];
      SublistTakes(front[1..], s, t[1..]);
      assert (front + s)[1..] == front[1..] + s;
    }
  }

  lemma {:induction false} KeptIsSublist(args: seq<Arg>, taken: set<Arg>)
    ensures Sublist(Kept(args, taken), args)
    ensures forall a :: a in Kept(args, taken) && IsFlag(a) ==> a !in taken
    ensures Kept(args, taken) != [] ==> IsFlag(Kept(args, taken)[0])
    decreases |args|
  {
    if args == [] {
    } else if !IsFlag(args[0]) {
      KeptIsSublist(args[1..], taken);
      SublistSkips(Kept(args[1..], taken), args, 1);
    } else {
      var n := Width(args);
      KeptIsSublist(args[n..], taken);
      if args[0] in taken {
        assert Kept(args, taken) == Kept(args[n..], taken);
        SublistSkips(Kept(args[n..], taken), args, n);
      } else {
        SublistTakes(args[..n], Kept(args[n..], taken), args);
      }
    }
  }

  lemma WidthOfConcat(a: seq<Arg>, b: seq<Arg>)
    requires a != [] && (b == [] || IsFlag(b[0]))
    ensures Width(a + b) == Width(a)
    ensures (a + b)[..Width(a)] == a[..Width(a)] && (a + b)[Width(a)..] == a[Width(a)..] + b
  {
  }

  lemma MeaningUnfolds(args: seq<Arg>) returns (f: Flag)
    requires args != [] && IsFlag(args[0])
    ensures Meaning(args) == [f] + Meaning(args[Width(args)..])
    ensures f == Flag(args[0], if Width(args) == 2 then Some(args[..Width(args)][1]) else None)
  {
    f := Flag(args[0], if Width(args) == 2 then Some(args[1]) else None);
  }

  /** Two lists side by side mean what they mean apart, if the second starts with a flag. */
  lemma {:induction false} MeaningOfConcat(a: seq<Arg>, b: seq<Arg>)
    requires b == [] || IsFlag(b[0])
    ensures Meaning(a + b) == Meaning(a) + Meaning(b)
    decreases |a|
  {
    if a == [] {
      assert a + b == b;
    } else if !IsFlag(a[0]) {
      MeaningOfConcat(a[1..], b);
      assert (a + b)[1..] == a[1..] + b;
    } else {
      WidthOfConcat(a, b);
      MeaningOfConcat(a[Width(a)..], b);
      var f := MeaningUnfolds(a);
      var g := MeaningUnfolds(a + b);
    }
  }

  lemma MeaningOfOne(args: seq<Arg>)
    requires args != [] && IsFlag(args[0])
    ensures Meaning(args[..Width(args)]) == [Flag(args[0], if Width(args) == 2 then Some(args[1]) else None)]
  {
    var one := args[..Width(args)];
    assert Width(one) == Width(args) && one[Width(one)..] == [];
  }

  /** Filtering the list filters its meaning. */
  lemma {:induction false} MeaningOfKept(args: seq<Arg>, taken: set<Arg>)
    ensures Meaning(Kept(args, taken)) == NotTaken(Meaning(args), taken)
    decreases |args|
  {
    if args == [] {
    } else if !IsFlag(args[0]) {
      MeaningOfKept(args[1..], taken);
    } else {
      var n := Width(args);
      var rest := Kept(args[n..], taken);
      MeaningOfKept(args[n..], taken);
      KeptIsSublist(args[n..], taken);
      assert Meaning(args)[1..] == Meaning(args[n..]);
      if args[0] !in taken {
        MeaningOfOne(args);
        MeaningOfConcat(args[..n], rest);
      } else {
        assert [] + rest == rest;
      }
    }
  }

  /** The merged list is the epoch list followed by a sublist of the local one without epoch keys, and means the epoch
      flags followed by exactly the local flags whose keys are not epoch keys. */
  lemma MergeIsPrecedence(epoch: seq<Arg>, local: seq<Arg>)
    ensures var k := Kept(local, Keys(epoch));
            && Merged(epoch, local) == epoch + k
            && Sublist(k, local)
            && (forall a :: a in k && IsFlag(a) ==> a !in epoch)
            && Meaning(Merged(epoch, local)) == Meaning(epoch) + NotTaken(Meaning(local), Keys(epoch))
  {
    KeptIsSublist(local, Keys(epoch));
    MeaningOfConcat(epoch, Kept(local, Keys(epoch)));
    MeaningOfKept(local, Keys(epoch));
  }

  /** Arguments whose flags are all taken contribute nothing in front of a list that starts with a flag. */
  lemma {:induction false} KeptSkipsTaken(a: seq<Arg>, b: seq<Arg>, taken: set<Arg>)
    requires Keys(a) <= taken && (b == [] || IsFlag(b[0]))
    ensures Kept(a + b, taken) == Kept(b, taken)
    decreases |a|
  {
    if a == [] {
      assert a + b == b;
    } else {
      var n := if IsFlag(a[0]) then Width(a) else 1;
      assert IsFlag(a[0]) ==> a[0] in Keys(a) && Width(a + b) == n;
      assert Keys(a[n..]) <= Keys(a);
      KeptSkipsTaken(a[n..], b, taken);
      assert (a + b)[n..] == a[n..] + b;
    }
  }

  lemma {:induction false} KeptIsStable(args: seq<Arg>, taken: set<Arg>)
    ensures Kept(Kept(args, taken), taken) == Kept(args, taken)
    decreases |args|
  {
    if args == [] {
    } else if !IsFlag(args[0]) {
      KeptIsStable(args[1..], taken);
    } else {
      var n := Width(args);
      var rest := Kept(args[n..], taken);
      KeptIsStable(args[n..], taken);
      KeptIsSublist(args[n..], taken);
      if args[0] !in taken {
        var all := args[..n] + rest;
        assert Width(all) == n && all[..n] == args[..n] && all[n..] == rest;
      } else {
        assert [] + rest == rest;
      }
    }
  }

  /** Merging again with the same epoch arguments changes nothing. */
  lemma MergeIsIdempotent(epoch: seq<Arg>, local: seq<Arg>)
    ensures Merged(epoch, Merged(epoch, local)) == Merged(epoch, local)
  {
    KeptIsSublist(local, Keys(epoch));
    KeptSkipsTaken(epoch, Kept(local, Keys(epoch)), Keys(epoch));
    KeptIsStable(local, Keys(epoch));
  }

  /** The epoch arguments all go in, and their flags are remembered. */
  method CopyEpoch(epoch: seq<Arg>) returns (merged: seq<Arg>, keys: set<Arg>)
    ensures merged == epoch && keys == Keys(epoch)
  {
    merged, keys := [], {};
    var i := 0;
    while i < |epoch|
      invariant i <= |epoch| && merged == epoch[..i] && keys == Keys(epoch[..i])
    {
      var arg := epoch[i];
      KeysOneMore(epoch, i);
      merged := merged + [arg];
      if IsFlag(arg) {
        keys := keys + {arg};
        if i + 1 < |epoch| && !IsFlag(epoch[i + 1]) {
          KeysOneMore(epoch, i + 1);
          merged := merged + [epoch[i + 1]];
          i := i + 1;
        }
      }
      i := i + 1;
    }
    assert epoch[..i] == epoch;
  }

  lemma KeysOneMore(args: seq<Arg>, i: nat)
    requires i < |args|
    ensures args[..i + 1] == args[..i] + [args[i]]
    ensures Keys(args[..i + 1]) == Keys(args[..i]) + if IsFlag(args[i]) then {args[i]} else {}
  {
    assert args[..i + 1] == args[..i] + [args[i]];
  }

  lemma KeptSkipsStray(args: seq<Arg>, taken: set<Arg>, i: nat)
    requires i < |args| && !IsFlag(args[i])
    ensures Kept(args[i..], taken) == Kept(args[i + 1..], taken)
  {
    assert args[i..][1..] == args[i + 1..];
  }

  lemma KeptTakesFlag(args: seq<Arg>, taken: set<Arg>, i: nat)
    requires i < |args| && IsFlag(args[i])
    ensures var n := if i + 1 < |args| && !IsFlag(args[i + 1]) then 2 else 1;
            Kept(args[i..], taken) == (if args[i] in taken then [] else args[i..i + n]) + Kept(args[i + n..], taken)
  {
    var rest, n := args[i..], if i + 1 < |args| && !IsFlag(args[i + 1]) then 2 else 1;
    assert Width(rest) == n;
    assert rest[n..] == args[i + n..] && rest[..n] == args[i..i + n];
  }

  lemma Appends<T>(a: seq<T>, b: seq<T>, c: seq<T>)
    ensures a + (b + c) == (a + b) + c && a + ([] + c) == a + c
  {
    assert [] + c == c;
  }

  /** Appends the local flag at `i` with its value unless its key is taken, and steps over both. */
  method MergeFlag(start: seq<Arg>, keys: set<Arg>, local: seq<Arg>, i: nat) returns (merged: seq<Arg>, next: nat)
    requires i < |local| && IsFlag(local[i])
    ensures i < next <= |local|
    ensures merged + Kept(local[next..], keys) == start + Kept(local[i..], keys)
  {
    KeptTakesFlag(local, keys, i);
    merged, next := start, i + 1;
    ghost var taken := local[i] in keys;
    if local[i] !in keys {
      merged := merged + [local[i]];
    }
    if i + 1 < |local| && !IsFlag(local[i + 1]) {
      if local[i] !in keys {
        merged := merged + [local[i + 1]];
      }
      next := i + 2;
    }
    assert merged == start + if taken then [] else local[i..next];
    Appends(start, if taken then [] else local[i..next], Kept(local[next..], keys));
  }

  method MergeLocal(start: seq<Arg>, keys: set<Arg>, local: seq<Arg>) returns (merged: seq<Arg>)
    ensures merged == start + Kept(local, keys)
  {
    merged := start;
    var i := 0;
    assert local[0..] == local;
    while i < |local|
      invariant i <= |local| && merged + Kept(local[i..], keys) == start + Kept(local, keys)
    {
      if IsFlag(local[i]) {
        merged, i := MergeFlag(merged, keys, local, i);
      } else {
        KeptSkipsStray(local, keys, i);
        i := i + 1;
      }
    }
    assert merged + Kept(local[i..], keys) == merged;
  }

  method MergeModelArgs(epoch: seq<Arg>, local: seq<Arg>) returns (merged: seq<Arg>)
    ensures merged == Merged(epoch, local)
  {
    var keys;
    merged, keys := CopyEpoch(epoch);
    merged := MergeLocal(merged, keys, local);
  }

  // ---- Deployment arguments -----------------------------------------------------------------------------------------

  /** The part before the first equals sign. */
  function BeforeEquals(s: string): string {
    if s == "" || s[0] == '=' then "" else [s[0]] + BeforeEquals(s[1..])
  }

  function Name(a: Arg): string {
    BeforeEquals(a.text)
  }

  predicate HasEquals(a: Arg) {
    '=' in a.text
  }

  const MODEL := "--model"
  const REVISION := "--revision"
  const SERVED_NAME := "--served-model-name"

  predicate IsDeployment(a: Arg) {
    Name(a) == MODEL || Name(a) == REVISION || Name(a) == SERVED_NAME
  }

  lemma {:induction false} BeforeEqualsIsPrefix(s: string)
    ensures BeforeEquals(s) <= s
    ensures '=' !in s ==> BeforeEquals(s) == s
  {
    if s != "" && s[0] != '=' {
      BeforeEqualsIsPrefix(s[1..]);
    }
  }

  lemma DeploymentIsFlag(a: Arg)
    requires IsDeployment(a)
    ensures IsFlag(a)
  {
    BeforeEqualsIsPrefix(a.text);
    assert Name(a)[0] == '-' && Name(a)[1] == '-';
  }

  function DropValues(args: seq<Arg>): (rest: seq<Arg>)
    ensures |rest| <= |args| && (rest == [] || IsFlag(rest[0]))
  {
    if args == [] || IsFlag(args[0]) then args else DropValues(args[1..])
  }

  /** The deployment arguments taken out as the code does it: an argument with an equals sign alone, the served name
      with all values after it, the others with one value. */
  function Removed(args: seq<Arg>): seq<Arg>
    decreases |args|
  {
    if args == [] then []
    else
      var a, rest := args[0], args[1..];
      if !IsDeployment(a) then [a] + Removed(rest)
      else if HasEquals(a) then Removed(rest)
      else if Name(a) == SERVED_NAME then Removed(DropValues(rest))
      else if rest != [] && !IsFlag(rest[0]) then Removed(rest[1..])
      else Removed(rest)
  }

  /** The deployment arguments taken out with all their values. */
  function Clean(args: seq<Arg>): seq<Arg>
    decreases |args|
  {
    if args == [] then []
    else if IsDeployment(args[0]) then Clean(DropValues(args[1..]))
    else [args[0]] + Clean(args[1..])
  }

  predicate ValueAt(args: seq<Arg>, i: nat) {
    i < |args| && !IsFlag(args[i])
  }

  /** A value of the deployment argument at `i` survives the removal. */
  predicate Leftover(args: seq<Arg>, i: nat)
    requires i < |args|
  {
    && IsDeployment(args[i])
    && if HasEquals(args[i]) then ValueAt(args, i + 1)
       else Name(args[i]) != SERVED_NAME && ValueAt(args, i + 1) && ValueAt(args, i + 2)
  }

  ghost predicate Tidy(args: seq<Arg>) {
    forall i :: 0 <= i < |args| ==> !Leftover(args, i)
  }

  lemma {:induction false} RemovedIsNoShorter(args: seq<Arg>)
    ensures |Removed(args)| >= |Clean(args)|
    ensures |Removed(args)| >= |Clean(DropValues(args))| + |args| - |DropValues(args)|
    decreases |args|
  {
    if args != [] {
      var a, rest := args[0], args[1..];
      if !IsDeployment(a) {
        RemovedIsNoShorter(rest);
      } else {
        DeploymentIsFlag(a);
        if !HasEquals(a) && Name(a) == SERVED_NAME {
          RemovedIsNoShorter(DropValues(rest));
        } else if !HasEquals(a) && rest != [] && !IsFlag(rest[0]) {
          RemovedIsNoShorter(rest[1..]);
        } else {
          RemovedIsNoShorter(rest);
        }
      }
    }
  }

  lemma TidyHead(args: seq<Arg>)
    requires args != []
    ensures Tidy(args) <==> !Leftover(args, 0) && Tidy(args[1..])
  {
    var rest := args[1..];
    forall i | 0 <= i < |rest|
      ensures Leftover(rest, i) <==> Leftover(args, i + 1)
    {
    }
    if !Leftover(args, 0) && Tidy(rest) {
      forall i | 0 <= i < |args|
        ensures !Leftover(args, i)
      {
        if i > 0 {
          assert !Leftover(rest, i - 1);
        }
      }
    }
  }

  lemma {:induction false} TidyAfterValues(args: seq<Arg>)
    ensures Tidy(args) <==> Tidy(DropValues(args))
  {
    if args != [] && !IsFlag(args[0]) {
      TidyHead(args);
      if IsDeployment(args[0]) {
        DeploymentIsFlag(args[0]);
      } else {
        TidyAfterValues(args[1..]);
      }
    }
  }

  lemma LeftoverIsLonger(args: seq<Arg>)
    requires args != [] && Leftover(args, 0)
    ensures |Removed(args)| > |Clean(args)|
  {
    var rest := args[1..];
    if HasEquals(args[0]) {
      RemovedIsNoShorter(rest);
    } else {
      assert rest[0] == args[1] && rest[1..][0] == args[2];
      RemovedIsNoShorter(rest[1..]);
    }
  }

  lemma NoLeftover(args: seq<Arg>)
    requires args != [] && IsDeployment(args[0]) && !Leftover(args, 0)
    ensures Removed(args) == Removed(DropValues(args[1..])) && Clean(args) == Clean(DropValues(args[1..]))
  {
    var rest := args[1..];
    if !HasEquals(args[0]) && Name(args[0]) != SERVED_NAME && rest != [] && !IsFlag(rest[0]) {
      assert rest[1..] == DropValues(rest) by {
        assert rest[1..] == [] || rest[1..][0] == args[2];
      }
    }
  }

  /** The removal takes deployment arguments out with all their values, leaving every other argument where it was, if
      and only if none of them has more values than the removal skips. Otherwise a leftover value attaches itself to
      whatever flag comes before. */
  lemma {:induction false} RemovedIsCleanIffTidy(args: seq<Arg>)
    ensures Removed(args) == Clean(args) <==> Tidy(args)
    decreases |args|
  {
    if args != [] {
      TidyHead(args);
      if !IsDeployment(args[0]) {
        RemovedIsCleanIffTidy(args[1..]);
        assert Removed(args)[1..] == Removed(args[1..]) && Clean(args)[1..] == Clean(args[1..]);
      } else if Leftover(args, 0) {
        LeftoverIsLonger(args);
      } else {
        NoLeftover(args);
        TidyAfterValues(args[1..]);
        RemovedIsCleanIffTidy(DropValues(args[1..]));
      }
    }
  }

  /** The second value of --model or --revision becomes a value of the flag before it. */
  lemma LeftoverMoves(flag: Arg, m: Arg, x: Arg, y: Arg)
    requires IsFlag(flag) && !IsDeployment(flag) && !IsFlag(x) && !IsFlag(y)
    requires IsDeployment(m) && !HasEquals(m) && Name(m) != SERVED_NAME
    ensures Removed([flag, m, x, y]) == [flag, y] && Clean([flag, m, x, y]) == [flag]
  {
    if IsDeployment(y) {
      DeploymentIsFlag(y);
    }
    assert [flag, m, x, y][1..] == [m, x, y] && [m, x, y][1..] == [x, y] && [x, y][1..] == [y] && [y][1..] == [];
    assert Removed([y]) == [y];
    assert DropValues([y]) == [] && DropValues([x, y]) == [];
    assert Clean([m, x, y]) == Clean([]) == [];
  }

  predicate IsOtherFlag(a: Arg) {
    IsFlag(a) && !IsDeployment(a)
  }

  function Filter(args: seq<Arg>, keep: Arg -> bool): seq<Arg> {
    if args == [] then []
    else (if keep(args[0]) then [args[0]] else []) + Filter(args[1..], keep)
  }

  function DeploymentsIn(args: seq<Arg>): seq<Arg> {
    Filter(args, IsDeployment)
  }

  /** No deployment argument is left, and every other flag is, in order. */
  lemma {:induction false} RemovedKeepsOtherFlags(args: seq<Arg>)
    ensures DeploymentsIn(Removed(args)) == []
    ensures Filter(Removed(args), IsFlag) == Filter(args, IsOtherFlag)
    decreases |args|
  {
    if args != [] {
      var a, rest := args[0], args[1..];
      if !IsDeployment(a) {
        RemovedKeepsOtherFlags(rest);
        assert Removed(args)[1..] == Removed(rest);
      } else {
        var after := if HasEquals(a) then rest
                     else if Name(a) == SERVED_NAME then DropValues(rest)
                     else if rest != [] && !IsFlag(rest[0]) then rest[1..] else rest;
        RemovedKeepsOtherFlags(after);
        ValuesAreNoFlags(rest);
      }
    }
  }

  lemma {:induction false} ValuesAreNoFlags(args: seq<Arg>)
    ensures Filter(DropValues(args), IsOtherFlag) == Filter(args, IsOtherFlag)
    ensures args != [] && !IsFlag(args[0]) ==> Filter(args[1..], IsOtherFlag) == Filter(args, IsOtherFlag)
  {
    if args != [] && !IsFlag(args[0]) {
      ValuesAreNoFlags(args[1..]);
    }
  }

  // ---- Deployments --------------------------------------------------------------------------------------------------

  datatype Override = Override(repo: string, commit: string)

  datatype Deployment = Deployment(governanceID: string, loadModel: string, loadCommit: string, args: seq<Arg>)

  /** The arguments an override appends, with their flag names as parameters. */
  function Appended(revision: Arg, served: Arg, commit: Option<Arg>, id: Arg): seq<Arg> {
    (if commit.Some? then [revision, commit.value] else []) + [served, id]
  }

  function Asked(revision: Arg, served: Arg, commit: Option<Arg>, id: Arg): seq<Flag> {
    (if commit.Some? then [Flag(revision, commit)] else []) + [Flag(served, Some(id))]
  }

  function Resolved(id: string, epoch: seq<Arg>, local: seq<Arg>, override: Option<Override>): Deployment {
    var args := Merged(epoch, local);
    match override
    case None => Deployment(id, id, "", args)
    case Some(o) => Deployment(id, o.repo, o.commit, Removed(args) + OverrideArgs(o.commit, id))
  }

  function Given(commit: string): Option<Arg> {
    if commit != "" then Some(Arg(commit)) else None
  }

  function OverrideArgs(commit: string, id: string): seq<Arg> {
    Appended(Arg(REVISION), Arg(SERVED_NAME), Given(commit), Arg(id))
  }

  /** The flags of a meaning that say what to deploy. */
  function DeploymentFlags(flags: seq<Flag>): seq<Flag> {
    if flags == [] then []
    else (if IsDeployment(flags[0].key) then [flags[0]] else []) + DeploymentFlags(flags[1..])
  }

  /** The arguments mean, as far as deployment goes, exactly what the override asks for: no --model, one
      --served-model-name whose value is the governance id, and one --revision whose value is the commit, exactly when a
      commit is given. */
  predicate OverrideInForce(d: Deployment) {
    DeploymentFlags(Meaning(d.args)) ==
    Asked(Arg(REVISION), Arg(SERVED_NAME), Given(d.loadCommit), Arg(d.governanceID))
  }

  lemma PlainDeploymentName(a: Arg)
    requires '=' !in a.text && (a.text == MODEL || a.text == REVISION || a.text == SERVED_NAME)
    ensures IsDeployment(a)
  {
    BeforeEqualsIsPrefix(a.text);
  }

  lemma RevisionIsDeployment()
    ensures IsDeployment(Arg(REVISION))
  {
    PlainDeploymentName(Arg(REVISION));
  }

  lemma ServedNameIsDeployment()
    ensures IsDeployment(Arg(SERVED_NAME))
  {
    PlainDeploymentName(Arg(SERVED_NAME));
  }

  lemma {:induction false} DeploymentFlagsConcat(a: seq<Flag>, b: seq<Flag>)
    ensures DeploymentFlags(a + b) == DeploymentFlags(a) + DeploymentFlags(b)
  {
    if a == [] {
      assert a + b == b;
    } else {
      DeploymentFlagsConcat(a[1..], b);
      assert (a + b)[0] == a[0] && (a + b)[1..] == a[1..] + b;
      var head := if IsDeployment(a[0].key) then [a[0]] else [];
      Regroup(head, DeploymentFlags(a[1..]), DeploymentFlags(b));
    }
  }

  lemma Regroup<T>(a: seq<T>, b: seq<T>, c: seq<T>)
    ensures a + (b + c) == (a + b) + c
  {
  }

  lemma {:induction false} NoDeploymentAfter(args: seq<Arg>, n: nat)
    requires DeploymentsIn(args) == [] && n <= |args|
    ensures DeploymentsIn(args[n..]) == []
  {
    if n > 0 {
      NoDeploymentAfter(args[1..], n - 1);
      assert args[1..][n - 1..] == args[n..];
    } else {
      assert args[0..] == args;
    }
  }

  /** A list without deployment arguments means no deployment flag. */
  lemma {:induction false} NoDeploymentFlags(args: seq<Arg>)
    requires DeploymentsIn(args) == []
    ensures DeploymentFlags(Meaning(args)) == []
    decreases |args|
  {
    if args != [] {
      assert !IsDeployment(args[0]);
      if !IsFlag(args[0]) {
        NoDeploymentFlags(args[1..]);
      } else {
        var n := Width(args);
        NoDeploymentAfter(args, n);
        NoDeploymentFlags(args[n..]);
        var f := MeaningUnfolds(args);
        assert Meaning(args)[1..] == Meaning(args[n..]);
      }
    }
  }

  /** What a flag and the text written after it mean: the text is the flag's value unless it is a flag itself. */
  function PairMeaning(a: Arg, b: Arg): seq<Flag> {
    if IsFlag(b) then [Flag(a, None), Flag(b, None)] else [Flag(a, Some(b))]
  }

  lemma MeaningOfPair(a: Arg, b: Arg)
    requires IsFlag(a)
    ensures Meaning([a, b]) == PairMeaning(a, b)
  {
    assert [a, b][1..] == [b] && [b][1..] == [] && [a, b][2..] == [];
    assert IsFlag(b) ==> Meaning([b]) == [Flag(b, None)] + Meaning([]);
  }

  function PairDeployments(a: Arg, b: Arg): seq<Flag> {
    if !IsFlag(b) then [Flag(a, Some(b))]
    else [Flag(a, None)] + if IsDeployment(b) then [Flag(b, None)] else []
  }

  lemma DeploymentsOfPair(a: Arg, b: Arg)
    requires IsDeployment(a)
    ensures DeploymentFlags(Meaning([a, b])) == PairDeployments(a, b)
  {
    DeploymentIsFlag(a);
    MeaningOfPair(a, b);
    assert PairMeaning(a, b)[1..] == if IsFlag(b) then [Flag(b, None)] else [];
    assert [Flag(b, None)][1..] == [];
    assert DeploymentFlags([Flag(b, None)]) == if IsDeployment(b) then [Flag(b, None)] else [];
  }

  lemma OnePairInForce(served: Arg, id: Arg)
    requires IsDeployment(served)
    ensures DeploymentFlags(Meaning([served, id])) == [Flag(served, Some(id))] <==> !IsFlag(id)
  {
    DeploymentsOfPair(served, id);
    assert IsFlag(id) ==> PairDeployments(served, id)[0] == Flag(served, None);
  }

  lemma TwoPairsInForce(a: Arg, b: Arg, c: Arg, d: Arg)
    requires IsDeployment(a) && IsDeployment(c)
    ensures DeploymentFlags(Meaning([a, b] + [c, d])) == [Flag(a, Some(b))] + [Flag(c, Some(d))] <==>
            !IsFlag(b) && !IsFlag(d)
  {
    DeploymentIsFlag(c);
    MeaningOfConcat([a, b], [c, d]);
    DeploymentFlagsConcat(Meaning([a, b]), Meaning([c, d]));
    DeploymentsOfPair(a, b);
    DeploymentsOfPair(c, d);
    var left := PairDeployments(a, b) + PairDeployments(c, d);
    assert IsFlag(b) ==> left[0] == Flag(a, None);
    assert !IsFlag(b) && IsFlag(d) ==> left[1] == Flag(c, None);
  }

  lemma AppendedInForce(revision: Arg, served: Arg, commit: Option<Arg>, id: Arg)
    requires IsDeployment(revision) && IsDeployment(served)
    ensures DeploymentFlags(Meaning(Appended(revision, served, commit, id))) == Asked(revision, served, commit, id) <==>
            !IsFlag(id) && (commit.Some? ==> !IsFlag(commit.value))
  {
    if commit.Some? {
      TwoPairsInForce(revision, commit.value, served, id);
    } else {
      assert Appended(revision, served, commit, id) == [served, id];
      OnePairInForce(served, id);
    }
  }

  /** What was there before adds no deployment flag. */
  lemma OnlyAppendedDeploys(args: seq<Arg>, revision: Arg, served: Arg, commit: Option<Arg>, id: Arg)
    requires IsDeployment(revision) && IsDeployment(served)
    ensures DeploymentFlags(Meaning(Removed(args) + Appended(revision, served, commit, id))) ==
            DeploymentFlags(Meaning(Appended(revision, served, commit, id)))
  {
    var kept, tail := Removed(args), Appended(revision, served, commit, id);
    DeploymentIsFlag(revision);
    DeploymentIsFlag(served);
    MeaningOfConcat(kept, tail);
    DeploymentFlagsConcat(Meaning(kept), Meaning(tail));
    RemovedKeepsOtherFlags(args);
    NoDeploymentFlags(kept);
  }

  /** With an override, the rewritten arguments deploy the override and nothing else if and only if neither the model id
      nor a given commit starts with two dashes. */
  lemma OverrideInForceIff(id: string, epoch: seq<Arg>, local: seq<Arg>, o: Override)
    ensures OverrideInForce(Resolved(id, epoch, local, Some(o))) <==>
            !IsFlag(Arg(id)) && (o.commit != "" ==> !IsFlag(Arg(o.commit)))
  {
    var commit := Given(o.commit);
    RevisionIsDeployment();
    ServedNameIsDeployment();
    OnlyAppendedDeploys(Merged(epoch, local), Arg(REVISION), Arg(SERVED_NAME), commit, Arg(id));
    AppendedInForce(Arg(REVISION), Arg(SERVED_NAME), commit, Arg(id));
  }

  /** Names that do not start with two dashes are enough. */
  lemma PlainNamesKeepOverrideInForce(id: string, epoch: seq<Arg>, local: seq<Arg>, o: Override)
    requires !IsFlag(Arg(id)) && !IsFlag(Arg(o.commit))
    ensures OverrideInForce(Resolved(id, epoch, local, Some(o)))
  {
    OverrideInForceIff(id, epoch, local, o);
  }

  lemma DashedTextIsNoValue(served: Arg, id: Arg)
    requires IsDeployment(served) && IsFlag(id)
    ensures Removed(Merged([], [])) + [served, id] == [served, id]
    ensures Meaning([served, id]) == [Flag(served, None), Flag(id, None)]
  {
    assert Merged([], []) == [];
    DeploymentIsFlag(served);
    MeaningOfPair(served, id);
  }

  /** The failing family: an id that starts with two dashes is taken for a flag of its own, and no name is served. */
  lemma DashedIdServesNoName(id: string, repo: string)
    requires IsFlag(Arg(id))
    ensures var d := Resolved(id, [], [], Some(Override(repo, "")));
            Meaning(d.args) == [Flag(Arg(SERVED_NAME), None), Flag(Arg(id), None)] && !OverrideInForce(d)
  {
    RevisionIsDeployment();
    ServedNameIsDeployment();
    DashedTextIsNoValue(Arg(SERVED_NAME), Arg(id));
    OverrideInForceIff(id, [], [], Override(repo, ""));
  }

  /** The place where the scan goes on after place `i`. */
  function NextPlace(args: seq<Arg>, i: nat): (j: nat)
    requires i < |args|
    ensures i < j <= |args|
  {
    if !IsDeployment(args[i]) || HasEquals(args[i]) then i + 1
    else if Name(args[i]) == SERVED_NAME then |args| - |DropValues(args[i + 1..])|
    else if ValueAt(args, i + 1) then i + 2 else i + 1
  }

  lemma {:induction false} DropValuesIsSuffix(args: seq<Arg>, i: nat)
    requires i <= |args|
    ensures DropValues(args[i..]) == args[|args| - |DropValues(args[i..])|..]
    decreases |args| - i
  {
    if ValueAt(args, i) {
      assert args[i..][1..] == args[i + 1..];
      DropValuesIsSuffix(args, i + 1);
    }
  }

  lemma RemovedUnfolds(args: seq<Arg>, i: nat, cleaned: seq<Arg>)
    requires i < |args|
    ensures cleaned + Removed(args[i..]) ==
            (if IsDeployment(args[i]) then cleaned else cleaned + [args[i]]) + Removed(args[NextPlace(args, i)..])
  {
    assert args[i..][1..] == args[i + 1..];
    DropValuesIsSuffix(args, i + 1);
    if ValueAt(args, i + 1) {
      assert args[i + 1..][1..] == args[i + 2..];
    }
  }

  method RemoveDeploymentArgs(args: seq<Arg>) returns (cleaned: seq<Arg>)
    ensures cleaned == Removed(args)
  {
    cleaned := [];
    var i := 0;
    assert args[0..] == args;
    while i < |args|
      invariant i <= |args| && cleaned + Removed(args[i..]) == Removed(args)
    {
      RemovedUnfolds(args, i, cleaned);
      if !IsDeployment(args[i]) {
        cleaned := cleaned + [args[i]];
        i := i + 1;
      } else {
        i := SkipDeployment(args, i);
      }
    }
  }

  /** Steps over the deployment argument at `i` and the values that go with it. */
  method SkipDeployment(args: seq<Arg>, i: nat) returns (j: nat)
    requires i < |args| && IsDeployment(args[i])
    ensures j == NextPlace(args, i)
  {
    j := i;
    if !HasEquals(args[i]) {
      if Name(args[i]) == SERVED_NAME {
        j := SkipValues(args, i);
      } else if i + 1 < |args| && !IsFlag(args[i + 1]) {
        j := i + 1;
      }
    }
    j := j + 1;
  }

  /** Moves to the last value after place `i`. */
  method SkipValues(args: seq<Arg>, i: nat) returns (j: nat)
    requires i < |args|
    ensures i <= j < |args| && j + 1 == |args| - |DropValues(args[i + 1..])|
  {
    j := i;
    while j + 1 < |args| && !IsFlag(args[j + 1])
      invariant i <= j < |args| && DropValues(args[j + 1..]) == DropValues(args[i + 1..])
    {
      assert args[j + 1..][1..] == args[j + 2..];
      j := j + 1;
    }
  }

  method ResolveModelDeployment(id: string, epoch: seq<Arg>, local: seq<Arg>, override: Option<Override>)
    returns (d: Deployment)
    ensures d == Resolved(id, epoch, local, override)
  {
    var args := MergeModelArgs(epoch, local);
    d := Deployment(id, id, "", args);
    if override.None? {
      return;
    }
    d := d.(loadModel := override.value.repo, loadCommit := override.value.commit);
    var cleaned := RemoveDeploymentArgs(args);
    var all := cleaned;
    if d.loadCommit != "" {
      all := all + [Arg(REVISION), Arg(d.loadCommit)];
    }
    all := all + [Arg(SERVED_NAME), Arg(id)];
    assert all == cleaned + OverrideArgs(d.loadCommit, id);
    d := d.(args := all);
  }
}
