/** The byte strings that proof requests hash and sign. Numbers are little-endian, strings carry their length, the root
    hash is written raw; a decoder that knows the root length inverts the encoder. */
module SigningPayload {
  import opened Common

  type byte = x: int | 0 <= x < 256

  type bytes = seq<byte>

  // ---- Little-endian numbers --------------------------------------------------------------------------------------

  function Pow256(n: nat): nat {
    if n == 0 then 1 else 256 * Pow256(n - 1)
  }

  function Le(v: nat, n: nat): (b: bytes)
    ensures |b| == n
  {
    if n == 0 then [] else [v % 256] + Le(v / 256, n - 1)
  }

  function FromLe(b: bytes): nat {
    if b == [] then 0 else b[0] + 256 * FromLe(b[1..])
  }

  lemma {:induction false} LeRoundTrip(v: nat, n: nat)
    requires v < Pow256(n)
    ensures FromLe(Le(v, n)) == v
  {
    if n > 0 {
      LeRoundTrip(v / 256, n - 1);
    }
  }

  /** Two's complement in `2 * half` values. */
  function Unsigned(v: int, half: int): nat
    requires -half <= v < 2 * half
  {
    if v < 0 then v + 2 * half else v
  }

  function Signed(u: nat, half: int): int {
    if u < half then u else u - 2 * half
  }

  /** The low 32 bits. */
  function Low32(v: nat): nat {
    if v < 0x1_0000_0000 then v else v % 0x1_0000_0000
  }

  function Le32(v: nat): (b: bytes)
    ensures |b| == 4
  {
    Le(Low32(v), 4)
  }

  function Le64(v: int): (b: bytes)
    requires -0x8000_0000_0000_0000 <= v < 0x8000_0000_0000_0000
    ensures |b| == 8
  {
    Le(Unsigned(v, 0x8000_0000_0000_0000), 8)
  }

  lemma Powers()
    ensures Pow256(4) == 0x1_0000_0000 && Pow256(8) == 0x1_0000_0000_0000_0000
  {
    assert Pow256(1) == 256 && Pow256(2) == 256 * 256 && Pow256(3) == 256 * 256 * 256;
    assert Pow256(5) == 256 * Pow256(4) && Pow256(6) == 256 * Pow256(5) && Pow256(7) == 256 * Pow256(6);
  }

  // ---- Requests ---------------------------------------------------------------------------------------------------

  /** `items` are leaf indices (unsigned) or nonces (signed). */
  datatype Request = Request(height: int, modelID: bytes, root: bytes, count: nat, items: seq<int>, timestamp: int,
                             validator: bytes, signer: bytes)

  predicate Is64(v: int) {
    -0x8000_0000_0000_0000 <= v < 0x8000_0000_0000_0000
  }

  predicate IsItem(v: int, signed: bool) {
    if signed then -0x8000_0000 <= v < 0x8000_0000 else 0 <= v < 0x1_0000_0000
  }

  /** The Go types: 64-bit times and heights, 32-bit count and items. */
  predicate Typed(r: Request, signed: bool) {
    && Is64(r.height) && Is64(r.timestamp) && r.count < 0x1_0000_0000
    && forall i :: 0 <= i < |r.items| ==> IsItem(r.items[i], signed)
  }

  /** Lengths that fit their 32-bit prefixes. */
  predicate Short(r: Request) {
    && |r.modelID| < 0x1_0000_0000 && |r.items| < 0x1_0000_0000
    && |r.validator| < 0x1_0000_0000 && |r.signer| < 0x1_0000_0000
  }

  function LengthPrefixed(s: bytes): bytes {
    Le32(|s|) + s
  }

  predicate InRange(v: int) {
    -0x8000_0000 <= v < 0x1_0000_0000
  }

  function Item(v: int): bytes
    requires InRange(v)
  {
    Le(Unsigned(v, 0x8000_0000), 4)
  }

  function Items(items: seq<int>): bytes
    requires forall i :: 0 <= i < |items| ==> InRange(items[i])
  {
    if items == [] then [] else Item(items[0]) + Items(items[1..])
  }

  function AfterItems(r: Request): bytes
    requires Is64(r.timestamp)
  {
    Le64(r.timestamp) + (LengthPrefixed(r.validator) + LengthPrefixed(r.signer))
  }

  function AfterModel(r: Request, signed: bool): bytes
    requires Typed(r, signed)
  {
    r.root + (Le32(r.count) + (Le32(|r.items|) + (Items(r.items) + AfterItems(r))))
  }

  function Body(r: Request, signed: bool): bytes
    requires Typed(r, signed)
  {
    Le64(r.height) + (LengthPrefixed(r.modelID) + AfterModel(r, signed))
  }

  /** The leaf-index payload before hashing. */
  function LeafBytes(r: Request): bytes
    requires Typed(r, false)
  {
    Body(r, false)
  }

  /** "poc-proofs-by-nonce-v1" */
  const TAG: bytes :=
    [112, 111, 99, 45, 112, 114, 111, 111, 102, 115, 45, 98, 121, 45, 110, 111, 110, 99, 101, 45, 118, 49]

  /** The by-nonce payload before hashing. */
  function NonceBytes(r: Request): bytes
    requires Typed(r, true)
  {
    LengthPrefixed(TAG) + Body(r, true)
  }

  // ---- The decoder ------------------------------------------------------------------------------------------------

  datatype Parsed<+T> = Fail | Got(value: T, rest: bytes)

  function TakeBytes(s: bytes, n: nat): Parsed<bytes> {
    if n <= |s| then Got(s[..n], s[n..]) else Fail
  }

  function TakeLe(s: bytes, n: nat): Parsed<nat> {
    match TakeBytes(s, n)
    case Fail => Fail
    case Got(b, rest) => Got(FromLe(b), rest)
  }

  function TakeString(s: bytes): Parsed<bytes> {
    match TakeLe(s, 4)
    case Fail => Fail
    case Got(n, rest) => TakeBytes(rest, n)
  }

  function TakeItems(s: bytes, n: nat, signed: bool): Parsed<seq<int>> {
    if n == 0 then Got([], s)
    else
      match TakeLe(s, 4)
      case Fail => Fail
      case Got(u, rest) =>
        match TakeItems(rest, n - 1, signed)
        case Fail => Fail
        case Got(items, end) => Got([if signed then Signed(u, 0x8000_0000) else u] + items, end)
  }

  datatype Middle = Middle(root: bytes, count: nat, items: seq<int>)

  function TakeMiddle(s: bytes, rootLength: nat, signed: bool): Parsed<Middle> {
    match TakeBytes(s, rootLength)
    case Fail => Fail
    case Got(root, s1) =>
      match TakeLe(s1, 4)
      case Fail => Fail
      case Got(count, s2) =>
        match TakeLe(s2, 4)
        case Fail => Fail
        case Got(n, s3) =>
          match TakeItems(s3, n, signed)
          case Fail => Fail
          case Got(items, s4) => Got(Middle(root, count, items), s4)
  }

  datatype End = End(timestamp: int, validator: bytes, signer: bytes)

  function TakeEnd(s: bytes): Parsed<End> {
    match TakeLe(s, 8)
    case Fail => Fail
    case Got(timestamp, s1) =>
      match TakeString(s1)
      case Fail => Fail
      case Got(validator, s2) =>
        match TakeString(s2)
        case Fail => Fail
        case Got(signer, s3) => Got(End(Signed(timestamp, 0x8000_0000_0000_0000), validator, signer), s3)
  }

  /** The whole string has to be consumed. */
  function Decode(s: bytes, rootLength: nat, signed: bool): Option<Request> {
    match TakeLe(s, 8)
    case Fail => None
    case Got(height, s1) =>
      match TakeString(s1)
      case Fail => None
      case Got(model, s2) =>
        match TakeMiddle(s2, rootLength, signed)
        case Fail => None
        case Got(m, s3) =>
          match TakeEnd(s3)
          case Fail => None
          case Got(e, s4) =>
            if s4 != [] then None
            else Some(Request(Signed(height, 0x8000_0000_0000_0000), model, m.root, m.count, m.items, e.timestamp,
                              e.validator, e.signer))
  }

  /** The by-nonce reader strips the tag first. */
  function DecodeByNonce(s: bytes, rootLength: nat): Option<Request> {
    match TakeString(s)
    case Fail => None
    case Got(tag, rest) => if tag == TAG then Decode(rest, rootLength, true) else None
  }

  lemma TakesBytes(b: bytes, rest: bytes)
    ensures TakeBytes(b + rest, |b|) == Got(b, rest)
  {
    assert (b + rest)[..|b|] == b && (b + rest)[|b|..] == rest;
  }

  lemma TakesLe(v: nat, n: nat, rest: bytes)
    requires v < Pow256(n)
    ensures TakeLe(Le(v, n) + rest, n) == Got(v, rest)
  {
    TakesBytes(Le(v, n), rest);
    LeRoundTrip(v, n);
  }

  lemma TakesLe32(v: nat, rest: bytes)
    requires v < 0x1_0000_0000
    ensures TakeLe(Le32(v) + rest, 4) == Got(v, rest)
  {
    Powers();
    TakesLe(v, 4, rest);
  }

  lemma TakesLe64(v: int, rest: bytes)
    requires Is64(v)
    ensures TakeLe(Le64(v) + rest, 8) == Got(Unsigned(v, 0x8000_0000_0000_0000), rest)
  {
    Powers();
    TakesLe(Unsigned(v, 0x8000_0000_0000_0000), 8, rest);
  }

  lemma TakesString(s: bytes, rest: bytes)
    requires |s| < 0x1_0000_0000
    ensures TakeString(LengthPrefixed(s) + rest) == Got(s, rest)
  {
    assert LengthPrefixed(s) + rest == Le32(|s|) + (s + rest);
    TakesLe32(|s|, s + rest);
    TakesBytes(s, rest);
  }

  lemma TakesItem(v: int, signed: bool, rest: bytes)
    requires IsItem(v, signed)
    ensures TakeLe(Item(v) + rest, 4) == Got(Unsigned(v, 0x8000_0000), rest)
  {
    Powers();
    TakesLe(Unsigned(v, 0x8000_0000), 4, rest);
  }

  lemma {:induction false} TakesItems(items: seq<int>, signed: bool, rest: bytes)
    requires forall i :: 0 <= i < |items| ==> InRange(items[i]) && IsItem(items[i], signed)
    ensures TakeItems(Items(items) + rest, |items|, signed) == Got(items, rest)
  {
    if items == [] {
      assert Items(items) + rest == rest;
    } else {
      assert Items(items) + rest == Item(items[0]) + (Items(items[1..]) + rest);
      TakesItem(items[0], signed, Items(items[1..]) + rest);
      TakesItems(items[1..], signed, rest);
      assert items == [items[0]] + items[1..];
    }
  }

  lemma TakesMiddle(r: Request, signed: bool)
    requires Typed(r, signed) && Short(r)
    ensures TakeMiddle(AfterModel(r, signed), |r.root|, signed) == Got(Middle(r.root, r.count, r.items), AfterItems(r))
  {
    var s3 := Items(r.items) + AfterItems(r);
    TakesBytes(r.root, Le32(r.count) + (Le32(|r.items|) + s3));
    TakesLe32(r.count, Le32(|r.items|) + s3);
    TakesLe32(|r.items|, s3);
    TakesItems(r.items, signed, AfterItems(r));
  }

  lemma TakesEnd(r: Request)
    requires Is64(r.timestamp) && Short(r)
    ensures TakeEnd(AfterItems(r)) == Got(End(r.timestamp, r.validator, r.signer), [])
  {
    TakesLe64(r.timestamp, LengthPrefixed(r.validator) + LengthPrefixed(r.signer));
    TakesString(r.validator, LengthPrefixed(r.signer));
    assert LengthPrefixed(r.signer) == LengthPrefixed(r.signer) + [];
    TakesString(r.signer, []);
  }

  // ---- Main results -----------------------------------------------------------------------------------------------

  /** The decoder inverts the encoder, for every root length it is told. */
  lemma DecodeInverts(r: Request, signed: bool)
    requires Typed(r, signed) && Short(r)
    ensures Decode(Body(r, signed), |r.root|, signed) == Some(r)
  {
    var s1 := LengthPrefixed(r.modelID) + AfterModel(r, signed);
    TakesLe64(r.height, s1);
    TakesString(r.modelID, AfterModel(r, signed));
    TakesMiddle(r, signed);
    TakesEnd(r);
    DecodeJoins(Body(r, signed), s1, AfterModel(r, signed), AfterItems(r), r, signed);
  }

  lemma DecodeJoins(s: bytes, s1: bytes, s2: bytes, s3: bytes, r: Request, signed: bool)
    requires Is64(r.height) && TakeLe(s, 8) == Got(Unsigned(r.height, 0x8000_0000_0000_0000), s1)
    requires TakeString(s1) == Got(r.modelID, s2)
    requires TakeMiddle(s2, |r.root|, signed) == Got(Middle(r.root, r.count, r.items), s3)
    requires TakeEnd(s3) == Got(End(r.timestamp, r.validator, r.signer), [])
    ensures Decode(s, |r.root|, signed) == Some(r)
  {
  }

  lemma DecodeByNonceInverts(r: Request)
    requires Typed(r, true) && Short(r)
    ensures DecodeByNonce(NonceBytes(r), |r.root|) == Some(r)
  {
    TakesString(TAG, Body(r, true));
    DecodeInverts(r, true);
  }

  /** What is signed determines every field, for roots of one length. */
  lemma LeafBytesDetermineRequest(r: Request, q: Request)
    requires Typed(r, false) && Typed(q, false) && Short(r) && Short(q) && |r.root| == |q.root|
    ensures LeafBytes(r) == LeafBytes(q) <==> r == q
  {
    DecodeInverts(r, false);
    DecodeInverts(q, false);
  }

  lemma NonceBytesDetermineRequest(r: Request, q: Request)
    requires Typed(r, true) && Typed(q, true) && Short(r) && Short(q) && |r.root| == |q.root|
    ensures NonceBytes(r) == NonceBytes(q) <==> r == q
  {
    DecodeByNonceInverts(r);
    DecodeByNonceInverts(q);
  }

  /** Without a fixed root length two requests share one string. */
  lemma RootLengthMatters(root: bytes) returns (r: Request, q: Request)
    requires |root| == 32
    ensures Typed(r, false) && Typed(q, false) && Short(r) && Short(q) && r != q
    ensures LeafBytes(r) == LeafBytes(q)
  {
    r := Request(1, [], root, 7, [0], 2, [], []);
    q := Request(1, [], root + Le32(7), 1, [], 2, [], []);
    assert Items([0]) == Item(0) + Items([]) == Le32(0);
    Regroup(root, Le32(7), Le32(1), Le32(0), AfterItems(r));
  }

  lemma Regroup(a: bytes, b: bytes, c: bytes, d: bytes, e: bytes)
    ensures a + (b + (c + (d + e))) == (a + b) + (c + (d + ([] + e)))
  {
    assert [] + e == e;
  }

  // ---- Domain separation --------------------------------------------------------------------------------------------

  /** The tag's length and first four characters, read as a height. */
  const TAG_HEIGHT := 0x2d63_6f70_0000_0016

  lemma {:induction false} FromLeConcat(a: bytes, b: bytes)
    ensures FromLe(a + b) == FromLe(a) + Pow256(|a|) * FromLe(b)
  {
    if a == [] {
      assert a + b == b;
    } else {
      FromLeConcat(a[1..], b);
      assert (a + b)[1..] == a[1..] + b;
      Shifted(a[0], FromLe(a[1..]), Pow256(|a| - 1), FromLe(b));
    }
  }

  lemma Shifted(low: nat, mid: nat, power: nat, high: nat)
    ensures low + 256 * (mid + power * high) == low + 256 * mid + 256 * power * high
  {
  }

  lemma TagHead()
    ensures FromLe(Le32(|TAG|) + TAG[..4]) == TAG_HEIGHT
  {
    Powers();
    LeRoundTrip(22, 4);
    FromLeConcat(Le32(22), TAG[..4]);
    var t := TAG[..4];
    assert t == [112, 111, 99, 45] && t[1..] == [111, 99, 45] && t[2..] == [99, 45] && t[3..] == [45];
    assert FromLe([45][1..]) == 0;
    assert FromLe([99, 45]) == 99 + 256 * FromLe([45]);
    assert FromLe([111, 99, 45]) == 111 + 256 * FromLe([99, 45]);
    assert FromLe(t) == 0x2d63_6f70;
  }

  /** A leaf-index string is a by-nonce string only at one stage height. */
  lemma CollisionNeedsTagHeight(r: Request, q: Request)
    requires Typed(r, false) && Typed(q, true) && LeafBytes(r) == NonceBytes(q)
    ensures r.height == TAG_HEIGHT
  {
    TagHead();
    TakesLe64(r.height, LengthPrefixed(r.modelID) + AfterModel(r, false));
    Prefix8(Le32(|TAG|), TAG, Body(q, true));
    assert Unsigned(r.height, 0x8000_0000_0000_0000) == TAG_HEIGHT;
  }

  lemma Prefix8(a: bytes, b: bytes, c: bytes)
    requires |a| == 4 && |b| >= 4
    ensures ((a + b) + c)[..8] == a + b[..4]
  {
  }

  /** Two well-formed requests of different kinds with one string. */
  ghost predicate Collide(r: Request, q: Request) {
    && Typed(r, false) && Typed(q, true) && Short(r) && Short(q) && |r.root| == 32 && |q.root| == 32
    && LeafBytes(r) == NonceBytes(q)
  }

  lemma {:induction false} LeOfFromLe(b: bytes)
    ensures FromLe(b) < Pow256(|b|) && Le(FromLe(b), |b|) == b
  {
    if b != [] {
      LeOfFromLe(b[1..]);
      assert b == [b[0]] + b[1..];
      assert FromLe(b) / 256 == FromLe(b[1..]) && FromLe(b) % 256 == b[0];
    }
  }

  lemma Le32OfFromLe(b: bytes)
    requires |b| == 4
    ensures FromLe(b) < 0x1_0000_0000 && Le32(FromLe(b)) == b
  {
    Powers();
    LeOfFromLe(b);
    Le32IsLe(FromLe(b));
  }

  lemma Le32IsLe(v: nat)
    requires v < 0x1_0000_0000
    ensures Le32(v) == Le(v, 4)
  {
  }

  /** What follows the model in a leaf-index string with no items and no validator, up to its signer. */
  function Filler(root: bytes, signerLength: nat): (x: bytes)
    ensures |x| == |root| + 24
  {
    root + (Le32(0) + (Le32(0) + (Le64(0) + (Le32(0) + Le32(signerLength)))))
  }

  lemma FillerThenSigner(r: Request)
    requires Typed(r, false) && r.count == 0 && r.items == [] && r.timestamp == 0 && r.validator == []
    ensures AfterModel(r, false) == Filler(r.root, |r.signer|) + r.signer
  {
    var z, n, t := Le32(0), Le32(|r.signer|), Le64(0);
    Nest(r.root, z, z, t, z, n, r.signer);
    assert Items(r.items) == [] && LengthPrefixed(r.validator) == z + [];
  }

  lemma Nest(a: bytes, b: bytes, c: bytes, d: bytes, e: bytes, f: bytes, g: bytes)
    ensures (a + (b + (c + (d + (e + f))))) + g == a + (b + (c + ([] + (d + ((e + []) + (f + g))))))
  {
    assert e + [] == e;
    assert (e + f) + g == e + (f + g);
    assert (d + (e + f)) + g == d + (e + (f + g));
    assert [] + (d + (e + (f + g))) == d + (e + (f + g));
  }

  lemma Interleave(n: bytes, tag: bytes, h: bytes, m: bytes, a: bytes, x: bytes, z: bytes)
    requires |tag| >= 8
    ensures (n + tag) + (h + ((m + (a + x)) + z)) ==
            (n + tag[..4]) + ((tag[4..8] + (tag[8..] + h + m + a)) + (x + z))
  {
    assert tag == tag[..4] + tag[4..8] + tag[8..];
  }

  /** Read as a leaf-index string, a by-nonce string has the length of the tag and the tag's first bytes as its height,
      the next ones as the length of its model, and the by-nonce request from there on in its model and its signer. */
  lemma SameString(tag: bytes, q: Request, r: Request, padding: bytes, z: bytes)
    requires |tag| >= 8 && Typed(q, true) && Typed(r, false) && z == AfterModel(q, true)
    requires q.modelID == padding + Filler(r.root, |z|) && r.signer == z
    requires r.count == 0 && r.items == [] && r.timestamp == 0 && r.validator == []
    requires r.modelID == tag[8..] + Le64(q.height) + Le32(|q.modelID|) + padding
    requires Le64(r.height) == Le32(|tag|) + tag[..4] && Le32(|r.modelID|) == tag[4..8]
    ensures Body(r, false) == LengthPrefixed(tag) + Body(q, true)
  {
    var h, m := Le64(q.height), Le32(|q.modelID|);
    Interleave(Le32(|tag|), tag, h, m, padding, Filler(r.root, |z|), z);
    FillerThenSigner(r);
  }

  lemma ColliderFor(tag: bytes, height: int, n: nat) returns (r: Request, q: Request)
    requires |tag| == 22 && Is64(height) && Le64(height) == Le32(22) + tag[..4]
    requires 26 <= n < 0x8000_0000 && Le32(n) == tag[4..8]
    ensures Typed(r, false) && Typed(q, true) && Short(r) && Short(q) && |r.root| == 32 && |q.root| == 32
    ensures Body(r, false) == LengthPrefixed(tag) + Body(q, true) && r.height == height
  {
    var zeros: bytes, padding: bytes := seq(32, _ => 0), seq(n - 26, _ => 0);
    q := Request(0, padding + Filler(zeros, 56), zeros, 0, [], 0, [], []);
    var z := AfterModel(q, true);
    assert |z| == 56 by {
      assert Items(q.items) == [];
    }
    r := Request(height, tag[8..] + Le64(0) + Le32(|q.modelID|) + padding, zeros, 0, [], 0, [], z);
    assert |r.modelID| == n;
    SameString(tag, q, r, padding, z);
  }

  lemma TagHeightCollides() returns (r: Request, q: Request)
    ensures Collide(r, q) && r.height == TAG_HEIGHT
  {
    TagHead();
    LeOfFromLe(Le32(22) + TAG[..4]);
    Le32OfFromLe(TAG[4..8]);
    TagModelLength();
    r, q := ColliderFor(TAG, TAG_HEIGHT, FromLe(TAG[4..8]));
  }

  lemma TagModelLength()
    ensures FromLe(TAG[4..8]) == 0x6f6f_7270
  {
    var t := TAG[4..8];
    assert t == [112, 114, 111, 111] && t[1..] == [114, 111, 111] && t[2..] == [111, 111] && t[3..] == [111];
    assert FromLe([111][1..]) == 0;
    assert FromLe([111, 111]) == 111 + 256 * FromLe([111]);
    assert FromLe([114, 111, 111]) == 114 + 256 * FromLe([111, 111]);
  }

  /** The two kinds of string are apart at every stage height but one, and the tag's own height is that one. */
  lemma KindsSeparateIffNotTagHeight(height: int)
    ensures (forall r: Request, q :: Collide(r, q) ==> r.height != height) <==> height != TAG_HEIGHT
  {
    forall r, q | Collide(r, q)
      ensures r.height == TAG_HEIGHT
    {
      CollisionNeedsTagHeight(r, q);
    }
    var r, q := TagHeightCollides();
  }

  /** In particular they are apart from height 0 to below 2^61, whatever the lengths. */
  lemma KindsSeparate(r: Request, q: Request)
    requires Typed(r, false) && Typed(q, true) && 0 <= r.height < 0x2000_0000_0000_0000
    ensures LeafBytes(r) != NonceBytes(q)
  {
    if LeafBytes(r) == NonceBytes(q) {
      CollisionNeedsTagHeight(r, q);
    }
  }

  // ---- The builders -------------------------------------------------------------------------------------------------

  /** Writing `piece` next takes it off the front of what is still to be written. */
  lemma Peel(buf: bytes, piece: bytes, rest: bytes)
    ensures buf + (piece + rest) == (buf + piece) + rest
  {
  }

  method WriteLengthPrefixed(start: bytes, s: bytes) returns (buf: bytes)
    ensures buf == start + LengthPrefixed(s)
  {
    buf := start + Le32(|s|);
    buf := buf + s;
  }

  method WriteItems(start: bytes, items: seq<int>) returns (buf: bytes)
    requires forall i :: 0 <= i < |items| ==> InRange(items[i])
    ensures buf == start + Items(items)
  {
    buf := start;
    assert items[0..] == items;
    for i := 0 to |items|
      invariant buf + Items(items[i..]) == start + Items(items)
    {
      assert items[i..][1..] == items[i + 1..];
      Peel(buf, Item(items[i]), Items(items[i + 1..]));
      buf := buf + Item(items[i]);
    }
    assert buf + Items(items[|items|..]) == buf;
  }

  method WriteMiddle(start: bytes, r: Request, signed: bool) returns (buf: bytes)
    requires Typed(r, signed)
    ensures buf + AfterItems(r) == start + AfterModel(r, signed)
  {
    ghost var s3 := Items(r.items) + AfterItems(r);
    buf := start + r.root;
    Peel(start, r.root, Le32(r.count) + (Le32(|r.items|) + s3));
    Peel(buf, Le32(r.count), Le32(|r.items|) + s3);
    buf := buf + Le32(r.count);
    Peel(buf, Le32(|r.items|), s3);
    buf := buf + Le32(|r.items|);
    Peel(buf, Items(r.items), AfterItems(r));
    buf := WriteItems(buf, r.items);
  }

  method WriteRequest(start: bytes, r: Request, signed: bool) returns (buf: bytes)
    requires Typed(r, signed)
    ensures buf == start + Body(r, signed)
  {
    ghost var model, end := LengthPrefixed(r.modelID), LengthPrefixed(r.validator) + LengthPrefixed(r.signer);
    Peel(start, Le64(r.height), model + AfterModel(r, signed));
    buf := start + Le64(r.height);
    Peel(buf, model, AfterModel(r, signed));
    buf := WriteLengthPrefixed(buf, r.modelID);
    buf := WriteMiddle(buf, r, signed);
    Peel(buf, Le64(r.timestamp), end);
    buf := buf + Le64(r.timestamp);
    Peel(buf, LengthPrefixed(r.validator), LengthPrefixed(r.signer));
    buf := WriteLengthPrefixed(buf, r.validator);
    buf := WriteLengthPrefixed(buf, r.signer);
  }

  /** The string hashed for a leaf-index request. */
  method BuildProofSignPayload(r: Request) returns (buf: bytes)
    requires Typed(r, false)
    ensures buf == LeafBytes(r)
  {
    buf := WriteRequest([], r, false);
  }

  /** The string hashed for a by-nonce request. */
  method BuildProofByNonceSignPayload(r: Request) returns (buf: bytes)
    requires Typed(r, true)
    ensures buf == NonceBytes(r)
  {
    buf := WriteRequest(LengthPrefixed(TAG), r, true);
  }
}
