/** The wire encoding (rpc/marshall.h, rpc/rpc.cc) of integers, strings, vectors and maps,
    nested to any depth: it can be read back, and no encoding is a prefix of another. */
module Marshalling {
  import opened Common

  type byte = x: nat | x < 256

  const TWO16 := 0x1_0000

  // ---- integers, big-endian ----

  function EncU16(x: nat): seq<byte>
    requires x < TWO16
  {
    [x / 256, x % 256]
  }

  function EncU32(x: nat): seq<byte>
    requires x < TWO32
  {
    [x / 0x100_0000, x / 0x1_0000 % 256, x / 0x100 % 256, x % 256]
  }

  function DecU16(b: seq<byte>): (x: nat)
    requires |b| == 2
    ensures x < TWO16
  {
    var h: nat, l: nat := b[0], b[1];
    256 * h + l
  }

  function DecU32(b: seq<byte>): (x: nat)
    requires |b| == 4
    ensures x < TWO32
  {
    var b0: nat, b1: nat, b2: nat, b3: nat := b[0], b[1], b[2], b[3];
    0x100_0000 * b0 + 0x1_0000 * b1 + 0x100 * b2 + b3
  }

  lemma U16RoundTrip(x: nat)
    requires x < TWO16
    ensures DecU16(EncU16(x)) == x
  {
  }

  lemma U32RoundTrip(x: nat)
    requires x < TWO32
    ensures DecU32(EncU32(x)) == x
  {
    var a, b, c := x / 0x100, x / 0x1_0000, x / 0x100_0000;
    assert x == 0x100 * a + x % 256;
    assert b == a / 256 && a == 0x100 * b + a % 256;
    assert c == b / 256 && b == 0x100 * c + b % 256;
  }

  /** The most significant byte comes first. */
  lemma BigEndian(x: nat)
    requires x < TWO32
    ensures |EncU32(x)| == 4
    ensures var b0: nat, b1: nat, b2: nat, b3: nat := EncU32(x)[0], EncU32(x)[1], EncU32(x)[2], EncU32(x)[3];
            x == 0x100_0000 * b0 + 0x1_0000 * b1 + 0x100 * b2 + b3
    ensures x < 0x1_0000 ==> |EncU16(x)| == 2 && var h: nat, l: nat := EncU16(x)[0], EncU16(x)[1]; x == 0x100 * h + l
  {
    U32RoundTrip(x);
  }

  /** A signed 32-bit int and the unsigned with the same bits. */
  function ToUnsigned(x: int): (u: nat)
    requires -0x8000_0000 <= x < 0x8000_0000
    ensures u < TWO32
  {
    if x < 0 then x + TWO32 else x
  }

  function ToSigned(u: nat): (x: int)
    requires u < TWO32
    ensures -0x8000_0000 <= x < 0x8000_0000
  {
    if u >= 0x8000_0000 then u - TWO32 else u
  }

  lemma SignedRoundTrip(x: int)
    requires -0x8000_0000 <= x < 0x8000_0000
    ensures ToSigned(ToUnsigned(x)) == x
    ensures x >= 0 ==> ToUnsigned(x) == x
    ensures x < 0 ==> ToUnsigned(x) == x + 0x1_0000_0000
  {
  }

  // ---- values and types ----

  /** The C++ types that have operator<< and operator>>; signed types go by their bits. */
  datatype Ty = TByte | TShort | TInt | TLong | TStr | TVec(elem: Ty) | TMap(key: Ty, value: Ty)

  datatype Pair = Pair(key: Val, value: Val)

  /** A map is its entries in iteration order. */
  datatype Val =
    | VByte(b: byte)
    | VShort(s: nat)
    | VInt(i: nat)
    | VLong(l: nat)
    | VStr(str: seq<byte>)
    | VVec(elems: seq<Val>)
    | VMap(entries: seq<Pair>)

  ghost predicate DistinctKeys(ps: seq<Pair>) {
    forall i, j :: 0 <= i < j < |ps| ==> ps[i].key != ps[j].key
  }

  /** `v` is a value of C++ type `t`; sizes fit in an unsigned int. */
  ghost predicate HasType(v: Val, t: Ty)
    decreases t
  {
    match (v, t)
    case (VByte(_), TByte) => true
    case (VShort(x), TShort) => x < TWO16
    case (VInt(x), TInt) => x < TWO32
    case (VLong(x), TLong) => x < TWO32 * TWO32
    case (VStr(s), TStr) => |s| < TWO31
    case (VVec(es), TVec(e)) => |es| < TWO31 && forall i :: 0 <= i < |es| ==> HasType(es[i], e)
    case (VMap(ps), TMap(k, w)) =>
      && |ps| < TWO31 && DistinctKeys(ps)
      && (forall i :: 0 <= i < |ps| ==> HasType(ps[i].key, k))
      && (forall i :: 0 <= i < |ps| ==> HasType(ps[i].value, w))
    case _ => false
  }

  // ---- operator<< ----

  function Enc(v: Val): seq<byte>
    decreases v, 1
  {
    match v
    case VByte(x) => [x]
    case VShort(x) => EncU16(x % TWO16)
    case VInt(x) => EncU32(x % TWO32)
    case VLong(x) => EncU32(x / TWO32 % TWO32) + EncU32(x % TWO32)
    case VStr(s) => EncU32(|s| % TWO32) + s
    case VVec(es) => EncU32(|es| % TWO32) + EncSeq(es)
    case VMap(ps) => EncU32(|ps| % TWO32) + EncPairs(ps)
  }

  function EncSeq(vs: seq<Val>): seq<byte>
    decreases vs, 0
  {
    if vs == [] then [] else Enc(vs[0]) + EncSeq(vs[1..])
  }

  function EncPairs(ps: seq<Pair>): seq<byte>
    decreases ps, 0
  {
    if ps == [] then [] else EncPair(ps[0]) + EncPairs(ps[1..])
  }

  function EncPair(p: Pair): seq<byte>
    decreases p, 0
  {
    Enc(p.key) + Enc(p.value)
  }

  /** The layout of each kind of value: sizes in four bytes before strings, vectors and maps, high
      word before low word, key before value, elements in order. */
  lemma Layout(b: byte, s: seq<byte>)
    requires |s| < TWO31
    ensures Enc(VByte(b)) == [b] && Enc(VShort(0x0102)) == [1, 2] && Enc(VInt(0x01020304)) == [1, 2, 3, 4]
    ensures Enc(VStr(s)) == EncU32(|s|) + s
  {
    assert EncU16(0x0102) == [1, 2];
    assert EncU32(0x01020304) == [1, 2, 3, 4];
  }

  lemma LongLayout(h: nat, l: nat)
    requires h < TWO32 && l < TWO32
    ensures Enc(VLong(h * TWO32 + l)) == EncU32(h) + EncU32(l)
  {
    var x := h * TWO32 + l;
    assert x / TWO32 == h && x % TWO32 == l && h % TWO32 == h;
  }

  lemma VectorLayout(x: Val, y: Val)
    ensures Enc(VVec([x, y])) == [0, 0, 0, 2] + (Enc(x) + Enc(y))
  {
    TwoElements(x, y);
    assert EncU32(2) == [0, 0, 0, 2];
  }

  lemma TwoElements(x: Val, y: Val)
    ensures EncSeq([x, y]) == Enc(x) + Enc(y)
  {
    assert [x, y][1..] == [y] && [y][1..] == [];
    assert EncSeq([y]) == Enc(y) + [] && Enc(y) + [] == Enc(y);
  }

  lemma MapLayout(x: Val, y: Val)
    ensures Enc(VMap([Pair(x, y)])) == [0, 0, 0, 1] + (Enc(x) + Enc(y))
  {
    OnePair(x, y);
    assert EncU32(1) == [0, 0, 0, 1];
  }

  lemma OnePair(x: Val, y: Val)
    ensures EncPairs([Pair(x, y)]) == Enc(x) + Enc(y)
  {
    assert [Pair(x, y)][1..] == [];
    assert EncPairs([Pair(x, y)]) == EncPair(Pair(x, y)) + [];
    assert EncPair(Pair(x, y)) + [] == Enc(x) + Enc(y);
  }

  // ---- operator>> ----

  /** Bad means that _ok has become false, which nothing undoes. */
  datatype Parsed<+T> = Bad | Good(v: T, rest: seq<byte>)

  function Take(n: nat, s: seq<byte>): (r: Parsed<seq<byte>>)
    ensures r.Good? ==> |r.v| == n && s == r.v + r.rest
    ensures r.Bad? <==> n > |s|
  {
    if n <= |s| then Good(s[..n], s[n..]) else Bad
  }

  function ReadU32(s: seq<byte>): (r: Parsed<nat>)
    ensures r.Good? ==> r.v < TWO32 && |r.rest| + 4 == |s|
  {
    match Take(4, s)
    case Bad => Bad
    case Good(b, rest) => Good(DecU32(b), rest)
  }

  /** d[a] = b. */
  function Assign(ps: seq<Pair>, k: Val, w: Val): seq<Pair> {
    if ps == [] then [Pair(k, w)]
    else if ps[0].key == k then [Pair(k, w)] + ps[1..]
    else [ps[0]] + Assign(ps[1..], k, w)
  }

  function Dec(t: Ty, s: seq<byte>): Parsed<Val>
    decreases t, 0
  {
    match t
    case TByte => (match Take(1, s) case Bad => Bad case Good(b, r) => Good(VByte(b[0]), r))
    case TShort => (match Take(2, s) case Bad => Bad case Good(b, r) => Good(VShort(DecU16(b)), r))
    case TInt => (match ReadU32(s) case Bad => Bad case Good(x, r) => Good(VInt(x), r))
    case TLong =>
      (match ReadU32(s) case Bad => Bad case Good(h, r) =>
        match ReadU32(r) case Bad => Bad case Good(l, r2) => Good(VLong(h * TWO32 + l), r2))
    case TStr =>
      (match ReadU32(s) case Bad => Bad case Good(n, r) =>
        match Take(n, r) case Bad => Bad case Good(b, r2) => Good(VStr(b), r2))
    case TVec(e) =>
      (match ReadU32(s) case Bad => Bad case Good(n, r) =>
        match DecSeq(e, n, r) case Bad => Bad case Good(vs, r2) => Good(VVec(vs), r2))
    case TMap(k, w) =>
      (match ReadU32(s) case Bad => Bad case Good(n, r) =>
        match DecPairs(k, w, n, [], r) case Bad => Bad case Good(ps, r2) => Good(VMap(ps), r2))
  }

  function DecSeq(t: Ty, n: nat, s: seq<byte>): Parsed<seq<Val>>
    decreases t, 1, n
  {
    if n == 0 then Good([], s)
    else match Dec(t, s)
      case Bad => Bad
      case Good(v, r) =>
        match DecSeq(t, n - 1, r) case Bad => Bad case Good(vs, r2) => Good([v] + vs, r2)
  }

  function DecPairs(k: Ty, w: Ty, n: nat, acc: seq<Pair>, s: seq<byte>): Parsed<seq<Pair>>
    decreases TMap(k, w), 0, n
  {
    if n == 0 then Good(acc, s)
    else match Dec(k, s)
      case Bad => Bad
      case Good(a, r) =>
        match Dec(w, r)
        case Bad => Bad
        case Good(b, r2) => DecPairs(k, w, n - 1, Assign(acc, a, b), r2)
  }

  // ---- round trip ----

  lemma TakeExact(b: seq<byte>, rest: seq<byte>)
    ensures Take(|b|, b + rest) == Good(b, rest)
  {
    assert (b + rest)[..|b|] == b && (b + rest)[|b|..] == rest;
  }

  lemma ReadU32Exact(x: nat, rest: seq<byte>)
    requires x < TWO32
    ensures ReadU32(EncU32(x) + rest) == Good(x, rest)
  {
    TakeExact(EncU32(x), rest);
    U32RoundTrip(x);
  }

  lemma {:induction false} AssignNew(ps: seq<Pair>, k: Val, w: Val)
    requires forall i :: 0 <= i < |ps| ==> ps[i].key != k
    ensures Assign(ps, k, w) == ps + [Pair(k, w)]
  {
    if ps != [] {
      assert ps[0].key != k;
      AssignNew(ps[1..], k, w);
    }
  }

  lemma ByteRoundTrip(x: byte, rest: seq<byte>)
    ensures Dec(TByte, Enc(VByte(x)) + rest) == Good(VByte(x), rest)
  {
    TakeExact([x], rest);
  }

  lemma ShortRoundTrip(x: nat, rest: seq<byte>)
    requires x < TWO16
    ensures Dec(TShort, Enc(VShort(x)) + rest) == Good(VShort(x), rest)
  {
    assert x % TWO16 == x;
    TakeExact(EncU16(x), rest);
    U16RoundTrip(x);
  }

  lemma IntRoundTrip(x: nat, rest: seq<byte>)
    requires x < TWO32
    ensures Dec(TInt, Enc(VInt(x)) + rest) == Good(VInt(x), rest)
  {
    assert x % TWO32 == x;
    ReadU32Exact(x, rest);
  }

  /** A length word `h` for `n`, then a body. */
  lemma StrStep(h: seq<byte>, s: seq<byte>, rest: seq<byte>)
    requires ReadU32(h + (s + rest)) == Good(|s|, s + rest)
    ensures Dec(TStr, (h + s) + rest) == Good(VStr(s), rest)
  {
    ConcatAssoc(h, s, rest);
    TakeExact(s, rest);
  }

  lemma VecStep(e: Ty, h: seq<byte>, vs: seq<Val>, body: seq<byte>, rest: seq<byte>)
    requires ReadU32(h + (body + rest)) == Good(|vs|, body + rest) && DecSeq(e, |vs|, body + rest) == Good(vs, rest)
    ensures Dec(TVec(e), (h + body) + rest) == Good(VVec(vs), rest)
  {
    ConcatAssoc(h, body, rest);
  }

  lemma MapStep(k: Ty, w: Ty, h: seq<byte>, ps: seq<Pair>, body: seq<byte>, rest: seq<byte>)
    requires ReadU32(h + (body + rest)) == Good(|ps|, body + rest) && DecPairs(k, w, |ps|, [], body + rest) == Good(ps, rest)
    ensures Dec(TMap(k, w), (h + body) + rest) == Good(VMap(ps), rest)
  {
    ConcatAssoc(h, body, rest);
  }

  lemma StrRoundTrip(s: seq<byte>, rest: seq<byte>)
    requires |s| < TWO32
    ensures Dec(TStr, Enc(VStr(s)) + rest) == Good(VStr(s), rest)
  {
    assert |s| % TWO32 == |s|;
    ReadU32Exact(|s|, s + rest);
    StrStep(EncU32(|s|), s, rest);
  }

  lemma LongRoundTrip(x: nat, rest: seq<byte>)
    requires x < TWO32 * TWO32
    ensures Dec(TLong, Enc(VLong(x)) + rest) == Good(VLong(x), rest)
  {
    var h, l := x / TWO32, x % TWO32;
    assert h < TWO32 && h % TWO32 == h && x == h * TWO32 + l;
    ConcatAssoc(EncU32(h), EncU32(l), rest);
    ReadU32Exact(h, EncU32(l) + rest);
    ReadU32Exact(l, rest);
  }

  /** Decoding an encoded value gives the value back and leaves what follows untouched. */
  lemma {:induction false} RoundTrip(v: Val, t: Ty, rest: seq<byte>)
    requires HasType(v, t)
    ensures Dec(t, Enc(v) + rest) == Good(v, rest)
    decreases t, 2
  {
    match v
    case VByte(x) => ByteRoundTrip(x, rest);
    case VShort(x) => ShortRoundTrip(x, rest);
    case VInt(x) => IntRoundTrip(x, rest);
    case VLong(x) => LongRoundTrip(x, rest);
    case VStr(s) => StrRoundTrip(s, rest);
    case VVec(es) => VecRoundTrip(es, t.elem, rest);
    case VMap(ps) => MapRoundTrip(ps, t.key, t.value, rest);
  }

  lemma VecRoundTrip(es: seq<Val>, e: Ty, rest: seq<byte>)
    requires HasType(VVec(es), TVec(e))
    ensures Dec(TVec(e), Enc(VVec(es)) + rest) == Good(VVec(es), rest)
    decreases TVec(e), 1
  {
    assert |es| % TWO32 == |es|;
    ReadU32Exact(|es|, EncSeq(es) + rest);
    SeqRoundTrip(es, e, rest);
    VecStep(e, EncU32(|es|), es, EncSeq(es), rest);
  }

  lemma {:induction false} SeqRoundTrip(vs: seq<Val>, t: Ty, rest: seq<byte>)
    requires forall i :: 0 <= i < |vs| ==> HasType(vs[i], t)
    ensures DecSeq(t, |vs|, EncSeq(vs) + rest) == Good(vs, rest)
    decreases t, 3, |vs|
  {
    if vs == [] {
      assert EncSeq(vs) + rest == rest;
    } else {
      ConcatAssoc(Enc(vs[0]), EncSeq(vs[1..]), rest);
      RoundTrip(vs[0], t, EncSeq(vs[1..]) + rest);
      SeqRoundTrip(vs[1..], t, rest);
      assert [vs[0]] + vs[1..] == vs;
    }
  }

  lemma MapRoundTrip(ps: seq<Pair>, k: Ty, w: Ty, rest: seq<byte>)
    requires HasType(VMap(ps), TMap(k, w))
    ensures Dec(TMap(k, w), Enc(VMap(ps)) + rest) == Good(VMap(ps), rest)
    decreases TMap(k, w), 1
  {
    assert |ps| % TWO32 == |ps| && ps[..0] == [] && ps[0..] == ps;
    ReadU32Exact(|ps|, EncPairs(ps) + rest);
    var f := TheDecoder(k, w);
    PairsRoundTrip(f, ps, 0, k, w, rest);
    MapStep(k, w, EncU32(|ps|), ps, EncPairs(ps), rest);
  }

  /** The decoder of pairs, as a value: proofs by steps do not look into it. */
  type PairDecoder = (nat, seq<Pair>, seq<byte>) -> Parsed<seq<Pair>>

  ghost predicate Decodes(f: PairDecoder, k: Ty, w: Ty) {
    forall n: nat, ps, s {:trigger DecPairs(k, w, n, ps, s)} :: f(n, ps, s) == DecPairs(k, w, n, ps, s)
  }

  lemma TheDecoder(k: Ty, w: Ty) returns (f: PairDecoder)
    ensures Decodes(f, k, w)
  {
    f := (n: nat, ps: seq<Pair>, s: seq<byte>) => DecPairs(k, w, n, ps, s);
  }

  lemma NoPairs(k: Ty, w: Ty, ps: seq<Pair>, s: seq<byte>)
    ensures DecPairs(k, w, 0, ps, s) == Good(ps, s)
  {
  }

  lemma PairsUnfold(k: Ty, w: Ty, n: nat, acc: seq<Pair>, s: seq<byte>)
    requires n > 0
    ensures var a := Dec(k, s);
            if a.Bad? || Dec(w, a.rest).Bad? then DecPairs(k, w, n, acc, s).Bad?
            else DecPairs(k, w, n, acc, s) == DecPairs(k, w, n - 1, Assign(acc, a.v, Dec(w, a.rest).v), Dec(w, a.rest).rest)
  {
  }

  lemma NextPair(f: PairDecoder, k: Ty, w: Ty, n: nat, acc: seq<Pair>, s: seq<byte>)
    requires Decodes(f, k, w) && n > 0
    ensures var a := Dec(k, s);
            if a.Bad? || Dec(w, a.rest).Bad? then f(n, acc, s).Bad?
            else f(n, acc, s) == f(n - 1, Assign(acc, a.v, Dec(w, a.rest).v), Dec(w, a.rest).rest)
  {
    PairsUnfold(k, w, n, acc, s);
  }

  lemma LastPair(f: PairDecoder, k: Ty, w: Ty, acc: seq<Pair>, s: seq<byte>)
    requires Decodes(f, k, w)
    ensures f(0, acc, s) == Good(acc, s)
  {
    NoPairs(k, w, acc, s);
  }

  /** One entry comes back into the map that holds those before. */
  lemma PairsStepWith(ps: seq<Pair>, n: nat, k: Ty, w: Ty, rest: seq<byte>)
    requires n < |ps| && DistinctKeys(ps)
    requires var tail := EncPairs(ps[n + 1..]) + rest;
             && Dec(k, Enc(ps[n].key) + (Enc(ps[n].value) + tail)) == Good(ps[n].key, Enc(ps[n].value) + tail)
             && Dec(w, Enc(ps[n].value) + tail) == Good(ps[n].value, tail)
    ensures DecPairs(k, w, |ps| - n, ps[..n], EncPairs(ps[n..]) + rest)
         == DecPairs(k, w, |ps| - n - 1, ps[..n + 1], EncPairs(ps[n + 1..]) + rest)
  {
    var p, tail := ps[n], EncPairs(ps[n + 1..]) + rest;
    PairText(ps, n, rest);
    AssignNew(ps[..n], p.key, p.value);
    assert ps[..n] + [Pair(p.key, p.value)] == ps[..n + 1];
    PairsStepOnce(k, w, |ps| - n, ps[..n], Enc(p.key) + (Enc(p.value) + tail),
                    Good(p.key, Enc(p.value) + tail), Good(p.value, tail));
  }

  lemma PairsStep(f: PairDecoder, ps: seq<Pair>, n: nat, k: Ty, w: Ty, rest: seq<byte>)
    requires Decodes(f, k, w) && n < |ps| && DistinctKeys(ps) && HasType(ps[n].key, k) && HasType(ps[n].value, w)
    ensures f(|ps| - n, ps[..n], EncPairs(ps[n..]) + rest) == f(|ps| - n - 1, ps[..n + 1], EncPairs(ps[n + 1..]) + rest)
    decreases TMap(k, w), 0, 0
  {
    var p, tail := ps[n], EncPairs(ps[n + 1..]) + rest;
    RoundTrip(p.key, k, Enc(p.value) + tail);
    RoundTrip(p.value, w, tail);
    PairsStepWith(ps, n, k, w, rest);
  }

  lemma {:induction false} PairsRoundTrip(f: PairDecoder, ps: seq<Pair>, n: nat, k: Ty, w: Ty, rest: seq<byte>)
    requires Decodes(f, k, w) && n <= |ps| && DistinctKeys(ps)
    requires forall i :: 0 <= i < |ps| ==> HasType(ps[i].key, k)
    requires forall i :: 0 <= i < |ps| ==> HasType(ps[i].value, w)
    ensures f(|ps| - n, ps[..n], EncPairs(ps[n..]) + rest) == Good(ps, rest)
    decreases TMap(k, w), 0, |ps| - n
  {
    if n == |ps| {
      assert EncPairs(ps[n..]) + rest == rest && ps[..n] == ps;
      LastPair(f, k, w, ps, rest);
    } else {
      PairsStep(f, ps, n, k, w, rest);
      PairsRoundTrip(f, ps, n + 1, k, w, rest);
    }
  }

  lemma PairText(ps: seq<Pair>, n: nat, rest: seq<byte>)
    requires n < |ps|
    ensures EncPairs(ps[n..]) + rest == Enc(ps[n].key) + (Enc(ps[n].value) + (EncPairs(ps[n + 1..]) + rest))
  {
    var p, tail := ps[n], EncPairs(ps[n + 1..]) + rest;
    assert ps[n..][1..] == ps[n + 1..];
    ConcatAssoc(EncPair(p), EncPairs(ps[n + 1..]), rest);
    ConcatAssoc(Enc(p.key), Enc(p.value), tail);
  }

  // ---- prefix freedom ----

  /** Bytes that come after what a decoder reads do not change what it reads. */
  lemma {:induction false} DecExtends(t: Ty, s: seq<byte>, more: seq<byte>)
    requires Dec(t, s).Good?
    ensures Dec(t, s + more) == Good(Dec(t, s).v, Dec(t, s).rest + more)
    decreases t, 0
  {
    match t
    case TByte => TakeExtends(1, s, more);
    case TShort => TakeExtends(2, s, more);
    case TInt => TakeExtends(4, s, more);
    case TLong =>
      TakeExtends(4, s, more);
      TakeExtends(4, ReadU32(s).rest, more);
    case TStr =>
      TakeExtends(4, s, more);
      TakeExtends(ReadU32(s).v, ReadU32(s).rest, more);
    case TVec(e) =>
      TakeExtends(4, s, more);
      SeqExtends(e, ReadU32(s).v, ReadU32(s).rest, more);
    case TMap(k, w) =>
      TakeExtends(4, s, more);
      PairsExtends(k, w, ReadU32(s).v, [], ReadU32(s).rest, more);
  }

  lemma TakeExtends(n: nat, s: seq<byte>, more: seq<byte>)
    requires Take(n, s).Good?
    ensures Take(n, s + more) == Good(Take(n, s).v, Take(n, s).rest + more)
  {
    assert (s + more)[..n] == s[..n] && (s + more)[n..] == s[n..] + more;
  }

  lemma {:induction false} SeqExtends(t: Ty, n: nat, s: seq<byte>, more: seq<byte>)
    requires DecSeq(t, n, s).Good?
    ensures DecSeq(t, n, s + more) == Good(DecSeq(t, n, s).v, DecSeq(t, n, s).rest + more)
    decreases t, 1, n
  {
    if n > 0 {
      DecExtends(t, s, more);
      SeqExtends(t, n - 1, Dec(t, s).rest, more);
    }
  }

  lemma PairsStepOnce(k: Ty, w: Ty, n: nat, acc: seq<Pair>, s: seq<byte>, a: Parsed<Val>, b: Parsed<Val>)
    requires n > 0 && a.Good? && b.Good? && Dec(k, s) == a && Dec(w, a.rest) == b
    ensures DecPairs(k, w, n, acc, s) == DecPairs(k, w, n - 1, Assign(acc, a.v, b.v), b.rest)
  {
    PairsUnfold(k, w, n, acc, s);
  }

  lemma {:induction false} PairsExtend(f: PairDecoder, k: Ty, w: Ty, n: nat, acc: seq<Pair>, s: seq<byte>, more: seq<byte>)
    requires Decodes(f, k, w) && f(n, acc, s).Good?
    ensures f(n, acc, s + more) == Good(f(n, acc, s).v, f(n, acc, s).rest + more)
    decreases TMap(k, w), 0, n
  {
    if n == 0 {
      LastPair(f, k, w, acc, s);
      LastPair(f, k, w, acc, s + more);
    } else {
      NextPair(f, k, w, n, acc, s);
      var a := Dec(k, s);
      var b := Dec(w, a.rest);
      PairExtends(k, w, s, more, a, b);
      NextPair(f, k, w, n, acc, s + more);
      PairsExtend(f, k, w, n - 1, Assign(acc, a.v, b.v), b.rest, more);
    }
  }

  lemma PairsExtends(k: Ty, w: Ty, n: nat, acc: seq<Pair>, s: seq<byte>, more: seq<byte>)
    requires DecPairs(k, w, n, acc, s).Good?
    ensures DecPairs(k, w, n, acc, s + more) == Good(DecPairs(k, w, n, acc, s).v, DecPairs(k, w, n, acc, s).rest + more)
    decreases TMap(k, w), 0, n + 1
  {
    var f := TheDecoder(k, w);
    PairsExtend(f, k, w, n, acc, s, more);
  }

  lemma PairExtends(k: Ty, w: Ty, s: seq<byte>, more: seq<byte>, a: Parsed<Val>, b: Parsed<Val>)
    requires a.Good? && b.Good? && Dec(k, s) == a && Dec(w, a.rest) == b
    ensures Dec(k, s + more) == Good(a.v, a.rest + more) && Dec(w, a.rest + more) == Good(b.v, b.rest + more)
    decreases TMap(k, w), 0, 0
  {
    DecExtends(k, s, more);
    DecExtends(w, a.rest, more);
  }

  // ---- argument lists ----

  /** A handler wrapper's decoding of its arguments, one after the other. */
  function DecAll(ts: seq<Ty>, s: seq<byte>): Parsed<seq<Val>> {
    if ts == [] then Good([], s)
    else match Dec(ts[0], s)
      case Bad => Bad
      case Good(v, r) => match DecAll(ts[1..], r) case Bad => Bad case Good(vs, r2) => Good([v] + vs, r2)
  }

  /** okdone(): everything decoded and nothing left. */
  predicate OkDone(ts: seq<Ty>, s: seq<byte>) {
    DecAll(ts, s).Good? && DecAll(ts, s).rest == []
  }

  ghost predicate HaveTypes(vs: seq<Val>, ts: seq<Ty>) {
    |vs| == |ts| && forall i :: 0 <= i < |vs| ==> HasType(vs[i], ts[i])
  }

  lemma {:induction false} ArgsRoundTrip(vs: seq<Val>, ts: seq<Ty>, rest: seq<byte>)
    requires HaveTypes(vs, ts)
    ensures DecAll(ts, EncSeq(vs) + rest) == Good(vs, rest)
    decreases |vs|
  {
    if vs == [] {
      assert EncSeq(vs) + rest == rest;
    } else {
      ConcatAssoc(Enc(vs[0]), EncSeq(vs[1..]), rest);
      RoundTrip(vs[0], ts[0], EncSeq(vs[1..]) + rest);
      ArgsRoundTrip(vs[1..], ts[1..], rest);
      assert [vs[0]] + vs[1..] == vs;
    }
  }

  lemma {:induction false} ArgsExtend(ts: seq<Ty>, s: seq<byte>, more: seq<byte>)
    requires DecAll(ts, s).Good?
    ensures DecAll(ts, s + more) == Good(DecAll(ts, s).v, DecAll(ts, s).rest + more)
    decreases |ts|
  {
    if ts != [] {
      DecExtends(ts[0], s, more);
      ArgsExtend(ts[1..], Dec(ts[0], s).rest, more);
    }
  }

  /** A handler body runs only on an exactly consumed buffer: the arguments' own encoding is
      accepted with the arguments' values, any strict prefix of it is refused, and so is any
      extension. */
  lemma ArgsExactlyConsumed(vs: seq<Val>, ts: seq<Ty>, s: seq<byte>)
    requires HaveTypes(vs, ts)
    ensures s == EncSeq(vs) ==> OkDone(ts, s) && DecAll(ts, s).v == vs
    ensures s < EncSeq(vs) ==> DecAll(ts, s).Bad?
    ensures EncSeq(vs) < s ==> !OkDone(ts, s)
  {
    var e := EncSeq(vs);
    if s < e {
      if DecAll(ts, s).Good? {
        ArgsExtend(ts, s, e[|s|..]);
        assert s + e[|s|..] == e == e + [];
        ArgsRoundTrip(vs, ts, []);
        assert false;
      }
    } else if e <= s {
      ArgsRoundTrip(vs, ts, s[|e|..]);
      assert s == e + s[|e|..];
    }
  }
}
