/** The unmarshall object (rpc/marshall.h, rpc/rpc.cc) and a whole RPC message: whatever one
    side marshals behind a header, the other side reads back. */
module Unmarshalling {
  import opened Common
  import opened Marshalling
  import opened MarshallBuffers

  // ---- length words that are too large ----

  /** Where a string would end whose length word is at `i`. */
  function StringEnd(b: seq<byte>, i: nat): nat
    requires i + 4 <= |b|
  {
    i + 4 + DecU32(b[i..i + 4])
  }

  /** Some four bytes, taken as the length of a string, lead past 2^32. The check against the size
      of the buffer is made with a 32-bit sum, so such a string is not refused. */
  ghost predicate HasWildWord(b: seq<byte>) {
    exists i :: 0 <= i <= |b| - 4 && StringEnd(b, i) >= TWO32
  }

  lemma TakeAt(b: seq<byte>, i: nat, n: nat)
    requires i + n <= |b|
    ensures Take(n, b[i..]) == Good(b[i..i + n], b[i + n..])
  {
    assert b[i..] == b[i..|b|];
    SubSlice(b, i, |b|, 0, n);
    SubSlice(b, i, |b|, n, |b| - i);
  }

  /** The decoder of elements, as a value: proofs about the loop do not look into it. */
  type SeqDecoder = (nat, seq<byte>) -> Parsed<seq<Val>>

  ghost predicate SeqDecodes(f: SeqDecoder, t: Ty) {
    forall n: nat, s {:trigger DecSeq(t, n, s)} :: f(n, s) == DecSeq(t, n, s)
  }

  lemma TheSeqDecoder(t: Ty) returns (f: SeqDecoder)
    ensures SeqDecodes(f, t)
  {
    f := (n: nat, s: seq<byte>) => DecSeq(t, n, s);
  }

  lemma NoElements(t: Ty, vs: seq<Val>, s: seq<byte>)
    ensures DecSeq(t, 0, s) == Good([], s) && Prepend(vs, DecSeq(t, 0, s)) == Good(vs, s)
  {
    assert vs + [] == vs;
  }

  /** `broken` records that a string was taken past the end of the buffer; what the code does
      from there on is not defined, and the model stops. */
  class Unmarshall {
    const buf: seq<byte>
    var ind: nat
    var ok: bool
    var broken: bool

    /** take_in: received bytes, read from the first one after the header; a message shorter than
        a header is not ok. */
    constructor (b: seq<byte>)
      requires |b| < TWO31
      ensures Valid() && buf == b && !broken && (ok <==> RPC_HEADER_SZ <= |b|)
      ensures ok ==> Rest() == b[RPC_HEADER_SZ..]
    {
      buf, ind, ok, broken := b, RPC_HEADER_SZ, RPC_HEADER_SZ <= |b|, false;
    }

    ghost predicate Valid()
      reads this
    {
      |buf| < TWO31 && (ok ==> ind <= |buf| && !broken)
    }

    ghost function Rest(): seq<byte>
      reads this
    {
      if ind <= |buf| then buf[ind..] else []
    }

    /** The cursor has done what the decoder result `r` says: moved past what was read, or
        failed, for good. */
    ghost predicate Now<T>(wasOk: bool, r: Parsed<T>)
      reads this
    {
      Valid() && (ok <==> wasOk && r.Good?) && (ok ==> Rest() == r.rest)
    }

    /** The same where strings are taken: unless the object is broken, and that happens only where
        the decoder fails, in a buffer with a wild word. */
    ghost predicate NowOr<T>(wasOk: bool, wasBroken: bool, r: Parsed<T>)
      reads this
    {
      && Valid() && (wasBroken ==> broken)
      && (!broken ==> Now(wasOk, r))
      && (broken && !wasBroken ==> wasOk && r.Bad? && HasWildWord(buf))
    }

    method RawByte() returns (c: byte)
      requires Valid()
      modifies this`ind, this`ok
      ensures Valid()
      ensures if old(ind) < |buf| then c == buf[old(ind)] && ind == old(ind) + 1 && ok == old(ok) else c == 0 && ind == old(ind) && !ok
    {
      c := 0;
      if ind >= |buf| {
        ok := false;
      } else {
        c := buf[ind];
        ind := ind + 1;
      }
    }

    method GetU32() returns (x: uint32)
      requires Valid()
      modifies this`ind, this`ok
      ensures Now(old(ok), ReadU32(old(Rest())))
      ensures ok ==> x == ReadU32(old(Rest())).v
    {
      ghost var i, was := ind, ok;
      var b0 := RawByte();
      var b1 := RawByte();
      var b2 := RawByte();
      var b3 := RawByte();
      assert ok <==> was && i + 4 <= |buf|;
      x := DecU32([b0, b1, b2, b3]);
      if ok {
        TakeAt(buf, i, 4);
        assert buf[i..i + 4] == [b0, b1, b2, b3];
      }
    }

    method GetU16() returns (x: nat)
      requires Valid()
      modifies this`ind, this`ok
      ensures Now(old(ok), Take(2, old(Rest())))
      ensures ok ==> x == DecU16(Take(2, old(Rest())).v)
    {
      ghost var i := ind;
      var h := RawByte();
      var l := RawByte();
      x := DecU16([h, l]);
      if ok {
        TakeAt(buf, i, 2);
        assert buf[i..i + 2] == [h, l];
      }
    }

    /** The 32-bit sum passes the check although the bytes are not there. */
    predicate Overruns(i: nat, n: uint32) {
      i + n > |buf| && (i + n) % TWO32 <= |buf|
    }

    /** rawbytes agrees with taking `n` bytes exactly if the index plus `n` is below 2^32. */
    method RawBytes(n: uint32) returns (s: seq<byte>)
      requires Valid()
      modifies this
      ensures Valid() && (broken <==> old(broken) || Overruns(old(ind), n))
      ensures old(ok) ==> (broken <==> old(ind) + n >= TWO32)
      ensures !broken ==> Now(old(ok), Take(n, old(Rest())))
      ensures ok ==> s == Take(n, old(Rest())).v
    {
      s := [];
      if (ind + n) % TWO32 > |buf| {
        ok := false;
      } else if ind + n > |buf| {
        broken, ok := true, false;
      } else {
        s := buf[ind..ind + n];
        ind := ind + n;
        TakeAt(buf, old(ind), n);
      }
    }

    method GetByte() returns (v: Val)
      requires Valid()
      modifies this`ind, this`ok
      ensures Now(old(ok), Dec(TByte, old(Rest())))
      ensures ok ==> v == Dec(TByte, old(Rest())).v
    {
      var x := RawByte();
      if ok { TakeAt(buf, old(ind), 1); }
      v := VByte(x);
    }

    method GetLong() returns (v: Val)
      requires Valid()
      modifies this`ind, this`ok
      ensures Now(old(ok), Dec(TLong, old(Rest())))
      ensures ok ==> v == Dec(TLong, old(Rest())).v
    {
      var h := GetU32();
      var l := GetU32();
      v := VLong(h * TWO32 + l);
    }

    /** A string is taken past the end exactly if its length leads past 2^32. */
    method GetStr() returns (v: Val)
      requires Valid()
      modifies this
      ensures NowOr(old(ok), old(broken), Dec(TStr, old(Rest())))
      ensures ok ==> v == Dec(TStr, old(Rest())).v
      ensures old(ok) ==> (broken <==> old(ind) + 4 <= |buf| && StringEnd(buf, old(ind)) >= TWO32)
    {
      ghost var i := ind;
      var n := GetU32();
      var s: seq<byte> := [];
      if ok {
        TakeAt(buf, i, 4);
        s := RawBytes(n);
        assert broken ==> StringEnd(buf, i) >= TWO32;
      }
      v := VStr(s);
    }

    /** operator>>, at any type. */
    method Get(t: Ty) returns (v: Val)
      requires Valid()
      modifies this
      ensures NowOr(old(ok), old(broken), Dec(t, old(Rest())))
      ensures ok ==> v == Dec(t, old(Rest())).v
      decreases t, 1
    {
      match t
      case TByte => v := GetByte();
      case TShort => var x := GetU16(); v := VShort(x);
      case TInt => var x := GetU32(); v := VInt(x);
      case TLong => v := GetLong();
      case TStr => v := GetStr();
      case TVec(e) =>
        var n := GetU32();
        var vs := GetSeq(e, n);
        v := VVec(vs);
      case TMap(k, w) =>
        var n := GetU32();
        var ps := GetPairs(k, w, n);
        v := VMap(ps);
    }

    /** `all` is what the whole loop over a vector decodes, `f` decodes `left` more elements. */
    ghost predicate SeqLeft(wasOk: bool, all: Parsed<seq<Val>>, f: SeqDecoder, left: nat, vs: seq<Val>)
      reads this
    {
      if ok then wasOk && all == Prepend(vs, f(left, Rest())) else wasOk ==> all.Bad?
    }

    /** One round of the loop over a vector. */
    method SeqRound(t: Ty, vs: seq<Val>, ghost left: nat, ghost wasOk: bool, ghost all: Parsed<seq<Val>>, ghost f: SeqDecoder)
      returns (vs': seq<Val>)
      requires Valid() && left > 0 && SeqDecodes(f, t) && SeqLeft(wasOk, all, f, left, vs)
      modifies this
      ensures Valid() && (old(broken) ==> broken)
      ensures SeqLeft(wasOk, all, f, left - 1, vs')
      ensures broken && !old(broken) ==> wasOk && HasWildWord(buf)
      decreases t, 2
    {
      if ok { SeqAdvance(t, left, vs, Rest(), all); }
      var v := Get(t);
      vs' := vs + [v];
    }

    method GetSeq(t: Ty, n: nat) returns (vs: seq<Val>)
      requires Valid()
      modifies this
      ensures NowOr(old(ok), old(broken), DecSeq(t, n, old(Rest())))
      ensures ok ==> vs == DecSeq(t, n, old(Rest())).v
      decreases t, 3
    {
      vs := [];
      var i := 0;
      ghost var f := TheSeqDecoder(t);
      ghost var all := f(n, Rest());
      PrependNothing(all);
      while i < n
        invariant 0 <= i <= n && Valid()
        invariant SeqLeft(old(ok), all, f, n - i, vs)
        invariant old(broken) ==> broken
        invariant broken && !old(broken) ==> old(ok) && HasWildWord(buf)
      {
        vs := SeqRound(t, vs, n - i, old(ok), all, f);
        i := i + 1;
      }
      NoElements(t, vs, Rest());
    }

    method GetPair(k: Ty, w: Ty) returns (a: Val, b: Val)
      requires Valid()
      modifies this
      ensures Valid() && (old(broken) ==> broken)
      ensures var r := Dec(k, old(Rest()));
              && (ok <==> old(ok) && r.Good? && Dec(w, r.rest).Good?)
              && (ok ==> a == r.v && b == Dec(w, r.rest).v && Rest() == Dec(w, r.rest).rest)
      ensures broken && !old(broken) ==> old(ok) && HasWildWord(buf)
      decreases TMap(k, w), 0, 0
    {
      a := Get(k);
      b := Get(w);
    }

    /** `all` is what the whole loop over a map decodes, `f` decodes `left` more pairs. */
    ghost predicate PairsLeft(wasOk: bool, all: Parsed<seq<Pair>>, f: PairDecoder, left: nat, ps: seq<Pair>)
      reads this
    {
      if ok then wasOk && all == f(left, ps, Rest()) else wasOk ==> all.Bad?
    }

    /** One round of the loop over a map. */
    method PairRound(k: Ty, w: Ty, ps: seq<Pair>,
                     ghost left: nat, ghost wasOk: bool, ghost all: Parsed<seq<Pair>>, ghost f: PairDecoder)
      returns (ps': seq<Pair>)
      requires Valid() && left > 0 && Decodes(f, k, w) && PairsLeft(wasOk, all, f, left, ps)
      modifies this
      ensures Valid() && (old(broken) ==> broken)
      ensures PairsLeft(wasOk, all, f, left - 1, ps')
      ensures broken && !old(broken) ==> wasOk && HasWildWord(buf)
      decreases TMap(k, w), 0, 1
    {
      PairsUnfold(k, w, left, ps, Rest());
      var a, b := GetPair(k, w);
      ps' := Assign(ps, a, b);
    }

    method GetPairs(k: Ty, w: Ty, n: nat) returns (ps: seq<Pair>)
      requires Valid()
      modifies this
      ensures NowOr(old(ok), old(broken), DecPairs(k, w, n, [], old(Rest())))
      ensures ok ==> ps == DecPairs(k, w, n, [], old(Rest())).v
      decreases TMap(k, w), 0, 2
    {
      ps := [];
      var i := 0;
      ghost var f := TheDecoder(k, w);
      ghost var all := f(n, [], Rest());
      while i < n
        invariant 0 <= i <= n && Valid()
        invariant PairsLeft(old(ok), all, f, n - i, ps)
        invariant old(broken) ==> broken
        invariant broken && !old(broken) ==> old(ok) && HasWildWord(buf)
      {
        ps := PairRound(k, w, ps, n - i, old(ok), all, f);
        i := i + 1;
      }
      NoPairs(k, w, ps, Rest());
    }

    method OkDone() returns (done: bool)
      requires Valid()
      ensures done <==> ok && Rest() == []
    {
      done := ok && ind == |buf|;
    }
  }

  function Prepend(vs: seq<Val>, r: Parsed<seq<Val>>): Parsed<seq<Val>> {
    if r.Bad? then Bad else Good(vs + r.v, r.rest)
  }

  lemma PrependNothing(r: Parsed<seq<Val>>)
    ensures Prepend([], r) == r
  {
    if r.Good? { assert [] + r.v == r.v; }
  }

  lemma PrependSnoc(vs: seq<Val>, v: Val, r: Parsed<seq<Val>>)
    ensures Prepend(vs, Prepend([v], r)) == Prepend(vs + [v], r)
  {
    if r.Good? { assert vs + ([v] + r.v) == (vs + [v]) + r.v; }
  }

  lemma SeqAdvance(t: Ty, n: nat, vs: seq<Val>, s: seq<byte>, all: Parsed<seq<Val>>)
    requires n > 0 && all == Prepend(vs, DecSeq(t, n, s))
    ensures var a := Dec(t, s);
            if a.Bad? then all.Bad? else all == Prepend(vs + [a.v], DecSeq(t, n - 1, a.rest))
  {
    var a := Dec(t, s);
    if a.Good? {
      assert DecSeq(t, n, s) == Prepend([a.v], DecSeq(t, n - 1, a.rest));
      PrependSnoc(vs, a.v, DecSeq(t, n - 1, a.rest));
    }
  }

  // ---- headers ----

  function DecWord(s: seq<byte>, at: nat): uint32
    requires at + 4 <= |s|
  {
    DecU32(s[at..at + 4])
  }

  /** unpack_req_header; None when the message is too short, and _ok is false. */
  function UnpackReq(s: seq<byte>): Option<ReqHeader> {
    if |s| < RPC_HEADER_SZ then None
    else Some(ReqHeader(ToSigned(DecWord(s, 4)), ToSigned(DecWord(s, 8)), DecWord(s, 12), DecWord(s, 16), ToSigned(DecWord(s, 20))))
  }

  function UnpackReply(s: seq<byte>): Option<ReplyHeader> {
    if |s| < 12 then None else Some(ReplyHeader(ToSigned(DecWord(s, 4)), ToSigned(DecWord(s, 8))))
  }

  lemma {:induction false} WordAt(ws: seq<uint32>, k: nat)
    requires k < |ws|
    ensures EncWords(ws)[4 * k..4 * k + 4] == EncU32(ws[k])
  {
    var a, r := EncU32(ws[0]), EncWords(ws[1..]);
    if k == 0 {
      assert (a + r)[0..4] == a;
    } else {
      WordAt(ws[1..], k - 1);
      assert (a + r)[4 * k..4 * k + 4] == r[4 * (k - 1)..4 * (k - 1) + 4];
    }
  }

  lemma WordIn(s: seq<byte>, m: seq<byte>, c: nat)
    requires c + 4 <= |m| && RPC_SZ_SZ + |m| <= |s| && s[RPC_SZ_SZ..RPC_SZ_SZ + |m|] == m
    ensures s[RPC_SZ_SZ + c..RPC_SZ_SZ + c + 4] == m[c..c + 4]
  {
    SubSlice(s, RPC_SZ_SZ, RPC_SZ_SZ + |m|, c, c + 4);
  }

  lemma WordRoundTrip(s: seq<byte>, ws: seq<uint32>, k: nat)
    requires var m := EncWords(ws); k < |ws| && RPC_SZ_SZ + |m| <= |s| && s[RPC_SZ_SZ..RPC_SZ_SZ + |m|] == m
    ensures DecWord(s, RPC_SZ_SZ + 4 * k) == ws[k]
  {
    WordAt(ws, k);
    WordIn(s, EncWords(ws), 4 * k);
    U32RoundTrip(ws[k]);
  }

  /** A packed request header is read back, whatever is in the size field and the body. */
  lemma ReqHeaderRoundTrip(s: seq<byte>, h: ReqHeader)
    requires |s| >= RPC_HEADER_SZ && s[RPC_SZ_SZ..RPC_HEADER_SZ] == EncWords(ReqWords(h))
    ensures UnpackReq(s) == Some(h)
  {
    var ws := ReqWords(h);
    forall k | 0 <= k < 5 ensures DecWord(s, RPC_SZ_SZ + 4 * k) == ws[k] {
      WordRoundTrip(s, ws, k);
    }
    assert DecWord(s, 4 + 4 * 0) == ws[0] && DecWord(s, 4 + 4 * 1) == ws[1] && DecWord(s, 4 + 4 * 2) == ws[2];
    assert DecWord(s, 4 + 4 * 3) == ws[3] && DecWord(s, 4 + 4 * 4) == ws[4];
    SignedRoundTrip(h.xid);
    SignedRoundTrip(h.proc);
    SignedRoundTrip(h.xidRep);
  }

  lemma ReplyHeaderRoundTrip(s: seq<byte>, h: ReplyHeader)
    requires |s| >= 12 && s[RPC_SZ_SZ..12] == EncWords(ReplyWords(h))
    ensures UnpackReply(s) == Some(h)
  {
    var ws := ReplyWords(h);
    WordRoundTrip(s, ws, 0);
    WordRoundTrip(s, ws, 1);
    SignedRoundTrip(h.xid);
    SignedRoundTrip(h.ret);
  }

  method GetAll(u: Unmarshall, ts: seq<Ty>) returns (vs: seq<Val>)
    requires u.Valid()
    modifies u
    ensures u.NowOr(old(u.ok), old(u.broken), DecAll(ts, old(u.Rest())))
    ensures u.ok ==> vs == DecAll(ts, old(u.Rest())).v
    decreases |ts|
  {
    if |ts| == 0 {
      return [];
    }
    var v := u.Get(ts[0]);
    var rest := GetAll(u, ts[1..]);
    vs := [v] + rest;
  }

  /** The start of a handler wrapper, for a message with a whole header: its arguments are decoded,
      and its function is called exactly if they are the whole body. Only a message with a wild
      word that does not decode can break this. */
  method DecodeArgs(msg: seq<byte>, ts: seq<Ty>) returns (call: bool, args: seq<Val>, broken: bool)
    requires RPC_HEADER_SZ <= |msg| < TWO31
    ensures var body := msg[RPC_HEADER_SZ..];
            && (!broken ==> (call <==> OkDone(ts, body)))
            && (call ==> !broken && args == DecAll(ts, body).v)
            && (broken ==> HasWildWord(msg) && DecAll(ts, body).Bad?)
    ensures forall vs :: HaveTypes(vs, ts) && msg[RPC_HEADER_SZ..] == EncSeq(vs) ==> call && args == vs
  {
    ghost var body := msg[RPC_HEADER_SZ..];
    var u := new Unmarshall(msg);
    args := GetAll(u, ts);
    call := u.OkDone();
    broken := u.broken;
    forall vs | HaveTypes(vs, ts) && body == EncSeq(vs) ensures call && args == vs {
      ArgsExactlyConsumed(vs, ts, body);
    }
  }

  /** The other half: a body that is one length word of 2^32 - 1 does not decode as a string, and
      breaks the object instead of failing. */
  method WildWordBreaks(header: seq<byte>) returns (broken: bool)
    requires |header| == RPC_HEADER_SZ
    ensures broken && Dec(TStr, (header + EncU32(TWO32 - 1))[RPC_HEADER_SZ..]).Bad?
  {
    var word := EncU32(TWO32 - 1);
    var msg := header + word;
    assert msg[RPC_HEADER_SZ..] == msg[RPC_HEADER_SZ..RPC_HEADER_SZ + 4] == word;
    U32RoundTrip(TWO32 - 1);
    var u := new Unmarshall(msg);
    var _ := u.GetStr();
    broken := u.broken;
  }

  /** A whole call: arguments and header are marshalled in either order into one buffer, the
      bytes are received, and the other side gets the header and the arguments back and finds
      nothing left. */
  method CallRoundTrip(h: ReqHeader, args: seq<Val>, ts: seq<Ty>, headerFirst: bool)
    returns (done: bool, got: seq<Val>, gotHeader: Option<ReqHeader>)
    requires HaveTypes(args, ts) && RPC_HEADER_SZ + |EncSeq(args)| < TWO31
    ensures done && got == args && gotHeader == Some(h)
  {
    var m := new Marshall();
    if headerFirst { m.PackWords(ReqWords(h)); }
    m.PutSeq(args);
    if !headerFirst { m.PackWords(ReqWords(h)); }
    var s := m.buf[..m.ind];
    assert s[RPC_HEADER_SZ..] == m.Body() == [] + EncSeq(args) == EncSeq(args);
    SubSlice(m.buf[..], 0, m.ind, RPC_SZ_SZ, RPC_HEADER_SZ);
    SubSlice(m.buf[..], 0, RPC_HEADER_SZ, RPC_SZ_SZ, RPC_HEADER_SZ);
    assert s == m.buf[..][0..m.ind] && m.Head() == m.buf[..][0..RPC_HEADER_SZ];
    ReqHeaderRoundTrip(s, h);
    gotHeader := UnpackReq(s);
    var broken;
    done, got, broken := DecodeArgs(s, ts);
  }
}
