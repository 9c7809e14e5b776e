/** The marshall and unmarshall objects (rpc/marshall.h, rpc/rpc.cc): a growing byte buffer
    with room for a header at its front, and a cursor over received bytes. They are proved
    against the encoding functions; that every write stays within the allocated capacity is
    part of the methods being accepted at all. */
module MarshallBuffers {
  import opened Common
  import opened Marshalling

  const DEFAULT_RPC_SZ := 1024
  const RPC_HEADER_SZ := 24
  const RPC_SZ_SZ := 4

  type int32 = x: int | -0x8000_0000 <= x < 0x8000_0000
  type uint32 = x: nat | x < TWO32

  datatype ReqHeader = ReqHeader(xid: int32, proc: int32, cltNonce: uint32, srvNonce: uint32, xidRep: int32)
  datatype ReplyHeader = ReplyHeader(xid: int32, ret: int32)

  /** The words of a header in the order in which they are packed. */
  function ReqWords(h: ReqHeader): (ws: seq<uint32>)
    ensures |ws| == 5
  {
    [ToUnsigned(h.xid), ToUnsigned(h.proc), h.cltNonce, h.srvNonce, ToUnsigned(h.xidRep)]
  }

  function ReplyWords(h: ReplyHeader): (ws: seq<uint32>)
    ensures |ws| == 2
  {
    [ToUnsigned(h.xid), ToUnsigned(h.ret)]
  }

  /** Which word of a header is where. */
  lemma HeaderLayout(h: ReqHeader, r: ReplyHeader)
    ensures ReqWords(h)[0] == ToUnsigned(h.xid) && ReqWords(h)[1] == ToUnsigned(h.proc) && ReqWords(h)[2] == h.cltNonce
    ensures ReqWords(h)[3] == h.srvNonce && ReqWords(h)[4] == ToUnsigned(h.xidRep)
    ensures ReplyWords(r)[0] == ToUnsigned(r.xid) && ReplyWords(r)[1] == ToUnsigned(r.ret)
    ensures RPC_SZ_SZ == 4 && RPC_HEADER_SZ == RPC_SZ_SZ + 4 * |ReqWords(h)|
  {
  }

  function EncWords(ws: seq<uint32>): (b: seq<byte>)
    ensures |b| == 4 * |ws|
  {
    if ws == [] then [] else EncU32(ws[0]) + EncWords(ws[1..])
  }

  lemma {:induction false} EncWordsSnoc(ws: seq<uint32>, k: nat)
    requires k < |ws|
    ensures EncWords(ws[..k + 1]) == EncWords(ws[..k]) + EncU32(ws[k])
    decreases k
  {
    if k == 0 {
      assert ws[..1] == [ws[0]] && ws[..1][1..] == [] && ws[..0] == [];
      assert EncU32(ws[0]) + [] == EncU32(ws[0]) == [] + EncU32(ws[0]);
    } else {
      assert ws[..k + 1][1..] == ws[1..][..k] && ws[..k][1..] == ws[1..][..k - 1];
      EncWordsSnoc(ws[1..], k - 1);
      ConcatAssoc(EncU32(ws[0]), EncWords(ws[1..][..k - 1]), EncU32(ws[k]));
    }
  }

  lemma {:induction false} EncSeqSnoc(vs: seq<Val>, k: nat)
    requires k < |vs|
    ensures EncSeq(vs[..k + 1]) == EncSeq(vs[..k]) + Enc(vs[k])
    decreases k
  {
    if k == 0 {
      assert vs[..1][1..] == [] && vs[..0] == [];
      assert Enc(vs[0]) + [] == Enc(vs[0]) == [] + Enc(vs[0]);
    } else {
      assert vs[..k + 1][1..] == vs[1..][..k] && vs[..k][1..] == vs[1..][..k - 1];
      EncSeqSnoc(vs[1..], k - 1);
      ConcatAssoc(Enc(vs[0]), EncSeq(vs[1..][..k - 1]), Enc(vs[k]));
    }
  }

  lemma {:induction false} EncPairsSnoc(ps: seq<Pair>, k: nat)
    requires k < |ps|
    ensures EncPairs(ps[..k + 1]) == EncPairs(ps[..k]) + EncPair(ps[k])
    decreases k
  {
    if k == 0 {
      assert ps[..1][1..] == [] && ps[..0] == [];
      assert EncPair(ps[0]) + [] == EncPair(ps[0]) == [] + EncPair(ps[0]);
    } else {
      assert ps[..k + 1][1..] == ps[1..][..k] && ps[..k][1..] == ps[1..][..k - 1];
      EncPairsSnoc(ps[1..], k - 1);
      ConcatAssoc(EncPair(ps[0]), EncPairs(ps[1..][..k - 1]), EncPair(ps[k]));
    }
  }

  class Marshall {
    var buf: array<byte>
    var ind: nat

    ghost predicate Valid()
      reads this
    {
      RPC_HEADER_SZ <= ind <= buf.Length
    }

    /** What has been marshalled after the header. */
    ghost function Body(): seq<byte>
      reads this, buf
      requires Valid()
    {
      buf[RPC_HEADER_SZ..ind]
    }

    ghost function Head(): seq<byte>
      reads this, buf
      requires Valid()
    {
      buf[..RPC_HEADER_SZ]
    }

    constructor ()
      ensures Valid() && fresh(buf) && Body() == [] && buf.Length == 1024
    {
      buf := new byte[DEFAULT_RPC_SZ];
      ind := RPC_HEADER_SZ;
    }

    /** realloc to a larger capacity. */
    method Grow(capa: nat)
      requires capa >= buf.Length
      modifies this`buf
      ensures fresh(buf) && buf.Length == capa && buf[..old(buf.Length)] == old(buf[..])
    {
      var b := new byte[capa];
      var i := 0;
      while i < buf.Length
        invariant buf == old(buf) && 0 <= i <= buf.Length && b[..i] == buf[..i]
      {
        b[i] := buf[i];
        i := i + 1;
      }
      buf := b;
    }

    method RawByte(x: byte)
      requires Valid()
      modifies this, buf
      ensures Valid() && (buf == old(buf) || fresh(buf))
      ensures Head() == old(Head()) && Body() == old(Body()) + [x]
      ensures buf.Length == if old(ind) < old(buf.Length) then old(buf.Length) else 2 * old(buf.Length)
    {
      if ind >= buf.Length {
        Grow(2 * buf.Length);
      }
      assert buf[..ind] == old(buf[..ind]);
      buf[ind] := x;
      ind := ind + 1;
    }

    /** Makes room for `n` more bytes: twice the capacity, or more if that is not enough. */
    method Reserve(n: nat)
      requires Valid()
      modifies this`buf
      ensures Valid() && (buf == old(buf) || fresh(buf)) && ind + n <= buf.Length && buf[..ind] == old(buf[..ind])
      ensures buf.Length == if ind + n <= old(buf.Length) then old(buf.Length)
                            else old(buf.Length) + (if n < old(buf.Length) then old(buf.Length) else n)
    {
      if ind + n > buf.Length {
        Grow(if buf.Length > n then 2 * buf.Length else buf.Length + n);
        assert buf[..ind] == buf[..old(buf.Length)][..ind];
      }
    }

    /** memcpy behind what is there. */
    method Copy(p: seq<byte>)
      requires Valid() && ind + |p| <= buf.Length
      modifies buf
      ensures Valid() && buf[..ind + |p|] == old(buf[..ind]) + p
    {
      var i := 0;
      while i < |p|
        invariant 0 <= i <= |p|
        invariant buf[..ind] == old(buf[..ind]) && buf[ind..ind + i] == p[..i]
      {
        buf[ind + i] := p[i];
        i := i + 1;
      }
      assert buf[..ind + |p|] == buf[..ind] + buf[ind..ind + |p|];
    }

    method RawBytes(p: seq<byte>)
      requires Valid()
      modifies this, buf
      ensures Valid() && (buf == old(buf) || fresh(buf))
      ensures Head() == old(Head()) && Body() == old(Body()) + p
      ensures buf.Length == if old(ind) + |p| <= old(buf.Length) then old(buf.Length)
                            else old(buf.Length) + (if |p| < old(buf.Length) then old(buf.Length) else |p|)
    {
      ghost var was := buf[..ind];
      Reserve(|p|);
      Copy(p);
      ind := ind + |p|;
      assert buf[..ind] == was + p;
      HeadAndBody(was, p);
      assert Head() == buf[..ind][..RPC_HEADER_SZ] && Body() == buf[..ind][RPC_HEADER_SZ..];
    }

    method PutU32(x: uint32)
      requires Valid()
      modifies this, buf
      ensures Valid() && (buf == old(buf) || fresh(buf))
      ensures Head() == old(Head()) && Body() == old(Body()) + EncU32(x)
    {
      RawByte(x / 0x100_0000);
      RawByte(x / 0x1_0000 % 256);
      RawByte(x / 0x100 % 256);
      RawByte(x % 256);
    }

    method PutU16(x: nat)
      requires Valid() && x < TWO16
      modifies this, buf
      ensures Valid() && (buf == old(buf) || fresh(buf))
      ensures Head() == old(Head()) && Body() == old(Body()) + EncU16(x)
    {
      RawByte(x / 256);
      RawByte(x % 256);
    }

    method PutU64(x: nat)
      requires Valid()
      modifies this, buf
      ensures Valid() && (buf == old(buf) || fresh(buf))
      ensures Head() == old(Head()) && Body() == old(Body()) + (EncU32(x / TWO32 % TWO32) + EncU32(x % TWO32))
    {
      PutU32(x / TWO32 % TWO32);
      PutU32(x % TWO32);
      ConcatAssoc(old(Body()), EncU32(x / TWO32 % TWO32), EncU32(x % TWO32));
    }

    method PutStr(s: seq<byte>)
      requires Valid()
      modifies this, buf
      ensures Valid() && (buf == old(buf) || fresh(buf))
      ensures Head() == old(Head()) && Body() == old(Body()) + (EncU32(|s| % TWO32) + s)
    {
      PutU32(|s| % TWO32);
      RawBytes(s);
      ConcatAssoc(old(Body()), EncU32(|s| % TWO32), s);
    }

    /** operator<<, at any type. */
    method Put(v: Val)
      requires Valid()
      modifies this, buf
      ensures Valid() && (buf == old(buf) || fresh(buf))
      ensures Head() == old(Head()) && Body() == old(Body()) + Enc(v)
      decreases v, 1
    {
      match v
      case VByte(x) => RawByte(x);
      case VShort(x) => PutU16(x % TWO16);
      case VInt(x) => PutU32(x % TWO32);
      case VLong(x) => PutU64(x);
      case VStr(s) => PutStr(s);
      case VVec(es) =>
        PutU32(|es| % TWO32);
        PutSeq(es);
        ConcatAssoc(old(Body()), EncU32(|es| % TWO32), EncSeq(es));
      case VMap(ps) =>
        PutU32(|ps| % TWO32);
        PutPairs(ps);
        ConcatAssoc(old(Body()), EncU32(|ps| % TWO32), EncPairs(ps));
    }

    method PutSeq(es: seq<Val>)
      requires Valid()
      modifies this, buf
      ensures Valid() && (buf == old(buf) || fresh(buf))
      ensures Head() == old(Head()) && Body() == old(Body()) + EncSeq(es)
      decreases es, 0
    {
      var i := 0;
      while i < |es|
        invariant 0 <= i <= |es| && Valid() && (buf == old(buf) || fresh(buf))
        invariant Head() == old(Head()) && Body() == old(Body()) + EncSeq(es[..i])
      {
        Put(es[i]);
        EncSeqSnoc(es, i);
        ConcatAssoc(old(Body()), EncSeq(es[..i]), Enc(es[i]));
        i := i + 1;
      }
      assert es[..i] == es;
    }

    method PutPairs(ps: seq<Pair>)
      requires Valid()
      modifies this, buf
      ensures Valid() && (buf == old(buf) || fresh(buf))
      ensures Head() == old(Head()) && Body() == old(Body()) + EncPairs(ps)
      decreases ps, 0
    {
      var i := 0;
      while i < |ps|
        invariant 0 <= i <= |ps| && Valid() && (buf == old(buf) || fresh(buf))
        invariant Head() == old(Head()) && Body() == old(Body()) + EncPairs(ps[..i])
      {
        PutPair(ps[i]);
        EncPairsSnoc(ps, i);
        ConcatAssoc(old(Body()), EncPairs(ps[..i]), EncPair(ps[i]));
        i := i + 1;
      }
      assert ps[..i] == ps;
    }

    method PutPair(p: Pair)
      requires Valid()
      modifies this, buf
      ensures Valid() && (buf == old(buf) || fresh(buf))
      ensures Head() == old(Head()) && Body() == old(Body()) + EncPair(p)
      decreases p, 0
    {
      Put(p.key);
      Put(p.value);
      ConcatAssoc(old(Body()), Enc(p.key), Enc(p.value));
    }

    /** Header words go after the four bytes that the channel fills with the size, whatever has
        been marshalled so far: packing never disturbs the body. */
    method PackWords(ws: seq<uint32>)
      requires Valid() && RPC_SZ_SZ + 4 * |ws| <= RPC_HEADER_SZ
      modifies buf
      ensures Valid() && Body() == old(Body())
      ensures Head()[..RPC_SZ_SZ] == old(Head())[..RPC_SZ_SZ]
      ensures Head()[RPC_SZ_SZ..RPC_SZ_SZ + 4 * |ws|] == EncWords(ws)
    {
      ghost var was := buf[..];
      var k := 0;
      PackedNone(was);
      assert ws[..0] == [];
      while k < |ws|
        invariant 0 <= k <= |ws|
        invariant buf[..] == Packed(was, ws[..k])
      {
        PackedStep(was, ws, k);
        PackWord(RPC_SZ_SZ + 4 * k, ws[k]);
        k := k + 1;
      }
      assert ws[..k] == ws;
      ghost var m, now := EncWords(ws), buf[..];
      OverlaidSlices(was, m, RPC_SZ_SZ, RPC_HEADER_SZ);
      assert Head() == now[..RPC_HEADER_SZ];
      assert Body() == now[RPC_HEADER_SZ..][..ind - RPC_HEADER_SZ];
    }

    method PackWord(at: nat, x: uint32)
      requires at + 4 <= buf.Length
      modifies buf
      ensures buf[..] == old(buf[..at]) + EncU32(x) + old(buf[at + 4..])
    {
      buf[at], buf[at + 1] := x / 0x100_0000, x / 0x1_0000 % 256;
      buf[at + 2], buf[at + 3] := x / 0x100 % 256, x % 256;
    }
  }

  /** The buffer `was` with the words `ws` packed after the size word. */
  function Packed(was: seq<byte>, ws: seq<uint32>): (now: seq<byte>)
    requires RPC_SZ_SZ + 4 * |ws| <= |was|
    ensures |now| == |was|
  {
    Overlaid(was, EncWords(ws), RPC_SZ_SZ)
  }

  lemma PackedNone(was: seq<byte>)
    requires RPC_SZ_SZ <= |was|
    ensures Packed(was, []) == was
  {
  }

  lemma PackedStep(was: seq<byte>, ws: seq<uint32>, k: nat)
    requires k < |ws| && RPC_SZ_SZ + 4 * |ws| <= |was|
    ensures var p, at := Packed(was, ws[..k]), RPC_SZ_SZ + 4 * k;
            p[..at] + EncU32(ws[k]) + p[at + 4..] == Packed(was, ws[..k + 1])
  {
    var p, at := Packed(was, ws[..k]), RPC_SZ_SZ + 4 * k;
    EncWordsSnoc(ws, k);
    assert p[..at] == was[..RPC_SZ_SZ] + EncWords(ws[..k]);
    assert p[at + 4..] == was[at + 4..];
    ConcatAssoc(was[..RPC_SZ_SZ], EncWords(ws[..k]), EncU32(ws[k]));
  }

  lemma HeadAndBody(was: seq<byte>, p: seq<byte>)
    requires RPC_HEADER_SZ <= |was|
    ensures (was + p)[..RPC_HEADER_SZ] == was[..RPC_HEADER_SZ] && (was + p)[RPC_HEADER_SZ..] == was[RPC_HEADER_SZ..] + p
  {
  }
}
