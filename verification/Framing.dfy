/** Framing of PDUs on a stream (rpc/connection.cc): a writer that may get rid of any number of
    bytes at a time, and a reader that may be handed any number of bytes at a time. The system
    calls' byte counts are parameters. */
module Framing {
  import opened Common
  import opened Marshalling

  const MAX_PDU := 10 * 0x10_0000

  /** A PDU as it goes over the wire: its size, in four bytes, counts the four bytes. The sender
      accepts any size of an `int`. */
  ghost predicate IsFrame(f: seq<byte>) {
    4 < |f| < TWO31 && f[..4] == EncU32(|f|)
  }

  ghost predicate AreFrames(fs: seq<seq<byte>>) {
    forall i :: 0 <= i < |fs| ==> IsFrame(fs[i])
  }

  function Flat(fs: seq<seq<byte>>): seq<byte> {
    if fs == [] then [] else fs[0] + Flat(fs[1..])
  }

  lemma {:induction false} FlatConcat(xs: seq<seq<byte>>, ys: seq<seq<byte>>)
    ensures Flat(xs + ys) == Flat(xs) + Flat(ys)
  {
    if xs == [] {
      assert xs + ys == ys;
    } else {
      assert (xs + ys)[1..] == xs[1..] + ys;
      FlatConcat(xs[1..], ys);
      ConcatAssoc(xs[0], Flat(xs[1..]), Flat(ys));
    }
  }

  lemma FlatSnoc(xs: seq<seq<byte>>, f: seq<byte>)
    ensures Flat(xs + [f]) == Flat(xs) + f
  {
    FlatConcat(xs, [f]);
    assert [f][1..] == [] && f + [] == f;
  }

  /** The PDU with its size filled in, which writepdu does before the first byte goes out. */
  function Framed(pdu: seq<byte>): (f: seq<byte>)
    requires 4 < |pdu| < TWO31
    ensures IsFrame(f) && |f| == |pdu| && f[4..] == pdu[4..]
  {
    EncU32(|pdu|) + pdu[4..]
  }

  /** The sending half of a connection. `wire` is every byte handed to the stream so far. */
  class Writer {
    var wpdu: Option<seq<byte>>
    var solong: nat
    var dead: bool
    var wire: seq<byte>
    ghost var sent: seq<seq<byte>>   // frames taken up, in order

    /** The wire is whole frames, then a prefix of at most one. */
    ghost predicate Valid()
      reads this
    {
      && AreFrames(sent)
      && (wpdu.None? && !dead ==> wire == Flat(sent))
      && (wpdu.Some? ==> sent != [] && sent[|sent| - 1] == wpdu.value && solong <= |wpdu.value|
                         && wire == Flat(sent[..|sent| - 1]) + wpdu.value[..solong])
      && (dead ==> wire <= Flat(sent))
    }

    constructor ()
      ensures Valid() && wire == [] && sent == [] && !dead && wpdu.None?
    {
      wpdu, solong, dead, wire, sent := None, 0, false, [], [];
    }

    /** A sender that has waited for its turn takes the slot; on a dead connection it gives up. */
    method Take(pdu: seq<byte>) returns (ok: bool)
      requires Valid() && (dead || wpdu.None?) && 4 < |pdu| < TWO31
      modifies this
      ensures Valid() && ok == !old(dead) && dead == old(dead) && wire == old(wire)
      ensures sent == if ok then old(sent) + [Framed(pdu)] else old(sent)
      ensures ok ==> wpdu == Some(Framed(pdu)) && solong == 0
    {
      if dead {
        return false;
      }
      wpdu, solong := Some(Framed(pdu)), 0;
      sent := sent + [Framed(pdu)];
      assert sent[..|sent| - 1] == old(sent);
      assert wire == Flat(old(sent)) + Framed(pdu)[..0];
      ok := true;
    }

    /** writepdu: write(2) takes `n` bytes, 0 standing for EAGAIN; or it fails. */
    method WritePdu(n: nat, fails: bool) returns (ok: bool)
      requires Valid() && !dead && wpdu.Some? && solong + n <= |wpdu.value|
      modifies this
      ensures Valid() && sent == old(sent) && ok == !dead && dead == fails
      ensures wire == if fails then old(wire) else old(wire) + old(wpdu).value[old(solong)..old(solong) + n]
      ensures !fails ==> wpdu == old(wpdu) && solong == old(solong) + n
    {
      ghost var f := wpdu.value;
      if fails {
        WireIsPrefix(this);
        dead, wpdu := true, None;
        return false;
      }
      PartOfFrame(Flat(sent[..|sent| - 1]), f, solong, n);
      wire := wire + wpdu.value[solong..solong + n];
      solong := solong + n;
      ok := true;
    }

    /** The connection dies for another reason: closeconn, or a failure of the reader. The sender
        that has the slot gives it up. */
    method Die()
      requires Valid()
      modifies this
      ensures Valid() && dead && wpdu.None? && wire == old(wire) && sent == old(sent)
    {
      WireIsPrefix(this);
      dead, wpdu := true, None;
    }

    /** The end of `send`: a PDU that is completely out frees the slot. */
    method Release()
      requires Valid() && !dead && wpdu.Some? && solong == |wpdu.value|
      modifies this`wpdu, this`solong
      ensures Valid() && wpdu.None? && wire == Flat(sent)
    {
      assert sent == sent[..|sent| - 1] + [wpdu.value];
      FlatSnoc(sent[..|sent| - 1], wpdu.value);
      assert wpdu.value[..solong] == wpdu.value;
      wpdu, solong := None, 0;
    }
  }

  lemma PartOfFrame(a: seq<byte>, f: seq<byte>, k: nat, n: nat)
    requires k + n <= |f|
    ensures (a + f[..k]) + f[k..k + n] == a + f[..k + n]
  {
    assert f[..k] + f[k..k + n] == f[..k + n];
    ConcatAssoc(a, f[..k], f[k..k + n]);
  }

  lemma PrefixOfFrame(a: seq<byte>, f: seq<byte>, k: nat)
    requires k <= |f|
    ensures a + f[..k] <= a + f
  {
  }

  /** At any time the wire is a prefix of the frames taken up: whole PDUs, then at most one
      started. */
  lemma WireIsPrefix(w: Writer)
    requires w.Valid()
    ensures w.wire <= Flat(w.sent)
  {
    if w.wpdu.Some? {
      var f := w.wpdu.value;
      assert w.sent == w.sent[..|w.sent| - 1] + [f];
      FlatSnoc(w.sent[..|w.sent| - 1], f);
      PrefixOfFrame(Flat(w.sent[..|w.sent| - 1]), f, w.solong);
    }
  }

  /** How the size word is taken: a PDU begins, the connection is dead, or the word makes no sense
      (at most 4, or negative) and the code goes on to read with a count of zero or less. */
  datatype SizeRead = Begins | Dies | Senseless

  /** The receiving half. `rpdu` holds the bytes of the PDU being received, size word included. */
  class Reader {
    var rpdu: seq<byte>
    var sz: nat
    var dead: bool
    ghost var taken: seq<byte>              // every byte read from the stream
    ghost var delivered: seq<seq<byte>>     // PDUs that got_pdu has accepted

    ghost predicate Valid()
      reads this
    {
      && AreFrames(delivered)
      && (rpdu == [] <==> sz == 0)
      && (rpdu != [] ==> 4 <= |rpdu| <= sz <= MAX_PDU && 4 < sz && rpdu[..4] == EncU32(sz))
      && (!dead ==> taken == Flat(delivered) + rpdu)
      && (dead ==> Flat(delivered) <= taken)
    }

    constructor ()
      ensures Valid() && taken == [] && delivered == [] && !dead && rpdu == []
    {
      rpdu, sz, dead, taken, delivered := [], 0, false, [], [];
    }

    /** The first read of readpdu, of the size word, gets `n` bytes of `avail`; anything but
        four kills the connection, and so does a size over the limit. After a senseless word the
        model stops. */
    method ReadSize(avail: seq<byte>, n: nat) returns (r: SizeRead)
      requires Valid() && !dead && rpdu == [] && n <= 4 && n <= |avail|
      modifies this
      ensures Valid() && delivered == old(delivered) && taken == old(taken) + avail[..n] && (r == Begins <==> !dead)
      ensures r == Begins <==> n == 4 && 4 < DecU32(avail[..4]) <= 10 * 1024 * 1024
      ensures r == Senseless <==> n == 4 && (DecU32(avail[..4]) <= 4 || DecU32(avail[..4]) >= TWO31)
      ensures r == Begins ==> rpdu == avail[..4] && sz == DecU32(avail[..4])
    {
      ghost var before := Flat(delivered);
      assert taken == before;
      taken := taken + avail[..n];
      if n != 4 {
        dead := true;
        return Dies;
      }
      var size := DecU32(avail[..4]);
      if size <= 4 || size >= TWO31 {
        dead := true;
        return Senseless;
      }
      if size > MAX_PDU {
        dead := true;
        return Dies;
      }
      sz, rpdu := size, avail[..4];
      DecEncU32(avail[..4]);
      r := Begins;
    }

    /** The second read, of the rest: `n` bytes, 0 standing for EAGAIN; or it fails, and the
        part of the PDU that was there is dropped with the connection. */
    method ReadBody(avail: seq<byte>, n: nat, fails: bool)
      requires Valid() && !dead && rpdu != [] && n <= |avail| && |rpdu| + n <= sz
      modifies this
      ensures Valid() && dead == fails && delivered == old(delivered)
      ensures if fails then taken == old(taken) && rpdu == []
              else taken == old(taken) + avail[..n] && rpdu == old(rpdu) + avail[..n] && sz == old(sz)
    {
      if fails {
        rpdu, sz, dead := [], 0, true;
        return;
      }
      ConcatAssoc(Flat(delivered), rpdu, avail[..n]);
      rpdu := rpdu + avail[..n];
      taken := taken + avail[..n];
      assert rpdu[..4] == old(rpdu)[..4];
    }

    /** The end of read_cb: a complete PDU is offered. A refused one is kept, and offered again
        by the next callback, which reads nothing before. */
    method Offer(accepted: bool)
      requires Valid() && !dead && rpdu != [] && |rpdu| == sz
      modifies this
      ensures Valid() && !dead && taken == old(taken)
      ensures if accepted then rpdu == [] && delivered == old(delivered) + [old(rpdu)]
              else rpdu == old(rpdu) && sz == old(sz) && delivered == old(delivered)
    {
      if accepted {
        FlatSnoc(delivered, rpdu);
        delivered := delivered + [rpdu];
        rpdu, sz := [], 0;
        assert taken == Flat(delivered) + [];
      }
    }
  }

  lemma DecEncU32(b: seq<byte>)
    requires |b| == 4
    ensures EncU32(DecU32(b)) == b
  {
    var b0: nat, b1: nat, b2: nat, b3: nat := b[0], b[1], b[2], b[3];
    var z := 256 * b0 + b1;
    var y := 256 * z + b2;
    var x := 256 * y + b3;
    assert x == DecU32(b);
    DivMod256(b0, b1);
    DivMod256(z, b2);
    DivMod256(y, b3);
    assert x / 0x1_0000 == x / 256 / 256 && x / 0x100_0000 == x / 256 / 256 / 256;
  }

  lemma DivMod256(q: nat, r: nat)
    requires r < 256
    ensures (256 * q + r) / 256 == q && (256 * q + r) % 256 == r
  {
  }

  /** Two frames that start the same bytes are the same frame. */
  lemma FrameUnique(f: seq<byte>, g: seq<byte>, s: seq<byte>)
    requires IsFrame(f) && IsFrame(g) && f <= s && g <= s
    ensures f == g
  {
    assert f[..4] == s[..4] == g[..4];
    U32RoundTrip(|f|);
    U32RoundTrip(|g|);
    assert f == s[..|f|] && g == s[..|g|];
  }

  /** Reading frames off a prefix of a stream of frames can only yield those frames. */
  lemma {:induction false} UniqueParse(ds: seq<seq<byte>>, fs: seq<seq<byte>>)
    requires AreFrames(ds) && AreFrames(fs) && Flat(ds) <= Flat(fs)
    ensures |ds| <= |fs| && ds == fs[..|ds|]
    decreases |ds|
  {
    if ds != [] {
      assert IsFrame(ds[0]);
      assert ds[0] <= Flat(ds);
      assert |Flat(fs)| > 0;
      assert IsFrame(fs[0]) && fs[0] <= Flat(fs);
      FrameUnique(ds[0], fs[0], Flat(fs));
      TailPrefix(ds[0], Flat(ds[1..]), Flat(fs[1..]));
      UniqueParse(ds[1..], fs[1..]);
      assert ds == [ds[0]] + ds[1..] && fs == [fs[0]] + fs[1..];
    }
  }

  lemma TailPrefix(a: seq<byte>, s: seq<byte>, t: seq<byte>)
    requires a + s <= a + t
    ensures s <= t
  {
    assert s == (a + s)[|a|..] && t == (a + t)[|a|..];
  }

  /** The size word that a reader finds on the wire of a writer is the size of the next frame. So
      it is never senseless, and if it came whole it is refused exactly if that frame is over the
      limit. */
  lemma SizeWordIsGood(w: Writer, r: Reader, avail: seq<byte>)
    requires w.Valid() && r.Valid() && !r.dead && r.rpdu == [] && r.taken + avail <= w.wire && |avail| >= 4
    ensures var n := |r.delivered|; n < |w.sent| && DecU32(avail[..4]) == |w.sent[n]| && 4 < |w.sent[n]| < TWO31
  {
    var n := |r.delivered|;
    WireIsPrefix(w);
    assert r.taken == Flat(r.delivered);
    assert Flat(r.delivered) + avail <= Flat(w.sent);
    UniqueParse(r.delivered, w.sent);
    assert w.sent == w.sent[..n] + w.sent[n..];
    FlatConcat(w.sent[..n], w.sent[n..]);
    TailPrefix(Flat(r.delivered), avail, Flat(w.sent[n..]));
    assert n < |w.sent| ==> IsFrame(w.sent[n]);
    assert avail[..4] == w.sent[n][..4];
    U32RoundTrip(|w.sent[n]|);
  }

  /** Framing round trip: whatever the fragmentation on both sides, the PDUs handed up are the
      PDUs sent, in order, each once; and once the reader has taken everything and holds no
      part of a PDU, they are all the PDUs that went out completely. */
  lemma FramingRoundTrip(w: Writer, r: Reader)
    requires w.Valid() && r.Valid() && r.taken <= w.wire
    ensures |r.delivered| <= |w.sent| && r.delivered == w.sent[..|r.delivered|]
    ensures w.wpdu.None? && !w.dead && !r.dead && r.taken == w.wire && r.rpdu == [] ==> r.delivered == w.sent
  {
    WireIsPrefix(w);
    assert Flat(r.delivered) <= r.taken <= w.wire <= Flat(w.sent);
    UniqueParse(r.delivered, w.sent);
    if w.wpdu.None? && !w.dead && !r.dead && r.taken == w.wire && r.rpdu == [] {
      var n := |r.delivered|;
      assert w.sent == w.sent[..n] + w.sent[n..];
      FlatConcat(w.sent[..n], w.sent[n..]);
      assert Flat(w.sent[n..]) == [];
      assert n < |w.sent| ==> IsFrame(w.sent[n]);
    }
  }
}
