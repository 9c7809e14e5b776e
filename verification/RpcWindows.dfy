/** The two windows behind at-most-once RPC (rpc/rpc.cc): the client's list of received
    replies, and the server's list of replies per client. */
module RpcWindows {
  import opened Common

  // ---- client: xid_rep_window_ ----

  /** `n` is the greatest number such that every xid 1..n has been reported. */
  predicate IsFront(reported: set<nat>, n: nat) {
    (forall k :: 1 <= k <= n ==> k in reported) && n + 1 !in reported
  }

  lemma FrontUnique(reported: set<nat>, m: nat, n: nat)
    requires IsFront(reported, m) && IsFront(reported, n)
    ensures m == n
  {
    assert m < n ==> m + 1 in reported;
    assert n < m ==> n + 1 in reported;
  }

  predicate Sorted(w: seq<nat>) {
    forall i, j :: 0 <= i < j < |w| ==> w[i] <= w[j]
  }

  /** The list stands for `reported`: everything up to its front, and its other elements.
      The list may hold repeats. */
  ghost predicate Represents(w: seq<nat>, reported: set<nat>) {
    && |w| > 0 && Sorted(w)
    && (forall k :: 1 <= k <= w[0] ==> k in reported)
    && (forall i :: 0 < i < |w| ==> w[i] in reported)
    && (forall x :: x in reported ==> x <= w[0] || x in w)
  }

  class XidRepWindow {
    var window: seq<nat>
    ghost var reported: set<nat>

    ghost predicate Valid()
      reads this
    {
      Represents(window, reported) && IsFront(reported, window[0])
    }

    constructor ()
      ensures Valid() && reported == {} && window == [0]
    {
      window := [0];
      reported := {};
    }

    /** After any reports, out of order and with repeats, the front is exact. */
    method Update(xid: nat)
      requires Valid()
      modifies this
      ensures Valid() && reported == old(reported) + {xid}
    {
      reported := reported + {xid};
      if xid <= window[0] {
        return;
      }
      var it := 0;
      while it < |window| && window[it] <= xid
        invariant 0 <= it <= |window| && window == old(window)
        invariant forall k :: 0 <= k < it ==> window[k] <= xid
      {
        it := it + 1;
      }
      assert it > 0;
      InsertRepresents(window, old(reported), it, xid);
      window := window[..it] + [xid] + window[it..];
      Compress();
    }

    method Compress()
      requires Represents(window, reported)
      modifies this`window
      ensures Valid()
    {
      var it := 1;
      while it < |window|
        invariant 1 <= it <= |window| && Represents(window, reported)
        invariant forall k :: 0 <= k < it ==> window[k] != window[0] + 1
        decreases |window| - it
      {
        ghost var rest := |window| - it;
        while window[0] + 1 == window[it]
          invariant 0 <= it < |window| && |window| - it == rest && Represents(window, reported)
          invariant forall k :: 0 <= k < it ==> window[k] != window[0] + 1
          decreases |window|
        {
          PopRepresents(window, reported, it);
          window := window[1..];
          it := it - 1;
        }
        it := it + 1;
      }
      assert window[0] + 1 !in window;
    }
  }

  function Inserted(w: seq<nat>, it: nat, xid: nat): seq<nat>
    requires it <= |w|
  {
    w[..it] + [xid] + w[it..]
  }

  lemma InsertedAt(w: seq<nat>, it: nat, xid: nat, k: nat)
    requires it <= |w| && k <= |w|
    ensures |Inserted(w, it, xid)| == |w| + 1
    ensures Inserted(w, it, xid)[k] == if k < it then w[k] else if k == it then xid else w[k - 1]
  {
  }

  lemma InsertSorted(w: seq<nat>, it: nat, xid: nat)
    requires Sorted(w) && it <= |w|
    requires forall k :: 0 <= k < it ==> w[k] <= xid
    requires it < |w| ==> xid < w[it]
    ensures Sorted(Inserted(w, it, xid))
  {
    var w' := Inserted(w, it, xid);
    forall i, j | 0 <= i < j < |w'| ensures w'[i] <= w'[j] {
      InsertedAt(w, it, xid, i);
      InsertedAt(w, it, xid, j);
    }
  }

  lemma InsertCovers(w: seq<nat>, reported: set<nat>, it: nat, xid: nat, x: nat)
    requires Represents(w, reported) && 0 < it <= |w| && x in reported + {xid}
    ensures x <= w[0] || x in Inserted(w, it, xid)
  {
    InsertedAt(w, it, xid, it);
    if x != xid && x > w[0] {
      var i :| 0 <= i < |w| && w[i] == x;
      InsertedAt(w, it, xid, if i < it then i else i + 1);
    }
  }

  lemma InsertRepresents(w: seq<nat>, reported: set<nat>, it: nat, xid: nat)
    requires Represents(w, reported) && 0 < it <= |w|
    requires forall k :: 0 <= k < it ==> w[k] <= xid
    requires it < |w| ==> xid < w[it]
    ensures Represents(Inserted(w, it, xid), reported + {xid})
  {
    var w' := Inserted(w, it, xid);
    InsertSorted(w, it, xid);
    InsertedAt(w, it, xid, 0);
    forall i | 0 < i < |w'| ensures w'[i] in reported + {xid} {
      InsertedAt(w, it, xid, i);
    }
    forall x | x in reported + {xid} ensures x <= w'[0] || x in w' {
      InsertCovers(w, reported, it, xid, x);
    }
  }

  /** Dropping the front is right when its successor is in the list. */
  lemma PopRepresents(w: seq<nat>, reported: set<nat>, it: nat)
    requires Represents(w, reported) && 0 < it < |w| && w[it] == w[0] + 1
    requires forall k :: 0 <= k < it ==> w[k] != w[0] + 1
    ensures Represents(w[1..], reported)
    ensures forall k :: 0 <= k < it - 1 ==> w[1..][k] != w[1..][0] + 1
  {
    var w' := w[1..];
    assert w[0] <= w[1] <= w[it];
    assert it > 1 ==> w[1] == w[0];
    assert forall k :: 0 <= k < |w'| ==> w'[k] == w[k + 1];
    forall x | x in reported ensures x <= w'[0] || x in w' {
      if x > w'[0] {
        var i :| 0 <= i < |w| && w[i] == x;
        assert w'[i - 1] == x;
      }
    }
  }

  // ---- server: reply_window_ ----

  /** reply_t, with reply buffers of type B. In this code `cb_present` marks a request that is still being processed. */
  datatype Reply<+B> = Reply(xid: nat, cbPresent: bool, buf: Option<B>)

  datatype Verdict<+B> = New | InProgress | Done(buf: B) | Forgotten

  predicate Increasing<B>(w: seq<Reply<B>>) {
    forall i, j :: 0 <= i < j < |w| ==> w[i].xid < w[j].xid
  }

  predicate EntriesOk<B>(w: seq<Reply<B>>) {
    forall i :: 0 <= i < |w| ==> (w[i].cbPresent <==> w[i].buf.None?)
  }

  predicate WindowOk<B>(w: seq<Reply<B>>) {
    Increasing(w) && EntriesOk(w)
  }

  /** What a list means: the xids seen, each with its reply once there is one. */
  type Table<B> = map<nat, Option<B>>

  function TableOf<B>(w: seq<Reply<B>>): Table<B> {
    if w == [] then map[] else TableOf(w[1..])[w[0].xid := w[0].buf]
  }

  lemma {:induction false} TableHas<B>(w: seq<Reply<B>>, i: nat)
    requires i < |w| && forall k :: 0 <= k < i ==> w[k].xid != w[i].xid
    ensures w[i].xid in TableOf(w) && TableOf(w)[w[i].xid] == w[i].buf
  {
    if i > 0 {
      assert w[0].xid != w[i].xid;
      TableHas(w[1..], i - 1);
    }
  }

  lemma {:induction false} TableHasOnly<B>(w: seq<Reply<B>>, k: nat)
    requires forall i :: 0 <= i < |w| ==> w[i].xid != k
    ensures k !in TableOf(w)
  {
    if w != [] {
      assert w[0].xid != k;
      TableHasOnly(w[1..], k);
    }
  }

  /** The front of an increasing list is the least xid ever seen. */
  lemma FrontLeast<B>(w: seq<Reply<B>>, xid: nat)
    requires Increasing(w) && w != []
    ensures TableOf(w) != map[] && ((forall k :: k in TableOf(w) ==> xid < k) <==> xid < w[0].xid)
  {
    TableHas(w, 0);
    if xid < w[0].xid {
      forall k | k in TableOf(w) ensures xid < k {
        if k <= xid {
          TableHasOnly(w, k);
        }
      }
    }
  }

  lemma {:induction false} InsertTable<B>(w: seq<Reply<B>>, it: nat, r: Reply<B>)
    requires it <= |w| && forall k :: 0 <= k < it ==> w[k].xid != r.xid
    ensures TableOf(w[..it] + [r] + w[it..]) == TableOf(w)[r.xid := r.buf]
  {
    var w' := w[..it] + [r] + w[it..];
    if it == 0 {
      assert w'[1..] == w;
    } else {
      assert w[0].xid != r.xid;
      InsertTable(w[1..], it - 1, r);
      assert w'[1..] == w[1..][..it - 1] + [r] + w[1..][it - 1..];
    }
  }

  lemma {:induction false} AnswerTable<B>(w: seq<Reply<B>>, it: nat, r: Reply<B>)
    requires it < |w| && r.xid == w[it].xid && forall k :: 0 <= k < it ==> w[k].xid != r.xid
    ensures TableOf(w[it := r]) == TableOf(w)[r.xid := r.buf]
  {
    if it == 0 {
      assert w[it := r][1..] == w[1..];
    } else {
      assert w[0].xid != r.xid;
      AnswerTable(w[1..], it - 1, r);
      assert w[it := r][1..] == w[1..][it - 1 := r];
    }
  }

  /** The verdict that the comment on checkduplicate_and_update asks for, on tables. */
  ghost function VerdictOf<B>(t: Table<B>, xid: nat): Verdict<B> {
    if xid in t then (if t[xid].None? then InProgress else Done(t[xid].value))
    else if t != map[] && (forall k :: k in t ==> xid < k) then Forgotten
    else New
  }

  /** How many entries the reclaim loop erases for an acknowledgement of `xidRep`. */
  function Reclaimed<B>(w: seq<Reply<B>>, xidRep: nat): (n: nat)
    ensures n <= |w|
  {
    if w != [] && w[0].xid <= xidRep && w[0].cbPresent && w[0].buf.Some? then 1 + Reclaimed(w[1..], xidRep) else 0
  }

  /** The loop stops at its first entry unless that entry is both in progress and answered,
      which no entry of a well-formed window is: acknowledged replies are never forgotten,
      although rpc/rpc.h says they are. */
  lemma NothingIsReclaimed<B>(w: seq<Reply<B>>, xidRep: nat)
    ensures Reclaimed(w, xidRep) > 0 <==> w != [] && w[0].xid <= xidRep && w[0].cbPresent && w[0].buf.Some?
    ensures WindowOk(w) ==> Reclaimed(w, xidRep) == 0
  {
    if w != [] && WindowOk(w) { assert w[0].cbPresent <==> w[0].buf.None?; }
  }

  /** A reply the client has acknowledged, kept all the same. */
  lemma AcknowledgedReplyIsKept<B>(b: B)
    ensures var w := [Reply(1, false, Some(b))];
            WindowOk(w) && Reclaimed(w, 1) == 0 && VerdictOf(TableOf(w), 1) == Done(b)
  {
    NothingIsReclaimed([Reply(1, false, Some(b))], 1);
    TableHas([Reply(1, false, Some(b))], 0);
  }

  class ReplyWindows<B> {
    var replyWindow: map<nat, seq<Reply<B>>>

    constructor ()
      ensures Valid() && replyWindow == map[]
    {
      replyWindow := map[];
    }

    ghost predicate Valid()
      reads this
    {
      forall c :: c in replyWindow ==> WindowOk(replyWindow[c])
    }

    ghost function TableFor(c: nat): Table<B>
      reads this
    {
      if c in replyWindow then TableOf(replyWindow[c]) else map[]
    }

    /** The verdict is the table's: Forgotten for an xid below all that were seen, New for any
        other that was not. Only New changes the table, and nothing is ever dropped. */
    method CheckDuplicateAndUpdate(nonce: nat, xid: nat, xidRep: nat) returns (v: Verdict<B>)
      requires Valid() && xid > xidRep
      modifies this
      ensures Valid() && v == VerdictOf(old(TableFor(nonce)), xid)
      ensures v.Forgotten? <==> old(TableFor(nonce)) != map[] && forall k :: k in old(TableFor(nonce)) ==> xid < k
      ensures v.New? <==> xid !in old(TableFor(nonce)) && !v.Forgotten?
      ensures v.InProgress? <==> xid in old(TableFor(nonce)) && old(TableFor(nonce))[xid] == None
      ensures TableFor(nonce) == if v.New? then old(TableFor(nonce))[xid := None] else old(TableFor(nonce))
      ensures forall c :: c != nonce ==> TableFor(c) == old(TableFor(c))
    {
      if nonce !in replyWindow {
        replyWindow := replyWindow[nonce := []];
      }
      var window;
      v, window := CheckWindow(replyWindow[nonce], xid, xidRep);
      replyWindow := replyWindow[nonce := window];
    }

    /** Records the answer of a request that has been seen; any other xid is ignored. */
    method AddReply(nonce: nat, xid: nat, b: B)
      requires Valid() && TableFor(nonce) != map[]
      modifies this
      ensures Valid()
      ensures TableFor(nonce) == if xid in old(TableFor(nonce)) then old(TableFor(nonce))[xid := Some(b)] else old(TableFor(nonce))
      ensures forall c :: c != nonce ==> TableFor(c) == old(TableFor(c))
    {
      var window := replyWindow[nonce];
      var it := Find(window, xid);
      if it < |window| {
        TableHas(window, it);
        AnswerTable(window, it, Reply(xid, false, Some(b)));
        replyWindow := replyWindow[nonce := window[it := Reply(xid, false, Some(b))]];
      } else {
        TableHasOnly(window, xid);
      }
    }
  }

  /** The body of checkduplicate_and_update on one client's list. */
  method CheckWindow<B>(window0: seq<Reply<B>>, xid: nat, xidRep: nat) returns (v: Verdict<B>, window: seq<Reply<B>>)
    requires WindowOk(window0)
    ensures v == VerdictOf(TableOf(window0), xid) && WindowOk(window)
    ensures v.Forgotten? <==> |window0| > 0 && xid < window0[0].xid
    ensures v.New? <==> (forall k :: 0 <= k < |window0| ==> window0[k].xid != xid) && (|window0| > 0 ==> window0[0].xid < xid)
    ensures forall k :: 0 <= k < |window0| && window0[k].xid == xid ==>
              v == if window0[k].buf.None? then InProgress else Done(window0[k].buf.value)
    ensures TableOf(window) == if v.New? then TableOf(window0)[xid := None] else TableOf(window0)
  {
    window := window0;
    if |window| > 0 {
      var back := window[|window| - 1];
      FrontLeast(window, xid);
      if window[0].xid <= xidRep {
        var n := ReclaimLoop(window, xidRep);
        NothingIsReclaimed(window, xidRep);
        window := window[n..];
      }
      if window[0].xid > xid {
        TableHasOnly(window, xid);
        assert forall k :: 0 <= k < |window0| ==> window0[0].xid <= window0[k].xid;
        return Forgotten, window;
      }
      if back.xid >= xid {
        var found := Find(window, xid);
        if found < |window| {
          TableHas(window, found);
          v := if window[found].cbPresent then InProgress else Done(window[found].buf.value);
          return;
        }
      }
    }
    TableHasOnly(window, xid);
    v := New;
    window := Insert(window, xid);
  }

  method ReclaimLoop<B>(window: seq<Reply<B>>, xidRep: nat) returns (it: nat)
    ensures it == Reclaimed(window, xidRep)
  {
    it := 0;
    while it < |window| && window[it].xid <= xidRep && window[it].cbPresent && window[it].buf.Some?
      invariant 0 <= it <= |window|
      invariant it + Reclaimed(window[it..], xidRep) == Reclaimed(window, xidRep)
    {
      assert window[it..][1..] == window[it + 1..];
      it := it + 1;
    }
  }

  /** The index of the entry for `xid`, or the length. */
  method Find<B>(window: seq<Reply<B>>, xid: nat) returns (it: nat)
    ensures it <= |window| && (it < |window| ==> window[it].xid == xid)
    ensures forall k :: 0 <= k < it ==> window[k].xid != xid
  {
    it := 0;
    while it < |window| && window[it].xid != xid
      invariant 0 <= it <= |window|
      invariant forall k :: 0 <= k < it ==> window[k].xid != xid
    {
      it := it + 1;
    }
  }

  method Insert<B>(window0: seq<Reply<B>>, xid: nat) returns (window: seq<Reply<B>>)
    requires WindowOk(window0) && forall k :: 0 <= k < |window0| ==> window0[k].xid != xid
    ensures WindowOk(window) && TableOf(window) == TableOf(window0)[xid := None]
  {
    var it := 0;
    while it < |window0| && window0[it].xid <= xid
      invariant 0 <= it <= |window0|
      invariant forall k :: 0 <= k < it ==> window0[k].xid < xid
    {
      it := it + 1;
    }
    window := window0[..it] + [Reply(xid, true, None)] + window0[it..];
    InsertTable(window0, it, Reply(xid, true, None));
  }
}
