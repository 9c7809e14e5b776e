/** The extent server (extent_server.cc) and the write-back extent cache (extent_client.cc).
    Every operation touches one extent, so each is a function of that extent's server entry
    and cache entry; the two objects below run them on whole maps. `Effective` is the single
    value a client holding the extent's lock is meant to see. */
module Extents {
  import opened Common

  datatype Attr = Attr(atime: nat, mtime: nat, ctime: nat, size: nat)

  const NO_ATTR := Attr(0, 0, 0, 0)

  datatype Extent = Extent(name: string, attribute: Attr)

  datatype CacheEntry = CacheEntry(data: string, dirty: bool, valid: bool, a: Attr)

  function DataOf(x: Option<Extent>): Option<string> {
    if x.Some? then Some(x.value.name) else None
  }

  // ---- server side; None is the source's NOENT ----

  function ServerPut(x: Option<Extent>, buf: string, now: nat): Extent {
    Extent(buf, Attr(if x.Some? then x.value.attribute.atime else now, now, now, |buf|))
  }

  /** `get` only touches the access time. */
  function ServerGet(x: Option<Extent>, now: nat): Option<Extent> {
    if x.None? then None
    else Some(x.value.(attribute := x.value.attribute.(atime := now)))
  }

  // ---- client side ----

  predicate NeedsFetch(ce: Option<CacheEntry>) {
    ce.None? || (!ce.value.valid && !ce.value.dirty)
  }

  function Fetched(ce: Option<CacheEntry>, buf: string, now: nat): CacheEntry {
    CacheEntry(buf, false, true,
               if ce.None? then Attr(now, 0, 0, |buf|) else ce.value.a.(atime := now))
  }

  /** `getattr` first creates an empty entry for an unknown extent. */
  function Touched(ce: Option<CacheEntry>): CacheEntry {
    if ce.None? then CacheEntry("", false, false, NO_ATTR) else ce.value
  }

  predicate AttrKnown(a: Attr) {
    a.ctime != 0 && a.mtime != 0 && a.atime != 0
  }

  function AttrFilled(e: CacheEntry, temp: Attr): CacheEntry {
    e.(a := Attr(if e.a.atime == 0 then temp.atime else e.a.atime,
                 if e.a.mtime == 0 then temp.mtime else e.a.mtime,
                 if e.a.ctime == 0 then temp.ctime else e.a.ctime,
                 if e.dirty then e.a.size else temp.size))
  }

  function LocalPut(ce: Option<CacheEntry>, buf: string, now: nat): CacheEntry {
    CacheEntry(buf, true, true, Attr(if ce.Some? then ce.value.a.atime else now, now, now, |buf|))
  }

  /** The flag says whether `remove` returned OK. */
  function LocalRemove(ce: Option<CacheEntry>): (CacheEntry, bool) {
    if ce.None? then (Touched(ce), false)
    else (ce.value.(valid := false, dirty := true), true)
  }

  function Flushed(e: CacheEntry): CacheEntry {
    e.(valid := false, dirty := false, a := NO_ATTR)
  }

  /** The server entry once a dirty cache entry has been written back. */
  function WrittenBack(e: CacheEntry, x: Option<Extent>, now: nat): Option<Extent> {
    if !e.dirty then x else if e.valid then Some(ServerPut(x, e.data, now)) else None
  }

  // ---- what the pair (cache entry, server entry) means ----

  predicate PendingRemoval(ce: Option<CacheEntry>) {
    ce.Some? && ce.value.dirty && !ce.value.valid
  }

  /** The extent's current content as its lock holder should see it. */
  function Effective(ce: Option<CacheEntry>, x: Option<Extent>): Option<string> {
    if ce.None? || !ce.value.dirty then DataOf(x)
    else if ce.value.valid then Some(ce.value.data)
    else None
  }

  /** A cache entry that has nothing of its own to say: never filled, or flushed. */
  predicate Blank(ce: Option<CacheEntry>) {
    ce.None? || (!ce.value.dirty && !ce.value.valid && ce.value.a == NO_ATTR)
  }

  predicate ServerSound(x: Option<Extent>) {
    x.Some? ==> x.value.attribute.size == |x.value.name|
  }

  /** A clean copy equals the server's, and every size that `getattr` could report is the
      length of the effective content. */
  predicate CacheSound(ce: Option<CacheEntry>, x: Option<Extent>) {
    ce.Some? ==>
      var e := ce.value;
      && (!e.dirty && e.valid ==> DataOf(x) == Some(e.data))
      && (!e.dirty && (e.a.ctime != 0 || e.a.mtime != 0) ==> x.Some? && e.a.size == |x.value.name|)
      && (e.dirty && e.valid ==> e.a.size == |e.data|)
  }

  /** The result of a whole `get`. */
  function GetResult(ce: Option<CacheEntry>, x: Option<Extent>): Option<string> {
    if NeedsFetch(ce) then DataOf(x) else Some(ce.value.data)
  }

  /** The result of a whole `getattr`: None is NOENT. */
  function GetAttrResult(ce: Option<CacheEntry>, x: Option<Extent>): Option<Attr> {
    var e := Touched(ce);
    if AttrKnown(e.a) then Some(e.a)
    else if x.None? then None
    else Some(AttrFilled(e, x.value.attribute).a)
  }

  /** Under the lock `get` returns the effective content; the one exception is an extent
      this client has removed and not yet flushed, whose old data is still returned. */
  lemma GetIsEffective(ce: Option<CacheEntry>, x: Option<Extent>)
    requires CacheSound(ce, x)
    ensures GetResult(ce, x) == Effective(ce, x) <==> !PendingRemoval(ce)
  {
  }

  /** A size reported by `getattr` is the length of what `get` would return. `getattr` fails
      on an extent that `get` can read exactly when the extent is dirty in the cache, unknown
      to the server, and has a zero time stamp. */
  lemma GetAttrAgrees(ce: Option<CacheEntry>, x: Option<Extent>)
    requires CacheSound(ce, x) && ServerSound(x) && !PendingRemoval(ce)
    ensures GetAttrResult(ce, x).Some? ==>
              GetResult(ce, x).Some? && GetAttrResult(ce, x).value.size == |GetResult(ce, x).value|
    ensures GetAttrResult(ce, x).None? && GetResult(ce, x).Some? <==>
              ce.Some? && ce.value.dirty && x.None? && !AttrKnown(ce.value.a)
  {
  }

  /** The case in which `getattr` refuses an extent that exists: a zero access time left by a
      flush survives `put`, and the server has never seen the extent. */
  lemma GetAttrRefusesFreshExtent(buf: string, now: nat)
    requires now > 0
    ensures var ce := Some(LocalPut(Some(Flushed(Touched(None))), buf, now));
            GetResult(ce, None) == Some(buf) && GetAttrResult(ce, None).None?
  {
  }

  // ---- times ----

  /** The attributes seen after a put at time `now`: its size, its time as modification and change
      time, and the access time that the cache had, else the server's; on a first put all three
      are `now`. Only a put over an entry without an access time, of an extent that the server
      does not have, is followed by a failing `getattr`. */
  lemma PutThenGetAttr(ce: Option<CacheEntry>, x: Option<Extent>, buf: string, now: nat)
    requires now > 0
    ensures var r := GetAttrResult(Some(LocalPut(ce, buf, now)), x);
            && (r.None? <==> x.None? && ce.Some? && ce.value.a.atime == 0)
            && (ce.None? ==> r == Some(Attr(now, now, now, |buf|)))
            && (ce.Some? && ce.value.a.atime != 0 ==> r == Some(Attr(ce.value.a.atime, now, now, |buf|)))
            && (ce.Some? && ce.value.a.atime == 0 && x.Some? ==>
                  r == Some(Attr(x.value.attribute.atime, now, now, |buf|)))
    ensures GetResult(Some(LocalPut(ce, buf, now)), x) == Some(buf)
  {
  }

  /** A client that has nothing in its cache reports the server's attributes as they are, and keeps
      them: while none of the times is 0, it does not ask again. */
  lemma FreshGetAttr(ce: Option<CacheEntry>, x: Option<Extent>, y: Option<Extent>)
    requires Blank(ce)
    ensures GetAttrResult(ce, x) == if x.Some? then Some(x.value.attribute) else None
    ensures x.Some? && AttrKnown(x.value.attribute) ==>
              GetAttrResult(Some(AttrFilled(Touched(ce), x.value.attribute)), y) == Some(x.value.attribute)
  {
  }

  /** `getattr` takes each time from the cache if it is there, and from the server else. */
  lemma AttrSources(ce: Option<CacheEntry>, x: Option<Extent>)
    requires ce.Some? && GetAttrResult(ce, x).Some?
    ensures var r, a := GetAttrResult(ce, x).value, ce.value.a;
            && (a.atime != 0 ==> r.atime == a.atime) && (a.atime == 0 ==> x.Some? && r.atime == x.value.attribute.atime)
            && (a.mtime != 0 ==> r.mtime == a.mtime) && (a.mtime == 0 ==> x.Some? && r.mtime == x.value.attribute.mtime)
            && (a.ctime != 0 ==> r.ctime == a.ctime) && (a.ctime == 0 ==> x.Some? && r.ctime == x.value.attribute.ctime)
  {
  }

  /** A fetch at client time `now` and server time `serverNow`: the next `get` finds the data in the
      cache, whatever becomes of the server, and `getattr` reports `now` as access time and the
      other attributes of the server. At the server only the access time has changed. */
  lemma FetchThenGetAttr(ce: Option<CacheEntry>, x: Extent, now: nat, serverNow: nat, y: Option<Extent>)
    requires Blank(ce) && now > 0
    ensures var e := Some(Fetched(ce, x.name, now));
            && !NeedsFetch(e) && GetResult(e, y) == Some(x.name)
            && GetAttrResult(e, ServerGet(Some(x), serverNow)) ==
                 Some(Attr(now, x.attribute.mtime, x.attribute.ctime, x.attribute.size))
    ensures ServerGet(Some(x), serverNow) ==
              Some(Extent(x.name, Attr(serverNow, x.attribute.mtime, x.attribute.ctime, x.attribute.size)))
  {
  }

  /** What a flush at server time `now` leaves at the server: new contents with `now` as
      modification and change time and the access time that was there, or `now` for a new extent;
      nothing after a removal; what was there if nothing was written. */
  lemma FlushTimes(e: CacheEntry, x: Option<Extent>, now: nat)
    ensures !e.dirty ==> WrittenBack(e, x, now) == x
    ensures e.dirty && !e.valid ==> WrittenBack(e, x, now) == None
    ensures e.dirty && e.valid && x.None? ==> WrittenBack(e, x, now) == Some(Extent(e.data, Attr(now, now, now, |e.data|)))
    ensures e.dirty && e.valid && x.Some? ==>
              WrittenBack(e, x, now) == Some(Extent(e.data, Attr(x.value.attribute.atime, now, now, |e.data|)))
  {
  }

  /** A removal of a cached extent is pending until the flush; one of an uncached extent is refused
      and leaves an entry that says nothing. */
  lemma RemoveMeans(ce: Option<CacheEntry>, x: Option<Extent>)
    ensures var e, ok := LocalRemove(ce).0, LocalRemove(ce).1;
            && (ok <==> ce.Some?)
            && (ce.Some? ==> PendingRemoval(Some(e)) && Effective(Some(e), x).None? && e.data == ce.value.data && e.a == ce.value.a)
            && (ce.None? ==> Blank(Some(e)) && Effective(Some(e), x) == DataOf(x))
  {
  }

  lemma FlushKeepsEffective(e: CacheEntry, x: Option<Extent>, now: nat)
    requires ServerSound(x)
    ensures DataOf(WrittenBack(e, x, now)) == Effective(Some(e), x)
    ensures ServerSound(WrittenBack(e, x, now)) && Blank(Some(Flushed(e)))
  {
  }

  class ExtentServer {
    var exts: map<LockId, Extent>

    /** Every extent's size attribute is the length of its contents. */
    ghost predicate Valid()
      reads this
    {
      forall i :: ServerSound(Lookup(exts, i))
    }

    /** The server starts with an empty root directory, extent 1. */
    constructor (now: nat)
      ensures Valid() && exts == map[1 := ServerPut(None, "", now)]
    {
      exts := map[1 := Extent("", Attr(now, now, now, 0))];
    }

    method Put(id: LockId, buf: string, now: nat)
      requires Valid()
      modifies this
      ensures Valid() && exts == old(exts)[id := ServerPut(Lookup(old(exts), id), buf, now)]
      ensures exts[id] == Extent(buf, Attr(if id in old(exts) then old(exts)[id].attribute.atime else now, now, now, |buf|))
    {
      var a := Attr(now, now, now, |buf|);
      if id in exts {
        a := a.(atime := exts[id].attribute.atime);
      }
      exts := exts[id := Extent(buf, a)];
      assert forall i :: i != id ==> Lookup(exts, i) == old(Lookup(exts, i));
    }

    method Get(id: LockId, now: nat) returns (r: Option<string>)
      requires Valid()
      modifies this
      ensures Valid() && r == DataOf(Lookup(old(exts), id))
      ensures exts == if id in old(exts) then old(exts)[id := ServerGet(Some(old(exts)[id]), now).value] else old(exts)
    {
      if id !in exts {
        return None;
      }
      r := Some(exts[id].name);
      exts := exts[id := exts[id].(attribute := exts[id].attribute.(atime := now))];
      assert forall i :: i != id ==> Lookup(exts, i) == old(Lookup(exts, i));
    }

    /** Attributes are there for exactly the extents that `Get` can read, with the right size. */
    method GetAttr(id: LockId) returns (r: Option<Attr>)
      requires Valid()
      ensures r.Some? <==> DataOf(Lookup(exts, id)).Some?
      ensures r.Some? ==> r.value == exts[id].attribute && r.value.size == |DataOf(Lookup(exts, id)).value|
    {
      r := if id in exts then Some(exts[id].attribute) else None;
    }

    method Remove(id: LockId) returns (ok: bool)
      requires Valid()
      modifies this
      ensures Valid() && ok == (id in old(exts)) && exts == old(exts) - {id}
    {
      ok := id in exts;
      exts := map i | i in exts && i != id :: exts[i];
      assert forall i :: i != id ==> Lookup(exts, i) == old(Lookup(exts, i));
    }
  }

  class ExtentClient {
    var cache: map<LockId, CacheEntry>

    constructor ()
      ensures cache == map[]
    {
      cache := map[];
    }

    ghost function Contents(server: ExtentServer, eid: LockId): Option<string>
      reads this, server
    {
      Effective(Lookup(cache, eid), Lookup(server.exts, eid))
    }

    ghost predicate Sound(server: ExtentServer)
      reads this, server
    {
      server.Valid() && forall i :: CacheSound(Lookup(cache, i), Lookup(server.exts, i))
    }

    method Get(server: ExtentServer, eid: LockId, serverNow: nat, now: nat) returns (r: Option<string>)
      requires Sound(server)
      modifies this, server
      ensures Sound(server) && forall i :: Contents(server, i) == old(Contents(server, i))
      ensures r == GetResult(Lookup(old(cache), eid), Lookup(old(server.exts), eid))
      ensures !PendingRemoval(Lookup(old(cache), eid)) ==> r == Contents(server, eid)
      ensures var ce, x := Lookup(old(cache), eid), Lookup(old(server.exts), eid);
              if NeedsFetch(ce) && x.Some? then
                cache == old(cache)[eid := Fetched(ce, x.value.name, now)]
                && server.exts == old(server.exts)[eid := ServerGet(x, serverNow).value]
              else cache == old(cache) && server.exts == old(server.exts)
    {
      var flag := eid in cache;
      if !flag || (!cache[eid].valid && !cache[eid].dirty) {
        r := server.Get(eid, serverNow);
        if r.None? {
          return;
        }
        var a := if flag then cache[eid].a.(atime := now) else Attr(now, 0, 0, |r.value|);
        cache := cache[eid := CacheEntry(r.value, false, true, a)];
        assert forall i :: i != eid ==> Lookup(cache, i) == old(Lookup(cache, i));
        assert forall i :: i != eid ==> Lookup(server.exts, i) == old(Lookup(server.exts, i));
      }
      r := Some(cache[eid].data);
    }

    method GetAttr(server: ExtentServer, eid: LockId) returns (r: Option<Attr>)
      requires Sound(server)
      modifies this
      ensures Sound(server) && forall i :: Contents(server, i) == old(Contents(server, i))
      ensures r == GetAttrResult(Lookup(old(cache), eid), Lookup(server.exts, eid))
      ensures r.Some? && !PendingRemoval(Lookup(old(cache), eid)) ==>
                Contents(server, eid).Some? && r.value.size == |Contents(server, eid).value|
    {
      if eid !in cache {
        cache := cache[eid := CacheEntry("", false, false, NO_ATTR)];
      }
      var e := cache[eid];
      if e.a.ctime == 0 || e.a.mtime == 0 || e.a.atime == 0 {
        var temp := server.GetAttr(eid);
        if temp.None? {
          return None;
        }
        var a := e.a;
        if a.ctime == 0 { a := a.(ctime := temp.value.ctime); }
        if a.mtime == 0 { a := a.(mtime := temp.value.mtime); }
        if a.atime == 0 { a := a.(atime := temp.value.atime); }
        if !e.dirty { a := a.(size := temp.value.size); }
        cache := cache[eid := e.(a := a)];
      }
      r := Some(cache[eid].a);
    }

    method Put(server: ExtentServer, eid: LockId, buf: string, now: nat)
      requires Sound(server)
      modifies this
      ensures Sound(server) && Contents(server, eid) == Some(buf)
      ensures forall i :: i != eid ==> Contents(server, i) == old(Contents(server, i))
      ensures cache == old(cache)[eid := LocalPut(Lookup(old(cache), eid), buf, now)]
      ensures now > 0 && (eid in old(cache) ==> old(cache)[eid].a.atime != 0) ==>
                GetAttrResult(Lookup(cache, eid), Lookup(server.exts, eid)) ==
                  Some(Attr(if eid in old(cache) then old(cache)[eid].a.atime else now, now, now, |buf|))
    {
      var a := Attr(now, now, now, |buf|);
      if eid in cache {
        a := a.(atime := cache[eid].a.atime);
      }
      cache := cache[eid := CacheEntry(buf, true, true, a)];
    }

    /** Removing an extent this cache has never seen is refused and removes nothing. */
    method Remove(server: ExtentServer, eid: LockId) returns (ok: bool)
      requires Sound(server)
      modifies this
      ensures Sound(server) && ok == (eid in old(cache))
      ensures Contents(server, eid) == if ok then None else old(Contents(server, eid))
      ensures forall i :: i != eid ==> Contents(server, i) == old(Contents(server, i))
      ensures cache == old(cache)[eid := LocalRemove(Lookup(old(cache), eid)).0]
    {
      if eid !in cache {
        cache := cache[eid := CacheEntry("", false, false, NO_ATTR)];
        return false;
      }
      cache := cache[eid := cache[eid].(valid := false, dirty := true)];
      ok := true;
    }

    /** `flush`: afterwards the server alone carries the extent's content. */
    method Flush(server: ExtentServer, eid: LockId, now: nat)
      requires Sound(server)
      modifies this, server
      ensures Sound(server) && forall i :: Contents(server, i) == old(Contents(server, i))
      ensures DataOf(Lookup(server.exts, eid)) == old(Contents(server, eid))
      ensures eid in old(cache) ==>
                Lookup(server.exts, eid) == WrittenBack(old(cache)[eid], old(Lookup(server.exts, eid)), now)
      ensures forall i :: i != eid || i !in old(cache) ==> Lookup(server.exts, i) == old(Lookup(server.exts, i))
      ensures eid in old(cache) ==> Blank(Lookup(cache, eid))
      ensures cache == if eid in old(cache) then old(cache)[eid := Flushed(old(cache)[eid])] else old(cache)
    {
      if eid !in cache {
        return;
      }
      if cache[eid].dirty {
        if !cache[eid].valid {
          var _ := server.Remove(eid);
        } else {
          server.Put(eid, cache[eid].data, now);
        }
      }
      cache := cache[eid := cache[eid].(valid := false, dirty := false, a := NO_ATTR)];
      assert forall i :: i != eid ==> Lookup(cache, i) == old(Lookup(cache, i));
      assert forall i :: i != eid ==> Lookup(server.exts, i) == old(Lookup(server.exts, i));
    }
  }
}
