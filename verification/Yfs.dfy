/** The file-system operations (yfs_client.cc) on top of the extent cache. Each runs under the
    lock of the extents it names, so this client's cache and the server are all it sees. */
module Yfs {
  import opened Common
  import opened Extents
  import opened Directory
  import FileContent

  /** How an operation ends: with a status, by an assert or an exception that nothing catches, or
      never, because the thread waits for a lock that it holds itself. */
  datatype Code = Ok | NoEnt | Exist | Aborts | Throws | Hangs

  predicate IsFile(inum: nat) { inum / TWO31 % 2 == 1 }

  predicate IsDir(inum: nat) { !IsFile(inum) }

  /** The root is a directory, and so is every inum whose low 32 bits are below 2^31; the others are
      files. */
  lemma InumKinds(inum: nat)
    ensures IsDir(1) && (IsDir(inum) <==> inum % 0x1_0000_0000 < 0x8000_0000) && (IsFile(inum) <==> !IsDir(inum))
    ensures inum < 0x1_0000_0000 ==> (IsFile(inum) <==> inum >= 0x8000_0000)
  {
  }

  /** rand_inum with the number that rand() drew. */
  function RandInum(isFile: bool, drawn: nat): (inum: nat)
    ensures inum < 0x1_0000_0000 && (IsFile(inum) <==> isFile)
  {
    drawn % TWO31 + if isFile then TWO31 else 0
  }

  /** Every inum of either kind can be drawn. */
  lemma EveryInumIsDrawn(inum: nat)
    requires inum < 0x1_0000_0000
    ensures RandInum(IsFile(inum), inum) == inum
  {
  }

  /** The inum found in the directory, and the directory without the entry. */
  datatype Cut = Cut(inum: nat, after: string) | NotThere | CutAborts

  /** The string part of `unlink`. */
  method CutEntry(b: string, name: string) returns (r: Cut)
    ensures r.Cut? ==> LookupIn(b, name) == Some(r.inum) && UnlinkIn(b, name) == Some(r.after)
    ensures r.NotThere? <==> FindFrom(b, Quoted(name), 0).None?
    ensures r.CutAborts? <==> Locate(b, name).AssertFails?
    ensures forall es :: PlainNames(es) && b == Encode(es) ==> !r.CutAborts?
  {
    forall es | PlainNames(es) && b == Encode(es) ensures !Locate(b, name).AssertFails? {
      NeverAborts(es, name);
    }
    match Locate(b, name)
    case Absent => r := NotThere;
    case AssertFails => r := CutAborts;
    case Located(left, found) => r := Cut(N2i(b[left..found]), b[..left] + b[found + |name| + 2..]);
  }

  class YfsClient {
    const ec: ExtentClient
    const server: ExtentServer

    constructor (ec: ExtentClient, server: ExtentServer)
      ensures this.ec == ec && this.server == server
    {
      this.ec, this.server := ec, server;
    }

    ghost predicate Valid()
      reads this, ec, server
    {
      ec.Sound(server)
    }

    /** The current content of an extent. */
    ghost function Content(ino: nat): Option<string>
      reads this, ec, server
    {
      ec.Contents(server, ino)
    }

    /** What `get` returns: the content, except of an extent that this client has removed and
        not flushed since. */
    ghost function Seen(ino: nat): (r: Option<string>)
      requires Valid()
      reads this, ec, server
      ensures !PendingRemoval(Lookup(ec.cache, ino)) ==> r == Content(ino)
    {
      GetResult(Lookup(ec.cache, ino), Lookup(server.exts, ino))
    }

    /** `lookup`: an empty name is answered with success and no inum. */
    method LookupName(parent: nat, name: string, t1: nat, t2: nat) returns (r: Code, ino: Option<nat>)
      requires Valid()
      modifies ec, server
      ensures Valid() && forall i :: Content(i) == old(Content(i))
      ensures 0x8000_0000 <= parent < 0x1_0000_0000 ==> r == NoEnt
      ensures parent < 0x8000_0000 && name == "" ==> r == Ok && ino == None
      ensures parent < 0x8000_0000 && name != "" && old(Seen(parent)).Some? ==>
                (r == NoEnt <==> FindFrom(old(Seen(parent)).value, Quoted(name), 0).None?)
      ensures !IsDir(parent) ==> r == NoEnt
      ensures IsDir(parent) && name == "" ==> r == Ok && ino == None
      ensures IsDir(parent) && name != "" ==>
                var b := old(Seen(parent));
                && (r == Aborts <==> b.Some? && Locate(b.value, name).AssertFails?)
                && (r == Ok <==> b.Some? && LookupIn(b.value, name).Some?)
                && (r == Ok ==> ino == LookupIn(b.value, name))
      ensures r in {Ok, NoEnt, Aborts}
    {
      ino := None;
      if !IsDir(parent) { return NoEnt, None; }
      if |name| < 1 { return Ok, None; }
      var b := ec.Get(server, parent, t1, t2);
      if b.None? { return NoEnt, None; }
      match Locate(b.value, name)
      case Absent => r := NoEnt;
      case AssertFails => r := Aborts;
      case Located(left, found) => r, ino := Ok, Some(N2i(b.value[left..found]));
    }

    /** `create` of a file or a directory, with the number that rand() drew: the new extent is
        empty and the parent has one more entry; any other outcome changes nothing. An inum equal
        to the parent's makes the thread wait for the parent's lock, which it holds. */
    method CreateName(parent: nat, name: string, isFile: bool, drawn: nat, t1: nat, t2: nat) returns (r: Code, num: nat)
      requires Valid()
      modifies ec, server
      ensures num == RandInum(isFile, drawn)
      ensures Valid() && forall i :: i != parent && i != num ==> Content(i) == old(Content(i))
      ensures r != Ok ==> forall i :: Content(i) == old(Content(i))
      ensures 0x8000_0000 <= parent < 0x1_0000_0000 ==> r == NoEnt
      ensures parent < 0x8000_0000 && old(Seen(parent)).Some? ==> r != NoEnt
      ensures r == Ok ==> Seen(num) == Some("") && Seen(parent) == Content(parent)
      ensures r == Ok && num !in old(ec.cache) && t2 > 0 ==>
                GetAttrResult(Lookup(ec.cache, num), Lookup(server.exts, num)) == Some(Attr(t2, t2, t2, 0))
      ensures var b := old(Seen(parent));
              && (r == NoEnt <==> !IsDir(parent) || b.None?)
              && (r == Exist <==> IsDir(parent) && b.Some? && CreateIn(b.value, name, num).None?)
              && (r == Hangs <==> r != NoEnt && r != Exist && num == parent)
              && (r == Ok <==> r != NoEnt && r != Exist && num != parent)
              && (r == Ok ==> Content(parent) == CreateIn(b.value, name, num) && Content(num) == Some(""))
    {
      num := RandInum(isFile, drawn);
      if !IsDir(parent) { return NoEnt, num; }
      var b := ec.Get(server, parent, t1, t2);
      if b.None? { return NoEnt, num; }
      if FindFrom(b.value, Quoted(name), 0).Some? { return Exist, num; }
      var after := b.value + Filename(num) + Quoted(name);
      if num == parent { return Hangs, num; }
      ec.Put(server, num, "", t2);
      ec.Put(server, parent, after, t2);
      r := Ok;
    }

    /** `unlink`. Besides the name being there, the extent must be one this client's cache has
        an entry for: the cache refuses to remove any other, and then nothing changes. An entry
        for the directory itself makes the thread wait for its own lock. */
    method UnlinkName(parent: nat, name: string, t1: nat, t2: nat) returns (r: Code)
      requires Valid()
      modifies ec, server
      ensures 0x8000_0000 <= parent < 0x1_0000_0000 ==> r == NoEnt
      ensures parent < 0x8000_0000 && r == NoEnt && old(Seen(parent)).Some? ==>
                var found := LookupIn(old(Seen(parent)).value, name); found.Some? ==> found.value !in old(ec.cache)
      ensures Valid() && r in {Ok, NoEnt, Aborts, Hangs} && (r != Ok ==> forall i :: Content(i) == old(Content(i)))
      ensures var b := old(Seen(parent));
              var ino := if b.None? then None else LookupIn(b.value, name);
              && (r == Aborts <==> IsDir(parent) && b.Some? && Locate(b.value, name).AssertFails?)
              && (r == Hangs <==> IsDir(parent) && ino == Some(parent))
              && (r == Ok <==> IsDir(parent) && ino.Some? && ino.value != parent && ino.value in old(ec.cache))
              && (r == Ok ==> Content(parent) == UnlinkIn(b.value, name) && Content(ino.value) == None
                              && forall i :: i != parent && i != ino.value ==> Content(i) == old(Content(i)))
    {
      if !IsDir(parent) { return NoEnt; }
      var b := ec.Get(server, parent, t1, t2);
      if b.None? { return NoEnt; }
      assert ec.cache == old(ec.cache) || ec.cache.Keys == old(ec.cache).Keys + {parent};
      var cut := CutEntry(b.value, name);
      if cut.NotThere? { return NoEnt; }
      if cut.CutAborts? { return Aborts; }
      if cut.inum == parent { return Hangs; }
      var removed := ec.Remove(server, cut.inum);
      if !removed { return NoEnt; }
      ec.Put(server, parent, cut.after, t2);
      r := Ok;
    }

    /** `getfile`, and `getdir` but for the size; None is an I/O error. */
    method GetInfo(ino: nat) returns (r: Option<Attr>)
      requires Valid()
      modifies ec
      ensures Valid() && forall i :: Content(i) == old(Content(i))
      ensures r == old(GetAttrResult(Lookup(ec.cache, ino), Lookup(server.exts, ino)))
      ensures r.Some? && !PendingRemoval(Lookup(old(ec.cache), ino)) ==> Content(ino).Some? && r.value.size == |Content(ino).value|
    {
      r := ec.GetAttr(server, ino);
    }

    /** `read`; None is NOENT. At an offset not past the end it returns exactly `size` bytes of
        the zero-filled file, and if it returns any bytes it is those. */
    method Read(ino: nat, size: nat, off: nat, t1: nat, t2: nat) returns (r: Option<FileContent.Outcome>)
      requires Valid()
      modifies ec, server
      ensures Valid() && forall i :: Content(i) == old(Content(i))
      ensures r.Some? <==> old(Seen(ino)).Some?
      ensures r.Some? ==>
                var s := old(Seen(ino)).value;
                && (r.value.Bytes? <==> off <= |s| && off + size < |s| + TWO31)
                && (r.value.Bytes? ==> r.value.s == FileContent.Slice(s, off, size))
    {
      var buf := ec.Get(server, ino, t1, t2);
      if buf.None? { return None; }
      var s := FileContent.Read(buf.value, size, off);
      r := Some(s);
    }

    /** `write`. */
    method Write(ino: nat, data: string, off: int, t1: nat, t2: nat) returns (r: Code)
      requires Valid()
      modifies ec, server
      ensures Valid() && forall i :: i != ino ==> Content(i) == old(Content(i))
      ensures r == (if off < 0 || old(Seen(ino)).None? then NoEnt else Ok)
      ensures r == NoEnt ==> Content(ino) == old(Content(ino))
      ensures r == Ok ==> Content(ino) == Some(FileContent.Written(old(Seen(ino)).value, data, off % TWO32))
    {
      if off < 0 { return NoEnt; }
      var ori := ec.Get(server, ino, t1, t2);
      if ori.None? { return NoEnt; }
      var after := FileContent.Write(ori.value, data, off);
      ec.Put(server, ino, after, t2);
      r := Ok;
    }

    /** `setattr` of the size: right exactly if the size fits the length. */
    method SetSize(ino: nat, size: nat, t1: nat, t2: nat) returns (r: Code)
      requires Valid()
      modifies ec, server
      ensures Valid() && forall i :: i != ino ==> Content(i) == old(Content(i))
      ensures r in {Ok, NoEnt, Throws} && (r == NoEnt <==> old(Seen(ino)).None?)
      ensures r != Ok ==> Content(ino) == old(Content(ino))
      ensures r != NoEnt ==>
                var s := old(Seen(ino)).value;
                && (r == Throws <==> FileContent.Resize(s, size) == FileContent.Throws)
                && (r == Ok && Content(ino) == Some(FileContent.Resized(s, size)) <==> FileContent.SizeFits(|s|, size))
    {
      var buf := ec.Get(server, ino, t1, t2);
      if buf.None? { return NoEnt; }
      FileContent.ResizeExact(buf.value, size);
      var after := FileContent.SetSize(buf.value, size);
      if after.Throws? { return Throws; }
      ec.Put(server, ino, after.s, t2);
      r := Ok;
    }
  }

  /** What has just been created has attributes at once: the time of the creation, and size 0. */
  method CreateThenGetInfo(fs: YfsClient, parent: nat, name: string, isFile: bool, drawn: nat, t1: nat, t2: nat)
    returns (r: Code, info: Option<Attr>)
    requires fs.Valid() && t2 > 0
    modifies fs.ec, fs.server
    ensures r == Ok && RandInum(isFile, drawn) !in old(fs.ec.cache) ==> info == Some(Attr(t2, t2, t2, 0))
  {
    var num;
    r, num := fs.CreateName(parent, name, isFile, drawn, t1, t2);
    info := fs.GetInfo(num);
  }

  /** A name created as a file cannot have entries; one created as a directory can, and lookup then
      finds them. */
  method CreateWithin(fs: YfsClient, parent: nat, name: string, isFile: bool, drawn: nat,
                      inner: string, innerDrawn: nat, t1: nat, t2: nat)
    returns (r: Code, within: Code, found: Code, ino: Option<nat>)
    requires fs.Valid() && Plain(inner) && RandInum(isFile, drawn) != RandInum(true, innerDrawn)
    modifies fs.ec, fs.server
    ensures r == Ok && isFile ==> within == NoEnt && found == NoEnt
    ensures r == Ok && !isFile ==> within == Ok && found == Ok && ino == Some(RandInum(true, innerDrawn))
  {
    var num, inum;
    r, num := fs.CreateName(parent, name, isFile, drawn, t1, t2);
    within, inum := fs.CreateName(num, inner, true, innerDrawn, t1, t2);
    found, ino := fs.LookupName(num, inner, t1, t2);
    OnlyEntry(inum, inner);
  }

  lemma OnlyEntry(inum: nat, name: string)
    requires Plain(name)
    ensures CreateIn("", name, inum) == Some(Encode([Entry(inum, name)]))
    ensures LookupIn(Encode([Entry(inum, name)]), name) == Some(inum)
  {
    CreateEncoded([], name, inum);
    LookupEncoded([Entry(inum, name)], name);
  }
}
