/** The directory string as a finite map from names to inums: what lookup, create and unlink do to
    the map, exactly when they do what a map would, and the readdir loop (fuse.cc). */
module DirectoryMap {
  import opened Common
  import opened Directory

  // ---- entries as a map ----

  function ToMap(es: seq<Entry>): map<string, nat> {
    if es == [] then map[] else ToMap(es[1..])[es[0].name := es[0].inum]
  }

  lemma {:induction false} MapHas(es: seq<Entry>, k: nat)
    requires DistinctNames(es) && k < |es|
    ensures es[k].name in ToMap(es) && ToMap(es)[es[k].name] == es[k].inum
  {
    if k > 0 {
      assert es[0].name != es[k].name;
      MapHas(es[1..], k - 1);
    }
  }

  lemma {:induction false} MapHasOnly(es: seq<Entry>, name: string)
    requires !HasName(es, name)
    ensures name !in ToMap(es)
  {
    if es != [] {
      assert es[0].name != name;
      assert !HasName(es[1..], name);
      MapHasOnly(es[1..], name);
    }
  }

  lemma {:induction false} MapAppend(es: seq<Entry>, e: Entry)
    requires !HasName(es, e.name)
    ensures ToMap(es + [e]) == ToMap(es)[e.name := e.inum]
  {
    if es == [] {
      assert [e][1..] == [];
    } else {
      assert es[0].name != e.name;
      assert (es + [e])[1..] == es[1..] + [e];
      assert !HasName(es[1..], e.name);
      MapAppend(es[1..], e);
    }
  }

  lemma RemoveOther(m: map<string, nat>, x: string, y: string, v: nat)
    requires x != y
    ensures m[y := v] - {x} == (m - {x})[y := v]
  {
  }

  lemma WithoutTail(es: seq<Entry>, k: nat)
    requires 0 < k < |es|
    ensures Without(es, k) != [] && Without(es, k)[0] == es[0] && Without(es, k)[1..] == Without(es[1..], k - 1)
  {
  }

  lemma {:induction false} MapWithout(es: seq<Entry>, k: nat)
    requires DistinctNames(es) && k < |es|
    ensures ToMap(Without(es, k)) == ToMap(es) - {es[k].name}
  {
    if k == 0 {
      assert Without(es, 0) == es[1..];
      assert !HasName(es[1..], es[0].name);
      MapHasOnly(es[1..], es[0].name);
    } else {
      assert es[0].name != es[k].name;
      MapWithout(es[1..], k - 1);
      WithoutTail(es, k);
      RemoveOther(ToMap(es[1..]), es[k].name, es[0].name, es[0].inum);
    }
  }

  // ---- the two editing operations ----

  predicate AllDigits(s: string) {
    forall i :: 0 <= i < |s| ==> IsDigit(s[i])
  }

  /** A name that cannot be mistaken for an inum. */
  predicate Admissible(name: string) {
    Plain(name) && !AllDigits(name)
  }

  lemma AdmissibleNotConfused(es: seq<Entry>, name: string)
    requires Admissible(name)
    ensures !Confused(es, name)
  {
  }

  ghost predicate LookupMeets(es: seq<Entry>, name: string) {
    LookupIn(Encode(es), name) == if name in ToMap(es) then Some(ToMap(es)[name]) else None
  }

  /** lookup agrees with the map if and only if the name is not confused with an inum, or the
      number that it then reads, at the start of the name before that inum, happens to be the
      right one. */
  lemma LookupExact(es: seq<Entry>, name: string)
    requires WellFormed(es) && Plain(name)
    ensures Confused(es, name) <==> FirstHit(es, name).InumHit?
    ensures LookupMeets(es, name) <==>
              Confused(es, name) ==>
                name in ToMap(es) && ToMap(es)[name] == N2i(es[FirstHit(es, name).k - 1].name)
  {
    LookupEncoded(es, name);
    HitMeaning(es, name);
    match FirstHit(es, name)
    case NoHit => MapHasOnly(es, name);
    case NameHit(k) => MapHas(es, k);
    case InumHit(k) =>
  }

  /** A directory in which the name "7" is confused with the inum of "b": lookup is right only by
      the accident that the name before reads as 9. */
  lemma ConfusedLookup(first: string)
    requires Plain(first) && first != "b" && first != "7"
    ensures LookupMeets([Entry(5, first), Entry(7, "b"), Entry(9, "7")], "7") <==> N2i(first) == 9
  {
    var es := [Entry(5, first), Entry(7, "b"), Entry(9, "7")];
    assert Filename(7) == "7";
    assert FirstHit(es, "7") == InumHit(1);
    LookupExact(es, "7");
    MapHas(es, 2);
  }

  lemma AppendWellFormed(es: seq<Entry>, e: Entry)
    requires WellFormed(es) && Plain(e.name) && !HasName(es, e.name)
    ensures WellFormed(es + [e])
  {
  }

  lemma WithoutWellFormed(es: seq<Entry>, k: nat)
    requires WellFormed(es) && k < |es|
    ensures WellFormed(Without(es, k))
  {
  }

  /** create adds the name to the map, or refuses; it refuses a name that the map does not have
      exactly when the name is confused with an inum. */
  lemma CreateAgrees(es: seq<Entry>, name: string, num: nat)
    requires WellFormed(es) && Plain(name)
    ensures CreateIn(Encode(es), name, num).Some? <==> name !in ToMap(es) && !Confused(es, name)
    ensures CreateIn(Encode(es), name, num).Some? ==>
              var es' := es + [Entry(num, name)];
              && CreateIn(Encode(es), name, num) == Some(Encode(es')) && WellFormed(es')
              && ToMap(es') == ToMap(es)[name := num]
  {
    CreateEncoded(es, name, num);
    HitMeaning(es, name);
    match FirstHit(es, name)
    case NoHit =>
      MapHasOnly(es, name);
      MapAppend(es, Entry(num, name));
      AppendWellFormed(es, Entry(num, name));
    case NameHit(k) => MapHas(es, k);
    case InumHit(k) =>
  }

  /** unlink deletes exactly the entry of that name. */
  lemma UnlinkAgrees(es: seq<Entry>, name: string)
    requires WellFormed(es) && Plain(name) && !Confused(es, name)
    ensures UnlinkIn(Encode(es), name).Some? <==> name in ToMap(es)
    ensures FirstHit(es, name).NameHit? <==> name in ToMap(es)
    ensures name in ToMap(es) ==>
              var k := FirstHit(es, name).k;
              && k < |es| && es[k].name == name
              && UnlinkIn(Encode(es), name) == Some(Encode(Without(es, k))) && WellFormed(Without(es, k))
              && ToMap(Without(es, k)) == ToMap(es) - {name}
  {
    HitMeaning(es, name);
    match FirstHit(es, name)
    case NoHit =>
      MapHasOnly(es, name);
      FindEncoded(es, name);
    case NameHit(k) =>
      MapHas(es, k);
      UnlinkEncoded(es, name, k);
      WithoutWellFormed(es, k);
      MapWithout(es, k);
  }

  // ---- what a confused unlink does ----

  lemma MergeText(a: string, f: string, n: string, g: string, m: string, r: string)
    ensures var s := a + (f + "/" + n + "/" + (g + "/" + m + "/" + r));
            var left := |a| + |f| + 1;
            var cut := left + |n| + 1 + |g| + 1;
            s[..left] + s[cut..] == a + (f + "/" + m + "/" + r)
  {
    var s := a + (f + "/" + n + "/" + (g + "/" + m + "/" + r));
    var left := |a| + |f| + 1;
    var cut := left + |n| + 1 + |g| + 1;
    assert s[..left] == a + (f + "/");
    assert s[cut..] == m + "/" + r;
  }

  /** The entries with entry `k` merged into the one before: its inum, and the name of the other,
      are lost. */
  function Merged(es: seq<Entry>, k: nat): seq<Entry>
    requires 0 < k < |es|
  {
    es[..k - 1] + ([Entry(es[k - 1].inum, es[k].name)] + es[k + 1..])
  }

  /** unlink of a name that is confused with the inum of entry `k` merges that entry with the
      one before: a name and an inum of two different files are lost. */
  lemma ConfusedUnlinkMerges(es: seq<Entry>, name: string, k: nat)
    requires PlainNames(es) && Plain(name) && FirstHit(es, name) == InumHit(k)
    ensures UnlinkIn(Encode(es), name) == Some(Encode(Merged(es, k)))
  {
    HitMeaning(es, name);
    LocateInum(es, name, k);
    MergesAt(es, name, k, Encode(es), Encode(es[..k - 1]), Encode(es[k + 1..]));
  }

  /** With `b` the text, `a` what precedes the two entries and `r` what follows them. */
  lemma MergesAt(es: seq<Entry>, name: string, k: nat, b: string, a: string, r: string)
    requires 0 < k < |es| && name == Filename(es[k].inum)
    requires b == Encode(es) && a == Encode(es[..k - 1]) && r == Encode(es[k + 1..])
    requires var left := |a| + |Filename(es[k - 1].inum)| + 1; Locate(b, name) == Located(left, left + |es[k - 1].name|)
    ensures UnlinkIn(b, name) == Some(Encode(Merged(es, k)))
  {
    TextAround(es, k);
    MergedText(es[..k - 1], es[k - 1], es[k], es[k + 1..]);
    ConfusedCut(b, name, a, es[k - 1], es[k], r);
  }

  lemma ConfusedCut(b: string, name: string, a: string, d: Entry, e: Entry, r: string)
    requires b == a + (EncodeOne(d) + (EncodeOne(e) + r)) && name == Filename(e.inum)
    requires var left := |a| + |Filename(d.inum)| + 1; Locate(b, name) == Located(left, left + |d.name|)
    ensures UnlinkIn(b, name) == Some(a + (EncodeOne(Entry(d.inum, e.name)) + r))
  {
    var left := |a| + |Filename(d.inum)| + 1;
    UnlinkLocated(b, name, left, left + |d.name|);
    MergeCut(b, a, d, e, r, left, left + |d.name| + |name| + 2);
  }

  lemma MergeCut(b: string, a: string, d: Entry, e: Entry, r: string, left: nat, cut: nat)
    requires b == a + (EncodeOne(d) + (EncodeOne(e) + r))
    requires left == |a| + |Filename(d.inum)| + 1 && cut == left + |d.name| + 1 + |Filename(e.inum)| + 1
    ensures left <= cut <= |b| && b[..left] + b[cut..] == a + (EncodeOne(Entry(d.inum, e.name)) + r)
  {
    MergeText(a, Filename(d.inum), d.name, Filename(e.inum), e.name, r);
  }

  lemma TextAround(es: seq<Entry>, k: nat)
    requires 0 < k < |es|
    ensures Encode(es) == Encode(es[..k - 1]) + (EncodeOne(es[k - 1]) + (EncodeOne(es[k]) + Encode(es[k + 1..])))
  {
    SplitEncode(es, k - 1);
    EncodeStep(es, k - 1);
    EncodeStep(es, k);
  }

  lemma MergedText(a: seq<Entry>, d: Entry, e: Entry, rest: seq<Entry>)
    ensures Encode(a + ([Entry(d.inum, e.name)] + rest)) == Encode(a) + (EncodeOne(Entry(d.inum, e.name)) + Encode(rest))
  {
    var merged := [Entry(d.inum, e.name)] + rest;
    assert merged[1..] == rest;
    EncodeConcat(a, merged);
  }

  lemma ConfusedUnlinkExample()
    ensures UnlinkIn(Encode([Entry(5, "a"), Entry(7, "b")]), "7") == Some(Encode([Entry(5, "b")]))
  {
    var es := [Entry(5, "a"), Entry(7, "b")];
    assert Filename(7) == "7";
    assert FirstHit(es, "7") == InumHit(1);
    ConfusedUnlinkMerges(es, "7", 1);
    assert es[..0] + ([Entry(5, "b")] + es[2..]) == [Entry(5, "b")];
  }

  // ---- readdir ----

  /** What the text of an entry at position `i` looks like to the loop. */
  lemma EntryAt(s: string, i: nat, e: Entry, r: string)
    requires i <= |s| && s[i..] == EncodeOne(e) + r && Plain(e.name)
    ensures var mid := i + |Filename(e.inum)|;
            var end := mid + 1 + |e.name|;
            && TokenAt(s, i, Filename(e.inum)) && TokenAt(s, mid + 1, e.name)
            && end + 1 <= |s| && s[end + 1..] == r
  {
    EntryText(e, r);
    TokenUnslice(s, i, 0, Filename(e.inum));
    TokenUnslice(s, i, |Filename(e.inum)| + 1, e.name);
    SubSlice(s, i, |s|, |EncodeOne(e)|, |s| - i);
  }

  lemma TokenUnslice(s: string, i: nat, j: nat, t: string)
    requires i <= |s| && TokenAt(s[i..], j, t)
    ensures TokenAt(s, i + j, t)
  {
    SubSlice(s, i, |s|, j, j + |t|);
  }

  lemma {:induction false} FindSlash(s: string, i: nat, k: nat)
    requires i <= k < |s| && s[k] == '/' && forall j :: i <= j < k ==> s[j] != '/'
    ensures FindChar(s, '/', i) == Some(k)
    decreases k - i
  {
    if i < k {
      FindSlash(s, i + 1, k);
    }
  }

  /** The next slash after the start of a token is the one that ends it. */
  lemma TokenEnd(s: string, i: nat, t: string)
    requires TokenAt(s, i, t)
    ensures FindChar(s, '/', i) == Some(i + |t|) && s[i..i + |t|] == t
  {
    forall j | i <= j < i + |t| ensures s[j] != '/' {
      assert s[j] == s[i..i + |t|][j - i];
    }
    FindSlash(s, i, i + |t|);
  }

  /** One round of the loop reads one entry. */
  lemma RoundReads(s: string, i: nat, e: Entry, r: string)
    requires i <= |s| && s[i..] == EncodeOne(e) + r && Plain(e.name)
    ensures var mid := FindChar(s, '/', i);
            mid.Some? &&
            var end := FindChar(s, '/', mid.value + 1);
            && end.Some? && Entry(N2i(s[i..mid.value]), s[mid.value + 1..end.value]) == e && s[end.value + 1..] == r
  {
    EntryAt(s, i, e, r);
    TokenEnd(s, i, Filename(e.inum));
    TokenEnd(s, i + |Filename(e.inum)| + 1, e.name);
    N2iFilename(e.inum);
  }

  ghost predicate IsDirectory(buf: string, es: seq<Entry>) {
    PlainNames(es) && buf == Encode(es)
  }

  /** A directory string determines its entries. */
  lemma {:induction false} EncodeInjective(xs: seq<Entry>, ys: seq<Entry>)
    requires PlainNames(xs) && PlainNames(ys) && Encode(xs) == Encode(ys)
    ensures xs == ys
  {
    if xs == [] || ys == [] {
      if xs != [] { EndsWithSlash(xs); }
      if ys != [] { EndsWithSlash(ys); }
    } else {
      var s := Encode(xs);
      assert s[0..] == s;
      RoundReads(s, 0, xs[0], Encode(xs[1..]));
      RoundReads(s, 0, ys[0], Encode(ys[1..]));
      EncodeInjective(xs[1..], ys[1..]);
    }
  }

  /** What a map would do: delete the name if it is there, refuse otherwise. */
  ghost predicate UnlinkMeets(es: seq<Entry>, name: string) {
    if name in ToMap(es) then exists es' :: UnlinksTo(es, name, es') else UnlinkIn(Encode(es), name).None?
  }

  ghost predicate UnlinksTo(es: seq<Entry>, name: string, es': seq<Entry>) {
    PlainNames(es') && UnlinkIn(Encode(es), name) == Some(Encode(es')) && ToMap(es') == ToMap(es) - {name}
  }

  lemma MergedAt(es: seq<Entry>, k: nat, i: nat)
    requires 0 < k < |es| && i < |es| - 1
    ensures |Merged(es, k)| == |es| - 1
    ensures Merged(es, k)[i].name == es[if i < k - 1 then i else i + 1].name
  {
  }

  lemma MergedWellFormed(es: seq<Entry>, k: nat)
    requires WellFormed(es) && 0 < k < |es|
    ensures WellFormed(Merged(es, k)) && !HasName(Merged(es, k), es[k - 1].name)
  {
    var m := Merged(es, k);
    forall i | 0 <= i < |m| ensures m[i].name == es[if i < k - 1 then i else i + 1].name {
      MergedAt(es, k, i);
    }
  }

  /** The merged directory lacks a name that should have stayed. */
  lemma LostName(es: seq<Entry>, name: string)
    requires WellFormed(es) && FirstHit(es, name).InumHit?
    ensures var k := FirstHit(es, name).k;
            var lost := es[k - 1].name;
            lost != name && lost in ToMap(es) && lost !in ToMap(Merged(es, k)) && WellFormed(Merged(es, k))
  {
    var k := FirstHit(es, name).k;
    HitBefore(es, name);
    MapHas(es, k - 1);
    MergedWellFormed(es, k);
    MapHasOnly(Merged(es, k), es[k - 1].name);
  }

  lemma MergeMisses(es: seq<Entry>, name: string)
    requires WellFormed(es) && Plain(name) && FirstHit(es, name).InumHit?
    ensures !UnlinkMeets(es, name)
  {
    var merged := Merged(es, FirstHit(es, name).k);
    ConfusedUnlinkMerges(es, name, FirstHit(es, name).k);
    LostName(es, name);
    forall es' | PlainNames(es') && Encode(es') == Encode(merged) ensures es' == merged {
      EncodeInjective(es', merged);
    }
  }

  /** unlink does what a map would do if and only if the name is not confused with an inum. */
  lemma UnlinkExact(es: seq<Entry>, name: string)
    requires WellFormed(es) && Plain(name)
    ensures UnlinkMeets(es, name) <==> !Confused(es, name)
  {
    HitMeaning(es, name);
    if Confused(es, name) {
      MergeMisses(es, name);
    } else {
      UnlinkAgrees(es, name);
      if name in ToMap(es) {
        assert UnlinksTo(es, name, Without(es, FirstHit(es, name).k));
      }
    }
  }

  lemma OnlyDirectory(buf: string, es: seq<Entry>)
    requires IsDirectory(buf, es)
    ensures forall es' :: IsDirectory(buf, es') ==> es' == es
  {
    forall es' | IsDirectory(buf, es') ensures es' == es {
      EncodeInjective(es, es');
    }
  }

  /** What the loop has done after `n` rounds on the directory of `es`. */
  ghost predicate HasRead(buf: string, es: seq<Entry>, n: nat, left: nat, out: seq<Entry>) {
    n <= |es| && left <= |buf| && out == es[..n] && buf[left..] == Encode(es[n..])
  }

  /** One round of the loop, if it does not end. */
  ghost predicate Round(buf: string, left: nat, e: Entry, next: nat)
    requires left <= |buf|
  {
    var mid := FindChar(buf, '/', left);
    mid.Some? &&
    var end := FindChar(buf, '/', mid.value + 1);
    end.Some? && next == end.value + 1 && e == Entry(N2i(buf[left..mid.value]), buf[mid.value + 1..end.value])
  }

  lemma NextRound(buf: string, es: seq<Entry>, n: nat, left: nat, out: seq<Entry>)
    requires IsDirectory(buf, es) && HasRead(buf, es, n, left, out)
    ensures n < |es| ==> exists next :: Round(buf, left, es[n], next)
    ensures forall e, next :: Round(buf, left, e, next) ==> n < |es| && HasRead(buf, es, n + 1, next, out + [e])
  {
    if n < |es| {
      var next := ReadsOne(buf, es, n, left, out);
    } else {
      assert Encode(es[n..]) == "";
    }
  }

  lemma ReadsOne(buf: string, es: seq<Entry>, n: nat, left: nat, out: seq<Entry>) returns (next: nat)
    requires IsDirectory(buf, es) && HasRead(buf, es, n, left, out) && n < |es|
    ensures Round(buf, left, es[n], next) && HasRead(buf, es, n + 1, next, out + [es[n]])
  {
    EncodeStep(es, n);
    RoundReads(buf, left, es[n], Encode(es[n + 1..]));
    var mid := FindChar(buf, '/', left).value;
    next := FindChar(buf, '/', mid + 1).value + 1;
    assert es[..n] + [es[n]] == es[..n + 1];
  }

  lemma ReadsNone(buf: string, es: seq<Entry>)
    requires IsDirectory(buf, es)
    ensures HasRead(buf, es, 0, 0, [])
  {
    assert buf[0..] == buf && es[0..] == es;
  }

  lemma ReadsAll(buf: string, es: seq<Entry>, n: nat, left: nat, out: seq<Entry>)
    requires IsDirectory(buf, es) && HasRead(buf, es, n, left, out)
    requires forall e, next :: !Round(buf, left, e, next)
    ensures forall es' :: IsDirectory(buf, es') ==> out == es'
  {
    NextRound(buf, es, n, left, out);
    OnlyDirectory(buf, es);
  }

  /** The body of the loop; None is its `break`. */
  method OneRound(buf: string, left: nat) returns (e: Option<Entry>, next: nat)
    requires left <= |buf|
    ensures e.Some? ==> Round(buf, left, e.value, next) && left < next <= |buf|
    ensures e.None? ==> forall d, n :: !Round(buf, left, d, n)
  {
    var mid := FindChar(buf, '/', left);
    var end := FindChar(buf, '/', if mid.Some? then mid.value + 1 else 0);
    if mid.None? || end.None? {
      return None, left;
    }
    e, next := Some(Entry(N2i(buf[left..mid.value]), buf[mid.value + 1..end.value])), end.value + 1;
  }

  /** The readdir loop terminates on any string, and on a directory lists every entry exactly
      once, in order. */
  method ReadDir(buf: string) returns (out: seq<Entry>)
    ensures forall es :: IsDirectory(buf, es) ==> out == es
  {
    ghost var es: seq<Entry> := [];
    if es' :| IsDirectory(buf, es') {
      es := es';
      ReadsNone(buf, es);
    }
    out := [];
    var left := 0;
    ghost var n := 0;
    while true
      invariant left <= |buf|
      invariant IsDirectory(buf, es) ==> HasRead(buf, es, n, left, out)
      decreases |buf| - left
    {
      var e, next := OneRound(buf, left);
      if e.None? {
        if IsDirectory(buf, es) { ReadsAll(buf, es, n, left, out); }
        break;
      }
      if IsDirectory(buf, es) { NextRound(buf, es, n, left, out); }
      out := out + [e.value];
      left := next;
      n := n + 1;
    }
  }
}
