/** Directories (yfs_client.cc): a directory is the string "inum/name/inum/name/..." and is
    edited by substring search. This module proves when that string behaves like a finite map
    from names to inums. */
module Directory {
  import opened Common

  // ---- std::string and stream operations ----

  predicate MatchAt(s: string, t: string, i: nat) {
    i + |t| <= |s| && s[i..i + |t|] == t
  }

  /** s.find(t, from); None is npos. */
  function FindFrom(s: string, t: string, from: nat): (r: Option<nat>)
    ensures r.Some? ==> from <= r.value && r.value + |t| <= |s|
    decreases |s| - from
  {
    if from + |t| > |s| then None
    else if MatchAt(s, t, from) then Some(from)
    else if from < |s| then FindFrom(s, t, from + 1)
    else None
  }

  /** s.find_first_of(c, from). */
  function FindChar(s: string, c: char, from: nat): (r: Option<nat>)
    ensures r.Some? ==> from <= r.value < |s|
    decreases if from < |s| then |s| - from else 0
  {
    if from >= |s| then None else if s[from] == c then Some(from) else FindChar(s, c, from + 1)
  }

  /** s.rfind(c, pos): the last position not after `pos`. */
  function RFind(s: string, c: char, pos: nat): (r: Option<nat>)
    requires pos < |s|
    ensures r.Some? ==> r.value <= pos && s[r.value] == c && forall j :: r.value < j <= pos ==> s[j] != c
    ensures r.None? ==> forall j :: 0 <= j <= pos ==> s[j] != c
  {
    if s[pos] == c then Some(pos) else if pos == 0 then None else RFind(s, c, pos - 1)
  }

  predicate IsDigit(c: char) { '0' <= c <= '9' }

  function Digit(d: nat): (c: char)
    requires d < 10
    ensures IsDigit(c) && DigitValue(c) == d
  {
    ('0' as int + d) as char
  }

  function DigitValue(c: char): nat
    requires IsDigit(c)
  {
    c as int - '0' as int
  }

  /** yfs_client::filename, the decimal spelling. */
  function Filename(n: nat): (s: string)
    ensures |s| > 0 && forall i :: 0 <= i < |s| ==> IsDigit(s[i])
  {
    if n < 10 then [Digit(n)] else Filename(n / 10) + [Digit(n % 10)]
  }

  /** The number that the digits at the front of `s` continue, 0 and no digits for a start. */
  function ReadNumber(s: string, acc: nat): nat {
    if s == "" || !IsDigit(s[0]) then acc else ReadNumber(s[1..], 10 * acc + DigitValue(s[0]))
  }

  /** yfs_client::n2i: the digits at the front, 0 if there are none. */
  function N2i(s: string): nat {
    ReadNumber(s, 0)
  }

  lemma {:induction false} ReadOneMore(s: string, d: nat, acc: nat)
    requires d < 10 && forall i :: 0 <= i < |s| ==> IsDigit(s[i])
    ensures ReadNumber(s + [Digit(d)], acc) == 10 * ReadNumber(s, acc) + d
  {
    var s' := s + [Digit(d)];
    if s == "" {
      assert s'[1..] == "";
    } else {
      assert s'[1..] == s[1..] + [Digit(d)];
      ReadOneMore(s[1..], d, 10 * acc + DigitValue(s[0]));
    }
  }

  /** n2i undoes filename. */
  lemma {:induction false} N2iFilename(n: nat)
    ensures N2i(Filename(n)) == n
  {
    if n < 10 {
      assert "" + [Digit(n)] == [Digit(n)];
      ReadOneMore("", n, 0);
    } else {
      N2iFilename(n / 10);
      ReadOneMore(Filename(n / 10), n % 10, 0);
    }
  }

  function Pow10(n: nat): nat {
    if n == 0 then 1 else 10 * Pow10(n - 1)
  }

  /** The value of a string of digits by the weights of their places. */
  function Decimal(s: string): nat
    requires forall i :: 0 <= i < |s| ==> IsDigit(s[i])
  {
    if s == "" then 0 else DigitValue(s[0]) * Pow10(|s| - 1) + Decimal(s[1..])
  }

  lemma TimesTen(a: nat, p: nat, r: nat, d: nat)
    ensures a * (10 * p) + (10 * r + d) == 10 * (a * p + r) + d
  {
  }

  lemma {:induction false} DecimalSnoc(s: string, d: nat)
    requires d < 10 && forall i :: 0 <= i < |s| ==> IsDigit(s[i])
    ensures Decimal(s + [Digit(d)]) == 10 * Decimal(s) + d
  {
    var s' := s + [Digit(d)];
    if s == "" {
      assert s'[1..] == "" && Pow10(0) == 1;
    } else {
      assert s'[0] == s[0] && s'[1..] == s[1..] + [Digit(d)];
      DecimalSnoc(s[1..], d);
      TimesTen(DigitValue(s[0]), Pow10(|s| - 1), Decimal(s[1..]), d);
    }
  }

  /** filename is the decimal spelling: the places add up to the number, and there is no leading
      zero. */
  lemma {:induction false} FilenameIsDecimal(n: nat)
    ensures Decimal(Filename(n)) == n && (n > 0 ==> Filename(n)[0] != '0')
  {
    if n < 10 {
      assert "" + [Digit(n)] == [Digit(n)];
      DecimalSnoc("", n);
    } else {
      FilenameIsDecimal(n / 10);
      DecimalSnoc(Filename(n / 10), n % 10);
    }
  }

  /** The digits are those of ASCII. */
  lemma DigitsAreAscii(d: nat)
    requires d < 10
    ensures Digit(d) == "0123456789"[d] && DigitValue("0123456789"[d]) == d
    ensures forall c :: IsDigit(c) <==> c in "0123456789"
  {
    assert "0123456789"[d] in "0123456789";
    forall c | IsDigit(c) ensures c in "0123456789" {
      assert c == "0123456789"[c as int - 48];
    }
  }

  /** n2i stops at the first character that is no digit. */
  lemma {:induction false} N2iStops(s: string, rest: string, acc: nat)
    requires (forall i :: 0 <= i < |s| ==> IsDigit(s[i])) && (rest == "" || !IsDigit(rest[0]))
    ensures ReadNumber(s + rest, acc) == ReadNumber(s, acc)
    ensures N2i(rest) == 0
  {
    if s == "" {
      assert s + rest == rest;
    } else {
      assert (s + rest)[1..] == s[1..] + rest;
      N2iStops(s[1..], rest, 10 * acc + DigitValue(s[0]));
    }
  }

  // ---- entries and their encoding ----

  datatype Entry = Entry(inum: nat, name: string)

  predicate Plain(s: string) {
    s != "" && forall i :: 0 <= i < |s| ==> s[i] != '/'
  }

  function EncodeOne(e: Entry): string {
    Filename(e.inum) + "/" + e.name + "/"
  }

  function Encode(es: seq<Entry>): string {
    if es == [] then "" else EncodeOne(es[0]) + Encode(es[1..])
  }

  predicate PlainNames(es: seq<Entry>) {
    forall i :: 0 <= i < |es| ==> Plain(es[i].name)
  }

  predicate DistinctNames(es: seq<Entry>) {
    forall i, j :: 0 <= i < j < |es| ==> es[i].name != es[j].name
  }

  predicate WellFormed(es: seq<Entry>) {
    PlainNames(es) && DistinctNames(es)
  }

  lemma {:induction false} EncodeConcat(xs: seq<Entry>, ys: seq<Entry>)
    ensures Encode(xs + ys) == Encode(xs) + Encode(ys)
  {
    if xs == [] {
      assert xs + ys == ys;
    } else {
      EncodeConcat(xs[1..], ys);
      assert (xs + ys)[1..] == xs[1..] + ys;
      ConcatAssoc(EncodeOne(xs[0]), Encode(xs[1..]), Encode(ys));
    }
  }

  function Quoted(name: string): string { "/" + name + "/" }

  /** Where the quoted name is found first: before the name of an entry, or before the inum
      of an entry other than the first. */
  datatype Hit = NoHit | NameHit(k: nat) | InumHit(k: nat)

  function Shifted(h: Hit): Hit {
    match h
    case NoHit => NoHit
    case NameHit(k) => NameHit(k + 1)
    case InumHit(k) => InumHit(k + 1)
  }

  function FirstHit(es: seq<Entry>, name: string): (h: Hit)
    ensures h.NameHit? ==> h.k < |es|
    ensures h.InumHit? ==> 0 < h.k < |es|
  {
    if es == [] then NoHit
    else if es[0].name == name then NameHit(0)
    else if SecondInumIs(es, name) then InumHit(1)
    else Shifted(FirstHit(es[1..], name))
  }

  /** Some entry other than the first has an inum spelt like the name, and no entry before it
      has that name. */
  ghost predicate Confused(es: seq<Entry>, name: string) {
    exists j :: 0 < j < |es| && Filename(es[j].inum) == name && forall i :: 0 <= i < j ==> es[i].name != name
  }

  predicate HasName(es: seq<Entry>, name: string) {
    exists i :: 0 <= i < |es| && es[i].name == name
  }

  lemma ConfusedTail(es: seq<Entry>, name: string)
    requires es != [] && es[0].name != name
    ensures Confused(es, name) <==> SecondInumIs(es, name) || Confused(es[1..], name)
  {
    var rest := es[1..];
    if SecondInumIs(es, name) {
      assert Filename(es[1].inum) == name;
    }
    if Confused(rest, name) {
      var j :| 0 < j < |rest| && Filename(rest[j].inum) == name && forall i :: 0 <= i < j ==> rest[i].name != name;
      assert Filename(es[j + 1].inum) == name;
      forall i | 0 <= i < j + 1 ensures es[i].name != name {
        assert i > 0 ==> rest[i - 1].name != name;
      }
    }
    if Confused(es, name) {
      var j :| 0 < j < |es| && Filename(es[j].inum) == name && forall i :: 0 <= i < j ==> es[i].name != name;
      if j > 1 {
        assert Filename(rest[j - 1].inum) == name;
      }
    }
  }

  /** The search goes astray exactly when the name is confused with an inum; otherwise it finds
      the entry of that name, if there is one. */
  lemma HitMeaning(es: seq<Entry>, name: string)
    ensures FirstHit(es, name).InumHit? <==> Confused(es, name)
    ensures FirstHit(es, name).NameHit? ==> es[FirstHit(es, name).k].name == name
    ensures FirstHit(es, name).InumHit? ==> Filename(es[FirstHit(es, name).k].inum) == name
    ensures FirstHit(es, name).NoHit? ==> !HasName(es, name)
  {
    HitIsConfused(es, name);
    HitIsThere(es, name);
    NoHitNoName(es, name);
  }

  lemma {:induction false} HitIsConfused(es: seq<Entry>, name: string)
    ensures FirstHit(es, name).InumHit? <==> Confused(es, name)
  {
    if es != [] && es[0].name != name {
      ConfusedTail(es, name);
      HitIsConfused(es[1..], name);
    }
  }

  lemma {:induction false} HitIsThere(es: seq<Entry>, name: string)
    ensures FirstHit(es, name).NameHit? ==> es[FirstHit(es, name).k].name == name
    ensures FirstHit(es, name).InumHit? ==> Filename(es[FirstHit(es, name).k].inum) == name
  {
    if es != [] && es[0].name != name {
      HitIsThere(es[1..], name);
    }
  }

  lemma {:induction false} NoHitNoName(es: seq<Entry>, name: string)
    ensures FirstHit(es, name).NoHit? ==> !HasName(es, name)
  {
    if es != [] && es[0].name != name {
      NoHitNoName(es[1..], name);
      if HasName(es, name) {
        var i :| 0 <= i < |es| && es[i].name == name;
        assert es[1..][i - 1].name == name;
      }
    }
  }

  // ---- matching a quoted name against slash-separated text ----

  /** `t` is a token at position `i`, followed by a slash. */
  predicate TokenAt(s: string, i: nat, t: string) {
    Plain(t) && i + |t| < |s| && s[i..i + |t|] == t && s[i + |t|] == '/'
  }

  lemma {:induction false} HitBefore(es: seq<Entry>, name: string)
    ensures FirstHit(es, name).InumHit? ==> forall i :: 0 <= i < FirstHit(es, name).k ==> es[i].name != name
  {
    if es != [] && es[0].name != name && !SecondInumIs(es, name) {
      HitBefore(es[1..], name);
      var h := FirstHit(es[1..], name);
      if h.InumHit? {
        forall i | 0 <= i < h.k + 1 ensures es[i].name != name {
          assert i > 0 ==> es[i] == es[1..][i - 1];
        }
      }
    }
  }

  lemma TokenUnique(s: string, i: nat, t: string, u: string)
    requires TokenAt(s, i, t) && TokenAt(s, i, u)
    ensures t == u
  {
  }

  /** The quoted name matches exactly where a slash is followed by the name as a token. */
  lemma MatchIsToken(s: string, name: string, i: nat)
    requires Plain(name)
    ensures MatchAt(s, Quoted(name), i) <==> i < |s| && s[i] == '/' && TokenAt(s, i + 1, name)
  {
    var q := Quoted(name);
    assert |q| == |name| + 2;
    if i + |q| <= |s| {
      var m := s[i..i + |q|];
      SubSlice(s, i, i + |q|, 1, 1 + |name|);
      assert m == [m[0]] + m[1..1 + |name|] + [m[1 + |name|]];
      assert q[1..1 + |name|] == name && q[1 + |name|] == '/';
    }
  }

  lemma MatchBeforeToken(s: string, i: nat, t: string, name: string)
    requires i < |s| && s[i] == '/' && TokenAt(s, i + 1, t) && Plain(name)
    ensures MatchAt(s, Quoted(name), i) <==> t == name
  {
    MatchIsToken(s, name, i);
    if TokenAt(s, i + 1, name) { TokenUnique(s, i + 1, t, name); }
  }

  lemma MatchShift(a: string, s: string, t: string, j: nat)
    ensures MatchAt(a + s, t, |a| + j) <==> MatchAt(s, t, j)
  {
    if |a| + j + |t| <= |a + s| {
      assert (a + s)[|a| + j..|a| + j + |t|] == s[j..j + |t|];
    }
  }

  /** The text of one entry and what the search sees in it: nothing before its first slash,
      its name there, nothing in the name, and the next entry's inum at its second slash. */
  lemma EntryText(e: Entry, rest: string)
    requires Plain(e.name)
    ensures var s := EncodeOne(e) + rest;
            var p := |Filename(e.inum)|;
            && |EncodeOne(e)| == p + |e.name| + 2
            && TokenAt(s, 0, Filename(e.inum)) && TokenAt(s, p + 1, e.name)
            && (forall i :: 0 <= i < |EncodeOne(e)| ==> (s[i] == '/' <==> i == p || i == p + 1 + |e.name|))
  {
    var s := EncodeOne(e) + rest;
    var f := Filename(e.inum);
    assert s[0..|f|] == f;
    assert s[|f| + 1..|f| + 1 + |e.name|] == e.name;
  }

  /** find skips positions that do not match. */
  lemma {:induction false} FindSkip(s: string, t: string, i: nat, k: nat)
    requires i <= k && forall j :: i <= j < k ==> !MatchAt(s, t, j)
    ensures FindFrom(s, t, i) == FindFrom(s, t, k)
    decreases k
  {
    if i < k {
      assert !MatchAt(s, t, k - 1);
      FindSkip(s, t, i, k - 1);
    }
  }

  lemma {:induction false} FindShift(a: string, s: string, t: string, j: nat)
    ensures FindFrom(a + s, t, |a| + j) == Moved(FindFrom(s, t, j), |a|)
    decreases if j < |s| then |s| - j else 0
  {
    MatchShift(a, s, t, j);
    if j + |t| <= |s| && j < |s| {
      FindShift(a, s, t, j + 1);
    }
  }

  function Moved(r: Option<nat>, d: nat): Option<nat> {
    if r.None? then None else Some(d + r.value)
  }

  /** One entry's worth of search. */
  lemma MatchAtName(e: Entry, rest: string, name: string)
    requires Plain(e.name) && Plain(name)
    ensures MatchAt(EncodeOne(e) + rest, Quoted(name), |Filename(e.inum)|) <==> e.name == name
  {
    EntryText(e, rest);
    MatchBeforeToken(EncodeOne(e) + rest, |Filename(e.inum)|, e.name, name);
  }

  lemma NoMatchInside(e: Entry, rest: string, name: string, i: nat)
    requires Plain(e.name) && Plain(name) && i < |EncodeOne(e)| - 1 && i != |Filename(e.inum)|
    ensures !MatchAt(EncodeOne(e) + rest, Quoted(name), i)
  {
    EntryText(e, rest);
    MatchIsToken(EncodeOne(e) + rest, name, i);
  }

  lemma TokenShift(a: string, s: string, i: nat, t: string)
    ensures TokenAt(a + s, |a| + i, t) <==> TokenAt(s, i, t)
  {
    if i + |t| < |s| {
      assert (a + s)[|a| + i..|a| + i + |t|] == s[i..i + |t|];
    }
  }

  lemma MatchAtEnd(e: Entry, rest: string, name: string)
    requires Plain(e.name) && Plain(name)
    ensures MatchAt(EncodeOne(e) + rest, Quoted(name), |EncodeOne(e)| - 1) <==> TokenAt(rest, 0, name)
  {
    var a := EncodeOne(e);
    EntryText(e, rest);
    MatchIsToken(a + rest, name, |a| - 1);
    TokenShift(a, rest, 0, name);
  }

  /** What the search sees in the text of an entry: its name, and what comes first after it. */
  lemma FindStep(e: Entry, rest: string, name: string, i: nat)
    requires Plain(e.name) && Plain(name) && i < |EncodeOne(e)|
    ensures MatchAt(EncodeOne(e) + rest, Quoted(name), i) <==>
              (i == |Filename(e.inum)| && e.name == name) || (i == |EncodeOne(e)| - 1 && TokenAt(rest, 0, name))
  {
    if i == |Filename(e.inum)| {
      MatchAtName(e, rest, name);
    } else if i == |EncodeOne(e)| - 1 {
      MatchAtEnd(e, rest, name);
    } else {
      NoMatchInside(e, rest, name, i);
    }
  }

  /** Position of the slash before the name of entry `k`. */
  function NameSlash(es: seq<Entry>, k: nat): nat
    requires k < |es|
  {
    |Encode(es[..k])| + |Filename(es[k].inum)|
  }

  function HitPosition(es: seq<Entry>, h: Hit): Option<nat>
    requires h.NameHit? || h.InumHit? ==> h.k < |es|
  {
    match h
    case NoHit => None
    case NameHit(k) => Some(NameSlash(es, k))
    case InumHit(k) => if |Encode(es[..k])| > 0 then Some(|Encode(es[..k])| - 1) else None
  }

  lemma FirstToken(es: seq<Entry>, name: string)
    requires PlainNames(es) && Plain(name)
    ensures TokenAt(Encode(es), 0, name) <==> es != [] && Filename(es[0].inum) == name
  {
    if es != [] {
      EntryText(es[0], Encode(es[1..]));
      if TokenAt(Encode(es), 0, name) {
        TokenUnique(Encode(es), 0, name, Filename(es[0].inum));
      }
    }
  }

  lemma ShiftedPosition(es: seq<Entry>, h: Hit)
    requires es != [] && (h.NameHit? ==> h.k < |es| - 1) && (h.InumHit? ==> 0 < h.k < |es| - 1)
    ensures HitPosition(es, Shifted(h)) == Moved(HitPosition(es[1..], h), |EncodeOne(es[0])|)
  {
    if !h.NoHit? {
      assert es[..h.k + 1][1..] == es[1..][..h.k];
      if h.InumHit? {
        assert es[1..][..h.k] != [];
      }
    }
  }

  predicate SecondInumIs(es: seq<Entry>, name: string) {
    |es| > 1 && Filename(es[1].inum) == name
  }

  lemma FindAtName(es: seq<Entry>, name: string)
    requires es != [] && PlainNames(es) && Plain(name) && es[0].name == name
    ensures FindFrom(Encode(es), Quoted(name), 0) == Some(NameSlash(es, 0))
  {
    var p := |Filename(es[0].inum)|;
    forall j | 0 <= j <= p ensures MatchAt(Encode(es), Quoted(name), j) <==> j == p {
      FindStep(es[0], Encode(es[1..]), name, j);
    }
    assert es[..0] == [];
    FindHere(Encode(es), Quoted(name), p);
  }

  lemma FindHere(s: string, t: string, i: nat)
    requires MatchAt(s, t, i) && t != "" && forall j :: 0 <= j < i ==> !MatchAt(s, t, j)
    ensures FindFrom(s, t, 0) == Some(i)
  {
    FindSkip(s, t, 0, i);
  }

  lemma OnlyMatchAtInum(e: Entry, rest: seq<Entry>, name: string, j: nat)
    requires Plain(e.name) && PlainNames(rest) && Plain(name) && e.name != name
    requires rest != [] && Filename(rest[0].inum) == name && j < |EncodeOne(e)|
    ensures MatchAt(EncodeOne(e) + Encode(rest), Quoted(name), j) <==> j == |EncodeOne(e)| - 1
  {
    FindStep(e, Encode(rest), name, j);
    FirstToken(rest, name);
  }

  lemma FindAtInum(es: seq<Entry>, name: string)
    requires es != [] && PlainNames(es) && Plain(name) && es[0].name != name && SecondInumIs(es, name)
    ensures FindFrom(Encode(es), Quoted(name), 0) == HitPosition(es, InumHit(1))
  {
    FindBeforeRest(es[0], es[1..], name);
    assert es[..1] == [es[0]];
    EncodeSingle(es[0]);
  }

  lemma FindBeforeRest(e: Entry, rest: seq<Entry>, name: string)
    requires Plain(e.name) && PlainNames(rest) && Plain(name) && e.name != name
    requires rest != [] && Filename(rest[0].inum) == name
    ensures FindFrom(EncodeOne(e) + Encode(rest), Quoted(name), 0) == Some(|EncodeOne(e)| - 1)
  {
    var a, s, t := EncodeOne(e), Encode(rest), Quoted(name);
    forall j | 0 <= j < |a| ensures MatchAt(a + s, t, j) <==> j == |a| - 1 {
      OnlyMatchAtInum(e, rest, name, j);
    }
    FindHere(a + s, t, |a| - 1);
  }

  lemma NoMatchInFirst(e: Entry, rest: seq<Entry>, name: string, j: nat)
    requires Plain(e.name) && PlainNames(rest) && Plain(name) && e.name != name
    requires rest != [] ==> Filename(rest[0].inum) != name
    requires j < |EncodeOne(e)|
    ensures !MatchAt(EncodeOne(e) + Encode(rest), Quoted(name), j)
  {
    FindStep(e, Encode(rest), name, j);
    FirstToken(rest, name);
  }

  lemma SkipThenShift(a: string, s: string, t: string)
    requires forall j :: 0 <= j < |a| ==> !MatchAt(a + s, t, j)
    ensures FindFrom(a + s, t, 0) == Moved(FindFrom(s, t, 0), |a|)
  {
    FindSkip(a + s, t, 0, |a|);
    FindShift(a, s, t, 0);
  }

  lemma FindPassesFirst(es: seq<Entry>, name: string)
    requires es != [] && PlainNames(es) && Plain(name) && es[0].name != name && !SecondInumIs(es, name)
    ensures FindFrom(Encode(es), Quoted(name), 0) == Moved(FindFrom(Encode(es[1..]), Quoted(name), 0), |EncodeOne(es[0])|)
  {
    var a, s, t := EncodeOne(es[0]), Encode(es[1..]), Quoted(name);
    forall j | 0 <= j < |a| ensures !MatchAt(a + s, t, j) {
      NoMatchInFirst(es[0], es[1..], name, j);
    }
    SkipThenShift(a, s, t);
  }

  /** The search of create, lookup and unlink, on any directory whatever. */
  lemma {:induction false} FindEncoded(es: seq<Entry>, name: string)
    requires PlainNames(es) && Plain(name)
    ensures FindFrom(Encode(es), Quoted(name), 0) == HitPosition(es, FirstHit(es, name))
  {
    if es == [] {
    } else if es[0].name == name {
      FindAtName(es, name);
    } else if SecondInumIs(es, name) {
      FindAtInum(es, name);
    } else {
      FindPassesFirst(es, name);
      FindEncoded(es[1..], name);
      ShiftedPosition(es, FirstHit(es[1..], name));
    }
  }

  // ---- finding the entry's text around the hit ----

  lemma SplitEncode(es: seq<Entry>, k: nat)
    requires k <= |es|
    ensures Encode(es) == Encode(es[..k]) + Encode(es[k..])
  {
    var xs, ys := es[..k], es[k..];
    assert xs + ys == es;
    EncodeConcat(xs, ys);
  }

  lemma {:induction false} EndsWithSlash(es: seq<Entry>)
    requires es != []
    ensures |Encode(es)| > 0 && Encode(es)[|Encode(es)| - 1] == '/'
  {
    if |es| > 1 {
      EndsWithSlash(es[1..]);
    }
  }

  lemma EncodeSingle(e: Entry)
    ensures Encode([e]) == EncodeOne(e)
  {
    assert [e][1..] == [];
    assert EncodeOne(e) + "" == EncodeOne(e);
  }

  lemma PrefixGrows(es: seq<Entry>, k: nat)
    requires k < |es|
    ensures |Encode(es[..k + 1])| == NameSlash(es, k) + |es[k].name| + 2
  {
    assert es[..k + 1] == es[..k] + [es[k]];
    EncodeConcat(es[..k], [es[k]]);
    EncodeSingle(es[k]);
  }

  lemma EncodeStep(es: seq<Entry>, k: nat)
    requires k < |es|
    ensures Encode(es[k..]) == EncodeOne(es[k]) + Encode(es[k + 1..])
  {
    assert es[k..][1..] == es[k + 1..];
  }

  lemma TokensInMiddle(a: string, e: Entry, r: string)
    requires Plain(e.name)
    ensures var s, p := a + (EncodeOne(e) + r), |a| + |Filename(e.inum)|;
            TokenAt(s, |a|, Filename(e.inum)) && TokenAt(s, p + 1, e.name) && s[p] == '/'
  {
    var s := EncodeOne(e) + r;
    EntryText(e, r);
    TokenShift(a, s, 0, Filename(e.inum));
    TokenShift(a, s, |Filename(e.inum)| + 1, e.name);
  }

  /** The two tokens of entry `k` and the slash before each. */
  lemma EntryTokens(es: seq<Entry>, k: nat)
    requires PlainNames(es) && k < |es|
    ensures var s := Encode(es);
            && TokenAt(s, |Encode(es[..k])|, Filename(es[k].inum))
            && TokenAt(s, NameSlash(es, k) + 1, es[k].name) && s[NameSlash(es, k)] == '/'
            && (k > 0 ==> |Encode(es[..k])| > 0 && s[|Encode(es[..k])| - 1] == '/')
  {
    SplitEncode(es, k);
    EncodeStep(es, k);
    TokensInMiddle(Encode(es[..k]), es[k], Encode(es[k + 1..]));
    if k > 0 {
      EndsWithSlash(es[..k]);
    }
  }

  // ---- lookup, create, unlink as functions of the directory string ----

  datatype Located = Absent | Located(left: nat, found: nat) | AssertFails

  /** The part common to lookup and unlink: the quoted name, and the start of the token before. */
  function Locate(b: string, name: string): (r: Located)
    ensures r.Located? ==> r.left < r.found && r.found + |name| + 2 <= |b|
  {
    match FindFrom(b, Quoted(name), 0)
    case None => Absent
    case Some(found) =>
      if found == 0 then AssertFails
      else
        var slash := RFind(b, '/', found - 1);
        var left := if slash.None? then 0 else slash.value + 1;
        if found > left then Located(left, found) else AssertFails
  }

  lemma LocateToken(b: string, name: string, i: nat, t: string)
    requires TokenAt(b, i, t) && (i > 0 ==> b[i - 1] == '/')
    requires FindFrom(b, Quoted(name), 0) == Some(i + |t|)
    ensures Locate(b, name) == Located(i, i + |t|) && b[i..i + |t|] == t
  {
    assert forall j :: i <= j < i + |t| ==> b[j] == t[j - i] by {
      assert b[i..i + |t|] == t;
    }
    var slash := RFind(b, '/', i + |t| - 1);
    if i > 0 {
      assert b[i - 1] == '/';
    }
  }

  lemma LocateNameAt(es: seq<Entry>, name: string, k: nat)
    requires PlainNames(es) && k < |es| && FindFrom(Encode(es), Quoted(name), 0) == Some(NameSlash(es, k))
    ensures Locate(Encode(es), name) == Located(|Encode(es[..k])|, NameSlash(es, k))
    ensures Encode(es)[|Encode(es[..k])|..NameSlash(es, k)] == Filename(es[k].inum)
  {
    var s, left, t := Encode(es), |Encode(es[..k])|, Filename(es[k].inum);
    EntryTokens(es, k);
    LocateToken(s, name, left, t);
  }

  /** The token before the inum of entry `k` is the name of the entry before. */
  lemma BeforeInum(es: seq<Entry>, k: nat)
    requires PlainNames(es) && 0 < k < |es|
    ensures |Encode(es[..k])| == NameSlash(es, k - 1) + |es[k - 1].name| + 2
    ensures TokenAt(Encode(es), NameSlash(es, k - 1) + 1, es[k - 1].name) && Encode(es)[NameSlash(es, k - 1)] == '/'
  {
    PrefixGrows(es, k - 1);
    EntryTokens(es, k - 1);
  }

  lemma LocateNextToken(s: string, name: string, slash: nat, t: string, len: nat)
    requires slash < |s| && s[slash] == '/' && TokenAt(s, slash + 1, t) && len == slash + |t| + 2
    requires FindFrom(s, Quoted(name), 0) == Some(len - 1)
    ensures Locate(s, name) == Located(slash + 1, len - 1) && s[slash + 1..len - 1] == t
  {
    LocateToken(s, name, slash + 1, t);
  }

  /** The same where the entry's inum is hit; `s` is the text and `n` the length of what precedes. */
  lemma LocateInumAt(es: seq<Entry>, name: string, k: nat, s: string, n: nat)
    requires PlainNames(es) && 0 < k < |es| && s == Encode(es) && n == |Encode(es[..k])|
    requires n > 0 && FindFrom(s, Quoted(name), 0) == Some(n - 1)
    ensures n == NameSlash(es, k - 1) + |es[k - 1].name| + 2
    ensures Locate(s, name) == Located(NameSlash(es, k - 1) + 1, n - 1)
    ensures s[NameSlash(es, k - 1) + 1..n - 1] == es[k - 1].name
  {
    BeforeInum(es, k);
    LocateNextToken(s, name, NameSlash(es, k - 1), es[k - 1].name, n);
  }

  lemma LocateName(es: seq<Entry>, name: string, k: nat)
    requires PlainNames(es) && Plain(name) && FirstHit(es, name) == NameHit(k)
    ensures Locate(Encode(es), name) == Located(|Encode(es[..k])|, NameSlash(es, k))
    ensures Encode(es)[|Encode(es[..k])|..NameSlash(es, k)] == Filename(es[k].inum)
  {
    FindEncoded(es, name);
    LocateNameAt(es, name, k);
  }

  /** By confusion the token found is the name of the entry before. */
  lemma LocateInum(es: seq<Entry>, name: string, k: nat)
    requires PlainNames(es) && Plain(name) && FirstHit(es, name) == InumHit(k)
    ensures |Encode(es[..k])| == NameSlash(es, k - 1) + |es[k - 1].name| + 2
    ensures Locate(Encode(es), name) == Located(NameSlash(es, k - 1) + 1, |Encode(es[..k])| - 1)
    ensures Encode(es)[NameSlash(es, k - 1) + 1..|Encode(es[..k])| - 1] == es[k - 1].name
  {
    FindEncoded(es, name);
    EndsWithSlash(es[..k]);
    LocateInumAt(es, name, k, Encode(es), |Encode(es[..k])|);
  }

  lemma {:induction false} FoundMatches(s: string, t: string, from: nat)
    ensures var r := FindFrom(s, t, from); r.Some? ==> MatchAt(s, t, r.value)
    decreases |s| - from
  {
    if from + |t| <= |s| && !MatchAt(s, t, from) && from < |s| {
      FoundMatches(s, t, from + 1);
    }
  }

  lemma {:induction false} FoundIfThere(s: string, t: string, from: nat, i: nat)
    requires from <= i && MatchAt(s, t, i)
    ensures FindFrom(s, t, from).Some?
    decreases i - from
  {
    if !MatchAt(s, t, from) { FoundIfThere(s, t, from + 1, i); }
  }

  /** Of any directory string: a name is taken for present exactly if it occurs between slashes
      anywhere; then it cannot be created, and else it can. */
  lemma PresentIffQuoted(b: string, name: string, num: nat)
    ensures CreateIn(b, name, num).None? <==> exists i :: MatchAt(b, Quoted(name), i)
    ensures Locate(b, name).Absent? <==> CreateIn(b, name, num).Some?
  {
    if i :| MatchAt(b, Quoted(name), i) { FoundIfThere(b, Quoted(name), 0, i); }
    FoundMatches(b, Quoted(name), 0);
  }

  /** The inum that lookup reports. */
  function LookupIn(b: string, name: string): Option<nat> {
    match Locate(b, name)
    case Located(left, found) => Some(N2i(b[left..found]))
    case _ => None
  }

  function CreateIn(b: string, name: string, num: nat): Option<string> {
    if FindFrom(b, Quoted(name), 0).Some? then None else Some(b + Filename(num) + Quoted(name))
  }

  function UnlinkIn(b: string, name: string): Option<string> {
    match Locate(b, name)
    case Located(left, found) => Some(b[..left] + b[found + |name| + 2..])
    case _ => None
  }

  function HitInum(es: seq<Entry>, h: Hit): Option<nat>
    requires h.NameHit? ==> h.k < |es|
    requires h.InumHit? ==> 0 < h.k < |es|
  {
    match h
    case NoHit => None
    case NameHit(k) => Some(es[k].inum)
    case InumHit(k) => Some(N2i(es[k - 1].name))
  }

  lemma LookupLocated(b: string, name: string, left: nat, found: nat, t: string)
    requires Locate(b, name) == Located(left, found) && b[left..found] == t
    ensures LookupIn(b, name) == Some(N2i(t))
  {
  }

  /** lookup, completely: the inum of the entry of that name, or by confusion whatever number
      the name of the entry before the inum starts with. */
  lemma LookupEncoded(es: seq<Entry>, name: string)
    requires PlainNames(es) && Plain(name)
    ensures LookupIn(Encode(es), name) == HitInum(es, FirstHit(es, name))
  {
    match FirstHit(es, name)
    case NoHit =>
      FindEncoded(es, name);
    case NameHit(k) =>
      LocateName(es, name, k);
      LookupLocated(Encode(es), name, |Encode(es[..k])|, NameSlash(es, k), Filename(es[k].inum));
      N2iFilename(es[k].inum);
    case InumHit(k) =>
      LocateInum(es, name, k);
      LookupLocated(Encode(es), name, NameSlash(es, k - 1) + 1, |Encode(es[..k])| - 1, es[k - 1].name);
  }

  /** create, completely: refused if anything is hit, else one entry is appended. */
  lemma CreateEncoded(es: seq<Entry>, name: string, num: nat)
    requires PlainNames(es) && Plain(name)
    ensures CreateIn(Encode(es), name, num) ==
              if FirstHit(es, name).NoHit? then Some(Encode(es + [Entry(num, name)])) else None
  {
    FindEncoded(es, name);
    match FirstHit(es, name)
    case NoHit =>
      EncodeConcat(es, [Entry(num, name)]);
      EncodeSingle(Entry(num, name));
      assert Encode(es) + Filename(num) + Quoted(name) == Encode(es) + EncodeOne(Entry(num, name));
    case NameHit(_) =>
    case InumHit(k) =>
      EndsWithSlash(es[..k]);
  }

  function Without(es: seq<Entry>, k: nat): seq<Entry>
    requires k < |es|
  {
    es[..k] + es[k + 1..]
  }

  lemma UnlinkLocated(b: string, name: string, left: nat, found: nat)
    requires Locate(b, name) == Located(left, found)
    ensures UnlinkIn(b, name) == Some(b[..left] + b[found + |name| + 2..])
  {
  }

  // ---- the asserts of lookup and unlink ----

  /** No slash at the start and no two in a row. */
  predicate Tidy(s: string) {
    (s != "" ==> s[0] != '/') && forall i :: 0 < i < |s| ==> s[i - 1] != '/' || s[i] != '/'
  }

  lemma {:induction false} EncodedIsTidy(es: seq<Entry>)
    requires PlainNames(es)
    ensures Tidy(Encode(es))
  {
    if es != [] {
      var a, s := EncodeOne(es[0]), Encode(es[1..]);
      EncodedIsTidy(es[1..]);
      EntryText(es[0], s);
      forall i | 0 < i < |a + s| ensures (a + s)[i - 1] != '/' || (a + s)[i] != '/' {
        assert i > |a| ==> s[i - |a| - 1] != '/' || s[i - |a|] != '/';
      }
    }
  }

  /** On an encoded directory the asserts of lookup and unlink hold, for every name. */
  lemma NeverAborts(es: seq<Entry>, name: string)
    requires PlainNames(es)
    ensures !Locate(Encode(es), name).AssertFails?
  {
    var s, q := Encode(es), Quoted(name);
    EncodedIsTidy(es);
    FoundMatches(s, q, 0);
    var r := FindFrom(s, q, 0);
    if r.Some? {
      assert s[r.value] == s[r.value..r.value + |q|][0] == '/';
    }
  }

  /** unlink of an entry that is found by its name. */
  lemma UnlinkEncoded(es: seq<Entry>, name: string, k: nat)
    requires PlainNames(es) && Plain(name) && FirstHit(es, name) == NameHit(k)
    ensures UnlinkIn(Encode(es), name) == Some(Encode(Without(es, k)))
  {
    HitMeaning(es, name);
    LocateName(es, name, k);
    PrefixGrows(es, k);
    SplitEncode(es, k);
    SplitEncode(es, k + 1);
    EncodeConcat(es[..k], es[k + 1..]);
    UnlinkLocated(Encode(es), name, |Encode(es[..k])|, NameSlash(es, k));
  }
}
