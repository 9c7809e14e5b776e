/** Vocabulary shared by all models. */
module Common {

  datatype Option<+T> = None | Some(value: T)

  /** A lock client; the source uses its "host:port" string, ordered like any std::string. */
  type ClientId = nat

  /** lock_protocol::lockid_t and extent_protocol::extentid_t: an extent's lock has the extent's id. */
  type LockId = nat

  const TWO31 := 0x8000_0000
  const TWO32 := 0x1_0000_0000

  function Pow2(n: nat): nat {
    if n == 0 then 1 else 2 * Pow2(n - 1)
  }

  lemma WordSizes()
    ensures TWO31 == Pow2(31) && TWO32 == Pow2(32)
  {
    assert Pow2(8) == 0x100;
    assert Pow2(16) == 0x1_0000;
    assert Pow2(24) == 0x100_0000;
    assert Pow2(31) == 0x8000_0000;
  }

  /** lock_protocol::OK and lock_protocol::RETRY. */
  datatype Status = OK | RETRY

  function Lookup<V>(m: map<LockId, V>, lid: LockId): (r: Option<V>)
    ensures r.Some? <==> lid in m
    ensures r.Some? ==> r.value == m[lid]
  {
    if lid in m then Some(m[lid]) else None
  }

  lemma ConcatAssoc<T>(a: seq<T>, b: seq<T>, c: seq<T>)
    ensures (a + b) + c == a + (b + c)
  {
  }

  lemma SubSlice<T>(s: seq<T>, a: nat, b: nat, c: nat, d: nat)
    requires a <= b <= |s| && c <= d <= b - a
    ensures s[a..b][c..d] == s[a + c..a + d]
  {
    var x, y := s[a..b][c..d], s[a + c..a + d];
    forall k | 0 <= k < |x| ensures x[k] == y[k] {
      assert x[k] == s[a..b][c + k] == s[a + c + k];
    }
  }

  /** `was` with `m` written over it at `lo`. */
  function Overlaid<T>(was: seq<T>, m: seq<T>, lo: nat): seq<T>
    requires lo + |m| <= |was|
  {
    was[..lo] + m + was[lo + |m|..]
  }

  lemma OverlaidAt<T>(was: seq<T>, m: seq<T>, lo: nat, i: nat)
    requires lo + |m| <= |was| && i < |was|
    ensures |Overlaid(was, m, lo)| == |was|
    ensures Overlaid(was, m, lo)[i] == if lo <= i < lo + |m| then m[i - lo] else was[i]
  {
  }

  lemma OverlaidSlices<T>(was: seq<T>, m: seq<T>, lo: nat, h: nat)
    requires lo + |m| <= h <= |was| && 0 < |was|
    ensures var now := Overlaid(was, m, lo);
            && |now| == |was| && now[..h][..lo] == was[..h][..lo] && now[..h][lo..lo + |m|] == m && now[h..] == was[h..]
  {
    var now := Overlaid(was, m, lo);
    OverlaidAt(was, m, lo, 0);
    forall i | 0 <= i < |was| ensures now[i] == if lo <= i < lo + |m| then m[i - lo] else was[i] {
      OverlaidAt(was, m, lo, i);
    }
  }
}
