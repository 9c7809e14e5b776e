/** File contents (yfs_client.cc): `write`, `setattr` and `read` rebuild a string; together
    they implement a sparse byte array whose unwritten bytes are zero. */
module FileContent {
  import opened Common

  const ZERO: char := '\0'

  /** A block of `n` zero bytes, as new char[n] and bzero make it. */
  function Zeros(n: nat): (z: string)
    ensures |z| == n && forall i :: 0 <= i < n ==> z[i] == ZERO
  {
    seq(n, _ => ZERO)
  }

  /** Byte `i` of a file with content `s`. */
  function ByteAt(s: string, i: nat): char {
    if i < |s| then s[i] else ZERO
  }

  // ---- the string operations, as the code performs them ----

  /** The string that `write` stores; the offset is cut to 32 bits. */
  method Write(ori: string, data: string, off: nat) returns (after: string)
    ensures after == Written(ori, data, off % TWO32)
  {
    var uoff := off % TWO32;
    if uoff <= |ori| || uoff == 0 {
      after := ori[..uoff] + data;
      if uoff + |data| < |ori| {
        after := after + ori[uoff + |data|..];
      }
    } else {
      var gap := uoff - |ori|;
      after := ori + Zeros(gap);
      after := after + data;
    }
    assert |after| == |Written(ori, data, uoff)|;
    forall i | 0 <= i < |after| ensures after[i] == Written(ori, data, uoff)[i] {
    }
  }

  /** The value of an `int` that a larger number was assigned to. */
  function Signed32(x: nat): (r: int)
    ensures -TWO31 <= r < TWO31 && (x - r) % TWO32 == 0
  {
    if x % TWO32 < TWO31 then x % TWO32 else x % TWO32 - TWO32
  }

  /** How an operation on the bytes can end: with bytes, with a C++ exception, or by zeroing
      more bytes than it has allocated. */
  datatype Outcome = Bytes(s: string) | Throws | Undefined

  /** What `setattr` stores for a new size. The old size is cut to 32 bits, the number of bytes
      to add to 32 bits and a sign. */
  method SetSize(buf: string, size: int) returns (r: Outcome)
    ensures r == Resize(buf, size)
  {
    var sz := |buf| % TWO32;
    if sz < size {
      var appendSz := Signed32(size - sz);
      if appendSz < 0 {
        return Throws;
      }
      r := Bytes(buf + Zeros(appendSz));
    } else if size < 0 {
      r := Bytes(buf);          // substr with a huge length
    } else {
      r := Bytes(buf[..size]);
    }
  }

  /** What `read` returns. */
  method Read(buf: string, size: nat, off: nat) returns (r: Outcome)
    ensures r == Bytes(Slice(buf, off, size)) <==> off <= |buf| && off + size < |buf| + TWO31
    ensures r.Bytes? ==> r.s == Slice(buf, off, size)
    ensures r.Undefined? <==> off + size >= |buf| + TWO32 && (off + size - |buf|) % TWO32 < TWO31
  {
    if off + size > |buf| {
      var reside := Signed32(off + size - |buf|);
      if reside < 0 {
        return Throws;
      }
      if reside < off + size - |buf| {
        return Undefined;       // bzero is given the uncut count
      }
      if off > |buf| {
        return Throws;          // substr
      }
      r := Bytes(buf[off..] + Zeros(reside));
    } else {
      r := Bytes(buf[off..off + size]);
    }
  }

  // ---- what they mean, byte by byte ----

  function Written(s: string, data: string, off: nat): (r: string)
    ensures |r| == if off + |data| > |s| then off + |data| else |s|
    ensures forall i :: 0 <= i < |r| ==> r[i] == if off <= i < off + |data| then data[i - off] else ByteAt(s, i)
  {
    seq(if off + |data| > |s| then off + |data| else |s|,
        i requires 0 <= i => if off <= i < off + |data| then data[i - off] else ByteAt(s, i))
  }

  function Resized(s: string, size: nat): (r: string)
    ensures |r| == size && forall i :: 0 <= i < size ==> r[i] == ByteAt(s, i)
  {
    seq(size, i requires 0 <= i => ByteAt(s, i))
  }

  function Slice(s: string, off: nat, size: nat): (r: string)
    ensures |r| == size && forall i :: 0 <= i < size ==> r[i] == ByteAt(s, off + i)
  {
    seq(size, i requires 0 <= i => ByteAt(s, off + i))
  }

  /** The outcome of `setattr` in terms of the file. */
  function Resize(s: string, size: int): Outcome {
    if size < 0 then Bytes(s)
    else if size <= |s| % TWO32 then Bytes(Resized(s, size))
    else if Signed32(size - |s| % TWO32) < 0 then Throws
    else Bytes(Resized(s, |s| + Signed32(size - |s| % TWO32)))
  }

  /** Sizes that `setattr` gets right: not more than the 32 bits of the length it looks at, or
      less than 2^31 bytes more than the length. */
  predicate SizeFits(len: nat, size: nat) {
    size <= len % TWO32 || len <= size < len + TWO31
  }

  /** `setattr` resizes the file exactly if the size fits. */
  lemma ResizeExact(s: string, size: nat)
    ensures Resize(s, size) == Bytes(Resized(s, size)) <==> SizeFits(|s|, size)
    ensures |s| < TWO32 ==> (SizeFits(|s|, size) <==> size < |s| + TWO31)
  {
    var sz := |s| % TWO32;
    var q := |s| / TWO32;
    assert |s| == q * TWO32 + sz;
    if size > sz && size >= |s| {
      assert (size - sz) % TWO32 == (size - |s|) % TWO32 by {
        CutAgrees(size - |s|, q);
      }
    }
  }

  lemma CutAgrees(d: nat, q: nat)
    ensures (d + q * TWO32) % TWO32 == d % TWO32
  {
    if q > 0 {
      CutAgrees(d, q - 1);
      assert d + q * TWO32 == d + (q - 1) * TWO32 + TWO32;
    }
  }

  /** Sizes that do not fit: one throws, one leaves a file of 5 bytes. */
  lemma ResizeMisses()
    ensures Resize("", TWO31) == Throws
    ensures Resize("", TWO32 + 5) == Bytes(Resized("", 5))
  {
  }

  /** What was written is read back, and nothing else has changed. */
  lemma ReadAfterWrite(s: string, data: string, off: nat, at: nat, size: nat)
    ensures Slice(Written(s, data, off), off, |data|) == data
    ensures at + size <= off || off + |data| <= at ==> Slice(Written(s, data, off), at, size) == Slice(s, at, size)
  {
    var w := Written(s, data, off);
    assert forall i :: 0 <= i < |data| ==> ByteAt(w, off + i) == data[i];
    if at + size <= off || off + |data| <= at {
      forall i | 0 <= i < size ensures Slice(w, at, size)[i] == Slice(s, at, size)[i] {
      }
    }
  }

  /** A resize keeps what it does not cut off, and what it adds reads as zeros even where bytes
      were cut off before. */
  lemma ReadAfterResize(s: string, m: nat, n: nat, at: nat, size: nat)
    requires at + size <= n
    ensures Slice(Resized(s, n), at, size) == Slice(s, at, size)
    ensures m <= at ==> Slice(Resized(Resized(s, m), n), at, size) == Zeros(size)
  {
  }

  /** Bytes that were never written are zero bytes: in a read past the end, and in the gap that a
      write past the end leaves. */
  lemma HolesAreZero(s: string, data: string, off: nat, i: nat)
    ensures |s| <= i ==> Slice(s, i, 1) == [0 as char]
    ensures |s| <= i < off ==> i < |Written(s, data, off)| && Written(s, data, off)[i] == 0 as char
  {
  }

  /** Writes to disjoint ranges commute. */
  lemma DisjointWritesCommute(s: string, d: string, i: nat, e: string, j: nat)
    requires i + |d| <= j || j + |e| <= i
    ensures Written(Written(s, d, i), e, j) == Written(Written(s, e, j), d, i)
  {
    var a, b := Written(Written(s, d, i), e, j), Written(Written(s, e, j), d, i);
    assert |a| == |b|;
    forall k | 0 <= k < |a| ensures a[k] == b[k] {
    }
  }

  // ---- a sparse array as the reference ----

  /** Only bytes that were written are stored; all others up to `len` are zero. */
  datatype Sparse = Sparse(len: nat, bytes: map<nat, char>)

  function SparseAt(f: Sparse, i: nat): char {
    if i in f.bytes then f.bytes[i] else ZERO
  }

  predicate SparseOk(f: Sparse) {
    forall i :: i in f.bytes ==> i < f.len
  }

  ghost predicate Represents(s: string, f: Sparse) {
    SparseOk(f) && |s| == f.len && forall i :: 0 <= i < f.len ==> s[i] == SparseAt(f, i)
  }

  datatype Op = WriteOp(data: string, off: nat) | ResizeOp(size: nat)

  /** None stands for an operation that throws. */
  function StringStep(s: string, op: Op): Option<string> {
    match op
    case WriteOp(data, off) => Some(Written(s, data, off % TWO32))
    case ResizeOp(size) => if Resize(s, size).Bytes? then Some(Resize(s, size).s) else None
  }

  function DataAt(data: string, off: nat, i: nat): char
    requires off <= i < off + |data|
  {
    data[i - off]
  }

  function SparseStep(f: Sparse, op: Op): Sparse {
    match op
    case WriteOp(data, off) =>
      Sparse(if off + |data| > f.len then off + |data| else f.len,
             f.bytes + map i | off <= i < off + |data| :: DataAt(data, off, i))
    case ResizeOp(size) =>
      Sparse(size, map i | i in f.bytes && i < size :: f.bytes[i])
  }

  /** The bytes and the length are those of the array before and after every step. */
  ghost predicate Follows(s: string, f: Sparse, ops: seq<Op>)
    decreases |ops|
  {
    && Represents(s, f)
    && (ops != [] ==>
          var r := StringStep(s, ops[0]);
          r.Some? && Follows(r.value, SparseStep(f, ops[0]), ops[1..]))
  }

  predicate OpFits(len: nat, op: Op) {
    match op
    case WriteOp(_, off) => off < TWO32
    case ResizeOp(size) => SizeFits(len, size)
  }

  /** Every step fits the length it meets. */
  predicate RunFits(f: Sparse, ops: seq<Op>)
    decreases |ops|
  {
    ops != [] ==> OpFits(f.len, ops[0]) && RunFits(SparseStep(f, ops[0]), ops[1..])
  }

  /** The step is not a write at a cut offset that lies within the file, as only a file of more
      than 2^32 bytes allows; such a write may leave the right bytes by accident. */
  predicate Telling(len: nat, op: Op) {
    op.WriteOp? && op.off >= TWO32 ==> op.off + |op.data| > len
  }

  predicate RunTelling(f: Sparse, ops: seq<Op>)
    decreases |ops|
  {
    ops != [] ==> Telling(f.len, ops[0]) && RunTelling(SparseStep(f, ops[0]), ops[1..])
  }

  ghost predicate StepFollows(s: string, f: Sparse, op: Op) {
    StringStep(s, op).Some? && Represents(StringStep(s, op).value, SparseStep(f, op))
  }

  lemma WriteRefines(s: string, f: Sparse, data: string, off: nat)
    requires Represents(s, f)
    ensures off < TWO32 ==> StepFollows(s, f, WriteOp(data, off))
    ensures off >= TWO32 && off + |data| > f.len ==> !StepFollows(s, f, WriteOp(data, off))
  {
    var s', f' := Written(s, data, off % TWO32), SparseStep(f, WriteOp(data, off));
    if off < TWO32 {
      assert off % TWO32 == off;
      forall i | 0 <= i < f'.len ensures s'[i] == SparseAt(f', i) {
      }
    } else {
      assert off % TWO32 < TWO32 <= off;
    }
  }

  lemma ResizeRefines(s: string, f: Sparse, size: nat)
    requires Represents(s, f)
    ensures StepFollows(s, f, ResizeOp(size)) <==> SizeFits(f.len, size)
  {
    ResizeExact(s, size);
    var f' := SparseStep(f, ResizeOp(size));
    assert Represents(Resized(s, size), f');
    if StepFollows(s, f, ResizeOp(size)) {
      assert StringStep(s, ResizeOp(size)).value == Resized(s, size);
    }
  }

  /** A step agrees with the array if its offset or size fits, and only then unless it is a write
      within a file of more than 2^32 bytes. */
  lemma StepRefines(s: string, f: Sparse, op: Op)
    requires Represents(s, f)
    ensures OpFits(f.len, op) ==> StepFollows(s, f, op)
    ensures Telling(f.len, op) && !OpFits(f.len, op) ==> !StepFollows(s, f, op)
  {
    match op
    case WriteOp(data, off) => WriteRefines(s, f, data, off);
    case ResizeOp(size) => ResizeRefines(s, f, size);
  }

  /** A sequence of writes and resizes leaves the bytes and the length of the array at every step
      if every step fits the length it meets, and only then but for writes of that kind. */
  lemma {:induction false} ContentRefinesArray(s: string, f: Sparse, ops: seq<Op>)
    requires Represents(s, f)
    ensures RunFits(f, ops) ==> Follows(s, f, ops)
    ensures RunTelling(f, ops) ==> (Follows(s, f, ops) <==> RunFits(f, ops))
    decreases |ops|
  {
    if ops != [] {
      StepRefines(s, f, ops[0]);
      if StepFollows(s, f, ops[0]) {
        ContentRefinesArray(StringStep(s, ops[0]).value, SparseStep(f, ops[0]), ops[1..]);
      }
    }
  }
}
