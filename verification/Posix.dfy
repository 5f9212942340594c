/** Files as the gateway sees them through pwrite, pread and ftruncate. */
module Posix {

  type byte = x: int | 0 <= x < 256

  const U64: nat := 0x1_0000_0000_0000_0000

  datatype Option<+T> = None | Some(value: T)

  function Min(a: nat, b: nat): nat {
    if a < b then a else b
  }

  function Max(a: nat, b: nat): nat {
    if a < b then b else a
  }

  predicate Distinct<T(==)>(s: seq<T>) {
    forall i, j :: 0 <= i < j < |s| ==> s[i] != s[j]
  }

  /** `u64::saturating_add`. */
  function SatAdd(a: nat, b: nat): nat {
    Min(a + b, U64 - 1)
  }

  /** A pwrite: the hole between the old end and `off` reads as zeros; an empty write changes nothing. */
  function WriteAt(f: seq<byte>, off: nat, data: seq<byte>): (r: seq<byte>)
    ensures |r| == if data == [] then |f| else Max(|f|, off + |data|)
    ensures forall i :: off <= i < off + |data| ==> r[i] == data[i - off]
    ensures forall i :: 0 <= i < |r| && (i < off || off + |data| <= i) ==> r[i] == if i < |f| then f[i] else 0
  {
    if data == [] then f
    else seq(Max(|f|, off + |data|), i requires 0 <= i =>
               if off <= i < off + |data| then data[i - off] else if i < |f| then f[i] else 0)
  }

  lemma WriteAtEnd(f: seq<byte>, data: seq<byte>)
    ensures WriteAt(f, |f|, data) == f + data
  {
  }

  /** ftruncate: cuts, or extends with zeros. */
  function Truncate(f: seq<byte>, size: nat): (r: seq<byte>)
    ensures |r| == size
    ensures forall i :: 0 <= i < size ==> r[i] == if i < |f| then f[i] else 0
  {
    seq(size, i requires 0 <= i => if i < |f| then f[i] else 0)
  }

  /** True when bytes [off, off + |data|) of `f` are `data`. */
  predicate HoldsAt(f: seq<byte>, off: nat, data: seq<byte>) {
    off + |data| <= |f| && f[off..off + |data|] == data
  }

  /** One ring write: a buffer slice bound for a file offset. */
  datatype WriteOp = WriteOp(off: nat, data: seq<byte>)

  function ApplyAll(f: seq<byte>, ops: seq<WriteOp>): seq<byte>
    decreases ops
  {
    if ops == [] then f else ApplyAll(WriteAt(f, ops[0].off, ops[0].data), ops[1..])
  }

  /** `op` carries its own slice of the image `img` placed at `base`. */
  predicate SliceOf(op: WriteOp, base: nat, img: seq<byte>) {
    && base <= op.off
    && op.off + |op.data| <= base + |img|
    && op.data == img[op.off - base..op.off - base + |op.data|]
  }

  predicate Covers(op: WriteOp, p: nat) {
    op.off <= p < op.off + |op.data|
  }

  ghost predicate Covered(ops: seq<WriteOp>, p: nat) {
    exists k :: 0 <= k < |ops| && Covers(ops[k], p)
  }

  /** Outside the image nothing changes. */
  lemma {:induction false} ApplySlicesFrame(f: seq<byte>, ops: seq<WriteOp>, base: nat, img: seq<byte>, p: nat)
    requires forall k :: 0 <= k < |ops| ==> SliceOf(ops[k], base, img)
    ensures img == [] ==> ApplyAll(f, ops) == f
    ensures |f| <= |ApplyAll(f, ops)| <= Max(|f|, base + |img|)
    ensures p < |ApplyAll(f, ops)| && (p < base || base + |img| <= p) ==> ApplyAll(f, ops)[p] == if p < |f| then f[p] else 0
    decreases ops
  {
    if ops != [] {
      var op := ops[0];
      ApplySlicesFrame(WriteAt(f, op.off, op.data), ops[1..], base, img, p);
    }
  }

  /** A byte that some operation carries, or that was right already, is right in the end. */
  lemma {:induction false} ApplySlicesByte(f: seq<byte>, ops: seq<WriteOp>, base: nat, img: seq<byte>, p: nat)
    requires forall k :: 0 <= k < |ops| ==> SliceOf(ops[k], base, img)
    requires base <= p < base + |img|
    requires Covered(ops, p) || (p < |f| && f[p] == img[p - base])
    ensures p < |ApplyAll(f, ops)| && ApplyAll(f, ops)[p] == img[p - base]
    decreases ops
  {
    if ops != [] {
      var op, rest := ops[0], ops[1..];
      var g := WriteAt(f, op.off, op.data);
      if Covers(op, p) {
        assert g[p] == op.data[p - op.off];
      } else if !(p < |f| && f[p] == img[p - base]) {
        var k :| 0 <= k < |ops| && Covers(ops[k], p);
        assert Covers(rest[k - 1], p);
      }
      ApplySlicesByte(g, rest, base, img, p);
    }
  }

  /**
   * Ring writes complete in any order.  When every operation carries its slice of
   * one image and together they cover it, the file ends as if the image had been
   * written in one piece, whatever the order of `ops`.
   */
  lemma AnyOrderIsOneWrite(f: seq<byte>, ops: seq<WriteOp>, base: nat, img: seq<byte>)
    requires forall k :: 0 <= k < |ops| ==> SliceOf(ops[k], base, img)
    requires forall p :: base <= p < base + |img| ==> Covered(ops, p)
    ensures ApplyAll(f, ops) == WriteAt(f, base, img)
  {
    var r, w := ApplyAll(f, ops), WriteAt(f, base, img);
    ApplySlicesFrame(f, ops, base, img, 0);
    if img != [] {
      assert Covered(ops, base + |img| - 1);
      ApplySlicesByte(f, ops, base, img, base + |img| - 1);
      forall p | 0 <= p < |r|
        ensures r[p] == w[p]
      {
        if base <= p < base + |img| {
          assert Covered(ops, p);
          ApplySlicesByte(f, ops, base, img, p);
        } else {
          ApplySlicesFrame(f, ops, base, img, p);
        }
      }
    }
  }
}
