/** Copying a byte range from one file to another through the ring, block by block. */
module RangeCopy {
  import opened Posix
  import opened Streaming
  import opened Upload

  /** A write of the copy: source bytes at their place in the target range. */
  predicate CopyOp(op: WriteOp, src: seq<byte>, srcOff: nat, dstOff: nat, len: nat) {
    && dstOff <= op.off && op.off + |op.data| <= dstOff + len
    && var from := srcOff + (op.off - dstOff); from + |op.data| <= |src| && op.data == src[from..from + |op.data|]
  }

  /** How much of a range has been submitted when the first read comes up short, `avail` bytes being there. */
  function Sent(avail: nat, len: nat, chunk: nat, pos: nat): (k: nat)
    requires pos <= len && pos <= avail && 0 < chunk
    ensures pos <= k <= len && k <= avail && (k == len <==> len <= avail)
    decreases len - pos
  {
    if pos == len || pos + Min(chunk, len - pos) > avail then pos else Sent(avail, len, chunk, pos + Min(chunk, len - pos))
  }

  function Available(src: seq<byte>, off: nat): nat {
    if off <= |src| then |src| - off else 0
  }

  /** The submitted writes still in flight, by their numbers, and the others. */
  function Pick(ops: seq<WriteOp>, waiting: set<nat>, chosen: bool): seq<WriteOp> {
    if ops == [] then []
    else
      var n := |ops| - 1;
      Pick(ops[..n], waiting, chosen) + (if (n in waiting) == chosen then [ops[n]] else [])
  }

  lemma PickStep(ops: seq<WriteOp>, waiting: set<nat>, n: nat)
    requires |ops| == n + 1
    ensures multiset(Pick(ops, waiting, n in waiting)) == multiset(Pick(ops[..n], waiting, n in waiting)) + multiset{ops[n]}
    ensures Pick(ops, waiting, n !in waiting) == Pick(ops[..n], waiting, n !in waiting)
  {
  }

  lemma LastOne(ops: seq<WriteOp>, n: nat)
    requires |ops| == n + 1
    ensures multiset(ops) == multiset(ops[..n]) + multiset{ops[n]}
  {
    assert ops == ops[..n] + [ops[n]];
  }

  lemma {:induction false} PickSplits(ops: seq<WriteOp>, waiting: set<nat>)
    ensures multiset(Pick(ops, waiting, true)) + multiset(Pick(ops, waiting, false)) == multiset(ops)
  {
    if ops != [] {
      hide *;
      var n := |ops| - 1;
      PickSplits(ops[..n], waiting);
      PickStep(ops, waiting, n);
      LastOne(ops, n);
      if n in waiting {
        assert Pick(ops, waiting, false) == Pick(ops[..n], waiting, false);
      } else {
        assert Pick(ops, waiting, true) == Pick(ops[..n], waiting, true);
      }
    }
  }

  lemma SomeOf(ops: seq<WriteOp>, part: seq<WriteOp>, base: nat, img: seq<byte>)
    requires multiset(part) <= multiset(ops) && forall k :: 0 <= k < |ops| ==> SliceOf(ops[k], base, img)
    ensures forall k :: 0 <= k < |part| ==> SliceOf(part[k], base, img)
  {
    hide SliceOf;
    forall k | 0 <= k < |part|
      ensures SliceOf(part[k], base, img)
    {
      assert part[k] in multiset(part);
      assert part[k] in multiset(ops);
    }
  }

  lemma {:induction false} ApplyConcat(f: seq<byte>, a: seq<WriteOp>, b: seq<WriteOp>)
    ensures ApplyAll(f, a + b) == ApplyAll(ApplyAll(f, a), b)
    decreases a
  {
    if a == [] {
      assert a + b == b;
    } else {
      assert (a + b)[1..] == a[1..] + b;
      ApplyConcat(WriteAt(f, a[0].off, a[0].data), a[1..], b);
    }
  }

  /** What has landed and what is still to land amount to everything submitted. */
  lemma LandedAndLate(f: seq<byte>, ops: seq<WriteOp>, order: seq<WriteOp>, late: seq<WriteOp>, base: nat, img: seq<byte>)
    requires forall k :: 0 <= k < |ops| ==> SliceOf(ops[k], base, img)
    requires FullyCovered(ops, base, |img|) && multiset(order) + multiset(late) == multiset(ops)
    ensures ApplyAll(ApplyAll(f, order), late) == WriteAt(f, base, img)
  {
    hide SliceOf, Covers;
    var all := order + late;
    SomeOf(ops, all, base, img);
    forall p | base <= p < base + |img|
      ensures Covered(all, p)
    {
      assert Covered(ops, p);
      var k :| 0 <= k < |ops| && Covers(ops[k], p);
      assert ops[k] in multiset(all);
      var j :| 0 <= j < |all| && all[j] == ops[k];
    }
    ApplyConcat(f, order, late);
    AnyOrderIsOneWrite(f, all, base, img);
  }

  /**
   * `copy_range_to_range`: succeeds exactly if the source is long enough and no write fails,
   * and then byte for byte.  On failure only the target range may differ, and `late` are the
   * writes still in flight at the return: after a short read, what has landed and they amount
   * to everything read before.
   */
  method CopyRange(src: seq<byte>, srcOff: nat, dst: PosixFile, dstOff: nat, len: nat, chunk: nat, works: bool,
                   waiting: set<nat>)
    returns (ok: bool, late: seq<WriteOp>)
    requires 0 < chunk
    modifies dst
    ensures ok <==> len == 0 || (works && srcOff + len <= |src|)
    ensures ok && len > 0 ==> dst.data == WriteAt(old(dst.data), dstOff, src[srcOff..srcOff + len])
    ensures len == 0 ==> dst.data == old(dst.data)
    ensures OnlyRangeChanged(old(dst.data), dst.data, dstOff, len)
    ensures ok ==> late == []
    ensures forall k :: 0 <= k < |late| ==> CopyOp(late[k], src, srcOff, dstOff, len)
    ensures !ok && works ==>
              var sent := Sent(Available(src, srcOff), len, chunk, 0);
              ApplyAll(dst.data, late)
              == WriteAt(old(dst.data), dstOff, if sent == 0 then [] else src[srcOff..srcOff + sent])
  {
    hide SliceOf, FullyCovered, OnlyRangeChanged, CopyOp, WriteAt, Pick, Sent;
    if len == 0 {
      NothingChanged(dst.data, dstOff);
      return true, [];
    }
    var queued, ops;
    ghost var img;
    queued, ops, img := QueueRange(src, srcOff, dstOff, len, chunk, works);
    assert img == if |img| == 0 then [] else src[srcOff..srcOff + |img|];
    ok := queued && works;
    late := if ok then [] else Pick(ops, waiting, true);
    FinishCopy(dst, ops, late, works, waiting, dstOff, img, queued);
    RangeGrows(old(dst.data), dst.data, dstOff, |img|, len);
    PickSplits(ops, waiting);
    if !ok {
      SomeOf(ops, late, dstOff, img);
      PartOfNone(ops, late);
      SlicesAreCopies(late, src, srcOff, dstOff, len, img);
    }
  }

  lemma PartOfNone(ops: seq<WriteOp>, part: seq<WriteOp>)
    requires multiset(part) <= multiset(ops)
    ensures ops == [] ==> part == []
  {
    if part != [] { assert part[0] in multiset(ops); }
  }

  lemma NothingChanged(f: seq<byte>, base: nat)
    ensures OnlyRangeChanged(f, f, base, 0)
  {
  }

  /** Reads the range block by block and submits one write for each. */
  method QueueRange(src: seq<byte>, srcOff: nat, dstOff: nat, len: nat, chunk: nat, works: bool)
    returns (ok: bool, ops: seq<WriteOp>, ghost img: seq<byte>)
    requires 0 < chunk && 0 < len
    ensures ok ==> srcOff + len <= |src| && |img| == len
    ensures works ==> |img| == Sent(Available(src, srcOff), len, chunk, 0) && (ok <==> srcOff + len <= |src|)
    ensures |img| <= len && (|img| > 0 ==> srcOff + |img| <= |src| && img == src[srcOff..srcOff + |img|])
    ensures |img| == 0 ==> ops == []
    ensures forall k :: 0 <= k < |ops| ==> SliceOf(ops[k], dstOff, img)
    ensures FullyCovered(ops, dstOff, |img|)
  {
    hide SliceOf, FullyCovered;
    NothingQueued(dstOff, chunk, false);
    ok, ops, img := true, [], [];
    var pos := 0;
    ghost var avail := Available(src, srcOff);
    while pos < len && ok
      invariant pos <= len && |img| == pos <= avail
      invariant pos > 0 ==> srcOff + pos <= |src| && img == src[srcOff..srcOff + pos]
      invariant pos == 0 ==> ops == []
      invariant forall k :: 0 <= k < |ops| ==> SliceOf(ops[k], dstOff, img)
      invariant FullyCovered(ops, dstOff, pos)
      invariant Sent(avail, len, chunk, 0) == Sent(avail, len, chunk, pos)
      invariant !ok && works ==> Sent(avail, len, chunk, 0) == pos < len
      decreases len - pos, ok
    {
      var want := Min(chunk, len - pos);
      var got := ReadAt(src, srcOff + pos, want);
      var refused: bool := *;
      if |got| != want || (!works && refused) {
        ok := false;
      } else {
        ops, img := ExtendCopy(src, srcOff, dstOff, pos, ops, img, got);
        pos := pos + want;
      }
    }
  }

  /** The writes that are not late finish. */
  method FinishCopy(dst: PosixFile, ops: seq<WriteOp>, late: seq<WriteOp>, works: bool, waiting: set<nat>,
                    ghost base: nat, ghost img: seq<byte>, ghost all: bool)
    requires forall k :: 0 <= k < |ops| ==> SliceOf(ops[k], base, img)
    requires FullyCovered(ops, base, |img|)
    requires late == if all && works then [] else Pick(ops, waiting, true)
    modifies dst
    ensures OnlyRangeChanged(old(dst.data), dst.data, base, |img|)
    ensures works ==> ApplyAll(dst.data, late) == WriteAt(old(dst.data), base, img)
  {
    hide SliceOf, Covers, OnlyRangeChanged, FullyCovered;
    PickSplits(ops, waiting);
    var now := if late == [] then ops else Pick(ops, waiting, false);
    assert multiset(now) <= multiset(ops);
    SomeOf(ops, now, base, img);
    ghost var order := CompleteWrites(dst, now, works, base, img);
    if works { LandedAndLate(old(dst.data), ops, order, late, base, img); }
  }

  lemma SliceIsCopy(op: WriteOp, src: seq<byte>, srcOff: nat, dstOff: nat, len: nat, img: seq<byte>)
    requires |img| <= len && srcOff + |img| <= |src| && img == src[srcOff..srcOff + |img|] && SliceOf(op, dstOff, img)
    ensures CopyOp(op, src, srcOff, dstOff, len)
  {
    var a, k := op.off - dstOff, |op.data|;
    var cut := src[srcOff + a..srcOff + a + k];
    forall i | 0 <= i < k
      ensures op.data[i] == cut[i]
    {
      assert op.data[i] == img[a..a + k][i] == img[a + i] == src[srcOff + (a + i)];
    }
    assert op.data == cut;
  }

  lemma SlicesAreCopies(ops: seq<WriteOp>, src: seq<byte>, srcOff: nat, dstOff: nat, len: nat, img: seq<byte>)
    requires ops != [] ==> |img| <= len && srcOff + |img| <= |src| && img == src[srcOff..srcOff + |img|]
    requires forall k :: 0 <= k < |ops| ==> SliceOf(ops[k], dstOff, img)
    ensures forall k :: 0 <= k < |ops| ==> CopyOp(ops[k], src, srcOff, dstOff, len)
  {
    hide SliceOf, CopyOp;
    forall k | 0 <= k < |ops|
      ensures CopyOp(ops[k], src, srcOff, dstOff, len)
    {
      SliceIsCopy(ops[k], src, srcOff, dstOff, len, img);
    }
  }

  method ExtendCopy(ghost src: seq<byte>, ghost srcOff: nat, dstOff: nat, pos: nat,
                    ops: seq<WriteOp>, ghost img: seq<byte>, got: seq<byte>)
    returns (ops': seq<WriteOp>, ghost img': seq<byte>)
    requires |img| == pos && srcOff + |img| + |got| <= |src|
    requires img == src[srcOff..srcOff + |img|] && got == src[srcOff + |img|..srcOff + |img| + |got|]
    requires forall k :: 0 <= k < |ops| ==> SliceOf(ops[k], dstOff, img)
    requires FullyCovered(ops, dstOff, |img|)
    ensures |img'| == |img| + |got| && img' == src[srcOff..srcOff + |img'|]
    ensures forall k :: 0 <= k < |ops'| ==> SliceOf(ops'[k], dstOff, img')
    ensures FullyCovered(ops', dstOff, |img'|)
  {
    NextBlock(ops, dstOff, img, got);
    img' := img + got;
    ops' := ops + [WriteOp(dstOff + pos, got)];
  }
}
