/** Writing an object body, and copying one file to another, through the ring. */
module Upload {
  import opened Posix
  import opened Align
  import opened Streaming

  datatype Dest =
    | ToPath                     // create or truncate, whole object from offset 0
    | ToFile(startOff: nat)      // already open file, fixed offset, never truncated

  datatype WriteResult = Written | UnalignedLength | ShortBody | OffsetOverflow | IoFailed

  /** Whether a ranged write may use O_DIRECT at all. */
  predicate DirectOkForRange(startOff: nat, len: nat, cfg: StreamCfg) {
    cfg.directIo && cfg.chunk % ALIGN == 0 && len >= cfg.chunk && startOff % ALIGN == 0 && len % ALIGN == 0
  }

  predicate UsesDirect(dest: Dest, len: nat, cfg: StreamCfg) {
    match dest
    case ToPath => cfg.directIo && len > cfg.chunk && cfg.chunk % ALIGN == 0
    case ToFile(startOff) => DirectOkForRange(startOff, len, cfg)
  }

  function StartOff(dest: Dest): nat {
    match dest case ToPath => 0 case ToFile(o) => o
  }

  /** What O_DIRECT and the buffer pool demand of a ring write. */
  predicate RingWrite(op: WriteOp, chunk: nat, direct: bool) {
    && 0 < |op.data| <= chunk
    && (direct ==> op.off % ALIGN == 0 && |op.data| % ALIGN == 0)
  }

  /** Outside [base, base + len) the file kept its bytes; only that range can have grown it. */
  predicate OnlyRangeChanged(before: seq<byte>, after: seq<byte>, base: nat, len: nat) {
    && |before| <= |after| <= Max(|before|, base + len)
    && forall p :: 0 <= p < |after| && (p < base || base + len <= p)
                   ==> after[p] == if p < |before| then before[p] else 0
  }

  lemma OneOpStaysInRange(before: seq<byte>, now: seq<byte>, op: WriteOp, n: nat, base: nat, img: seq<byte>)
    requires OnlyRangeChanged(before, now, base, |img|)
    requires SliceOf(op, base, img) && n <= |op.data|
    ensures OnlyRangeChanged(before, WriteAt(now, op.off, op.data[..n]), base, |img|)
  {
  }

  ghost predicate FullyCovered(ops: seq<WriteOp>, base: nat, len: nat) {
    forall p :: base <= p < base + len ==> Covered(ops, p)
  }

  /** Moving one operation from the pending to the applied ones loses no coverage. */
  lemma MoveKeepsCover(pending: seq<WriteOp>, applied: seq<WriteOp>, i: nat, base: nat, len: nat)
    requires i < |pending| && FullyCovered(pending + applied, base, len)
    ensures FullyCovered(pending[..i] + pending[i + 1..] + (applied + [pending[i]]), base, len)
  {
    var all, all' := pending + applied, pending[..i] + pending[i + 1..] + (applied + [pending[i]]);
    forall p | base <= p < base + len
      ensures Covered(all', p)
    {
      assert Covered(all, p);
      var k :| 0 <= k < |all| && Covers(all[k], p);
      var k' := if k < i then k else if k == i then |all'| - 1 else k - 1;
      assert all'[k'] == all[k];
    }
  }

  /**
   * The ring finishes the queued writes in an order of its own.  Unless all of them land
   * in full, any of them may fail or come up short.
   */
  method CompleteWrites(file: PosixFile, ops: seq<WriteOp>, allLand: bool, ghost base: nat, ghost img: seq<byte>)
    returns (ghost order: seq<WriteOp>)
    requires forall k :: 0 <= k < |ops| ==> SliceOf(ops[k], base, img)
    modifies file
    ensures OnlyRangeChanged(old(file.data), file.data, base, |img|)
    ensures allLand && FullyCovered(ops, base, |img|) ==> file.data == WriteAt(old(file.data), base, img)
    ensures multiset(order) == multiset(ops) && (allLand ==> file.data == ApplyAll(old(file.data), order))
  {
    var pending := ops;
    ghost var applied: seq<WriteOp> := [];
    ghost var full := FullyCovered(ops, base, |img|);
    assert ops + applied == ops;
    while pending != []
      invariant forall k :: 0 <= k < |pending| ==> SliceOf(pending[k], base, img)
      invariant forall k :: 0 <= k < |applied| ==> SliceOf(applied[k], base, img)
      invariant full ==> FullyCovered(pending + applied, base, |img|)
      invariant OnlyRangeChanged(old(file.data), file.data, base, |img|)
      invariant allLand ==> file.data == ApplyAll(old(file.data), applied)
      invariant multiset(pending) + multiset(applied) == multiset(ops)
      decreases |pending|
    {
      var i: nat :| i < |pending|;
      FinishOne(file, pending[i], allLand, old(file.data), applied, base, img);
      if full { MoveKeepsCover(pending, applied, i, base, |img|); }
      assert pending == pending[..i] + [pending[i]] + pending[i + 1..];
      pending, applied := pending[..i] + pending[i + 1..], applied + [pending[i]];
    }
    if allLand && full {
      assert pending + applied == applied;
      AnyOrderIsOneWrite(old(file.data), applied, base, img);
    }
    order := applied;
  }

  method FinishOne(file: PosixFile, op: WriteOp, lands: bool, ghost before: seq<byte>, ghost applied: seq<WriteOp>,
                   ghost base: nat, ghost img: seq<byte>)
    requires SliceOf(op, base, img) && OnlyRangeChanged(before, file.data, base, |img|)
    requires lands ==> file.data == ApplyAll(before, applied)
    modifies file
    ensures OnlyRangeChanged(before, file.data, base, |img|)
    ensures lands ==> file.data == ApplyAll(before, applied + [op])
  {
    var n := |op.data|;
    if !lands {
      n :| 0 <= n < |op.data| + 1;
    }
    OneOpStaysInRange(before, file.data, op, n, base, img);
    ApplyAppend(before, applied, op);
    assert op.data[..|op.data|] == op.data;
    file.data := WriteAt(file.data, op.off, op.data[..n]);
  }

  lemma {:induction false} ApplyAppend(f: seq<byte>, ops: seq<WriteOp>, op: WriteOp)
    ensures ApplyAll(f, ops + [op]) == WriteAt(ApplyAll(f, ops), op.off, op.data)
    decreases ops
  {
    if ops == [] {
      assert ops + [op] == [op];
      assert ApplyAll(WriteAt(f, op.off, op.data), []) == WriteAt(f, op.off, op.data);
    } else {
      assert (ops + [op])[1..] == ops[1..] + [op];
      ApplyAppend(WriteAt(f, ops[0].off, ops[0].data), ops[1..], op);
    }
  }

  /** The queue after one more block: still slices of the image, still covering it. */
  lemma NextBlock(ops: seq<WriteOp>, base: nat, img: seq<byte>, block: seq<byte>)
    requires forall k :: 0 <= k < |ops| ==> SliceOf(ops[k], base, img)
    ensures forall k :: 0 <= k < |ops| ==> SliceOf(ops[k], base, img + block)
    ensures SliceOf(WriteOp(base + |img|, block), base, img + block)
    ensures FullyCovered(ops, base, |img|)
            ==> FullyCovered(ops + [WriteOp(base + |img|, block)], base, |img + block|)
  {
    var ops' := ops + [WriteOp(base + |img|, block)];
    if FullyCovered(ops, base, |img|) {
      forall p | base <= p < base + |img + block|
        ensures Covered(ops', p)
      {
        if p < base + |img| {
          assert Covered(ops, p);
          var k :| 0 <= k < |ops| && Covers(ops[k], p);
          assert Covers(ops'[k], p);
        } else {
          assert Covers(ops'[|ops|], p);
        }
      }
    }
    forall k | 0 <= k < |ops|
      ensures SliceOf(ops[k], base, img + block)
    {
      var op := ops[k];
      assert img[op.off - base..op.off - base + |op.data|] == (img + block)[op.off - base..op.off - base + |op.data|];
    }
  }

  /** How long the ring write for a block is: only the last block of a new O_DIRECT file is padded. */
  function WriteLen(realLen: nat, chunk: nat, direct: bool, mayPad: bool): (n: nat)
    requires 0 < realLen <= chunk < U64
    requires direct ==> chunk % ALIGN == 0
    ensures realLen <= n <= chunk
    ensures direct && mayPad ==> n % ALIGN == 0
    ensures realLen == chunk || !direct || !mayPad ==> n == realLen
  {
    if direct && mayPad then
      PaddedBlockFitsChunk(realLen, chunk);
      if realLen == chunk then chunk else AlignUp(realLen, ALIGN)
    else realLen
  }

  /** The queue built so far: slices of `img`, each a legal ring write. */
  predicate Queued(ops: seq<WriteOp>, base: nat, img: seq<byte>, chunk: nat, direct: bool) {
    forall k :: 0 <= k < |ops| ==> SliceOf(ops[k], base, img) && RingWrite(ops[k], chunk, direct)
  }

  /**
   * How the ring treats one upload.  `cancelAt` is the payload offset from which blocks find
   * the whole ring cancelled and are dropped; `works` says that the session sees no error.
   */
  datatype RingFate = RingFate(cancelAt: nat, works: bool)

  /** The payload bytes queued from block offset `off` on before the ring is found cancelled. */
  function KeptFrom(off: nat, len: nat, chunk: nat, cancelAt: nat): (k: nat)
    requires off <= len && 0 < chunk
    ensures off <= k <= len && (cancelAt >= len ==> k == len)
    ensures k < len ==> cancelAt <= k && (off < cancelAt ==> k < cancelAt + chunk) && (cancelAt <= off ==> k == off)
    decreases len - off
  {
    if off == len || cancelAt <= off then off else KeptFrom(off + Min(chunk, len - off), len, chunk, cancelAt)
  }

  /** All of the payload, unless the ring is cancelled early: then whole blocks up to the cancellation. */
  function Kept(len: nat, chunk: nat, cancelAt: nat): (k: nat)
    requires 0 < chunk
    ensures k <= len && (cancelAt >= len ==> k == len) && (cancelAt == 0 ==> k == 0)
    ensures k < len ==> cancelAt <= k < cancelAt + chunk
  {
    KeptFrom(0, len, chunk, cancelAt)
  }

  lemma NothingQueued(base: nat, chunk: nat, direct: bool)
    ensures Queued([], base, [], chunk, direct) && FullyCovered([], base, 0)
  {
  }

  /** One more block of the payload, padded, goes into the queue. */
  method QueueBlock(ops: seq<WriteOp>, start: nat, ghost img: seq<byte>, body: seq<byte>, off: nat, realLen: nat, writeLen: nat,
                    chunk: nat, direct: bool)
    returns (ops': seq<WriteOp>, ghost img': seq<byte>)
    requires Queued(ops, start, img, chunk, direct) && FullyCovered(ops, start, |img|)
    requires |img| == off && off + realLen <= |body| && img == body[..off] && 0 < realLen <= writeLen <= chunk
    requires direct ==> (start + off) % ALIGN == 0 && writeLen % ALIGN == 0
    ensures Queued(ops', start, img', chunk, direct) && FullyCovered(ops', start, |img'|)
    ensures |img'| == off + writeLen && img'[..off + realLen] == body[..off + realLen]
  {
    var block := body[off..off + realLen] + Zeros(writeLen - realLen);
    NextBlock(ops, start, img, block);
    ExtendImage(body, img, off, realLen, block);
    ops' := ops + [WriteOp(start + off, block)];
    img' := img + block;
  }

  /**
   * Reads the body block by block and queues one ring write per block while the
   * sender is alive.  The queued writes amount to `img`, which holds the first
   * `kept` bytes of the payload.
   */
  method QueueBody(dest: Dest, body: seq<byte>, len: nat, cfg: StreamCfg, ring: RingFate)
    returns (r: WriteResult, ops: seq<WriteOp>, ghost kept: nat, ghost img: seq<byte>)
    requires cfg.Valid() && 0 < len
    ensures r.Written? || r.ShortBody? || r.OffsetOverflow?
    ensures Queued(ops, StartOff(dest), img, cfg.chunk, UsesDirect(dest, len, cfg))
    ensures FullyCovered(ops, StartOff(dest), |img|)
    ensures kept <= len && kept <= |body| && kept <= |img| && img[..kept] == body[..kept]
    ensures dest.ToFile? || kept < len ==> |img| == kept
    ensures r.Written? && ring.works ==> kept == Kept(len, cfg.chunk, ring.cancelAt)
    ensures r.Written? ==> len <= |body|
    ensures StartOff(dest) + len <= U64 ==> (r.Written? <==> len <= |body|)
  {
    hide Queued, FullyCovered, Align.AlignUp;
    NothingQueued(StartOff(dest), cfg.chunk, UsesDirect(dest, len, cfg));
    var direct, start := UsesDirect(dest, len, cfg), StartOff(dest);
    r, ops, kept, img := Written, [], 0, [];
    var off, dead := 0, false;
    while off < len
      invariant off <= len && off <= |body|
      invariant kept <= off && (!dead ==> kept == off)
      invariant ring.works ==> Kept(len, cfg.chunk, ring.cancelAt) == KeptFrom(kept, len, cfg.chunk, ring.cancelAt)
      invariant ring.works && dead ==> ring.cancelAt <= kept
      invariant kept <= |img| && (kept < len || dest.ToFile? ==> |img| == kept)
      invariant img[..kept] == body[..kept]
      invariant direct && off < len ==> off % ALIGN == 0
      invariant Queued(ops, start, img, cfg.chunk, direct)
      invariant FullyCovered(ops, start, |img|)
    {
      var realLen := Min(cfg.chunk, len - off);
      var writeLen := WriteLen(realLen, cfg.chunk, direct, dest.ToPath?);
      if direct && dest.ToFile? {
        BlockAligned(off, len, cfg.chunk);
        if realLen % ALIGN != 0 {
          r := UnalignedLength;
          return;
        }
      }
      if |body| < off + realLen {
        r := ShortBody;
        return;
      }
      if direct { AlignedOffset(off, start, realLen, cfg.chunk); }
      if !dead {
        // the body is still consumed when nothing more is queued
        if ring.cancelAt <= off {
          dead := true;
        } else if !ring.works {
          dead := *;
        }
      }
      if !dead {
        if start + off >= U64 {
          r := OffsetOverflow;
          return;
        }
        ops, img := QueueBlock(ops, start, img, body, off, realLen, writeLen, cfg.chunk, direct);
        kept := off + realLen;
      }
      off := off + realLen;
    }
  }

  /** Blocks of an aligned range are aligned. */
  lemma BlockAligned(off: nat, len: nat, chunk: nat)
    requires off < len && 0 < chunk
    requires off % ALIGN == 0 && len % ALIGN == 0 && chunk % ALIGN == 0
    ensures Min(chunk, len - off) % ALIGN == 0
  {
    MultiplesClosed(off, len, ALIGN);
  }

  lemma AlignedOffset(off: nat, start: nat, realLen: nat, chunk: nat)
    requires off % ALIGN == 0 && start % ALIGN == 0 && chunk % ALIGN == 0
    ensures (start + off) % ALIGN == 0
    ensures realLen == chunk ==> (off + realLen) % ALIGN == 0
  {
    MultiplesClosed(start, off, ALIGN);
    if realLen == chunk { MultiplesClosed(off, realLen, ALIGN); }
  }

  lemma ExtendImage(body: seq<byte>, img: seq<byte>, off: nat, realLen: nat, block: seq<byte>)
    requires |img| == off && off + realLen <= |body| && img == body[..off]
    requires realLen <= |block| && block[..realLen] == body[off..off + realLen]
    ensures (img + block)[..off + realLen] == body[..off + realLen]
  {
    assert (img + block)[..off + realLen] == img + block[..realLen];
    assert body[..off + realLen] == body[..off] + body[off..off + realLen];
  }

  /**
   * The upload writer.  Within 64-bit offsets it succeeds exactly if the body is long enough
   * and the session sees no error.  Success means the destination holds the first `Kept`
   * bytes of the payload, which are all of them unless the ring is cancelled, which the
   * writer does not notice: a new file holds nothing else and is padded to the full length
   * with zeros, an existing file changed only in the range.
   */
  method WriteObjectBody(file: PosixFile, dest: Dest, body: seq<byte>, len: nat, cfg: StreamCfg, ring: RingFate)
    returns (r: WriteResult)
    requires cfg.Valid()
    modifies file
    ensures r != UnalignedLength
    ensures r.Written? ==> len <= |body|
    ensures 0 < len && StartOff(dest) + len <= U64 ==> (r.Written? <==> len <= |body| && ring.works)
    ensures len == 0 ==> r.Written?
    ensures r.Written? ==>
              var kept := Kept(len, cfg.chunk, ring.cancelAt);
              && (dest.ToPath? ==> file.data == body[..kept] + Zeros(len - kept))
              && (dest.ToFile? ==> file.data == WriteAt(old(file.data), dest.startOff, body[..kept]))
    ensures dest.ToFile? ==> OnlyRangeChanged(old(file.data), file.data, dest.startOff, len)
  {
    var direct := UsesDirect(dest, len, cfg);
    if dest.ToPath? {
      file.data := [];
      if * {
        // fallocate, or ftruncate where the filesystem has no fallocate
        file.data := Zeros(if direct then AlignUp(len, ALIGN) else len);
      }
    }
    if len == 0 {
      if dest.ToPath? { file.data := Truncate(file.data, 0); }
      return Written;
    }
    var ops;
    ghost var kept, img, before := 0, [], file.data;
    r, ops, kept, img := QueueBody(dest, body, len, cfg, ring);
    ghost var _ := CompleteWrites(file, ops, ring.works, StartOff(dest), img);
    if r.Written? && !ring.works {
      r := IoFailed;
    }
    if r.Written? && dest.ToPath? {
      file.data := Truncate(file.data, len);
      NewFileHolds(before, img, body, kept, len);
    } else if r.Written? {
      assert img == body[..kept];
    }
    if dest.ToFile? { RangeGrows(before, file.data, dest.startOff, |img|, len); }
  }

  /**
   * A PUT of a new object.  Acknowledged, it is the payload if and only if the ring was not
   * cancelled in time to drop a byte other than zero; cancelled before the first block it
   * leaves all zeros.
   */
  method PutObject(file: PosixFile, body: seq<byte>, len: nat, cfg: StreamCfg, ring: RingFate) returns (ok: bool)
    requires cfg.Valid() && len <= U64
    modifies file
    ensures ok <==> len == 0 || (len <= |body| && ring.works)
    ensures ok ==> len <= |body| && |file.data| == len
    ensures ok ==> (file.data == body[..len] <==> forall i :: Kept(len, cfg.chunk, ring.cancelAt) <= i < len ==> body[i] == 0)
    ensures ok && ring.cancelAt == 0 ==> file.data == Zeros(len)
  {
    var r := WriteObjectBody(file, ToPath, body, len, cfg, ring);
    ok := r.Written?;
    if ok { AcknowledgedIsPayloadIff(body, Kept(len, cfg.chunk, ring.cancelAt), len); }
  }

  /**
   * A write into an existing file.  Acknowledged, the range holds the payload if and only if
   * what a cancelled ring dropped was there before.
   */
  method PutRange(file: PosixFile, off: nat, body: seq<byte>, len: nat, cfg: StreamCfg, ring: RingFate) returns (ok: bool)
    requires cfg.Valid() && off + len <= U64
    modifies file
    ensures ok <==> len == 0 || (len <= |body| && ring.works)
    ensures ok ==> len <= |body|
    ensures ok ==>
              var kept, was := Kept(len, cfg.chunk, ring.cancelAt), old(file.data);
              file.data == WriteAt(was, off, body[..len])
              <==> kept == len || (off + len <= |was| && was[off + kept..off + len] == body[kept..len])
    ensures OnlyRangeChanged(old(file.data), file.data, off, len)
  {
    var r := WriteObjectBody(file, ToFile(off), body, len, cfg, ring);
    ok := r.Written?;
    if ok { ShorterWriteIff(old(file.data), off, body, Kept(len, cfg.chunk, ring.cancelAt), len); }
  }

  /** An all-zero file overwritten from its start and cut to length. */
  lemma NewFileHolds(before: seq<byte>, img: seq<byte>, body: seq<byte>, kept: nat, len: nat)
    requires forall i :: 0 <= i < |before| ==> before[i] == 0
    requires kept <= len <= |body| && kept <= |img| && img[..kept] == body[..kept] && (kept < len ==> |img| == kept)
    ensures Truncate(WriteAt(before, 0, img), len) == body[..kept] + Zeros(len - kept)
  {
    var f := Truncate(WriteAt(before, 0, img), len);
    forall i | 0 <= i < kept
      ensures f[i] == body[i]
    {
      assert img[..kept][i] == body[..kept][i];
    }
  }

  lemma RangeGrows(before: seq<byte>, after: seq<byte>, base: nat, len: nat, more: nat)
    requires OnlyRangeChanged(before, after, base, len) && len <= more
    ensures OnlyRangeChanged(before, after, base, more)
  {
  }

  /** A payload cut short and padded is the payload exactly when what was cut was zero. */
  lemma AcknowledgedIsPayloadIff(body: seq<byte>, kept: nat, len: nat)
    requires kept <= len <= |body|
    ensures body[..kept] + Zeros(len - kept) == body[..len] <==> forall i :: kept <= i < len ==> body[i] == 0
    ensures body[..0] + Zeros(len) == Zeros(len)
  {
    var f := body[..kept] + Zeros(len - kept);
    assert forall i :: kept <= i < len ==> f[i] == 0 && body[..len][i] == body[i];
    assert (forall i :: kept <= i < len ==> body[i] == 0) ==> f == body[..len];
  }

  lemma ShorterWriteIff(f: seq<byte>, off: nat, body: seq<byte>, kept: nat, len: nat)
    requires kept <= len <= |body|
    ensures WriteAt(f, off, body[..kept]) == WriteAt(f, off, body[..len])
            <==> kept == len || (off + len <= |f| && f[off + kept..off + len] == body[kept..len])
  {
    var short, whole := WriteAt(f, off, body[..kept]), WriteAt(f, off, body[..len]);
    if kept < len && short == whole {
      forall i | kept <= i < len
        ensures f[off + i] == body[i]
      {
        assert whole[off + i] == body[..len][i];
      }
      assert f[off + kept..off + len] == body[kept..len];
    } else if kept < len && off + len <= |f| && f[off + kept..off + len] == body[kept..len] {
      forall p | 0 <= p < |f|
        ensures short[p] == whole[p]
      {
        if off + kept <= p < off + len { assert f[off + kept..off + len][p - off - kept] == body[kept..len][p - off - kept]; }
      }
    }
  }

  // ------------------------------------------------------------------ copies

  /** The (read, write) lengths the copy loop plans at `off`. */
  function CopyPlan(off: nat, end: nat, chunk: nat, direct: bool): (nat, nat)
    requires off < end && 0 < chunk < U64 && (direct ==> chunk % ALIGN == 0)
  {
    var realLen := Min(chunk, end - off);
    (realLen, WriteLen(realLen, chunk, direct, true))
  }

  /** On the aligned prefix the plan never pads and never passes the end: both lengths are the ring's next read. */
  lemma CopyPlanNeverPads(off: nat, end: nat, chunk: nat, direct: bool)
    requires off < end && 0 < chunk < U64
    requires direct ==> off % ALIGN == 0 && end % ALIGN == 0 && chunk % ALIGN == 0
    ensures CopyPlan(off, end, chunk, direct) == (SubmitLen(off, end, chunk, direct), SubmitLen(off, end, chunk, direct))
  {
    var realLen := Min(chunk, end - off);
    if direct {
      BlockAligned(off, end, chunk);
      if realLen < chunk {
        PaddedBlockFitsChunk(realLen, chunk);
        AlignDownIsFloor(U64 - 1, ALIGN);
        AlignUpIsCeilingUntilSaturation(realLen, ALIGN);
      }
    }
  }

  /** `read_for_copy` and the write it feeds: one more block of the source is queued. */
  method CopyBlock(src: seq<byte>, ops: seq<WriteOp>, r: Read, end: nat, chunk: nat, direct: bool, works: bool)
    returns (ok: bool, ops': seq<WriteOp>)
    requires r.off <= |src| && Issuable(r, end, chunk, direct)
    requires Queued(ops, 0, src[..r.off], chunk, direct) && FullyCovered(ops, 0, r.off)
    ensures !ok ==> ops' == ops
    ensures works && r.off + r.len <= |src| ==> ok
    ensures ok ==> r.off + r.len <= |src|
                   && Queued(ops', 0, src[..r.off + r.len], chunk, direct) && FullyCovered(ops', 0, r.off + r.len)
  {
    ok, ops' := false, ops;
    var got := ReadAt(src, r.off, r.len);
    if |got| < r.len {
      return;
    }
    var cancelled: bool := *;
    if !works && cancelled {
      return;
    }
    NextBlock(ops, 0, src[..r.off], got);
    assert src[..r.off] + got == src[..r.off + r.len];
    ok, ops' := true, ops + [WriteOp(r.off, got)];
  }

  /** Queues the copy of the first `end` bytes, `inflight` reads ahead. */
  method QueueCopy(src: seq<byte>, end: nat, cfg: StreamCfg, direct: bool, works: bool)
    returns (ok: bool, ops: seq<WriteOp>, ghost pos: nat)
    requires cfg.Valid() && (direct ==> end % ALIGN == 0 && cfg.chunk % ALIGN == 0)
    ensures pos <= end && pos <= |src|
    ensures Queued(ops, 0, src[..pos], cfg.chunk, direct)
    ensures ok ==> pos == end && FullyCovered(ops, 0, end)
    ensures works && end <= |src| ==> ok
  {
    ok, ops, pos := true, [], 0;
    if end == 0 {
      return;
    }
    var queue, nextOff := InitialFill(0, end, cfg.chunk, cfg.inflight, direct);
    while queue != []
      invariant pos <= |src|
      invariant Window(queue, pos, nextOff, end, cfg.chunk, direct)
      invariant queue == [] ==> pos == end
      invariant Queued(ops, 0, src[..pos], cfg.chunk, direct)
      invariant FullyCovered(ops, 0, pos)
      decreases end - pos
    {
      var r := queue[0];
      PopWindow(queue, pos, nextOff, end, cfg.chunk, direct);
      queue := queue[1..];
      ok, ops := CopyBlock(src, ops, r, end, cfg.chunk, direct, works);
      if !ok {
        return;
      }
      pos := pos + r.len;
      if nextOff < end {
        queue, nextOff := SubmitNext(queue, pos, nextOff, end, cfg.chunk, direct);
      }
    }
  }

  /** Queues the copy: the aligned prefix through the ring, then the padded tail in direct mode. */
  method QueueWholeCopy(src: seq<byte>, size: nat, cfg: StreamCfg, works: bool)
    returns (ok: bool, ops: seq<WriteOp>, ghost img: seq<byte>)
    requires cfg.Valid() && 0 < size
    ensures Queued(ops, 0, img, cfg.chunk, cfg.directIo && size > cfg.chunk && cfg.chunk % ALIGN == 0)
    ensures ok ==> size <= |src| && size <= |img| && img[..size] == src[..size] && FullyCovered(ops, 0, |img|)
    ensures works && size <= |src| ==> ok
  {
    var direct := cfg.directIo && size > cfg.chunk && cfg.chunk % ALIGN == 0;
    var alignedSize := if direct then AlignDown(size, ALIGN) else size;
    AlignDownIsFloor(size, ALIGN);
    ghost var pos;
    ok, ops, pos := QueueCopy(src, alignedSize, cfg, direct, works);
    img := src[..pos];
    if ok && direct && alignedSize < size {
      var tailLen := size - alignedSize;
      var tail := ReadAt(src, alignedSize, tailLen);
      if |tail| < tailLen {
        ok := false;
        return;
      }
      PaddedBlockFitsChunk(tailLen, cfg.chunk);
      var block := tail + Zeros(AlignUp(tailLen, ALIGN) - tailLen);
      NextBlock(ops, 0, img, block);
      ops := ops + [WriteOp(alignedSize, block)];
      ExtendImage(src, img, alignedSize, tailLen, block);
      img := img + block;
    }
  }

  /** File to file copy.  Success means the destination is exactly the first `size` bytes of the source. */
  method CopyFileToFile(src: seq<byte>, dst: PosixFile, size: nat, cfg: StreamCfg, works: bool) returns (ok: bool)
    requires cfg.Valid()
    modifies dst
    ensures ok <==> size <= |src| && works
    ensures ok ==> dst.data == src[..size]
  {
    dst.data := [];
    if * {
      dst.data := Zeros(if cfg.directIo && size > cfg.chunk && cfg.chunk % ALIGN == 0 then AlignUp(size, ALIGN) else size);
    }
    if size == 0 {
      dst.data := Truncate(dst.data, 0);
      return works;
    }
    var ops;
    ghost var img;
    ok, ops, img := QueueWholeCopy(src, size, cfg, works);
    ghost var _ := CompleteWrites(dst, ops, works, 0, img);
    ok := ok && works;
    if ok {
      dst.data := Truncate(dst.data, size);
      assert dst.data == src[..size] by {
        forall i | 0 <= i < size
          ensures dst.data[i] == src[i]
        {
          assert img[..size][i] == src[..size][i];
        }
      }
    }
  }
}
