/**
 * The data plane of the gateway: range reads, uploads and file copies, each split
 * into ring operations of at most one pooled buffer.  Ring writes complete in any
 * order and may fail; `*` stands for what the kernel decides.
 */
module Streaming {
  import opened Posix
  import opened Align

  /** The largest file an `off_t` can describe. */
  const MAX_FILE: nat := 0x7fff_ffff_ffff_ffff

  datatype StreamCfg = StreamCfg(chunk: nat, inflight: nat, directIo: bool) {
    predicate Valid() {
      0 < chunk < U64
    }
  }

  class PosixFile {
    var data: seq<byte>

    constructor (bytes: seq<byte>)
      ensures data == bytes
    {
      data := bytes;
    }
  }

  function Flatten(frames: seq<seq<byte>>): seq<byte> {
    if frames == [] then [] else Flatten(frames[..|frames| - 1]) + frames[|frames| - 1]
  }

  predicate NoEmptyFrame(frames: seq<seq<byte>>) {
    forall i :: 0 <= i < |frames| ==> |frames[i]| > 0
  }

  predicate PrefixOf(frames: seq<seq<byte>>, whole: seq<byte>) {
    |Flatten(frames)| <= |whole| && Flatten(frames) == whole[..|Flatten(frames)|]
  }

  function Zeros(n: nat): (z: seq<byte>)
    ensures |z| == n && forall i :: 0 <= i < n ==> z[i] == 0
  {
    seq(n, _ => 0)
  }

  // ------------------------------------------------------------------ reads

  /** One queued read: `len` bytes at `off`. */
  datatype Read = Read(off: nat, len: nat)

  /** What the kernel returns for a read inside a file that does not change. */
  function ReadAt(file: seq<byte>, off: nat, len: nat): (r: seq<byte>)
    ensures |r| <= len
    ensures off + len <= |file| ==> r == file[off..off + len]
  {
    if off >= |file| then [] else file[off..Min(off + len, |file|)]
  }

  /** `read_one` after the read: keep only what the client asked for. */
  function Trimmed(got: seq<byte>, off: nat, wantStart: nat, wantEnd: nat): (r: seq<byte>)
    ensures |r| <= |got|
  {
    var lo, hi := Max(wantStart, off), Min(wantEnd, off + |got|);
    if lo >= hi then [] else got[lo - off..hi - off]
  }

  /** The queue holds back-to-back reads from `pos` to `next`. */
  predicate BackToBack(q: seq<Read>, pos: nat, next: nat) {
    && (q == [] ==> pos == next)
    && (q != [] ==> q[0].off == pos && q[|q| - 1].off + q[|q| - 1].len == next)
    && (forall i :: 0 <= i < |q| - 1 ==> q[i].off + q[i].len == q[i + 1].off)
  }

  /** A read the ring may issue: non-empty, one buffer at most, aligned in direct mode, inside the segment. */
  predicate Issuable(r: Read, end: nat, chunk: nat, direct: bool) {
    && 0 < r.len <= chunk
    && r.off + r.len <= end
    && (direct ==> r.off % ALIGN == 0 && r.len % ALIGN == 0)
  }

  /** The reads in flight: back to back from `pos` to `next`, and nothing of the segment is skipped. */
  predicate Window(q: seq<Read>, pos: nat, next: nat, end: nat, chunk: nat, direct: bool) {
    && pos <= next <= end
    && BackToBack(q, pos, next)
    && (forall i :: 0 <= i < |q| ==> Issuable(q[i], end, chunk, direct))
    && (direct ==> next % ALIGN == 0)
  }

  /** `pos` moved into the window [lo, hi]. */
  function Clamp(pos: nat, lo: nat, hi: nat): nat {
    if pos <= lo then lo else Min(pos, hi)
  }

  function SubmitLen(off: nat, end: nat, chunk: nat, direct: bool): nat {
    var len := Min(chunk, if off <= end then end - off else 0);
    var len := if direct && len % ALIGN != 0 then len + (ALIGN - len % ALIGN) else len;
    var len := if direct && off + len > end && off <= end then end - off else len;
    Max(len, 1)
  }

  lemma SubmitLenIssuable(off: nat, end: nat, chunk: nat, direct: bool)
    requires off < end && 0 < chunk
    requires direct ==> off % ALIGN == 0 && end % ALIGN == 0 && chunk % ALIGN == 0
    ensures Issuable(Read(off, SubmitLen(off, end, chunk, direct)), end, chunk, direct)
  {
    if direct { MultiplesClosed(off, end, ALIGN); }
  }

  /** Trimming consecutive reads yields consecutive pieces of the wanted window. */
  lemma TrimmedIsNextPiece(file: seq<byte>, r: Read, wantStart: nat, wantEnd: nat)
    requires r.off + r.len <= |file| && wantStart <= wantEnd <= |file|
    ensures file[wantStart..Clamp(r.off, wantStart, wantEnd)]
            + Trimmed(ReadAt(file, r.off, r.len), r.off, wantStart, wantEnd)
            == file[wantStart..Clamp(r.off + r.len, wantStart, wantEnd)]
  {
    var lo, hi := Max(wantStart, r.off), Min(wantEnd, r.off + r.len);
    if lo < hi {
      assert file[r.off..r.off + r.len][lo - r.off..hi - r.off] == file[lo..hi];
      assert file[wantStart..lo] + file[lo..hi] == file[wantStart..hi];
    }
  }

  lemma FlattenAppend(frames: seq<seq<byte>>, b: seq<byte>)
    ensures Flatten(frames + [b]) == Flatten(frames) + b
  {
    assert (frames + [b])[..|frames|] == frames;
  }

  lemma EmptyFrames()
    ensures Flatten([]) == [] && NoEmptyFrame([])
  {
  }

  lemma PushKeepsBackToBack(q: seq<Read>, pos: nat, next: nat, r: Read)
    requires BackToBack(q, pos, next) && r.off == next
    ensures BackToBack(q + [r], pos, next + r.len)
  {
    var q' := q + [r];
    assert q != [] ==> q'[0] == q[0];
    forall i | 0 <= i < |q'| - 1
      ensures q'[i].off + q'[i].len == q'[i + 1].off
    {
      if i < |q| - 1 { assert q'[i] == q[i] && q'[i + 1] == q[i + 1]; }
    }
  }

  lemma {:induction false} PopKeepsBackToBack(q: seq<Read>, pos: nat, next: nat)
    requires BackToBack(q, pos, next) && q != []
    ensures BackToBack(q[1..], pos + q[0].len, next)
    ensures pos + q[0].len <= next
    decreases |q|
  {
    if |q| > 1 { PopKeepsBackToBack(q[1..], pos + q[0].len, next); }
  }

  lemma PopWindow(q: seq<Read>, pos: nat, next: nat, end: nat, chunk: nat, direct: bool)
    requires Window(q, pos, next, end, chunk, direct) && q != []
    ensures Issuable(q[0], end, chunk, direct) && q[0].off == pos
    ensures Window(q[1..], pos + q[0].len, next, end, chunk, direct)
    ensures |q| == 1 ==> pos + q[0].len == next
  {
    PopKeepsBackToBack(q, pos, next);
  }

  /** Queues the next read of the segment and moves the cursor past it. */
  method SubmitNext(queue: seq<Read>, ghost pos: nat, nextOff: nat, end: nat, chunk: nat, direct: bool)
    returns (queue': seq<Read>, nextOff': nat)
    requires nextOff < end && 0 < chunk
    requires direct ==> end % ALIGN == 0 && chunk % ALIGN == 0
    requires Window(queue, pos, nextOff, end, chunk, direct)
    ensures Window(queue', pos, nextOff', end, chunk, direct)
    ensures |queue'| == |queue| + 1 && nextOff < nextOff'
  {
    var r := Read(nextOff, SubmitLen(nextOff, end, chunk, direct));
    SubmitLenIssuable(nextOff, end, chunk, direct);
    if direct { MultiplesClosed(nextOff, r.len, ALIGN); }
    PushKeepsBackToBack(queue, pos, nextOff, r);
    queue' := queue + [r];
    nextOff' := nextOff + r.len;
  }

  /** Performs one read and sends what it contributes to the wanted window. */
  method Forward(file: seq<byte>, frames: seq<seq<byte>>, r: Read, wantStart: nat, wantEnd: nat, accepts: nat)
    returns (frames': seq<seq<byte>>, gone: bool)
    requires r.off + r.len <= |file| && wantStart <= wantEnd <= |file|
    requires Flatten(frames) == file[wantStart..Clamp(r.off, wantStart, wantEnd)]
    requires NoEmptyFrame(frames) && |frames| <= accepts
    ensures |frames'| <= accepts
    ensures gone ==> |frames'| == accepts && Clamp(r.off, wantStart, wantEnd) < wantEnd
    ensures Flatten(frames') == file[wantStart..Clamp(if gone then r.off else r.off + r.len, wantStart, wantEnd)]
    ensures NoEmptyFrame(frames')
  {
    frames', gone := frames, false;
    var bytes := Trimmed(ReadAt(file, r.off, r.len), r.off, wantStart, wantEnd);
    TrimmedIsNextPiece(file, r, wantStart, wantEnd);
    if |bytes| > 0 {
      if |frames| == accepts {
        gone := true;
      } else {
        FlattenAppend(frames, bytes);
        frames' := frames + [bytes];
      }
    }
  }

  /** Fills the window with up to `inflight` reads before the first one is awaited. */
  method InitialFill(segStart: nat, end: nat, chunk: nat, inflight: nat, direct: bool)
    returns (queue: seq<Read>, nextOff: nat)
    requires segStart < end && 0 < chunk
    requires direct ==> segStart % ALIGN == 0 && end % ALIGN == 0 && chunk % ALIGN == 0
    ensures Window(queue, segStart, nextOff, end, chunk, direct) && 0 < |queue| <= Max(inflight, 1)
    ensures nextOff < end ==> |queue| == Max(inflight, 1)
  {
    queue, nextOff := [], segStart;
    var filled := 0;
    while filled < Max(inflight, 1) && nextOff < end
      invariant Window(queue, segStart, nextOff, end, chunk, direct)
      invariant |queue| == filled <= Max(inflight, 1)
    {
      queue, nextOff := SubmitNext(queue, segStart, nextOff, end, chunk, direct);
      filled := filled + 1;
    }
  }

  /** Awaits the oldest read, forwards it, and submits the next one. */
  method Pump(file: seq<byte>, frames: seq<seq<byte>>, queue: seq<Read>, ghost pos: nat, nextOff: nat, end: nat,
              wantStart: nat, wantEnd: nat, chunk: nat, direct: bool, accepts: nat)
    returns (r: Read, frames': seq<seq<byte>>, gone: bool, queue': seq<Read>, nextOff': nat)
    requires 0 < chunk && end <= |file| && wantStart <= wantEnd <= |file|
    requires direct ==> end % ALIGN == 0 && chunk % ALIGN == 0
    requires Window(queue, pos, nextOff, end, chunk, direct) && queue != []
    requires Flatten(frames) == file[wantStart..Clamp(pos, wantStart, wantEnd)] && NoEmptyFrame(frames)
    requires |frames| <= accepts
    ensures |frames'| <= accepts
    ensures gone ==> |frames'| == accepts && Clamp(pos, wantStart, wantEnd) < wantEnd
    ensures Issuable(r, end, chunk, direct) && r.off == pos && NoEmptyFrame(frames')
    ensures Flatten(frames') == file[wantStart..Clamp(if gone then pos else pos + r.len, wantStart, wantEnd)]
    ensures !gone ==> Window(queue', pos + r.len, nextOff', end, chunk, direct)
    ensures !gone && queue' == [] ==> pos + r.len == end
    ensures |queue'| <= |queue| && (!gone && nextOff < end ==> |queue'| == |queue|)
  {
    r := queue[0];
    PopWindow(queue, pos, nextOff, end, chunk, direct);
    queue', nextOff' := queue[1..], nextOff;
    frames', gone := Forward(file, frames, r, wantStart, wantEnd, accepts);
    if !gone && nextOff < end {
      queue', nextOff' := SubmitNext(queue', pos + r.len, nextOff, end, chunk, direct);
    }
  }

  /**
   * Streams [segStart, segEnd) through a window of at most `inflight` reads and
   * forwards the wanted bytes in order; `peak` is how many were ever in it.  The client hangs up after `accepts` frames: `gone`
   * reports that it did with wanted bytes left; otherwise all those of the segment were sent.
   */
  method StreamSegment(file: seq<byte>, segStart: nat, segEnd: nat, wantStart: nat, wantEnd: nat,
                       chunk: nat, inflight: nat, direct: bool, accepts: nat)
    returns (frames: seq<seq<byte>>, gone: bool, issued: seq<Read>, peak: nat)
    requires 0 < chunk
    requires segStart <= wantStart <= wantEnd <= |file| && segEnd <= |file|
    requires direct ==> segStart % ALIGN == 0 && segEnd % ALIGN == 0 && chunk % ALIGN == 0
    ensures !gone ==> Flatten(frames) == file[wantStart..Clamp(segEnd, wantStart, wantEnd)]
    ensures |frames| <= accepts && (gone ==> |frames| == accepts && |Flatten(frames)| < wantEnd - wantStart)
    ensures PrefixOf(frames, file[wantStart..wantEnd])
    ensures NoEmptyFrame(frames)
    ensures forall i :: 0 <= i < |issued| ==> Issuable(issued[i], segEnd, chunk, direct)
    ensures peak <= Max(inflight, 1)
  {
    hide Window, Issuable, Flatten, NoEmptyFrame;
    frames, gone, issued, peak := [], false, [], 0;
    assert Flatten(frames) == [] && NoEmptyFrame(frames) by { EmptyFrames(); }
    var effectiveEnd := EffectiveEnd(|file|, segEnd, direct);
    if segStart >= effectiveEnd {
      return;
    }
    var queue, nextOff := InitialFill(segStart, effectiveEnd, chunk, inflight, direct);
    peak := |queue|;
    ghost var pos := segStart;
    while queue != []
      invariant Window(queue, pos, nextOff, segEnd, chunk, direct)
      invariant queue == [] ==> pos == segEnd
      invariant Flatten(frames) == file[wantStart..Clamp(pos, wantStart, wantEnd)]
      invariant NoEmptyFrame(frames) && |frames| <= accepts && |queue| <= peak <= Max(inflight, 1)
      invariant forall i :: 0 <= i < |issued| ==> Issuable(issued[i], segEnd, chunk, direct)
      decreases segEnd - pos
    {
      var r;
      r, frames, gone, queue, nextOff :=
        Pump(file, frames, queue, pos, nextOff, effectiveEnd, wantStart, wantEnd, chunk, direct, accepts);
      issued, peak := issued + [r], Max(peak, |queue|);
      if gone {
        return;
      }
      pos := pos + r.len;
    }
  }

  /** Direct reads never pass the last whole block; for an aligned segment inside the file the cap changes nothing. */
  function EffectiveEnd(fileSize: nat, segEnd: nat, direct: bool): (end: nat)
    requires segEnd <= fileSize && (direct ==> segEnd % ALIGN == 0)
    ensures end == segEnd
  {
    AlignDownIsFloor(fileSize, ALIGN);
    if direct then Min(segEnd, AlignDown(fileSize, ALIGN)) else segEnd
  }

  /** The ring's share of a range: whole blocks of the file in direct mode, the range itself otherwise. */
  function RingSegment(wantStart: nat, wantEnd: nat, size: nat, direct: bool): (seg: (nat, nat))
    requires wantStart <= wantEnd <= size <= MAX_FILE
    ensures seg.0 <= wantStart && seg.1 <= size
    ensures direct ==> seg.0 % ALIGN == 0 && seg.1 % ALIGN == 0 && wantEnd < seg.1 + ALIGN
    ensures !direct ==> seg == (wantStart, wantEnd)
  {
    AlignDownIsFloor(wantStart, ALIGN);
    AlignDownIsFloor(size, ALIGN);
    AlignDownIsFloor(U64 - 1, ALIGN);
    AlignUpIsCeilingUntilSaturation(wantEnd, ALIGN);
    if direct then (AlignDown(wantStart, ALIGN), Min(AlignUp(wantEnd, ALIGN), AlignDown(size, ALIGN)))
    else (wantStart, wantEnd)
  }

  /**
   * The body of a range GET.  In direct mode the aligned segment stops at the last
   * whole ALIGN block of the file and one buffered read serves what is left.  The client gets
   * all of it, unless it hangs up after `accepts` frames with some left.
   */
  method EmitRange(file: seq<byte>, wantStart: nat, wantEnd: nat, cfg: StreamCfg, accepts: nat)
    returns (frames: seq<seq<byte>>, gone: bool, issued: seq<Read>, tail: Option<Read>, peak: nat)
    requires cfg.Valid()
    requires wantStart <= wantEnd <= |file| <= MAX_FILE
    ensures gone <==> Flatten(frames) != file[wantStart..wantEnd]
    ensures |frames| <= accepts && (gone ==> |frames| == accepts)
    ensures PrefixOf(frames, file[wantStart..wantEnd])
    ensures NoEmptyFrame(frames)
    ensures forall i :: 0 <= i < |issued| ==>
              Issuable(issued[i], |file|, cfg.chunk, cfg.directIo && cfg.chunk % ALIGN == 0)
    ensures peak <= Max(cfg.inflight, 1)
    ensures tail.Some? ==> cfg.directIo && 0 < tail.value.len < ALIGN <= cfg.chunk
                           && tail.value.off + tail.value.len == wantEnd
  {
    frames, gone, issued, tail, peak := [], false, [], None, 0;
    var direct := cfg.directIo && cfg.chunk % ALIGN == 0;
    var (segStart, directEnd) := RingSegment(wantStart, wantEnd, |file|, direct);
    if directEnd > segStart {
      frames, gone, issued, peak :=
        StreamSegment(file, segStart, directEnd, wantStart, wantEnd, cfg.chunk, cfg.inflight, direct, accepts);
      if gone {
        return;
      }
    }
    var tailStart := Max(wantStart, directEnd);
    if wantEnd > tailStart {
      tail := Some(Read(tailStart, wantEnd - tailStart));
      frames, gone := Forward(file, frames, tail.value, wantStart, wantEnd, accepts);
    }
  }
}
