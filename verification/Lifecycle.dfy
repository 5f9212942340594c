/**
 * Whole uploads: part uploads that interleave as they like, completions, completions that are
 * refused, and what comes after a refusal.
 */
module Lifecycle {
  import opened Posix
  import opened Align
  import opened Streaming
  import opened Multipart
  import opened Completion

  // ------------------------------------------------------------ completing an upload with nothing in flight

  /** What is known of an upload: the latest recorded payloads of its untorn parts. */
  function Known(u: Multipart.Upload): map<nat, seq<byte>> {
    u.last - u.torn
  }

  lemma QuietPart(u: Multipart.Upload, pn: nat)
    requires Inv(u) && u.flights == map[] && pn in Known(u)
    ensures pn in u.meta.parts && PartHolds(u.meta, u.direct, u.files, pn, Known(u)[pn])
    ensures PartReads(u.meta, u.direct, u.files, pn, Known(u)[pn]) && PartPresent(u.meta, u.direct, u.files, pn)
    ensures PlacedRight(u.meta, pn, u.meta.parts[pn].size, u.meta.parts[pn].stored) && u.meta.parts[pn].size == |Known(u)[pn]|
  {
    hide FlightsHold, Touched, Overwritten, Reads;
    assert PartKept(u, pn, u.last[pn]);
    NoFlight(u, pn);
    KeptHolds(u, pn, u.last[pn]);
    HoldsReads(u.meta, u.direct, u.files, pn, u.last[pn]);
  }

  lemma QuietKnown(u: Multipart.Upload, n: nat)
    requires Inv(u) && u.flights == map[]
    ensures Layout(u) && Intact(u.meta, u.direct, u.files, Known(u), n)
    ensures forall pn :: pn in Known(u) ==> pn in u.meta.parts && MAX_PARTS * |Known(u)[pn]| < U64
    ensures AllIn(Known(u), n) ==> Present(u.meta, u.direct, u.files, n)
  {
    hide Inv, PartHolds, PartReads, PartPresent;
    forall pn | pn in Known(u)
      ensures pn in u.meta.parts && PartReads(u.meta, u.direct, u.files, pn, Known(u)[pn])
      ensures PartPresent(u.meta, u.direct, u.files, pn) && MAX_PARTS * |Known(u)[pn]| < U64
    {
      QuietPart(u, pn);
    }
    assert Layout(u) by { InvHasLayout(u); }
  }

  lemma InvHasLayout(u: Multipart.Upload)
    requires Inv(u)
    ensures Layout(u)
  {
  }

  /** How the kernel answers decide a completion that gets as far as publishing. */
  function Answered(m: Meta, files: map<nat, seq<byte>>, k: Answers, n: nat, noreplace: bool): Verdict
    requires 1 <= n && Recorded(m, n)
  {
    if FastDecides(m, files, k, n, noreplace) then CommitVerdict(k.direct, true, noreplace)
    else if k.assembles then CommitVerdict(k.staged, !k.beside, noreplace)
    else Failed
  }

  /** The answer to a completion: the object is the latest recorded payloads of the listed parts, one after the other. */
  function Expected(m: Meta, files: map<nat, seq<byte>>, last: map<nat, seq<byte>>, requested: seq<nat>, noreplace: bool,
                    precondition: bool, k: Answers): Outcome
    requires requested != [] && last.Keys == m.parts.Keys
  {
    if !ListOk(m, requested) then BadRequest
    else if !precondition then PreconditionFailed
    else
      match Answered(m, files, k, |requested|, noreplace)
      case Done => Published(Assembled(last, |requested|))
      case Taken => PreconditionFailed
      case Failed => InternalError
  }

  /** The direct parts beyond the list that a completion has cut off or overwritten. */
  function Lost(m: Meta, n: nat, stage: Stage): set<nat>
    requires 1 <= n && n in m.parts
  {
    set pn | pn in m.parts && pn > n && m.parts[pn].stored.Direct? && m.parts[pn].size > 0
             && m.assumed.Some? && !stage.Untouched?
             && (stage.Cut? || (pn - 1) * m.assumed.value < LayoutEnd(m, n, m.assumed.value))
  }

  /** A part file longer than the part size has been put into a slot of direct.bin. */
  predicate Overfilled(m: Meta, n: nat, stage: Stage)
    requires 1 <= n && n in m.parts
  {
    (stage.Filled? || stage.Cut?) && m.assumed.Some? && m.parts[n].size > m.assumed.value
  }

  /** The upload after a refused completion: the parts lost are torn. */
  ghost function Refused(u: Multipart.Upload, m: Meta, direct: seq<byte>, files: map<nat, seq<byte>>, n: nat, stage: Stage): Multipart.Upload
    requires 1 <= n && n in u.meta.parts
  {
    u.(meta := m, direct := direct, files := files, torn := u.torn + Lost(u.meta, n, stage))
  }

  /** What a refused completion leaves behind. */
  ghost predicate LeftBehind(u: Multipart.Upload, m: Meta, direct: seq<byte>, files: map<nat, seq<byte>>, n: nat, k: Answers)
    requires 1 <= n <= MAX_PARTS && Recorded(u.meta, n)
  {
    && UpTo(u.meta, m, u.files, files, n) && FilledIn(u.meta, m, n, StageOf(u.meta, u.files, k, n))
    && Intact(m, direct, files, Known(u), n) && Present(m, direct, files, n)
    && Passed(u.meta, n, u.direct, direct, StageOf(u.meta, u.files, k, n))
  }

  /** A part found where the metadata says, with nothing in flight, is kept. */
  lemma FoundKept(u: Multipart.Upload, pn: nat, content: seq<byte>)
    requires pn !in u.flights && PartReads(u.meta, u.direct, u.files, pn, content)
    requires PartPresent(u.meta, u.direct, u.files, pn)
    ensures PartKept(u, pn, content)
  {
    NoFlight(u, pn);
    if u.meta.parts[pn].stored.Direct? { PresentBytes(u.direct, u.meta.parts[pn].stored.off, content); }
  }

  /** A part beyond the list that is not lost is kept. */
  lemma BeyondKept(u: Multipart.Upload, u': Multipart.Upload, n: nat, stage: Stage, pn: nat, content: seq<byte>)
    requires 1 <= n < pn && n in u.meta.parts && PartHolds(u.meta, u.direct, u.files, pn, content) && pn !in u'.flights
    requires pn in u'.meta.parts && u'.meta.parts[pn] == u.meta.parts[pn]
    requires pn in u.files ==> pn in u'.files && u'.files[pn] == u.files[pn]
    requires PlacedRight(u.meta, pn, u.meta.parts[pn].size, u.meta.parts[pn].stored)
    requires Passed(u.meta, n, u.direct, u'.direct, stage) && pn !in Lost(u.meta, n, stage)
    ensures PartKept(u', pn, content)
  {
    hide HoldsAt, Passed, LayoutEnd;
    NoFlight(u', pn);
    if u.meta.parts[pn].stored.Direct? && |content| > 0 {
      SlotsApart(n, pn, u.meta.assumed.value);
      LeftBytes(u.meta, n, u.direct, u'.direct, stage, u.meta.parts[pn].stored.off, content);
    }
  }

  lemma LeftPartKept(u: Multipart.Upload, m: Meta, direct: seq<byte>, files: map<nat, seq<byte>>, n: nat, k: Answers, pn: nat)
    requires Inv(u) && u.flights == map[] && 1 <= n <= MAX_PARTS && Recorded(u.meta, n) && LeftBehind(u, m, direct, files, n, k)
    requires pn in u.last && pn !in Refused(u, m, direct, files, n, StageOf(u.meta, u.files, k, n)).torn
    ensures PartKept(Refused(u, m, direct, files, n, StageOf(u.meta, u.files, k, n)), pn, u.last[pn])
  {
    hide Inv, StageOf, FilledIn, Lost, PartReads, PartPresent, Passed, PartHolds, PartKept, PlacedRight, MovedIn;
    var stage := StageOf(u.meta, u.files, k, n);
    var u', content := Refused(u, m, direct, files, n, stage), u.last[pn];
    assert pn in Known(u);
    QuietPart(u, pn);
    if pn <= n {
      assert 1 <= pn by { PartNumbers(u, pn); }
      assert PartReads(m, direct, files, pn, content) && PartPresent(m, direct, files, pn);
      FoundKept(u', pn, content);
    } else {
      BeyondKept(u, u', n, stage, pn, content);
    }
  }

  lemma PartNumbers(u: Multipart.Upload, pn: nat)
    requires Inv(u) && pn in u.meta.parts
    ensures 1 <= pn <= MAX_PARTS
  {
    assert PlacedRight(u.meta, pn, u.meta.parts[pn].size, u.meta.parts[pn].stored);
  }

  lemma PresentBytes(f: seq<byte>, off: nat, data: seq<byte>)
    requires Reads(f, off, data) && (|data| == 0 || off + |data| <= |f|)
    ensures forall i :: 0 <= i < |data| ==> ByteAt(f, off + i, data[i])
  {
    forall i | 0 <= i < |data| ensures ByteAt(f, off + i, data[i]) { assert ByteOrZero(f, off + i) == data[i]; }
  }

  /** Bytes past what the completion changed are where they were. */
  lemma LeftBytes(m: Meta, n: nat, before: seq<byte>, after: seq<byte>, stage: Stage, off: nat, data: seq<byte>)
    requires 1 <= n && n in m.parts && Passed(m, n, before, after, stage) && HoldsAt(before, off, data)
    requires m.assumed.Some? && !stage.Cut? && (n - 1) * m.assumed.value <= off
    requires stage.Untouched? || LayoutEnd(m, n, m.assumed.value) <= off
    ensures forall i :: 0 <= i < |data| ==> ByteAt(after, off + i, data[i])
  {
    forall i | 0 <= i < |data|
      ensures ByteAt(after, off + i, data[i])
    {
      assert before[off..off + |data|][i] == before[off + i];
      assert ByteOrZero(before, off + i) == ByteOrZero(after, off + i);
    }
  }

  /** A part that moved into direct.bin fits its slot, unless it is a long last one. */
  lemma MovedSize(u: Multipart.Upload, m: Meta, files: map<nat, seq<byte>>, n: nat, k: Answers, pn: nat)
    requires 1 <= n && Recorded(u.meta, n) && UpTo(u.meta, m, u.files, files, n) && FilledIn(u.meta, m, n, StageOf(u.meta, u.files, k, n))
    requires pn in m.parts && m.parts[pn] != u.meta.parts[pn] && u.meta.assumed.Some?
    requires !Overfilled(u.meta, n, StageOf(u.meta, u.files, k, n))
    ensures 1 <= pn <= n && m.parts[pn] == PartMeta(u.meta.parts[pn].size, Direct(DirectOff(pn, u.meta.assumed.value)))
    ensures u.meta.parts[pn].size <= u.meta.assumed.value
  {
    hide HolesFill, Attempted, DirectOff;
    assert MovedIn(u.meta, m, pn);
  }

  lemma LeftLayout(u: Multipart.Upload, m: Meta, direct: seq<byte>, files: map<nat, seq<byte>>, n: nat, k: Answers)
    requires Inv(u) && u.flights == map[] && 1 <= n <= MAX_PARTS && Recorded(u.meta, n) && LeftBehind(u, m, direct, files, n, k)
    ensures Layout(Refused(u, m, direct, files, n, StageOf(u.meta, u.files, k, n)))
            <==> !Overfilled(u.meta, n, StageOf(u.meta, u.files, k, n))
  {
    hide FlightsHold, PartsHold, Intact, Present, Passed, HolesFill, Attempted;
    var stage := StageOf(u.meta, u.files, k, n);
    var u' := Refused(u, m, direct, files, n, stage);
    if u.meta.assumed.None? {
      assert m.parts == u.meta.parts;
    } else {
      var s := u.meta.assumed.value;
      OffsetDoesNotWrap(n, s);
      assert PlacedRight(u.meta, n, u.meta.parts[n].size, u.meta.parts[n].stored);
      if Overfilled(u.meta, n, stage) {
        assert !PlacedRight(m, n, m.parts[n].size, m.parts[n].stored);
      } else {
        forall pn | pn in m.parts
          ensures PlacedRight(m, pn, m.parts[pn].size, m.parts[pn].stored)
        {
          assert PlacedRight(u.meta, pn, u.meta.parts[pn].size, u.meta.parts[pn].stored);
          if m.parts[pn] != u.meta.parts[pn] {
            MovedSize(u, m, files, n, k, pn);
            OffsetDoesNotWrap(pn, s);
          }
        }
      }
    }
  }

  /**
   * A refused completion leaves an upload that keeps the protocol's invariant, with the lost
   * parts torn until they are uploaded again, if and only if no part file longer than the
   * part size went into direct.bin.
   */
  lemma RefusalKeepsInv(u: Multipart.Upload, m: Meta, direct: seq<byte>, files: map<nat, seq<byte>>, n: nat, k: Answers)
    requires Inv(u) && u.flights == map[] && 1 <= n <= MAX_PARTS && Recorded(u.meta, n) && LeftBehind(u, m, direct, files, n, k)
    ensures Inv(Refused(u, m, direct, files, n, StageOf(u.meta, u.files, k, n)))
            <==> !Overfilled(u.meta, n, StageOf(u.meta, u.files, k, n))
  {
    hide Layout, PartKept, LeftBehind, StageOf, Overfilled, Lost, FlightHolds;
    LeftLayout(u, m, direct, files, n, k);
    var u' := Refused(u, m, direct, files, n, StageOf(u.meta, u.files, k, n));
    forall pn | pn in u'.last && pn !in u'.torn
      ensures PartKept(u', pn, u'.last[pn])
    {
      LeftPartKept(u, m, direct, files, n, k, pn);
    }
  }

  lemma InvFits(u: Multipart.Upload, n: nat)
    requires Layout(u) && 1 <= n <= MAX_PARTS && n in u.meta.parts
    ensures Fitting(u.meta, n)
  {
    var size := u.meta.parts[n].size;
    assert PlacedRight(u.meta, n, size, u.meta.parts[n].stored);
    if u.meta.assumed.Some? {
      var s := u.meta.assumed.value;
      MulMonotone(n - 1, MAX_PARTS - 1, s);
      assert MAX_PARTS * ((MAX_PARTS - 1) * s + size) == (MAX_PARTS - 1) * (MAX_PARTS * s) + MAX_PARTS * size;
    }
  }

  lemma ListIsContiguous(m: Meta, requested: seq<nat>)
    requires requested != [] && Increasing(requested) && ListOk(m, requested)
    ensures forall i :: 0 <= i < |requested| ==> requested[i] == i + 1
  {
    forall i | 0 <= i < |requested| ensures requested[i] == i + 1 { ContiguousList(requested, i); }
  }

  /** Parts whose 10 000-fold fits make an object that fits. */
  lemma SumBelow(content: map<nat, seq<byte>>, n: nat)
    requires AllIn(content, n) && n <= MAX_PARTS
    requires forall pn :: 1 <= pn <= n ==> MAX_PARTS * |content[pn]| < U64
    ensures |Assembled(content, n)| < U64
  {
    SumBounded(content, n, n);
  }

  lemma {:induction false} SumBounded(content: map<nat, seq<byte>>, n: nat, k: nat)
    requires AllIn(content, n) && k <= n
    requires forall pn :: 1 <= pn <= n ==> MAX_PARTS * |content[pn]| < U64
    ensures MAX_PARTS * |Assembled(content, k)| <= k * (U64 - 1)
  {
    if k > 0 { SumBounded(content, n, k - 1); }
  }

  lemma {:induction false} SameParts(a: map<nat, seq<byte>>, b: map<nat, seq<byte>>, n: nat)
    requires forall pn :: 1 <= pn <= n ==> pn in a && pn in b && a[pn] == b[pn]
    ensures Assembled(a, n) == Assembled(b, n)
  {
    if n > 0 { SameParts(a, b, n - 1); }
  }

  /** A proper list of untorn parts is all known. */
  lemma ListKnown(u: Multipart.Upload, requested: seq<nat>)
    requires Inv(u) && u.flights == map[] && requested != [] && Increasing(requested) && ListOk(u.meta, requested)
    requires forall i :: 0 <= i < |requested| ==> requested[i] !in u.torn
    ensures AllIn(Known(u), |requested|) && AllIn(u.last, |requested|)
    ensures Assembled(Known(u), |requested|) == Assembled(u.last, |requested|)
    ensures |Assembled(Known(u), |requested|)| < U64
  {
    hide FlightsHold, PartsHold;
    var n := |requested|;
    ListIsContiguous(u.meta, requested);
    forall pn | 1 <= pn <= n
      ensures pn in Known(u)
    {
      assert requested[pn - 1] == pn;
    }
    SameParts(Known(u), u.last, n);
    QuietKnown(u, n);
    SumBelow(Known(u), n);
  }

  /**
   * Completing an upload with nothing in flight and no torn part listed: the answer is
   * exactly the expected one, and a refusal by the rename leaves the upload behind as
   * `after`, from which the protocol goes on unless a long part file was put in a slot.
   */
  method CompleteQuiet(dst: Destination, dir: UploadDir, ghost u: Multipart.Upload, requested: seq<nat>, noreplace: bool, precondition: bool,
                       cfg: StreamCfg, k: Answers)
    returns (r: Outcome, ghost after: Multipart.Upload)
    requires Inv(u) && u.flights == map[]
    requires dir.meta == u.meta && dir.direct.data == u.direct && dir.files == u.files
    requires cfg.Valid() && requested != [] && Increasing(requested)
    requires forall i :: 0 <= i < |requested| ==> requested[i] !in u.torn
    modifies dir, dir.direct, dst
    ensures dst.place.stored == old(dst.place).stored + if r.Published? then 1 else 0
    ensures r.Published? ==> dst.place.held == Some(r.bytes)
    ensures noreplace ==> dst.place.displaced == old(dst.place).displaced
    ensures r.InternalError? ==>
              && Recorded(u.meta, |requested|)
              && (dst.place.displaced > old(dst.place).displaced <==> !noreplace && Empties(u.meta, u.files, k, |requested|))
              && (k.assembles ==> dst.place.held == LeftThere(k.staged, !k.beside, true, noreplace))
    ensures r == Expected(u.meta, u.files, u.last, requested, noreplace, precondition, k)
    ensures dir.meta.phase.Active? <==> r.PreconditionFailed? && precondition
    ensures r.PreconditionFailed? && precondition ==>
              var n, stage := |requested|, StageOf(u.meta, u.files, k, |requested|);
              && after == Refused(u, dir.meta, dir.direct.data, dir.files, n, stage)
              && LeftBehind(u, dir.meta, dir.direct.data, dir.files, n, k)
              && (Inv(after) <==> !Overfilled(u.meta, n, stage))
  {
    hide Inv, Intact, Present, StageOf, FastDecides, Passed, FilledIn, Fitting, Overfilled, Lost, Known, Assembled;
    QuietKnown(u, requested[|requested| - 1]);
    assert u.meta.phase.Active?;
    r := dir.Complete(dst, requested, noreplace, precondition, cfg, k, Known(u));
    after := u;
    if ListOk(u.meta, requested) {
      ListKnown(u, requested);
      InvFits(u, |requested|);
      if r.PreconditionFailed? && precondition {
        RefusalKeepsInv(u, dir.meta, dir.direct.data, dir.files, |requested|, k);
        after := Refused(u, dir.meta, dir.direct.data, dir.files, |requested|, StageOf(u.meta, u.files, k, |requested|));
      }
    }
  }

  /**
   * The whole protocol: starting from an upload that keeps the invariant, as a new one does
   * and one left behind by a refused completion, whatever uploads run and however they
   * interleave, once nothing is in flight a completion is answered as expected, the object
   * being the latest recorded payloads of parts 1..n in order, read off the events alone.
   */
  method CompleteAfterRun(dst: Destination, dir: UploadDir, ghost start: Multipart.Upload, ghost es: seq<Event>, ghost u: Multipart.Upload,
                          requested: seq<nat>, noreplace: bool, precondition: bool, cfg: StreamCfg, k: Answers)
    returns (r: Outcome)
    requires Inv(start) && start.flights == map[]
    requires Run(start, es, u) && (forall i :: 0 <= i < |es| ==> Fits(es[i])) && u.flights == map[]
    requires dir.meta == u.meta && dir.direct.data == u.direct && dir.files == u.files
    requires cfg.Valid() && requested != [] && Increasing(requested)
    requires forall i :: 0 <= i < |requested| ==> requested[i] !in u.torn
    modifies dir, dir.direct, dst
    ensures dst.place.stored == old(dst.place).stored + if r.Published? then 1 else 0
    ensures r.Published? ==> dst.place.held == Some(r.bytes)
    ensures noreplace ==> dst.place.displaced == old(dst.place).displaced
    ensures var recorded := Books(Ledger(map[], start.last), es).recorded;
            recorded.Keys == u.meta.parts.Keys && r == Expected(u.meta, u.files, recorded, requested, noreplace, precondition, k)
  {
    hide Run, Books, Expected;
    RunIsQuiet(start, es, u);
    ghost var after;
    r, after := CompleteQuiet(dst, dir, u, requested, noreplace, precondition, cfg, k);
  }

  lemma RunIsQuiet(start: Multipart.Upload, es: seq<Event>, u: Multipart.Upload)
    requires Inv(start) && start.flights == map[]
    requires Run(start, es, u) && forall i :: 0 <= i < |es| ==> Fits(es[i])
    ensures Inv(u) && u.last == Books(Ledger(map[], start.last), es).recorded && u.last.Keys == u.meta.parts.Keys
  {
    hide Run, Books, FlightsHold, PartsHold;
    RunKeepsInv(start, es, u);
    RunKeepsLedger(start, es, u, Ledger(map[], start.last));
  }

  /** A new upload is such a start, with nothing recorded. */
  method CompleteNewUpload(dst: Destination, dir: UploadDir, ghost es: seq<Event>, ghost u: Multipart.Upload,
                           requested: seq<nat>, noreplace: bool, precondition: bool, cfg: StreamCfg, k: Answers)
    returns (r: Outcome)
    requires Run(Created, es, u) && (forall i :: 0 <= i < |es| ==> Fits(es[i])) && u.flights == map[]
    requires dir.meta == u.meta && dir.direct.data == u.direct && dir.files == u.files
    requires cfg.Valid() && requested != [] && Increasing(requested)
    requires forall i :: 0 <= i < |requested| ==> requested[i] !in u.torn
    modifies dir, dir.direct, dst
    ensures r.Published? ==>
              var recorded, n := Books(Ledger(map[], map[]), es).recorded, |requested|;
              && (forall i :: 0 <= i < n ==> requested[i] == i + 1)
              && AllIn(recorded, n) && r.bytes == Assembled(recorded, n)
    ensures ListOk(u.meta, requested) && precondition && k.assembles && !CommitVerdict(k.direct, true, noreplace).Taken? ==>
              CommitVerdict(k.staged, !k.beside, noreplace).Done? ==> r.Published?
  {
    hide Run, Books, Inv, StageOf;
    CreatedInv();
    r := CompleteAfterRun(dst, dir, Created, es, u, requested, noreplace, precondition, cfg, k);
    if r.Published? { ListIsContiguous(u.meta, requested); }
  }

  // ------------------------------------------------------------ completing again after a 412

  /**
   * Byte `i` of a direct part `pn` beyond the list after a completion of 1..n that got so far:
   * overwritten by a last part longer than its slot, cut off, or as it was.
   */
  function LeftByte(content: map<nat, seq<byte>>, n: nat, s: nat, stage: Stage, pn: nat, i: nat): byte
    requires n < pn && n in content && pn in content && i < |content[pn]|
  {
    if stage.Untouched? then content[pn][i]
    else if (pn - n) * s + i < |content[n]| then content[n][(pn - n) * s + i]
    else if stage.Cut? then 0
    else content[pn][i]
  }

  function LeftPart(content: map<nat, seq<byte>>, n: nat, s: nat, stage: Stage, pn: nat, len: nat): (data: seq<byte>)
    requires n < pn && n in content && pn in content && len <= |content[pn]|
    ensures |data| == len && forall i :: 0 <= i < len ==> data[i] == LeftByte(content, n, s, stage, pn, i)
  {
    if len == 0 then []
    else LeftPart(content, n, s, stage, pn, len - 1) + [LeftByte(content, n, s, stage, pn, len - 1)]
  }

  /** The parts as a second completion finds them. */
  function Retried(m: Meta, content: map<nat, seq<byte>>, n: nat, stage: Stage): map<nat, seq<byte>>
    requires n in content && forall pn :: pn in content ==> pn in m.parts
  {
    map pn | pn in content ::
      if pn > n && m.parts[pn].stored.Direct? && m.assumed.Some?
      then LeftPart(content, n, m.assumed.value, stage, pn, |content[pn]|) else content[pn]
  }

  /** Every direct part beyond the list is, byte for byte, what the first completion leaves there. */
  predicate RetryRight(m: Meta, content: map<nat, seq<byte>>, n: nat, n': nat, stage: Stage)
    requires n in content && forall pn :: pn in content ==> pn in m.parts
  {
    m.assumed.Some? ==>
      forall pn, i :: n < pn <= n' && pn in content && m.parts[pn].stored.Direct? && 0 <= i < |content[pn]|
                      ==> content[pn][i] == LeftByte(content, n, m.assumed.value, stage, pn, i)
  }

  /** No direct part of the longer list begins before the first list ends. */
  predicate NoOverlap(m: Meta, content: map<nat, seq<byte>>, n: nat, n': nat)
    requires n in content && forall pn :: pn in content ==> pn in m.parts
  {
    m.assumed.Some? ==>
      forall pn :: n < pn <= n' && pn in content && m.parts[pn].stored.Direct? ==> |content[n]| <= (pn - n) * m.assumed.value
  }

  lemma {:induction false} AssembledEqualIff(a: map<nat, seq<byte>>, b: map<nat, seq<byte>>, n: nat)
    requires AllIn(a, n) && AllIn(b, n) && forall pn :: 1 <= pn <= n ==> |a[pn]| == |b[pn]|
    ensures Assembled(a, n) == Assembled(b, n) <==> forall pn :: 1 <= pn <= n ==> a[pn] == b[pn]
    ensures |Assembled(a, n)| == |Assembled(b, n)|
  {
    if n > 0 {
      AssembledEqualIff(a, b, n - 1);
      var x, y := Assembled(a, n - 1), Assembled(b, n - 1);
      if x + a[n] == y + b[n] {
        assert x == (x + a[n])[..|x|] == (y + b[n])[..|x|] == y;
        assert a[n] == (x + a[n])[|x|..] == (y + b[n])[|x|..] == b[n];
      }
    }
  }

  /** The retried parts are the recorded ones exactly when every byte beyond the list is. */
  lemma RetriedIff(m: Meta, content: map<nat, seq<byte>>, n: nat, n': nat, stage: Stage)
    requires n in content && (forall pn :: pn in content ==> pn in m.parts) && AllIn(content, n')
    ensures var left := Retried(m, content, n, stage);
            && AllIn(left, n') && |Assembled(left, n')| == |Assembled(content, n')|
            && (Assembled(left, n') == Assembled(content, n') <==> RetryRight(m, content, n, n', stage))
  {
    hide LeftByte, Assembled;
    var left := Retried(m, content, n, stage);
    AssembledEqualIff(left, content, n');
    forall pn | 1 <= pn <= n'
      ensures left[pn] == content[pn]
              <==> (n < pn && m.parts[pn].stored.Direct? && m.assumed.Some? ==>
                      forall i :: 0 <= i < |content[pn]| ==> content[pn][i] == LeftByte(content, n, m.assumed.value, stage, pn, i))
    {
    }
  }

  function Slot(pn: nat, s: nat): nat
    requires 1 <= pn
  {
    (pn - 1) * s
  }

  /** A direct part beyond the list, before and after the first completion. */
  ghost predicate Beyond(m: Meta, content: map<nat, seq<byte>>, n: nat, before: seq<byte>, middle: seq<byte>, stage: Stage, pn: nat) {
    && 1 <= n < pn && n in m.parts && n in content && pn in content && m.assumed.Some?
    && Passed(m, n, before, middle, stage) && m.parts[n].size == |content[n]|
    && Reads(before, Slot(pn, m.assumed.value), content[pn])
    && (stage.Filled? || stage.Cut? ==> Reads(middle, Slot(n, m.assumed.value), content[n]))
    && (stage.Spoiled? ==> |content[n]| <= (pn - n) * m.assumed.value)
  }

  /** A byte of it, read from what the first completion left. */
  lemma LeftReadsByte(m: Meta, content: map<nat, seq<byte>>, n: nat, before: seq<byte>, middle: seq<byte>, stage: Stage,
                      pn: nat, i: nat)
    requires Beyond(m, content, n, before, middle, stage, pn) && i < |content[pn]|
    ensures ByteOrZero(middle, Slot(pn, m.assumed.value) + i) == LeftByte(content, n, m.assumed.value, stage, pn, i)
  {
    var s := m.assumed.value;
    var slot, gap, pos := Slot(n, s), (pn - n) * s, Slot(pn, s) + i;
    SlotGap(n, pn, s);
    assert ByteOrZero(before, pos) == content[pn][i];
    assert LayoutEnd(m, n, s) == slot + |content[n]|;
    hide Slot, LayoutEnd, ByteOrZero;
    if !stage.Untouched? && gap + i < |content[n]| {
      assert ByteOrZero(middle, slot + (gap + i)) == content[n][gap + i];
    } else if stage.Cut? {
      PastEnd(middle, pos);
    }
  }

  lemma PastEnd(f: seq<byte>, pos: nat)
    requires |f| <= pos
    ensures ByteOrZero(f, pos) == 0
  {
  }

  lemma SlotGap(n: nat, pn: nat, s: nat)
    requires 1 <= n <= pn
    ensures Slot(pn, s) == Slot(n, s) + (pn - n) * s
  {
    assert pn - 1 == (n - 1) + (pn - n);
  }

  lemma BeyondHas(m: Meta, content: map<nat, seq<byte>>, n: nat, before: seq<byte>, middle: seq<byte>, stage: Stage, pn: nat)
    requires Beyond(m, content, n, before, middle, stage, pn)
    ensures 1 <= n < pn && n in content && pn in content && m.assumed.Some?
  {
  }

  lemma LeftReads(m: Meta, content: map<nat, seq<byte>>, n: nat, before: seq<byte>, middle: seq<byte>, stage: Stage, pn: nat)
    requires Beyond(m, content, n, before, middle, stage, pn)
    ensures Reads(middle, Slot(pn, m.assumed.value), LeftPart(content, n, m.assumed.value, stage, pn, |content[pn]|))
  {
    hide *;
    BeyondHas(m, content, n, before, middle, stage, pn);
    var off := Slot(pn, m.assumed.value);
    var data := LeftPart(content, n, m.assumed.value, stage, pn, |content[pn]|);
    forall i | 0 <= i < |data|
      ensures ByteOrZero(middle, off + i) == data[i]
    {
      LeftReadsByte(m, content, n, before, middle, stage, pn, i);
    }
    BytesRead(middle, off, data);
  }

  lemma BytesRead(f: seq<byte>, off: nat, data: seq<byte>)
    requires forall i :: 0 <= i < |data| ==> ByteOrZero(f, off + i) == data[i]
    ensures Reads(f, off, data)
  {
  }

  /** What the second completion reads. */
  lemma RetryIntact(u: Multipart.Upload, m: Meta, middle: seq<byte>, files: map<nat, seq<byte>>, n: nat, n': nat, k: Answers)
    requires Inv(u) && u.flights == map[] && 1 <= n <= MAX_PARTS && Recorded(u.meta, n)
    requires LeftBehind(u, m, middle, files, n, k) && n in Known(u)
    requires forall pn :: pn in Known(u) ==> pn in u.meta.parts
    requires StageOf(u.meta, u.files, k, n).Spoiled? ==> NoOverlap(u.meta, Known(u), n, n')
    ensures Intact(m, middle, files, Retried(u.meta, Known(u), n, StageOf(u.meta, u.files, k, n)), n')
  {
    hide Inv, StageOf, Passed, LeftPart, HoldsAt, PartHolds, MovedIn, Known, Reads;
    var stage, content := StageOf(u.meta, u.files, k, n), Known(u);
    var left := Retried(u.meta, content, n, stage);
    forall pn | 1 <= pn <= n' && pn in left
      ensures PartReads(m, middle, files, pn, left[pn])
    {
      QuietPart(u, pn);
      if pn <= n {
        assert PartReads(m, middle, files, pn, content[pn]);
      } else if u.meta.parts[pn].stored.Direct? {
        QuietPart(u, n);
        assert PartReads(m, middle, files, n, content[n]);
        SlotOf(u, n);
        assert Beyond(u.meta, content, n, u.direct, middle, stage, pn);
        LeftReads(u.meta, content, n, u.direct, middle, stage, pn);
      }
    }
  }

  lemma SlotOf(u: Multipart.Upload, n: nat)
    requires Inv(u) && 1 <= n <= MAX_PARTS && u.meta.assumed.Some?
    ensures DirectOff(n, u.meta.assumed.value) == (n - 1) * u.meta.assumed.value
  {
    OffsetDoesNotWrap(n, u.meta.assumed.value);
  }

  /**
   * Two completions of one upload, the second after the first was refused with 412.  If the
   * first did not fail while copying its last part, the second publishes the parts as the
   * first left them, which is the recorded object if and only if every direct part beyond the
   * first list happens to be what was left in its place: bytes of a last part longer than its
   * slot, or zeros if direct.bin was truncated.  If it did fail there, the object is right
   * when no direct part begins before the first list ends.
   */
  method CompleteTwice(dst: Destination, dir: UploadDir, ghost u: Multipart.Upload, first: seq<nat>, k: Answers,
                       second: seq<nat>, noreplace: bool, precondition: bool, k': Answers, cfg: StreamCfg)
    returns (r1: Outcome, r2: Outcome)
    requires Inv(u) && u.flights == map[]
    requires dir.meta == u.meta && dir.direct.data == u.direct && dir.files == u.files
    requires cfg.Valid() && first != [] && Increasing(first) && second != [] && Increasing(second)
    requires forall i :: 0 <= i < |first| ==> first[i] !in u.torn
    requires forall i :: 0 <= i < |second| ==> second[i] !in u.torn
    modifies dir, dir.direct, dst
    ensures r1 == Expected(u.meta, u.files, u.last, first, true, true, k)
    ensures r2.Published? ==> r1.PreconditionFailed? && ListOk(u.meta, first) && ListOk(u.meta, second)
    ensures r2.Published? ==>
              var n, n', content := |first|, |second|, Known(u);
              var stage := StageOf(u.meta, u.files, k, n);
              && n in content && (forall pn :: pn in content ==> pn in u.meta.parts) && AllIn(content, n')
              && (!stage.Spoiled? ==>
                    && AllIn(Retried(u.meta, content, n, stage), n')
                    && r2.bytes == Assembled(Retried(u.meta, content, n, stage), n')
                    && (r2.bytes == Assembled(u.last, n') <==> RetryRight(u.meta, content, n, n', stage)))
              && (stage.Spoiled? && NoOverlap(u.meta, content, n, n') ==> r2.bytes == Assembled(u.last, n'))
  {
    hide Inv, Intact, StageOf, Expected, LeftBehind, Retried, RetryRight, NoOverlap, Known, Assembled;
    assert u.last.Keys == u.meta.parts.Keys by { InvHasLayout(u); }
    ghost var after;
    r1, after := CompleteQuiet(dst, dir, u, first, true, true, cfg, k);
    ghost var m, middle, files, n, n' := dir.meta, dir.direct.data, dir.files, |first|, second[|second| - 1];
    ghost var left := map[];
    NothingKnown(m, middle, files, n');
    if r1.PreconditionFailed? {
      FirstRefused(u, first, k);
      assert m.parts.Keys == u.meta.parts.Keys by { LeftKeys(u, m, middle, files, n, k); }
      QuietKnown(u, n);
      ListKnown(u, first);
      if !StageOf(u.meta, u.files, k, n).Spoiled? || NoOverlap(u.meta, Known(u), n, n') {
        RetryIntact(u, m, middle, files, n, n', k);
        left := Retried(u.meta, Known(u), n, StageOf(u.meta, u.files, k, n));
      }
    }
    r2 := dir.Complete(dst, second, noreplace, precondition, cfg, k', left);
    if r2.Published? {
      SameList(u.meta, m, second);
      ListKnown(u, second);
      RetriedIff(u.meta, Known(u), n, n', StageOf(u.meta, u.files, k, n));
      if StageOf(u.meta, u.files, k, n).Spoiled? { SpoiledRight(u.meta, Known(u), n, n', StageOf(u.meta, u.files, k, n)); }
    }
  }

  lemma NothingKnown(m: Meta, direct: seq<byte>, files: map<nat, seq<byte>>, n: nat)
    ensures Intact(m, direct, files, map[], n)
  {
  }

  lemma FirstRefused(u: Multipart.Upload, first: seq<nat>, k: Answers)
    requires first != [] && u.last.Keys == u.meta.parts.Keys
    requires Expected(u.meta, u.files, u.last, first, true, true, k) == PreconditionFailed
    ensures ListOk(u.meta, first)
  {
  }

  lemma LeftKeys(u: Multipart.Upload, m: Meta, direct: seq<byte>, files: map<nat, seq<byte>>, n: nat, k: Answers)
    requires 1 <= n <= MAX_PARTS && Recorded(u.meta, n) && LeftBehind(u, m, direct, files, n, k)
    ensures m.parts.Keys == u.meta.parts.Keys
  {
  }

  lemma SameList(m: Meta, m': Meta, requested: seq<nat>)
    requires requested != [] && m'.parts.Keys == m.parts.Keys
    ensures ListOk(m, requested) <==> ListOk(m', requested)
  {
  }

  lemma SpoiledRight(m: Meta, content: map<nat, seq<byte>>, n: nat, n': nat, stage: Stage)
    requires n in content && (forall pn :: pn in content ==> pn in m.parts) && stage.Spoiled?
    ensures NoOverlap(m, content, n, n') ==> RetryRight(m, content, n, n', stage)
  {
  }

  const FREE := Try(None, true, Works)
  const TAKEN := Try(Some([1]), true, Works)

  /** Answers under which everything works up to the commit of direct.bin. */
  function Smooth(direct: Commit): Answers {
    Answers(true, {}, {}, {}, {}, true, direct, true, true, false, Commit(FREE, true, FREE))
  }

  function Here(t: Try): Commit {
    Commit(t, true, FREE)
  }

  /** Two one-byte parts in direct.bin, planned, written and recorded. */
  method TwoParts() returns (dir: UploadDir)
    ensures fresh(dir) && fresh(dir.direct) && dir.direct.data == [7, 9] && dir.files == map[]
    ensures dir.meta == Meta(Active, Some(1), map[1 := PartMeta(1, Direct(0)), 2 := PartMeta(1, Direct(1))])
  {
    dir := new UploadDir();
    var p := dir.PlanPart(1, 1);
    assert p == Placed(Direct(0));
    dir.direct.data := WriteAt(dir.direct.data, p.stored.off, [7]);
    var ok := dir.RecordPart(1, 1, p.stored);
    p := dir.PlanPart(2, 1);
    assert p == Placed(Direct(1));
    dir.direct.data := WriteAt(dir.direct.data, p.stored.off, [9]);
    ok := dir.RecordPart(2, 1, p.stored);
    assert dir.direct.data == [7, 9];
  }

  /** With both parts direct, the fast path of either list cuts direct.bin. */
  lemma TwoPartsCut(m: Meta, files: map<nat, seq<byte>>, n: nat, direct: Commit)
    requires m == Meta(Active, Some(1), map[1 := PartMeta(1, Direct(0)), 2 := PartMeta(1, Direct(1))]) && 1 <= n <= 2
    ensures Recorded(m, n) && StageOf(m, files, Smooth(direct), n).Cut? && Fitting(m, n)
    ensures FastDecides(m, files, Smooth(direct), n, true) <==> !CommitVerdict(direct, true, true).Failed?
  {
  }

  lemma TwoPartsLeft(m: Meta, m': Meta, middle: seq<byte>, files: map<nat, seq<byte>>)
    requires m == Meta(Active, Some(1), map[1 := PartMeta(1, Direct(0)), 2 := PartMeta(1, Direct(1))])
    requires UpTo(m, m', map[], files, 1) && Passed(m, 1, [7, 9], middle, Cut) && Intact(m', middle, files, map[1 := [7]], 1)
    ensures m' == m && Intact(m', middle, files, map[1 := [7], 2 := [0]], 2)
  {
    assert m'.parts == m.parts;
    var content: map<nat, seq<byte>> := map[1 := [7]];
    assert PartReads(m', middle, files, 1, content[1]);
    assert ByteOrZero(middle, 0 + 0) == content[1][0];
  }

  lemma TwoAssembled(a: map<nat, seq<byte>>, x: byte, y: byte)
    requires a == map[1 := [x], 2 := [y]]
    ensures AllIn(a, 2) && Assembled(a, 2) == [x, y]
  {
    assert Assembled(a, 0) == [] && Assembled(a, 1) == [x];
  }

  /** Completing [1], refused when direct.bin is to be renamed, and then [1, 2] publishes a zero for part 2. */
  method TwoPartRetry(cfg: StreamCfg) returns (r1: Outcome, r2: Outcome)
    requires cfg.Valid()
    ensures r1 == PreconditionFailed && r2 == Published([7, 0])
  {
    hide Intact, StageOf, FastDecides, Passed, Present, Fitting, Assembled, UpTo;
    var dst := new Destination();
    var dir := TwoParts();
    ghost var m, files := dir.meta, dir.files;
    TwoPartsCut(m, files, 1, Here(TAKEN));
    OnePartIntact(m, [7, 9], files);
    r1 := dir.Complete(dst, [1], true, true, cfg, Smooth(Here(TAKEN)), map[1 := [7]]);
    TwoPartsLeft(m, dir.meta, dir.direct.data, dir.files);
    TwoPartsCut(m, dir.files, 2, Here(FREE));
    TwoAssembled(map[1 := [7], 2 := [0]], 7, 0);
    r2 := dir.Complete(dst, [1, 2], true, true, cfg, Smooth(Here(FREE)), map[1 := [7], 2 := [0]]);
  }

  /**
   * Completing [1] across devices, with an object stored under the key while direct.bin is
   * copied: 412, and that object stays.
   */
  method CrossDeviceRefused(cfg: StreamCfg) returns (r: Outcome, dst: Destination)
    requires cfg.Valid()
    ensures r == PreconditionFailed && dst.place == Place(Some([1]), 0, 0)
  {
    hide Intact, StageOf, FastDecides, Passed, Present, Fitting, Assembled, UpTo;
    dst := new Destination();
    var dir := TwoParts();
    var direct := Commit(Try(None, true, Crosses), true, TAKEN);
    TwoPartsCut(dir.meta, dir.files, 1, direct);
    OnePartIntact(dir.meta, [7, 9], dir.files);
    r := dir.Complete(dst, [1], true, true, cfg, Smooth(direct), map[1 := [7]]);
  }

  /** The truncate fails, and so does the rename of the staging file. */
  const UNLUCKY: Answers := Smooth(Here(FREE)).(truncates := false, staged := Here(Try(Some([1]), true, Fails)))

  lemma UnluckyFallsBack(m: Meta, files: map<nat, seq<byte>>)
    requires m == Meta(Active, Some(1), map[1 := PartMeta(1, Direct(0)), 2 := PartMeta(1, Direct(1))])
    ensures Recorded(m, 1) && !FastDecides(m, files, UNLUCKY, 1, false) && Fitting(m, 1) && Present(m, [7, 9], files, 1)
  {
  }

  /** An unconditional completion over the object [1] that fails at its last rename leaves nothing there. */
  method FailedCompletionEmpties(cfg: StreamCfg) returns (r: Outcome, dst: Destination)
    requires cfg.Valid()
    ensures r == InternalError && dst.place.held == None && dst.place.stored == 0
  {
    hide Intact, StageOf, FastDecides, Passed, Present, Fitting, Assembled, UpTo;
    dst := new Destination();
    var dir := TwoParts();
    UnluckyFallsBack(dir.meta, dir.files);
    OnePartIntact(dir.meta, [7, 9], dir.files);
    r := dir.Complete(dst, [1], false, true, cfg, UNLUCKY, map[1 := [7]]);
  }

  lemma OnePartIntact(m: Meta, direct: seq<byte>, files: map<nat, seq<byte>>)
    requires 1 in m.parts && m.parts[1] == PartMeta(1, Direct(0)) && direct != [] && direct[0] == 7
    ensures Intact(m, direct, files, map[1 := [7]], 1)
  {
  }

  const LONG: Meta := Meta(Active, Some(1), map[1 := PartMeta(1, Direct(0)), 2 := PartMeta(2, InFile), 3 := PartMeta(1, Direct(2))])

  /** Part size 1, and a second part of two bytes, which therefore is a file. */
  method LongParts() returns (dir: UploadDir)
    ensures fresh(dir) && fresh(dir.direct) && dir.direct.data == [7, 0, 9] && dir.files == map[2 := [8, 5]] && dir.meta == LONG
  {
    dir := new UploadDir();
    var p := dir.PlanPart(1, 1);
    assert p == Placed(Direct(0));
    dir.direct.data := WriteAt(dir.direct.data, p.stored.off, [7]);
    var ok := dir.RecordPart(1, 1, p.stored);
    p := dir.PlanPart(2, 2);
    assert p == Placed(InFile);
    dir.files := map[2 := [8, 5]];
    ok := dir.RecordPart(2, 2, p.stored);
    p := dir.PlanPart(3, 1);
    assert p == Placed(Direct(2));
    dir.direct.data := WriteAt(dir.direct.data, p.stored.off, [9]);
    ok := dir.RecordPart(3, 1, p.stored);
    assert dir.direct.data == [7, 0, 9];
  }

  lemma LongPartsCut()
    ensures Recorded(LONG, 2) && StageOf(LONG, map[2 := [8, 5]], Smooth(Here(TAKEN)), 2).Cut? && Fitting(LONG, 2)
    ensures FastDecides(LONG, map[2 := [8, 5]], Smooth(Here(TAKEN)), 2, true)
    ensures Intact(LONG, [7, 0, 9], map[2 := [8, 5]], map[1 := [7], 2 := [8, 5]], 2)
  {
    assert DirectOff(2, 1) == 1;
  }

  lemma LongPartsLeft(m: Meta, middle: seq<byte>, files: map<nat, seq<byte>>)
    requires m.phase.Active? && UpTo(LONG, m, map[2 := [8, 5]], files, 2) && FilledIn(LONG, m, 2, Cut)
    requires Passed(LONG, 2, [7, 0, 9], middle, Cut) && Intact(m, middle, files, map[1 := [7], 2 := [8, 5]], 2)
    ensures m == LONG.(parts := LONG.parts[2 := PartMeta(2, Direct(1))]) && middle == [7, 8, 5]
  {
    var content: map<nat, seq<byte>> := map[1 := [7], 2 := [8, 5]];
    assert DirectOff(2, 1) == 1 && LayoutEnd(LONG, 2, 1) == 3;
    assert PartReads(m, middle, files, 1, content[1]) && PartReads(m, middle, files, 2, content[2]);
    assert m.parts[2].stored == Direct(1);
    assert m.parts == LONG.parts[2 := PartMeta(2, Direct(1))];
    assert ByteOrZero(middle, 0 + 0) == content[1][0];
    assert ByteOrZero(middle, 1 + 0) == content[2][0];
    assert ByteOrZero(middle, 1 + 1) == content[2][1];
  }

  lemma LongPartsFound(m: Meta, files: map<nat, seq<byte>>)
    requires m == LONG.(parts := LONG.parts[2 := PartMeta(2, Direct(1))])
    ensures Recorded(m, 3) && !FastDecides(m, files, Smooth(Here(FREE)), 3, true) && Fitting(m, 3)
    ensures Present(m, [7, 8, 5], files, 3) && Intact(m, [7, 8, 5], files, map[1 := [7], 2 := [8, 5], 3 := [5]], 3)
  {
    assert !Fast(m, 3) by { assert m.parts[2].size != 1; }
  }

  lemma ThreeAssembled(a: map<nat, seq<byte>>)
    requires a == map[1 := [7], 2 := [8, 5], 3 := [5]]
    ensures AllIn(a, 3) && Assembled(a, 3) == [7, 8, 5, 5]
  {
    assert Assembled(a, 0) == [] && Assembled(a, 1) == [7] && Assembled(a, 2) == [7, 8, 5];
  }

  /** Completing [1, 2] puts the long part 2 over part 3: completing [1, 2, 3] then publishes a byte of part 2 for it. */
  method LongPartRetry(cfg: StreamCfg) returns (r1: Outcome, r2: Outcome)
    requires cfg.Valid()
    ensures r1 == PreconditionFailed && r2 == Published([7, 8, 5, 5])
  {
    hide Intact, StageOf, FastDecides, Passed, Present, Fitting, Assembled, UpTo, FilledIn;
    var dst := new Destination();
    var dir := LongParts();
    LongPartsCut();
    r1 := dir.Complete(dst, [1, 2], true, true, cfg, Smooth(Here(TAKEN)), map[1 := [7], 2 := [8, 5]]);
    LongPartsLeft(dir.meta, dir.direct.data, dir.files);
    LongPartsFound(dir.meta, dir.files);
    ThreeAssembled(map[1 := [7], 2 := [8, 5], 3 := [5]]);
    r2 := dir.Complete(dst, [1, 2, 3], true, true, cfg, Smooth(Here(FREE)), map[1 := [7], 2 := [8, 5], 3 := [5]]);
  }
}
