/**
 * The multipart upload protocol.  A part is planned under the upload lock, written
 * without it, and recorded under it again; uploads of different parts interleave
 * byte by byte.  `Upload` is the whole upload directory plus what the protocol has
 * promised so far; `Next` is one atomic step.
 */
module Multipart {
  import opened Posix
  import Align

  const MAX_PARTS: nat := 10_000

  datatype Stored = Direct(off: nat) | InFile

  datatype PartMeta = PartMeta(size: nat, stored: Stored)

  datatype Phase = Active | Completing | Completed

  /** meta.json */
  datatype Meta = Meta(phase: Phase, assumed: Option<nat>, parts: map<nat, PartMeta>)

  // ------------------------------------------------------------ placement

  /** Offset of a part in direct.bin, as u64 arithmetic computes it. */
  function DirectOff(pn: nat, size: nat): nat
    requires pn >= 1
  {
    ((pn - 1) * size) % U64
  }

  /** Part 1, or a size already seen, fixes the assumed part size before any byte is written. */
  function Promote(m: Meta, pn: nat, len: nat): Meta {
    if m.assumed.None? && (pn == 1 || exists q :: q in m.parts && m.parts[q].size == len)
    then m.(assumed := Some(len)) else m
  }

  /** Offset of part `pn` when parts `from..pn-1` sit back to back in direct.bin, the first at `off`. */
  function SequentialFrom(parts: map<nat, PartMeta>, from: nat, pn: nat, off: nat): Option<nat>
    decreases pn - from
  {
    if from >= pn then Some(off)
    else if from in parts && parts[from].stored == Direct(off)
    then SequentialFrom(parts, from + 1, pn, SatAdd(off, parts[from].size))
    else None
  }

  function SequentialOffset(m: Meta, pn: nat): Option<nat> {
    if pn <= 1 then Some(0) else SequentialFrom(m.parts, 1, pn, 0)
  }

  /** The bytes of the recorded parts below `pn`. */
  function Total(parts: map<nat, PartMeta>, pn: nat): nat {
    if pn == 0 then 0 else Total(parts, pn - 1) + if pn - 1 >= 1 && pn - 1 in parts then parts[pn - 1].size else 0
  }

  /** Each part below `pn` is recorded in direct.bin right behind those before it. */
  predicate InSequence(parts: map<nat, PartMeta>, pn: nat) {
    forall i :: 1 <= i < pn ==> i in parts && parts[i].stored == Direct(Min(Total(parts, i), U64 - 1))
  }

  /** The rule gives an offset exactly when the parts below lie back to back, and then where they end. */
  lemma SequentialIff(m: Meta, pn: nat)
    requires pn >= 1
    ensures SequentialOffset(m, pn)
            == if InSequence(m.parts, pn) then Some(Min(Total(m.parts, pn), U64 - 1)) else None
  {
    if pn > 1 { SequentialFromIff(m.parts, 1, pn); }
  }

  lemma {:induction false} SequentialFromIff(parts: map<nat, PartMeta>, from: nat, pn: nat)
    requires 1 <= from <= pn && InSequence(parts, from)
    ensures SequentialFrom(parts, from, pn, Min(Total(parts, from), U64 - 1))
            == if InSequence(parts, pn) then Some(Min(Total(parts, pn), U64 - 1)) else None
    decreases pn - from
  {
    hide Total;
    if from < pn && from in parts && parts[from].stored == Direct(Min(Total(parts, from), U64 - 1)) {
      OneMorePart(parts, from);
      SequentialFromIff(parts, from + 1, pn);
    }
  }

  lemma OneMorePart(parts: map<nat, PartMeta>, i: nat)
    requires 1 <= i && i in parts
    ensures Min(Total(parts, i + 1), U64 - 1) == SatAdd(Min(Total(parts, i), U64 - 1), parts[i].size)
  {
  }

  /** Where the bytes of a part go, given the (possibly just promoted) metadata. */
  function Placement(m: Meta, pn: nat, len: nat): Stored
    requires pn >= 1
  {
    match m.assumed
    case Some(s) => if len <= s then Direct(DirectOff(pn, s)) else InFile
    case None => match SequentialOffset(m, pn) case Some(off) => Direct(off) case None => InFile
  }

  /** Sizes shared by at least two recorded parts. */
  ghost predicate SharedSize(parts: map<nat, PartMeta>, size: nat) {
    exists p, q :: p in parts && q in parts && p != q && parts[p].size == size && parts[q].size == size
  }

  /** What `recompute_assumed_part_size` may leave behind: the hash map decides which shared size it finds first. */
  ghost predicate Recomputed(m: Meta, assumed: Option<nat>) {
    if m.assumed.Some? then assumed == m.assumed
    else match assumed
      case None => forall size :: !SharedSize(m.parts, size)
      case Some(size) => SharedSize(m.parts, size)
  }

  // ------------------------------------------------------------ the protocol

  /** A part upload between plan and record.  `done` are the payload bytes the ring has written. */
  datatype Flight = Flight(body: seq<byte>, dest: Stored, done: set<nat>, renamed: bool)

  /**
   * The upload directory (`meta`, `direct`, `tmps`, `files`), the uploads in flight,
   * and the history: `last` is the payload of the latest recorded upload of each
   * part, `torn` the recorded parts whose bytes an abandoned re-upload damaged.
   */
  datatype Upload = Upload(
    meta: Meta, direct: seq<byte>, tmps: map<nat, seq<byte>>, files: map<nat, seq<byte>>,
    flights: map<nat, Flight>, last: map<nat, seq<byte>>, torn: set<nat>)

  datatype Event =
    | Plan(pn: nat, body: seq<byte>, copy: bool)      // lock, promote, place; `copy` is UploadPartCopy
    | Write(pn: nat, lo: nat, hi: nat)                // the ring finishes one write of the payload
    | Rename(pn: nat)                                 // parts/part-N.bin.tmp -> parts/part-N.bin
    | Record(pn: nat, assumed: Option<nat>)           // lock, insert, recompute
    | Abandon(pn: nat)                                // the request dies before it is recorded

  const Created := Upload(Meta(Active, None, map[]), [], map[], map[], map[], map[], {})

  function Interval(lo: nat, hi: nat): (r: set<nat>)
    ensures forall i :: i in r <==> lo <= i < hi
    decreases hi - lo
  {
    if lo >= hi then {} else {lo} + Interval(lo + 1, hi)
  }

  /** Every payload byte has been written. */
  predicate AllDone(f: Flight) {
    forall i :: 0 <= i < |f.body| ==> i in f.done
  }

  predicate Complete(f: Flight) {
    AllDone(f) && (f.dest.InFile? ==> f.renamed)
  }

  function RecordMeta(m: Meta, pn: nat, f: Flight): Meta {
    m.(parts := m.parts[pn := PartMeta(|f.body|, f.dest)])
  }

  /** The steps the code can take.  One upload per part number is in flight at a time. */
  ghost predicate Enabled(u: Upload, e: Event) {
    u.meta.phase.Active? &&
    match e
    case Plan(pn, body, _) => 1 <= pn <= MAX_PARTS && pn !in u.flights
    case Write(pn, lo, hi) => pn in u.flights && !u.flights[pn].renamed && lo <= hi <= |u.flights[pn].body|
    case Rename(pn) => pn in u.flights && u.flights[pn].dest.InFile? && !u.flights[pn].renamed
                       && AllDone(u.flights[pn]) && pn in u.tmps
    case Record(pn, assumed) => pn in u.flights && Complete(u.flights[pn])
                                && Recomputed(RecordMeta(u.meta, pn, u.flights[pn]), assumed)
    case Abandon(pn) => pn in u.flights
  }

  /** True when the flight of `pn` has already overwritten what the metadata still calls part `pn`. */
  predicate Touched(u: Upload, pn: nat) {
    pn in u.flights && pn in u.meta.parts &&
    var f := u.flights[pn];
    match f.dest
    case Direct(_) => u.meta.parts[pn].stored.Direct? && f.done != {}
    case InFile => u.meta.parts[pn].stored.InFile? && f.renamed
  }

  function PlanStep(u: Upload, pn: nat, body: seq<byte>, copy: bool): Upload
    requires pn >= 1
  {
    var m := Promote(u.meta, pn, |body|);
    var dest := Placement(m, pn, |body|);
    u.(meta := m,
       tmps := if dest.Direct? || (copy && pn in u.tmps) then u.tmps else u.tmps[pn := []],
       flights := u.flights[pn := Flight(body, dest, {}, false)])
  }

  function WriteStep(u: Upload, pn: nat, lo: nat, hi: nat): Upload
    requires pn in u.flights && lo <= hi <= |u.flights[pn].body|
  {
    var f := u.flights[pn];
    var flights := u.flights[pn := f.(done := f.done + Interval(lo, hi))];
    match f.dest
    case Direct(off) => u.(flights := flights, direct := WriteAt(u.direct, off + lo, f.body[lo..hi]))
    case InFile =>
      u.(flights := flights, tmps := u.tmps[pn := WriteAt(if pn in u.tmps then u.tmps[pn] else [], lo, f.body[lo..hi])])
  }

  function RenameStep(u: Upload, pn: nat): Upload
    requires pn in u.flights && pn in u.tmps
  {
    u.(files := u.files[pn := u.tmps[pn]], tmps := u.tmps - {pn},
       flights := u.flights[pn := u.flights[pn].(renamed := true)])
  }

  function RecordStep(u: Upload, pn: nat, assumed: Option<nat>): Upload
    requires pn in u.flights
  {
    var f := u.flights[pn];
    u.(meta := RecordMeta(u.meta, pn, f).(assumed := assumed),
       flights := u.flights - {pn}, last := u.last[pn := f.body], torn := u.torn - {pn})
  }

  function AbandonStep(u: Upload, pn: nat): Upload {
    u.(flights := u.flights - {pn}, torn := if Touched(u, pn) then u.torn + {pn} else u.torn)
  }

  ghost function Next(u: Upload, e: Event): Upload
    requires Enabled(u, e)
  {
    match e
    case Plan(pn, body, copy) => PlanStep(u, pn, body, copy)
    case Write(pn, lo, hi) => WriteStep(u, pn, lo, hi)
    case Rename(pn) => RenameStep(u, pn)
    case Record(pn, assumed) => RecordStep(u, pn, assumed)
    case Abandon(pn) => AbandonStep(u, pn)
  }

  // ------------------------------------------------------------ the invariant

  /** The bytes a recorded part stands for are where the metadata says. */
  predicate PartHolds(m: Meta, direct: seq<byte>, files: map<nat, seq<byte>>, pn: nat, content: seq<byte>) {
    && pn in m.parts
    && m.parts[pn].size == |content|
    && match m.parts[pn].stored
       case Direct(off) => |content| > 0 ==> HoldsAt(direct, off, content)
       case InFile => pn in files && HoldsAt(files[pn], 0, content)
  }

  /** Everything a flight has written so far is in place. */
  ghost predicate FlightHolds(u: Upload, pn: nat, f: Flight) {
    && (forall i :: i in f.done ==> i < |f.body|)
    && (f.renamed ==> f.dest.InFile? && pn in u.files && HoldsAt(u.files[pn], 0, f.body))
    && match f.dest
       case Direct(off) => !f.renamed && forall i :: i in f.done ==> off + i < |u.direct| && u.direct[off + i] == f.body[i]
       case InFile => !f.renamed ==>
           pn in u.tmps && forall i :: i in f.done ==> i < |u.tmps[pn]| && u.tmps[pn][i] == f.body[i]
  }

  /** Before the part size is known nothing is in direct.bin; afterwards part n owns [(n-1)s, ns). */
  ghost predicate PlacedRight(m: Meta, pn: nat, size: nat, stored: Stored) {
    && 1 <= pn <= MAX_PARTS && MAX_PARTS * size < U64
    && match m.assumed
       case None => stored.InFile? && pn != 1
       case Some(s) => stored.Direct? ==> stored.off == (pn - 1) * s && size <= s
  }

  /** Where everything is. */
  ghost predicate Layout(u: Upload) {
    && u.meta.phase.Active? && u.last.Keys == u.meta.parts.Keys
    && (u.meta.assumed.Some? ==> MAX_PARTS * u.meta.assumed.value < U64)
    && (u.meta.assumed.None? ==> forall size :: !SharedSize(u.meta.parts, size))
    && (forall pn :: pn in u.meta.parts ==> PlacedRight(u.meta, pn, u.meta.parts[pn].size, u.meta.parts[pn].stored))
    && (forall pn :: pn in u.flights ==> PlacedRight(u.meta, pn, |u.flights[pn].body|, u.flights[pn].dest))
  }

  ghost predicate FlightsHold(u: Upload) {
    forall pn :: pn in u.flights ==> FlightHolds(u, pn, u.flights[pn])
  }

  /** Byte `i` of recorded part `pn` has been overwritten by the upload in flight. */
  predicate Overwritten(u: Upload, pn: nat, i: nat) {
    Touched(u, pn) && u.flights[pn].dest.Direct? && i in u.flights[pn].done
  }

  predicate ByteAt(f: seq<byte>, pos: nat, b: byte) {
    pos < |f| && f[pos] == b
  }

  /** A recorded part keeps its payload byte for byte, except where the upload in flight has overwritten it. */
  ghost predicate PartKept(u: Upload, pn: nat, content: seq<byte>) {
    && pn in u.meta.parts && u.meta.parts[pn].size == |content|
    && match u.meta.parts[pn].stored
       case Direct(off) =>
         forall i :: 0 <= i < |content| && !Overwritten(u, pn, i) ==> ByteAt(u.direct, off + i, content[i])
       case InFile => Touched(u, pn) || (pn in u.files && HoldsAt(u.files[pn], 0, content))
  }

  ghost predicate PartsHold(u: Upload) {
    forall pn :: pn in u.last && pn !in u.torn ==> PartKept(u, pn, u.last[pn])
  }

  ghost predicate Inv(u: Upload) {
    Layout(u) && FlightsHold(u) && PartsHold(u)
  }

  /** The declared length of every planned part leaves 10 000 offsets inside u64. */
  predicate Fits(e: Event) {
    e.Plan? ==> MAX_PARTS * |e.body| < U64
  }

  // ------------------------------------------------------------ every step keeps it

  /** Part p's slot ends before part q's begins. */
  lemma SlotsApart(p: nat, q: nat, s: nat)
    requires 1 <= p < q
    ensures (p - 1) * s + s <= (q - 1) * s
  {
    Align.MulMonotone(p - 1, q - 1, s);
    Align.MulMonotone(p, q - 1, s);
  }

  lemma OffsetDoesNotWrap(pn: nat, s: nat)
    requires 1 <= pn <= MAX_PARTS && MAX_PARTS * s < U64
    ensures DirectOff(pn, s) == (pn - 1) * s
  {
    Align.MulMonotone(pn - 1, MAX_PARTS, s);
    SmallIsItsRemainder((pn - 1) * s);
  }

  lemma SmallIsItsRemainder(x: nat)
    requires x < U64
    ensures x % U64 == x
  {
  }

  /** With the part size unknown, the back-to-back rule finds no part 1 and places nothing in direct.bin. */
  lemma SequentialRuleIsIdle(u: Upload, pn: nat, len: nat)
    requires Layout(u) && 1 <= pn <= MAX_PARTS
    requires Promote(u.meta, pn, len).assumed.None?
    ensures SequentialOffset(u.meta, pn).None?
  {
  }

  /** A recorded part whose bytes, file and flight a step leaves alone stays kept. */
  lemma KeptStays(u: Upload, u': Upload, q: nat, content: seq<byte>)
    requires PartKept(u, q, content) && u'.direct == u.direct
    requires q in u'.meta.parts && u'.meta.parts[q] == u.meta.parts[q]
    requires forall i :: Overwritten(u, q, i) ==> Overwritten(u', q, i)
    requires u.meta.parts[q].stored.InFile? ==>
               Touched(u', q) || (!Touched(u, q) && (q in u.files ==> q in u'.files && u'.files[q] == u.files[q]))
    ensures PartKept(u', q, content)
  {
  }

  lemma SameFlight(u: Upload, u': Upload, q: nat)
    requires q in u.meta.parts && q in u'.meta.parts && u'.meta.parts[q] == u.meta.parts[q]
    requires q in u.flights <==> q in u'.flights
    requires q in u.flights ==> u'.flights[q] == u.flights[q]
    ensures Touched(u', q) == Touched(u, q) && forall i :: Overwritten(u', q, i) == Overwritten(u, q, i)
  {
  }

  lemma NoFlight(u: Upload, q: nat)
    requires q !in u.flights
    ensures !Touched(u, q) && forall i :: !Overwritten(u, q, i)
  {
  }

  lemma PlanKeepsParts(u: Upload, pn: nat, body: seq<byte>, copy: bool)
    requires Inv(u) && 1 <= pn && pn !in u.flights
    ensures PartsHold(PlanStep(u, pn, body, copy))
  {
    hide PartKept, Touched, Overwritten, Placement, FlightsHold;
    var u' := PlanStep(u, pn, body, copy);
    forall q | q in u'.last && q !in u'.torn
      ensures PartKept(u', q, u'.last[q])
    {
      assert PartKept(u, q, u.last[q]);
      if q == pn { NoFlight(u, q); FreshFlight(u', q); } else { SameFlight(u, u', q); }
      KeptStays(u, u', q, u.last[q]);
    }
  }

  lemma FreshFlight(u: Upload, q: nat)
    requires q in u.flights && u.flights[q].done == {} && !u.flights[q].renamed
    ensures !Touched(u, q)
  {
  }

  lemma WriteFileKeepsParts(u: Upload, pn: nat, lo: nat, hi: nat)
    requires Inv(u) && pn in u.flights && lo <= hi <= |u.flights[pn].body|
    requires u.flights[pn].dest.InFile? && !u.flights[pn].renamed
    ensures PartsHold(WriteStep(u, pn, lo, hi))
  {
    hide PartKept, Touched, Overwritten, FlightsHold;
    var u' := WriteStep(u, pn, lo, hi);
    forall q | q in u'.last && q !in u'.torn
      ensures PartKept(u', q, u'.last[q])
    {
      assert PartKept(u, q, u.last[q]);
      if q == pn { UnrenamedFile(u, q); UnrenamedFile(u', q); } else { SameFlight(u, u', q); }
      KeptStays(u, u', q, u.last[q]);
    }
  }

  lemma UnrenamedFile(u: Upload, q: nat)
    requires q in u.flights && u.flights[q].dest.InFile? && !u.flights[q].renamed
    ensures !Touched(u, q) && forall i :: !Overwritten(u, q, i)
  {
  }

  lemma RenamedFile(u: Upload, q: nat)
    requires q in u.flights && u.flights[q].dest.InFile? && u.flights[q].renamed && q in u.meta.parts
    ensures Touched(u, q) <==> u.meta.parts[q].stored.InFile?
  {
  }

  lemma RenameKeepsParts(u: Upload, pn: nat)
    requires Inv(u) && pn in u.flights && pn in u.tmps && u.flights[pn].dest.InFile? && !u.flights[pn].renamed
    ensures PartsHold(RenameStep(u, pn))
  {
    hide PartKept, Touched, Overwritten, FlightsHold;
    var u' := RenameStep(u, pn);
    forall q | q in u'.last && q !in u'.torn
      ensures PartKept(u', q, u'.last[q])
    {
      assert PartKept(u, q, u.last[q]);
      if q == pn { UnrenamedFile(u, q); RenamedFile(u', q); } else { SameFlight(u, u', q); }
      KeptStays(u, u', q, u.last[q]);
    }
  }

  /** A complete upload, once recorded, is the part. */
  lemma CompleteIsKept(u: Upload, pn: nat, assumed: Option<nat>)
    requires pn in u.flights && Complete(u.flights[pn]) && FlightHolds(u, pn, u.flights[pn])
    ensures PartKept(RecordStep(u, pn, assumed), pn, u.flights[pn].body)
  {
    var u', f := RecordStep(u, pn, assumed), u.flights[pn];
    if f.dest.Direct? {
      forall i | 0 <= i < |f.body|
        ensures ByteAt(u'.direct, f.dest.off + i, f.body[i])
      {
        assert i in f.done;
      }
    }
  }

  lemma RecordKeepsParts(u: Upload, pn: nat, assumed: Option<nat>)
    requires Inv(u) && pn in u.flights && Complete(u.flights[pn])
    ensures PartsHold(RecordStep(u, pn, assumed))
  {
    hide PartKept, Touched, Overwritten, FlightHolds, AllDone;
    var u' := RecordStep(u, pn, assumed);
    forall q | q in u'.last && q !in u'.torn
      ensures PartKept(u', q, u'.last[q])
    {
      if q == pn {
        CompleteIsKept(u, pn, assumed);
      } else {
        assert PartKept(u, q, u.last[q]);
        SameFlight(u, u', q);
        KeptStays(u, u', q, u.last[q]);
      }
    }
  }

  lemma AbandonKeepsParts(u: Upload, pn: nat)
    requires Inv(u) && pn in u.flights
    ensures PartsHold(AbandonStep(u, pn))
  {
    hide PartKept, Touched, Overwritten, FlightsHold;
    var u' := AbandonStep(u, pn);
    forall q | q in u'.last && q !in u'.torn
      ensures PartKept(u', q, u'.last[q])
    {
      assert PartKept(u, q, u.last[q]);
      if q == pn {
        OverwrittenIsTouched(u, q);
        NoFlight(u', q);
      } else {
        SameFlight(u, u', q);
      }
      KeptStays(u, u', q, u.last[q]);
    }
  }

  lemma OverwrittenIsTouched(u: Upload, q: nat)
    ensures !Touched(u, q) ==> forall i :: !Overwritten(u, q, i)
  {
  }

  lemma PlanKeepsInv(u: Upload, pn: nat, body: seq<byte>, copy: bool)
    requires Inv(u) && 1 <= pn <= MAX_PARTS && pn !in u.flights && MAX_PARTS * |body| < U64
    ensures Inv(PlanStep(u, pn, body, copy))
  {
    hide PartsHold, PartKept, Touched;
    var u' := PlanStep(u, pn, body, copy);
    PlanKeepsLayout(u, pn, body, copy);
    PlanKeepsParts(u, pn, body, copy);
    forall q | q in u'.flights
      ensures FlightHolds(u', q, u'.flights[q])
    {
      if q != pn { assert FlightHolds(u, q, u.flights[q]); }
    }
  }

  lemma PlanKeepsLayout(u: Upload, pn: nat, body: seq<byte>, copy: bool)
    requires Layout(u) && 1 <= pn <= MAX_PARTS && pn !in u.flights && MAX_PARTS * |body| < U64
    ensures Layout(PlanStep(u, pn, body, copy))
  {
    var m := Promote(u.meta, pn, |body|);
    if m.assumed.Some? {
      OffsetDoesNotWrap(pn, m.assumed.value);
    } else {
      SequentialRuleIsIdle(u, pn, |body|);
    }
  }

  lemma WriteFileKeepsInv(u: Upload, pn: nat, lo: nat, hi: nat)
    requires Inv(u) && pn in u.flights && lo <= hi <= |u.flights[pn].body|
    requires u.flights[pn].dest.InFile? && !u.flights[pn].renamed
    ensures Inv(WriteStep(u, pn, lo, hi))
  {
    hide PartsHold, PartKept, Touched;
    var u' := WriteStep(u, pn, lo, hi);
    WriteFileKeepsParts(u, pn, lo, hi);
    forall q | q in u'.flights
      ensures FlightHolds(u', q, u'.flights[q])
    {
      assert FlightHolds(u, q, u.flights[q]);
    }
  }

  /** A direct write stays inside its own slot, so every other part keeps its bytes. */
  lemma DirectWriteSparesPart(u: Upload, pn: nat, lo: nat, hi: nat, q: nat)
    requires Layout(u) && pn in u.flights && lo <= hi <= |u.flights[pn].body| && u.flights[pn].dest.Direct?
    requires q != pn && q in u.last && PartKept(u, q, u.last[q])
    ensures PartKept(WriteStep(u, pn, lo, hi), q, u.last[q])
  {
    hide Touched, Overwritten;
    var u', f, p := WriteStep(u, pn, lo, hi), u.flights[pn], u.meta.parts[q];
    SameFlight(u, u', q);
    if p.stored.Direct? && |u.last[q]| > 0 {
      var s := u.meta.assumed.value;
      assert PlacedRight(u.meta, q, p.size, p.stored) && PlacedRight(u.meta, pn, |f.body|, f.dest);
      if q < pn { SlotsApart(q, pn, s); } else { SlotsApart(pn, q, s); }
    }
  }

  lemma DirectWriteSparesFlight(u: Upload, pn: nat, lo: nat, hi: nat, q: nat)
    requires Layout(u) && pn in u.flights && lo <= hi <= |u.flights[pn].body| && u.flights[pn].dest.Direct?
    requires q != pn && q in u.flights && FlightHolds(u, q, u.flights[q])
    ensures FlightHolds(WriteStep(u, pn, lo, hi), q, u.flights[q])
  {
    var f, g := u.flights[pn], u.flights[q];
    if g.dest.Direct? {
      var s := u.meta.assumed.value;
      assert PlacedRight(u.meta, q, |g.body|, g.dest) && PlacedRight(u.meta, pn, |f.body|, f.dest);
      if q < pn { SlotsApart(q, pn, s); } else { SlotsApart(pn, q, s); }
      BytesElsewhere(u.direct, f.dest.off + lo, f.body[lo..hi], g);
    }
  }

  lemma BytesElsewhere(file: seq<byte>, at: nat, data: seq<byte>, g: Flight)
    requires g.dest.Direct? && (at + |data| <= g.dest.off || g.dest.off + |g.body| <= at)
    requires forall i :: i in g.done ==> i < |g.body|
    requires forall i :: i in g.done ==> g.dest.off + i < |file| && file[g.dest.off + i] == g.body[i]
    ensures var w := WriteAt(file, at, data);
            forall i :: i in g.done ==> g.dest.off + i < |w| && w[g.dest.off + i] == g.body[i]
  {
  }

  lemma WriteDirectKeepsParts(u: Upload, pn: nat, lo: nat, hi: nat)
    requires Inv(u) && pn in u.flights && lo <= hi <= |u.flights[pn].body| && u.flights[pn].dest.Direct?
    ensures PartsHold(WriteStep(u, pn, lo, hi))
  {
    var u' := WriteStep(u, pn, lo, hi);
    forall q | q in u'.last && q !in u'.torn
      ensures PartKept(u', q, u'.last[q])
    {
      assert PartKept(u, q, u.last[q]);
      if q != pn {
        DirectWriteSparesPart(u, pn, lo, hi, q);
      } else {
        OwnWriteKeepsRest(u, pn, lo, hi);
      }
    }
  }

  /** A write of a re-upload changes only the recorded bytes it counts as overwritten. */
  lemma OwnWriteKeepsRest(u: Upload, pn: nat, lo: nat, hi: nat)
    requires Layout(u) && pn in u.flights && lo <= hi <= |u.flights[pn].body| && u.flights[pn].dest.Direct?
    requires pn in u.last && PartKept(u, pn, u.last[pn])
    ensures PartKept(WriteStep(u, pn, lo, hi), pn, u.last[pn])
  {
    var u', f, p := WriteStep(u, pn, lo, hi), u.flights[pn], u.meta.parts[pn];
    if p.stored.Direct? {
      assert PlacedRight(u.meta, pn, p.size, p.stored) && PlacedRight(u.meta, pn, |f.body|, f.dest);
      assert f.dest.off == p.stored.off;
      forall i | 0 <= i < |u.last[pn]| && !Overwritten(u', pn, i)
        ensures ByteAt(u'.direct, p.stored.off + i, u.last[pn][i])
      {
        assert i !in u'.flights[pn].done;
        assert !Overwritten(u, pn, i);
      }
    }
  }

  lemma WriteDirectKeepsInv(u: Upload, pn: nat, lo: nat, hi: nat)
    requires Inv(u) && pn in u.flights && lo <= hi <= |u.flights[pn].body| && u.flights[pn].dest.Direct?
    ensures Inv(WriteStep(u, pn, lo, hi))
  {
    hide PartsHold, PartKept, Touched;
    var u' := WriteStep(u, pn, lo, hi);
    WriteDirectKeepsParts(u, pn, lo, hi);
    forall q | q in u'.flights
      ensures FlightHolds(u', q, u'.flights[q])
    {
      assert FlightHolds(u, q, u.flights[q]);
      if q != pn { DirectWriteSparesFlight(u, pn, lo, hi, q); }
    }
  }

  /** A flight that wrote every index left the whole payload. */
  lemma AllBytesDone(file: seq<byte>, off: nat, f: Flight)
    requires AllDone(f)
    requires forall i :: i in f.done && i < |f.body| ==> off + i < |file| && file[off + i] == f.body[i]
    ensures |f.body| > 0 ==> HoldsAt(file, off, f.body)
    ensures off == 0 ==> HoldsAt(file, off, f.body)
  {
    var n := |f.body|;
    if n > 0 {
      assert n - 1 in f.done;
      assert file[off..off + n] == f.body;
    }
  }

  lemma RenameKeepsInv(u: Upload, pn: nat)
    requires Inv(u) && pn in u.flights && pn in u.tmps
    requires u.flights[pn].dest.InFile? && !u.flights[pn].renamed && AllDone(u.flights[pn])
    ensures Inv(RenameStep(u, pn))
  {
    hide PartsHold, PartKept, Touched;
    var u' := RenameStep(u, pn);
    assert FlightHolds(u, pn, u.flights[pn]);
    AllBytesDone(u.tmps[pn], 0, u.flights[pn]);
    RenameKeepsParts(u, pn);
    forall q | q in u'.flights
      ensures FlightHolds(u', q, u'.flights[q])
    {
      assert FlightHolds(u, q, u.flights[q]);
    }
  }

  lemma RecordKeepsLayout(u: Upload, pn: nat, assumed: Option<nat>)
    requires Layout(u) && pn in u.flights && Recomputed(RecordMeta(u.meta, pn, u.flights[pn]), assumed)
    ensures Layout(RecordStep(u, pn, assumed))
  {
    var f, m := u.flights[pn], RecordStep(u, pn, assumed).meta;
    assert PlacedRight(u.meta, pn, |f.body|, f.dest);
    if u.meta.assumed.None? && assumed.Some? {
      assert SharedSize(m.parts, assumed.value);
      var p :| p in m.parts && m.parts[p].size == assumed.value;
      if p != pn { assert PlacedRight(u.meta, p, u.meta.parts[p].size, u.meta.parts[p].stored); }
    }
    forall q | q in m.parts
      ensures PlacedRight(m, q, m.parts[q].size, m.parts[q].stored)
    {
      if q != pn { assert PlacedRight(u.meta, q, u.meta.parts[q].size, u.meta.parts[q].stored); }
    }
  }

  lemma RecordKeepsInv(u: Upload, pn: nat, assumed: Option<nat>)
    requires Inv(u) && pn in u.flights && Complete(u.flights[pn])
    requires Recomputed(RecordMeta(u.meta, pn, u.flights[pn]), assumed)
    ensures Inv(RecordStep(u, pn, assumed))
  {
    hide PartsHold, PartKept, Touched;
    var u', f := RecordStep(u, pn, assumed), u.flights[pn];
    RecordKeepsLayout(u, pn, assumed);
    assert FlightHolds(u, pn, f);
    if f.dest.Direct? { AllBytesDone(u.direct, f.dest.off, f); }
    RecordKeepsParts(u, pn, assumed);
    forall q | q in u'.flights
      ensures FlightHolds(u', q, u'.flights[q])
    {
      assert FlightHolds(u, q, u.flights[q]);
    }
  }

  lemma AbandonKeepsInv(u: Upload, pn: nat)
    requires Inv(u) && pn in u.flights
    ensures Inv(AbandonStep(u, pn))
  {
    hide PartsHold, PartKept, Touched;
    var u' := AbandonStep(u, pn);
    AbandonKeepsParts(u, pn);
    forall q | q in u'.flights
      ensures FlightHolds(u', q, u'.flights[q])
    {
      assert FlightHolds(u, q, u.flights[q]);
    }
  }

  lemma NextKeepsInv(u: Upload, e: Event)
    requires Inv(u) && Enabled(u, e) && Fits(e)
    ensures Inv(Next(u, e))
    ensures u.meta.assumed.Some? ==> Next(u, e).meta.assumed == u.meta.assumed
  {
    match e
    case Plan(pn, body, copy) => PlanKeepsInv(u, pn, body, copy);
    case Write(pn, lo, hi) =>
      if u.flights[pn].dest.Direct? { WriteDirectKeepsInv(u, pn, lo, hi); } else { WriteFileKeepsInv(u, pn, lo, hi); }
    case Rename(pn) => RenameKeepsInv(u, pn);
    case Record(pn, assumed) => RecordKeepsInv(u, pn, assumed);
    case Abandon(pn) => AbandonKeepsInv(u, pn);
  }

  // ------------------------------------------------------------ whole runs

  ghost predicate Run(u: Upload, es: seq<Event>, u': Upload)
    decreases es
  {
    if es == [] then u' == u else Enabled(u, es[0]) && Run(Next(u, es[0]), es[1..], u')
  }

  /** The assumed part size is written at most once, and the layout invariant holds after every run. */
  lemma {:induction false} RunKeepsInv(u: Upload, es: seq<Event>, u': Upload)
    requires Inv(u) && Run(u, es, u') && forall i :: 0 <= i < |es| ==> Fits(es[i])
    ensures Inv(u')
    ensures u.meta.assumed.Some? ==> u'.meta.assumed == u.meta.assumed
    decreases es
  {
    if es != [] {
      NextKeepsInv(u, es[0]);
      RunKeepsInv(Next(u, es[0]), es[1..], u');
    }
  }

  /** What the clients were told, read off the events alone: the planned and the recorded payload of each part. */
  datatype Ledger = Ledger(planned: map<nat, seq<byte>>, recorded: map<nat, seq<byte>>)

  function Post(l: Ledger, e: Event): Ledger {
    match e
    case Plan(pn, body, _) => l.(planned := l.planned[pn := body])
    case Record(pn, _) => if pn in l.planned then l.(recorded := l.recorded[pn := l.planned[pn]]) else l
    case _ => l
  }

  function Books(l: Ledger, es: seq<Event>): Ledger
    decreases es
  {
    if es == [] then l else Books(Post(l, es[0]), es[1..])
  }

  ghost predicate LedgerAgrees(u: Upload, l: Ledger) {
    u.last == l.recorded && forall pn :: pn in u.flights ==> pn in l.planned && l.planned[pn] == u.flights[pn].body
  }

  lemma NextKeepsLedger(u: Upload, e: Event, l: Ledger)
    requires LedgerAgrees(u, l) && Enabled(u, e)
    ensures LedgerAgrees(Next(u, e), Post(l, e))
  {
  }

  lemma {:induction false} RunKeepsLedger(u: Upload, es: seq<Event>, u': Upload, l: Ledger)
    requires LedgerAgrees(u, l) && Run(u, es, u')
    ensures LedgerAgrees(u', Books(l, es))
    decreases es
  {
    if es != [] {
      NextKeepsLedger(u, es[0], l);
      RunKeepsLedger(Next(u, es[0]), es[1..], u', Post(l, es[0]));
    }
  }

  /** The parts with an upload that died since their last record, read off the events. */
  function Suspects(before: set<nat>, es: seq<Event>): set<nat>
    decreases es
  {
    if es == [] then before
    else
      match es[0]
      case Abandon(pn) => Suspects(before + {pn}, es[1..])
      case Record(pn, _) => Suspects(before - {pn}, es[1..])
      case _ => Suspects(before, es[1..])
  }

  lemma {:induction false} TornAreSuspects(u: Upload, es: seq<Event>, u': Upload, before: set<nat>)
    requires Run(u, es, u') && u.torn <= before
    ensures u'.torn <= Suspects(before, es)
    decreases es
  {
    if es != [] {
      hide Recomputed, Touched, AllDone, Complete, WriteAt, Promote, Placement, Interval;
      var after := match es[0]
        case Abandon(pn) => before + {pn}
        case Record(pn, _) => before - {pn}
        case _ => before;
      TornAreSuspects(Next(u, es[0]), es[1..], u', after);
    }
  }

  /**
   * After any interleaving of uploads, once nothing is in flight, every recorded
   * part that no abandoned re-upload damaged still holds the payload of its latest
   * recorded upload.
   */
  lemma QuiescentPartsHold(es: seq<Event>, u: Upload)
    requires Run(Created, es, u) && forall i :: 0 <= i < |es| ==> Fits(es[i])
    requires u.flights == map[]
    ensures u.meta.parts.Keys == Books(Ledger(map[], map[]), es).recorded.Keys
    ensures forall pn :: pn in u.meta.parts && pn !in u.torn
                         ==> PartHolds(u.meta, u.direct, u.files, pn, Books(Ledger(map[], map[]), es).recorded[pn])
    ensures u.torn <= Suspects({}, es)
  {
    TornAreSuspects(Created, es, u, {});
    CreatedInv();
    RunKeepsInv(Created, es, u);
    RunKeepsLedger(Created, es, u, Ledger(map[], map[]));
    hide FlightsHold, PartHolds, PartKept, Books, Layout, Run;
    forall pn | pn in u.meta.parts && pn !in u.torn
      ensures PartHolds(u.meta, u.direct, u.files, pn, u.last[pn])
    {
      assert pn in u.last by { RecordedHaveLast(u); }
      assert PartKept(u, pn, u.last[pn]);
      NoFlight(u, pn);
      KeptHolds(u, pn, u.last[pn]);
    }
  }

  /** Nothing in flight has touched the part: it holds its payload. */
  lemma KeptHolds(u: Upload, pn: nat, content: seq<byte>)
    requires PartKept(u, pn, content) && !Touched(u, pn)
    ensures PartHolds(u.meta, u.direct, u.files, pn, content)
  {
    var p := u.meta.parts[pn];
    if p.stored.Direct? && |content| > 0 {
      var off := p.stored.off;
      forall i | 0 <= i < |content|
        ensures ByteAt(u.direct, off + i, content[i])
      {
        assert !Overwritten(u, pn, i);
      }
      assert ByteAt(u.direct, off + (|content| - 1), content[|content| - 1]);
      assert u.direct[off..off + |content|] == content;
    }
  }

  lemma RecordedHaveLast(u: Upload)
    requires Layout(u)
    ensures u.last.Keys == u.meta.parts.Keys
  {
  }

  lemma CreatedInv()
    ensures Inv(Created)
  {
  }

  /** The extent of part `pn` in direct.bin, recorded or being written. */
  ghost predicate DirectExtent(u: Upload, pn: nat, off: nat, len: nat) {
    || (pn in u.meta.parts && u.meta.parts[pn] == PartMeta(len, Direct(off)))
    || (pn in u.flights && u.flights[pn].dest == Direct(off) && |u.flights[pn].body| == len)
  }

  /** In every reachable state the direct extents of distinct parts, recorded or being written, are disjoint. */
  lemma ExtentsNeverOverlap(es: seq<Event>, u: Upload, p: nat, off: nat, len: nat, q: nat, off': nat, len': nat)
    requires Run(Created, es, u) && forall i :: 0 <= i < |es| ==> Fits(es[i])
    requires p < q && DirectExtent(u, p, off, len) && DirectExtent(u, q, off', len')
    ensures off + len <= off'
  {
    CreatedInv();
    RunKeepsInv(Created, es, u);
    assert PlacedRight(u.meta, p, len, Direct(off)) && PlacedRight(u.meta, q, len', Direct(off'));
    SlotsApart(p, q, u.meta.assumed.value);
  }

  /** Offsets stay exact for all 10 000 parts exactly when the last one does not wrap. */
  lemma OffsetsExactIff(s: nat)
    ensures (forall pn :: 1 <= pn <= MAX_PARTS ==> DirectOff(pn, s) == (pn - 1) * s) <==> (MAX_PARTS - 1) * s < U64
  {
    if (MAX_PARTS - 1) * s < U64 {
      forall pn | 1 <= pn <= MAX_PARTS
        ensures DirectOff(pn, s) == (pn - 1) * s
      {
        Align.MulMonotone(pn - 1, MAX_PARTS - 1, s);
        SmallIsItsRemainder((pn - 1) * s);
      }
    } else {
      assert DirectOff(MAX_PARTS, s) < U64;
    }
  }

  /** A declared part size of 2^62 puts part 5 on top of part 1. */
  lemma HugeDeclaredSizeCollides()
    ensures DirectOff(1, 0x4000_0000_0000_0000) == DirectOff(5, 0x4000_0000_0000_0000)
  {
  }

  /** At most one size can be shared when a record first creates a shared size, so hash order cannot matter. */
  lemma RecomputeIsDeterminate(u: Upload, e: Event, e': Event)
    requires Inv(u) && e.Record? && e'.Record? && e.pn == e'.pn && Enabled(u, e) && Enabled(u, e')
    ensures e == e'
  {
    var m := RecordMeta(u.meta, e.pn, u.flights[e.pn]);
    if u.meta.assumed.None? {
      forall size | SharedSize(m.parts, size)
        ensures size == |u.flights[e.pn].body|
      {
        var p, q :| p in m.parts && q in m.parts && p != q && m.parts[p].size == size && m.parts[q].size == size;
        if p != e.pn && q != e.pn {
          assert u.meta.parts[p].size == size && u.meta.parts[q].size == size;
          assert SharedSize(u.meta.parts, size);
        }
      }
    }
  }

  // ------------------------------------------------------------ uploads that die

  /** What a dying upload of `pn` has overwritten happens to be what the recorded part says. */
  predicate Harmless(u: Upload, pn: nat)
    requires pn in u.flights && pn in u.last
  {
    var f, content := u.flights[pn], u.last[pn];
    || !Touched(u, pn)
    || (f.dest.Direct? && forall i :: i in f.done && i < |content| && i < |f.body| ==> f.body[i] == content[i])
    || (f.dest.InFile? && pn in u.files && HoldsAt(u.files[pn], 0, content))
  }

  /**
   * A dying upload leaves the recorded part of its number right if and only if it had not
   * begun to overwrite it, or every byte it overwrote was the same, or (a part file
   * already renamed into place) the new file still starts with the recorded payload.
   */
  lemma AbandonHarmlessIff(u: Upload, pn: nat)
    requires Inv(u) && pn in u.flights && pn in u.last && pn !in u.torn
    ensures Enabled(u, Abandon(pn))
    ensures var u' := Next(u, Abandon(pn));
            u'.last[pn] == u.last[pn] && (PartHolds(u'.meta, u'.direct, u'.files, pn, u.last[pn]) <==> Harmless(u, pn))
  {
    hide HoldsAt;
    assert PartKept(u, pn, u.last[pn]) && FlightHolds(u, pn, u.flights[pn]);
    if !Touched(u, pn) {
      KeptHolds(u, pn, u.last[pn]);
    } else if u.flights[pn].dest.Direct? {
      DirectAbandonIff(u, pn);
    }
  }

  lemma DirectAbandonIff(u: Upload, pn: nat)
    requires Layout(u) && pn in u.flights && pn in u.last && PartKept(u, pn, u.last[pn])
    requires FlightHolds(u, pn, u.flights[pn]) && Touched(u, pn) && u.flights[pn].dest.Direct?
    ensures PartHolds(u.meta, u.direct, u.files, pn, u.last[pn]) <==> Harmless(u, pn)
  {
    var f, p, content := u.flights[pn], u.meta.parts[pn], u.last[pn];
    assert PlacedRight(u.meta, pn, |f.body|, f.dest) && PlacedRight(u.meta, pn, p.size, p.stored);
    var off := p.stored.off;
    assert f.dest.off == off;
    if Harmless(u, pn) {
      forall i | 0 <= i < |content|
        ensures ByteAt(u.direct, off + i, content[i])
      {
        assert Overwritten(u, pn, i) <==> i in f.done;
      }
      BytesHold(u.direct, off, content);
    } else {
      var i :| i in f.done && i < |content| && i < |f.body| && f.body[i] != content[i];
      assert off + |content| <= |u.direct| ==> u.direct[off..off + |content|][i] == u.direct[off + i];
    }
  }

  lemma BytesHold(f: seq<byte>, off: nat, content: seq<byte>)
    requires forall i :: 0 <= i < |content| ==> ByteAt(f, off + i, content[i])
    ensures |content| > 0 ==> HoldsAt(f, off, content)
  {
    if |content| > 0 {
      var z := |content| - 1;
      assert ByteAt(f, off + z, content[z]);
      assert f[off..off + |content|] == content;
    }
  }

  function OnePart(pn: nat, size: nat, stored: Stored): map<nat, PartMeta> {
    map[pn := PartMeta(size, stored)]
  }

  lemma Intervals()
    ensures Interval(0, 1) == {0} && Interval(0, 2) == {0, 1}
  {
    assert Interval(1, 2) == {1} && Interval(2, 2) == {} && Interval(1, 1) == {};
  }

  /** One byte into an empty or one-byte direct.bin. */
  lemma OneByteDirect(u: Upload, b: byte, direct: seq<byte>)
    requires u.flights == map[1 := Flight([b], Direct(0), {}, false)] && |direct| <= 1 && u.direct == direct
    ensures WriteStep(u, 1, 0, 1) == u.(direct := [b], flights := map[1 := Flight([b], Direct(0), {0}, false)])
  {
    Intervals();
    assert [b][0..1] == [b] && WriteAt(direct, 0, [b]) == [b];
    assert {} + {0} == {0};
    assert u.flights[1 := Flight([b], Direct(0), {0}, false)] == map[1 := Flight([b], Direct(0), {0}, false)];
  }

  lemma {:induction false} RunThen(u: Upload, es: seq<Event>, v: Upload, e: Event, w: Upload)
    requires Run(u, es, v) && Enabled(v, e) && Next(v, e) == w
    ensures Run(u, es + [e], w)
    decreases es
  {
    hide Enabled, Next;
    if es == [] {
      assert es + [e] == [e] && [e][1..] == [];
    } else {
      assert (es + [e])[1..] == es[1..] + [e];
      RunThen(Next(u, es[0]), es[1..], v, e, w);
    }
  }

  /** Part 1 recorded as [7] in direct.bin; a re-upload of [9] dies after its write. */
  lemma DyingDirectUpload() returns (es: seq<Event>, u: Upload)
    ensures Run(Created, es, u) && (forall i :: 0 <= i < |es| ==> Fits(es[i])) && Promised(u, 1, [7])
    ensures u.meta.parts[1].stored.Direct? && !PartHolds(u.meta, u.direct, u.files, 1, [7])
  {
    hide WriteStep, WriteAt, Interval, Run;
    var u1 := Upload(Meta(Active, Some(1), map[]), [], map[], map[], map[1 := Flight([7], Direct(0), {}, false)], map[], {});
    var u2 := u1.(direct := [7], flights := map[1 := Flight([7], Direct(0), {0}, false)]);
    var u3 := Upload(Meta(Active, Some(1), OnePart(1, 1, Direct(0))), [7], map[], map[], map[], map[1 := [7]], {});
    var u4 := u3.(flights := map[1 := Flight([9], Direct(0), {}, false)]);
    var u5 := u4.(direct := [9], flights := map[1 := Flight([9], Direct(0), {0}, false)]);
    es, u := [], u3.(direct := [9], torn := {1});
    StartRun();
    assert PlanStep(Created, 1, [7], false) == u1;
    es := OneMore(es, Created, Plan(1, [7], false), u1);
    OneByteDirect(u1, 7, []);
    es := OneMore(es, u1, Write(1, 0, 1), u2);
    assert RecordStep(u2, 1, Some(1)) == u3;
    es := OneMore(es, u2, Record(1, Some(1)), u3);
    assert PlanStep(u3, 1, [9], false) == u4;
    es := OneMore(es, u3, Plan(1, [9], false), u4);
    OneByteDirect(u4, 9, [7]);
    es := OneMore(es, u4, Write(1, 0, 1), u5);
    assert AbandonStep(u5, 1) == u;
    es := OneMore(es, u5, Abandon(1), u);
    assert [9][0..1][0] == 9;
  }

  lemma OneMore(es: seq<Event>, v: Upload, e: Event, w: Upload) returns (es': seq<Event>)
    requires Run(Created, es, v) && Enabled(v, e) && Next(v, e) == w && Fits(e)
    requires forall i :: 0 <= i < |es| ==> Fits(es[i])
    ensures es' == es + [e] && Run(Created, es', w) && forall i :: 0 <= i < |es'| ==> Fits(es'[i])
  {
    RunThen(Created, es, v, e, w);
    es' := es + [e];
  }

  lemma WholeFileWrite(u: Upload, body: seq<byte>)
    requires u.flights == map[2 := Flight(body, InFile, {}, false)] && u.tmps == map[2 := []] && 1 <= |body| <= 2
    ensures WriteStep(u, 2, 0, |body|)
            == u.(tmps := map[2 := body], flights := map[2 := Flight(body, InFile, Interval(0, |body|), false)])
    ensures AllDone(Flight(body, InFile, Interval(0, |body|), false))
  {
    assert body[0..|body|] == body && WriteAt([], 0, body) == body;
    assert {} + Interval(0, |body|) == Interval(0, |body|);
  }

  function Recorded7(): Upload {
    Upload(Meta(Active, None, OnePart(2, 1, InFile)), [], map[], map[2 := [7]], map[], map[2 := [7]], {})
  }

  lemma RecordFile() returns (es: seq<Event>)
    ensures Run(Created, es, Recorded7()) && forall i :: 0 <= i < |es| ==> Fits(es[i])
  {
    hide WriteStep, WriteAt, Interval, Run, AllDone;
    var one := Interval(0, 1);
    var u1 := Created.(tmps := map[2 := []], flights := map[2 := Flight([7], InFile, {}, false)]);
    var u2 := u1.(tmps := map[2 := [7]], flights := map[2 := Flight([7], InFile, one, false)]);
    var u3 := u2.(tmps := map[], files := map[2 := [7]], flights := map[2 := Flight([7], InFile, one, true)]);
    es := [];
    StartRun();
    FirstFilePlan();
    es := OneMore(es, Created, Plan(2, [7], false), u1);
    WholeFileWrite(u1, [7]);
    es := OneMore(es, u1, Write(2, 0, 1), u2);
    assert RenameStep(u2, 2) == u3;
    es := OneMore(es, u2, Rename(2), u3);
    DoneStays([7], one);
    assert RecordStep(u3, 2, None) == Recorded7();
    es := OneMore(es, u3, Record(2, None), Recorded7());
  }

  /** Part 2 recorded as the file [7]; a re-upload of [9, 9] dies between its rename and its record. */
  lemma DyingFileUpload() returns (es: seq<Event>, u: Upload)
    ensures Run(Created, es, u) && (forall i :: 0 <= i < |es| ==> Fits(es[i])) && Promised(u, 2, [7])
    ensures u.meta.parts[2].stored.InFile? && !PartHolds(u.meta, u.direct, u.files, 2, [7])
  {
    hide WriteStep, WriteAt, Interval, Run, AllDone, PlanStep;
    var two, u4 := Interval(0, 2), Recorded7();
    var u5 := u4.(tmps := map[2 := []], flights := map[2 := Flight([9, 9], InFile, {}, false)]);
    var u6 := u5.(tmps := map[2 := [9, 9]], flights := map[2 := Flight([9, 9], InFile, two, false)]);
    var u7 := u6.(tmps := map[], files := map[2 := [9, 9]], flights := map[2 := Flight([9, 9], InFile, two, true)]);
    u := u4.(files := map[2 := [9, 9]], torn := {2});
    es := RecordFile();
    SecondFilePlan(u4);
    es := OneMore(es, u4, Plan(2, [9, 9], false), u5);
    WholeFileWrite(u5, [9, 9]);
    es := OneMore(es, u5, Write(2, 0, 2), u6);
    assert RenameStep(u6, 2) == u7;
    es := OneMore(es, u6, Rename(2), u7);
    assert AbandonStep(u7, 2) == u;
    es := OneMore(es, u7, Abandon(2), u);
    assert [9, 9][0..1][0] == 9;
  }

  lemma DoneStays(body: seq<byte>, done: set<nat>)
    ensures AllDone(Flight(body, InFile, done, false)) ==> AllDone(Flight(body, InFile, done, true))
  {
  }

  lemma FirstFilePlan()
    ensures PlanStep(Created, 2, [7], false)
            == Created.(tmps := map[2 := []], flights := map[2 := Flight([7], InFile, {}, false)])
  {
  }

  lemma SecondFilePlan(u: Upload)
    requires u == Upload(Meta(Active, None, OnePart(2, 1, InFile)), [], map[], map[2 := [7]], map[], map[2 := [7]], {})
    ensures PlanStep(u, 2, [9, 9], false) == u.(tmps := map[2 := []], flights := map[2 := Flight([9, 9], InFile, {}, false)])
  {
  }

  lemma StartRun()
    ensures Run(Created, [], Created)
  {
  }

  /** The client was told that part `pn` is `content`. */
  predicate Promised(u: Upload, pn: nat, content: seq<byte>) {
    pn in u.last && u.last[pn] == content && pn in u.meta.parts && u.flights == map[]
  }

  // ------------------------------------------------------------ an upload can always be made

  lemma RunOneMore(u: Upload, e: Event, es: seq<Event>, u': Upload)
    requires Enabled(u, e) && Run(Next(u, e), es, u')
    ensures Run(u, [e] + es, u')
  {
    hide Enabled, Next;
    assert ([e] + es)[1..] == es;
  }

  lemma NoRun(u: Upload)
    ensures Run(u, [], u)
  {
  }

  /** Some answer of the recomputation is always possible. */
  lemma SomeRecomputed(m: Meta) returns (assumed: Option<nat>)
    ensures Recomputed(m, assumed)
  {
    assumed := m.assumed;
    if m.assumed.None? {
      if size :| SharedSize(m.parts, size) { assumed := Some(size); }
    }
  }

  /** A complete upload is recorded. */
  lemma CanRecord(u: Upload, pn: nat) returns (e: Event)
    requires u.meta.phase.Active? && pn in u.flights && Complete(u.flights[pn])
    ensures Enabled(u, e) && e.Record? && e.pn == pn
    ensures var u' := Next(u, e);
            && pn in u'.last && u'.last[pn] == u.flights[pn].body && pn !in u'.torn && pn in u'.meta.parts
            && pn !in u'.flights
  {
    hide Complete, Recomputed;
    var assumed := SomeRecomputed(RecordMeta(u.meta, pn, u.flights[pn]));
    e := Record(pn, assumed);
  }

  lemma CanRename(u: Upload, pn: nat) returns (es: seq<Event>, u': Upload)
    requires u.meta.phase.Active? && pn in u.flights && AllDone(u.flights[pn]) && !u.flights[pn].renamed
    requires u.flights[pn].dest.InFile? ==> pn in u.tmps
    ensures Run(u, es, u') && u'.meta == u.meta && pn in u'.flights && Complete(u'.flights[pn])
    ensures u'.flights[pn].body == u.flights[pn].body && forall e :: e in es ==> e == Rename(pn)
  {
    hide Run, AllDone;
    if u.flights[pn].dest.Direct? {
      NoRun(u);
      es, u' := [], u;
    } else {
      u' := Next(u, Rename(pn));
      assert AllDone(u'.flights[pn]) by { SameDone(u.flights[pn]); }
      NoRun(u');
      RunOneMore(u, Rename(pn), [], u');
      es := [Rename(pn)] + [];
    }
  }

  lemma SameDone(f: Flight)
    requires AllDone(f)
    ensures AllDone(f.(renamed := true))
  {
  }

  /** One write of the whole payload is enough. */
  lemma CanWrite(u: Upload, pn: nat)
    requires u.meta.phase.Active? && pn in u.flights && !u.flights[pn].renamed
    ensures var e := Write(pn, 0, |u.flights[pn].body|);
            && Enabled(u, e)
            && var u' := Next(u, e);
               && u'.meta == u.meta && pn in u'.flights && AllDone(u'.flights[pn]) && !u'.flights[pn].renamed
               && u'.flights[pn].body == u.flights[pn].body && u'.flights[pn].dest == u.flights[pn].dest
               && (u.flights[pn].dest.InFile? ==> pn in u'.tmps)
  {
    hide WriteAt;
  }

  lemma CanPlan(u: Upload, pn: nat, body: seq<byte>)
    requires u.meta.phase.Active? && 1 <= pn <= MAX_PARTS && pn !in u.flights
    ensures var e := Plan(pn, body, false);
            && Enabled(u, e)
            && var u' := Next(u, e);
               u'.meta.phase.Active? && pn in u'.flights && u'.flights[pn].body == body && !u'.flights[pn].renamed
  {
    hide Placement;
  }

  lemma CanEnd(u: Upload, pn: nat) returns (es: seq<Event>, u': Upload)
    requires u.meta.phase.Active? && pn in u.flights && AllDone(u.flights[pn]) && !u.flights[pn].renamed
    requires u.flights[pn].dest.InFile? ==> pn in u.tmps
    ensures Run(u, es, u') && pn in u'.last && u'.last[pn] == u.flights[pn].body
    ensures pn !in u'.torn && pn in u'.meta.parts && pn !in u'.flights
    ensures forall e :: e in es ==> e == Rename(pn) || (e.Record? && e.pn == pn)
  {
    hide Run, Next, Enabled, AllDone, Complete;
    var rename, renamed := CanRename(u, pn);
    var record := CanRecord(renamed, pn);
    u' := Next(renamed, record);
    NoRun(u');
    RunOneMore(renamed, record, [], u');
    RunConcat(u, rename, renamed, [record] + [], u');
    es := rename + ([record] + []);
  }

  /**
   * From every active upload any part not being uploaded can be, with any payload: planned,
   * written, renamed if it is a file, and recorded it is the part, untorn.
   */
  lemma PartCanBeUploaded(u: Upload, pn: nat, body: seq<byte>) returns (es: seq<Event>, u': Upload)
    requires u.meta.phase.Active? && 1 <= pn <= MAX_PARTS && pn !in u.flights
    ensures Run(u, es, u') && pn in u'.last && u'.last[pn] == body && pn !in u'.torn && pn in u'.meta.parts && pn !in u'.flights
    ensures forall e :: e in es ==> e.pn == pn && !e.Abandon? && (e.Plan? ==> e.body == body)
  {
    hide Run, Next, Enabled, AllDone;
    var plan, write := Plan(pn, body, false), Write(pn, 0, |body|);
    CanPlan(u, pn, body);
    var planned := Next(u, plan);
    CanWrite(planned, pn);
    var written := Next(planned, write);
    var end;
    end, u' := CanEnd(written, pn);
    RunOneMore(planned, write, end, u');
    RunOneMore(u, plan, [write] + end, u');
    es := [plan] + ([write] + end);
  }

  lemma {:induction false} RunConcat(u: Upload, es: seq<Event>, mid: Upload, more: seq<Event>, u': Upload)
    requires Run(u, es, mid) && Run(mid, more, u')
    ensures Run(u, es + more, u')
    decreases es
  {
    hide Enabled, Next;
    if es == [] {
      assert es + more == more;
    } else {
      RunConcat(Next(u, es[0]), es[1..], mid, more, u');
      assert (es + more)[1..] == es[1..] + more;
    }
  }
}
