/**
 * The sections of the multipart code that run under the upload lock: planning and
 * recording a part, and CompleteMultipartUpload with its fast path (fill the holes of
 * direct.bin, truncate, rename) and its sequential fallback.
 */
module Completion {
  import opened Posix
  import opened Align
  import opened Streaming
  import opened Upload
  import opened RangeCopy
  import opened Multipart

  datatype PlanResult = Placed(stored: Stored) | BadPartNumber | NotActive

  datatype Outcome = Published(bytes: seq<byte>) | PreconditionFailed | Conflict | BadRequest | InternalError

  datatype CommitResult = Committed(bytes: seq<byte>) | DestinationExists | CommitFailed

  /** The object a completion of parts 1..n must publish. */
  function Assembled(content: map<nat, seq<byte>>, n: nat): seq<byte>
    requires forall pn :: 1 <= pn <= n ==> pn in content
  {
    if n == 0 then [] else Assembled(content, n - 1) + content[n]
  }

  predicate AllIn(content: map<nat, seq<byte>>, n: nat) {
    forall pn :: 1 <= pn <= n ==> pn in content
  }

  /** A file read as if it went on with zeros, as truncating it to a larger size makes it. */
  function ByteOrZero(f: seq<byte>, pos: nat): byte {
    if pos < |f| then f[pos] else 0
  }

  predicate Reads(f: seq<byte>, off: nat, data: seq<byte>) {
    forall i :: 0 <= i < |data| ==> ByteOrZero(f, off + i) == data[i]
  }

  /** A completion that gets at part `pn` at all finds `content`. */
  predicate PartReads(m: Meta, direct: seq<byte>, files: map<nat, seq<byte>>, pn: nat, content: seq<byte>) {
    && pn in m.parts
    && m.parts[pn].size == |content|
    && match m.parts[pn].stored
       case Direct(off) => Reads(direct, off, content)
       case InFile => pn in files && HoldsAt(files[pn], 0, content)
  }

  lemma HoldsReads(m: Meta, direct: seq<byte>, files: map<nat, seq<byte>>, pn: nat, content: seq<byte>)
    requires PartHolds(m, direct, files, pn, content)
    ensures PartReads(m, direct, files, pn, content)
  {
    if m.parts[pn].stored.Direct? && |content| > 0 {
      var off := m.parts[pn].stored.off;
      forall i | 0 <= i < |content|
        ensures ByteOrZero(direct, off + i) == content[i]
      {
        assert direct[off..off + |content|][i] == direct[off + i];
      }
    }
  }

  /** Whatever is known about parts 1..n is what a completion reads. */
  predicate Intact(m: Meta, direct: seq<byte>, files: map<nat, seq<byte>>, content: map<nat, seq<byte>>, n: nat) {
    forall pn :: 1 <= pn <= n && pn in content ==> PartReads(m, direct, files, pn, content[pn])
  }

  /** The fixed-size layout: parts before the last are exactly `s` long and nothing sits at a wrong offset. */
  predicate FixedLayout(m: Meta, n: nat, s: nat)
    requires 1 <= n && forall pn :: 1 <= pn <= n ==> pn in m.parts
  {
    && (forall pn :: 1 <= pn < n ==> m.parts[pn].size == s)
    && (forall pn :: 1 <= pn <= n && m.parts[pn].stored.Direct? ==> m.parts[pn].stored.off == DirectOff(pn, s))
  }

  /** Where parts 1..n end in the fixed layout. */
  function LayoutEnd(m: Meta, n: nat, s: nat): nat
    requires 1 <= n && n in m.parts
  {
    (n - 1) * s + m.parts[n].size
  }

  /** No offset of parts 1..n wraps around 2^64. */
  predicate SlotsFit(m: Meta, n: nat, s: nat)
    requires 1 <= n && n in m.parts
  {
    LayoutEnd(m, n, s) < U64
  }

  lemma FittingOffset(m: Meta, n: nat, s: nat, pn: nat)
    requires 1 <= pn <= n && n in m.parts && SlotsFit(m, n, s)
    ensures DirectOff(pn, s) == (pn - 1) * s <= (n - 1) * s
  {
    MulMonotone(pn - 1, n - 1, s);
    SmallIsItsRemainder((pn - 1) * s);
  }

  /** What the fast path keeps: everything known, unless the slots wrap around. */
  predicate Safe(m: Meta, direct: seq<byte>, files: map<nat, seq<byte>>, content: map<nat, seq<byte>>, n: nat, s: nat)
    requires 1 <= n && n in m.parts
  {
    SlotsFit(m, n, s) ==> Intact(m, direct, files, content, n)
  }

  /** Beyond `end` the two files read the same. */
  ghost predicate SameTail(f: seq<byte>, g: seq<byte>, end: nat) {
    forall p :: p >= end ==> ByteOrZero(f, p) == ByteOrZero(g, p)
  }

  predicate Recorded(m: Meta, n: nat) {
    forall pn :: 1 <= pn <= n ==> pn in m.parts
  }

  predicate Increasing(r: seq<nat>) {
    forall i, j :: 0 <= i < j < |r| ==> r[i] < r[j]
  }

  /** Strictly increasing from 1, as long as its last element: it is 1, 2, ..., n. */
  lemma {:induction false} ContiguousList(r: seq<nat>, i: nat)
    requires Increasing(r) && i < |r| && r[0] == 1 && r[|r| - 1] == |r|
    ensures r[i] == i + 1
  {
    AtLeastIndex(r, i);
    AtMostIndex(r, i);
  }

  lemma {:induction false} AtLeastIndex(r: seq<nat>, i: nat)
    requires Increasing(r) && i < |r| && r[0] == 1
    ensures r[i] >= i + 1
  {
    if i > 0 { AtLeastIndex(r, i - 1); }
  }

  lemma {:induction false} AtMostIndex(r: seq<nat>, i: nat)
    requires Increasing(r) && i < |r| && r[|r| - 1] == |r|
    ensures r[i] <= i + 1
    decreases |r| - i
  {
    if i < |r| - 1 { AtMostIndex(r, i + 1); }
  }

  // ------------------------------------------------------------ layout lemmas

  lemma ChangeElsewhere(f: seq<byte>, f': seq<byte>, base: nat, len: nat, off: nat, data: seq<byte>)
    requires OnlyRangeChanged(f, f', base, len) && Reads(f, off, data)
    requires off + |data| <= base || base + len <= off
    ensures Reads(f', off, data)
  {
    forall i | 0 <= i < |data|
      ensures ByteOrZero(f', off + i) == data[i]
    {
      assert ByteOrZero(f, off + i) == data[i];
    }
  }

  lemma ChangeKeepsTail(f: seq<byte>, f': seq<byte>, base: nat, len: nat, end: nat)
    requires OnlyRangeChanged(f, f', base, len) && base + len <= end
    ensures SameTail(f, f', end)
  {
  }

  /** Whatever happened inside part `pn`'s slot, every other part of a fixed layout kept its bytes. */
  lemma SlotChangeSparesOthers(m: Meta, direct: seq<byte>, direct': seq<byte>, files: map<nat, seq<byte>>,
                               content: map<nat, seq<byte>>, n: nat, s: nat, pn: nat, q: nat)
    requires 1 <= pn <= n && 1 <= q <= n && Recorded(m, n) && FixedLayout(m, n, s) && SlotsFit(m, n, s)
    requires m.parts[pn].stored.InFile? && q in content && PartReads(m, direct, files, q, content[q])
    requires OnlyRangeChanged(direct, direct', (pn - 1) * s, m.parts[pn].size)
    ensures PartReads(m, direct', files, q, content[q])
  {
    hide Reads, HoldsAt, OnlyRangeChanged, DirectOff, LayoutEnd;
    if m.parts[q].stored.Direct? {
      FittingOffset(m, n, s, q);
      if q < pn { SlotsApart(q, pn, s); } else { SlotsApart(pn, q, s); }
      ChangeElsewhere(direct, direct', (pn - 1) * s, m.parts[pn].size, m.parts[q].stored.off, content[q]);
    }
  }

  /** A copy into part `pn`'s slot, complete or not, leaves all recorded bytes where the metadata says. */
  lemma SlotChangeIntact(m: Meta, direct: seq<byte>, direct': seq<byte>, files: map<nat, seq<byte>>,
                         content: map<nat, seq<byte>>, n: nat, s: nat, pn: nat)
    requires 1 <= pn <= n && Recorded(m, n) && FixedLayout(m, n, s) && SlotsFit(m, n, s) && m.parts[pn].stored.InFile?
    requires Intact(m, direct, files, content, n)
    requires OnlyRangeChanged(direct, direct', DirectOff(pn, s), m.parts[pn].size)
    ensures Intact(m, direct', files, content, n) && SameTail(direct, direct', LayoutEnd(m, n, s))
  {
    hide PartReads;
    FittingOffset(m, n, s, pn);
    forall q | 1 <= q <= n && q in content
      ensures PartReads(m, direct', files, q, content[q])
    {
      SlotChangeSparesOthers(m, direct, direct', files, content, n, s, pn, q);
    }
    if pn < n { SlotsApart(pn, n, s); }
    ChangeKeepsTail(direct, direct', (pn - 1) * s, m.parts[pn].size, LayoutEnd(m, n, s));
  }

  /** A write of a failed copy that lands later, before or after the part is finally filled, changes nothing known. */
  lemma LateWriteKeeps(m: Meta, direct: seq<byte>, files: map<nat, seq<byte>>, content: map<nat, seq<byte>>,
                       n: nat, s: nat, pn: nat, op: WriteOp)
    requires 1 <= pn <= n && Recorded(m, n) && FixedLayout(m, n, s) && SlotsFit(m, n, s)
    requires Intact(m, direct, files, content, n) && pn in content
    requires CopyOp(op, content[pn], 0, DirectOff(pn, s), |content[pn]|)
    ensures Intact(m, WriteAt(direct, op.off, op.data), files, content, n)
  {
    hide HoldsAt, DirectOff;
    var direct' := WriteAt(direct, op.off, op.data);
    FittingOffset(m, n, s, pn);
    forall q | 1 <= q <= n && q in content
      ensures PartReads(m, direct', files, q, content[q])
    {
      assert PartReads(m, direct, files, q, content[q]) && PartReads(m, direct, files, pn, content[pn]);
      if m.parts[q].stored.Direct? {
        FittingOffset(m, n, s, q);
        if q < pn { SlotsApart(q, pn, s); } else if q > pn { SlotsApart(pn, q, s); }
        WriteStaysRead(direct, op, m.parts[q].stored.off, content[q], (pn - 1) * s, content[pn], q == pn);
      }
    }
  }

  lemma WriteStaysRead(f: seq<byte>, op: WriteOp, off: nat, data: seq<byte>, slot: nat, body: seq<byte>, same: bool)
    requires Reads(f, off, data) && CopyOp(op, body, 0, slot, |body|)
    requires if same then off == slot && data == body else off + |data| <= slot || slot + |body| <= off
    ensures Reads(WriteAt(f, op.off, op.data), off, data)
  {
    var g := WriteAt(f, op.off, op.data);
    forall i | 0 <= i < |data|
      ensures ByteOrZero(g, off + i) == data[i]
    {
      assert ByteOrZero(f, off + i) == data[i];
      var p := off + i;
      if same && op.off <= p < op.off + |op.data| {
        assert op.data[p - op.off] == body[op.off - slot..op.off - slot + |op.data|][p - op.off] == body[p - slot];
      }
    }
  }

  /** After a complete copy the metadata may point at direct.bin and the part file may go. */
  lemma FilledSlotIntact(m: Meta, direct: seq<byte>, direct': seq<byte>, files: map<nat, seq<byte>>, files': map<nat, seq<byte>>,
                         content: map<nat, seq<byte>>, n: nat, pn: nat, off: nat)
    requires 1 <= pn <= n && pn in m.parts && m.parts[pn].stored.InFile? && pn in files
    requires Intact(m, direct', files, content, n)
    requires var size := m.parts[pn].size; size > 0 ==> size <= |files[pn]| && direct' == WriteAt(direct, off, files[pn][0..size])
    requires files' == files || files' == files - {pn}
    ensures Intact(m.(parts := m.parts[pn := PartMeta(m.parts[pn].size, Direct(off))]), direct', files', content, n)
  {
    if pn in content {
      var c := content[pn];
      assert PartReads(m, direct', files, pn, c);
      assert |c| > 0 ==> files[pn][0..|c|] == c;
    }
  }

  lemma AppendReads(f: seq<byte>, a: seq<byte>, b: seq<byte>)
    requires Reads(f, 0, a) && Reads(f, |a|, b)
    ensures Reads(f, 0, a + b)
  {
    forall i | 0 <= i < |a + b|
      ensures ByteOrZero(f, i) == (a + b)[i]
    {
      if i < |a| { assert ByteOrZero(f, 0 + i) == a[i]; } else { assert ByteOrZero(f, |a| + (i - |a|)) == b[i - |a|]; }
    }
  }

  /** Slots filled back to back spell out the assembled object. */
  lemma {:induction false} SlotsSpellObject(m: Meta, direct: seq<byte>, files: map<nat, seq<byte>>,
                                            content: map<nat, seq<byte>>, n: nat, s: nat, k: nat)
    requires 1 <= n && k <= n && Recorded(m, n) && FixedLayout(m, n, s) && SlotsFit(m, n, s)
    requires AllIn(content, n) && Intact(m, direct, files, content, n)
    requires forall pn :: 1 <= pn <= n ==> m.parts[pn].stored.Direct?
    ensures k < n ==> |Assembled(content, k)| == k * s
    ensures Reads(direct, 0, Assembled(content, k))
  {
    if k == 0 {
    } else {
      hide Reads, HoldsAt, DirectOff, LayoutEnd;
      SlotsSpellObject(m, direct, files, content, n, s, k - 1);
      assert PartReads(m, direct, files, k, content[k]);
      FittingOffset(m, n, s, k);
      AppendReads(direct, Assembled(content, k - 1), content[k]);
      assert (k - 1) * s + s == k * s;
    }
  }

  /** In the fixed layout the object is as long as the layout. */
  lemma {:induction false} AssembledLength(m: Meta, content: map<nat, seq<byte>>, n: nat, s: nat, k: nat)
    requires 1 <= n && k <= n && Recorded(m, n) && FixedLayout(m, n, s) && AllIn(content, n)
    requires forall pn :: 1 <= pn <= n ==> m.parts[pn].size == |content[pn]|
    ensures k < n ==> |Assembled(content, k)| == k * s
    ensures k == n ==> |Assembled(content, k)| == LayoutEnd(m, n, s)
  {
    if k > 0 {
      AssembledLength(m, content, n, s, k - 1);
      assert (k - 1) * s + s == k * s;
    }
  }

  lemma {:induction false} AssembledGrows(content: map<nat, seq<byte>>, k: nat, n: nat)
    requires k <= n && AllIn(content, n)
    ensures |Assembled(content, k)| <= |Assembled(content, n)|
    decreases n - k
  {
    if k < n { AssembledGrows(content, k + 1, n); }
  }

  lemma TruncateReads(f: seq<byte>, size: nat, off: nat, data: seq<byte>)
    requires Reads(f, off, data) && off + |data| <= size
    ensures Reads(Truncate(f, size), off, data)
  {
    forall i | 0 <= i < |data|
      ensures ByteOrZero(Truncate(f, size), off + i) == data[i]
    {
      assert ByteOrZero(f, off + i) == data[i];
    }
  }

  /** Cutting direct.bin at the end of the layout keeps every slot of 1..n. */
  lemma TruncateKeepsSlots(m: Meta, direct: seq<byte>, files: map<nat, seq<byte>>, content: map<nat, seq<byte>>, n: nat, s: nat)
    requires 1 <= n && Recorded(m, n) && FixedLayout(m, n, s) && SlotsFit(m, n, s) && Intact(m, direct, files, content, n)
    ensures Intact(m, Truncate(direct, LayoutEnd(m, n, s)), files, content, n)
  {
    var cut := Truncate(direct, LayoutEnd(m, n, s));
    forall pn | 1 <= pn <= n && pn in content
      ensures PartReads(m, cut, files, pn, content[pn])
    {
      assert PartReads(m, direct, files, pn, content[pn]);
      if m.parts[pn].stored.Direct? {
        FittingOffset(m, n, s, pn);
        if pn < n { SlotsApart(pn, n, s); }
        TruncateReads(direct, LayoutEnd(m, n, s), m.parts[pn].stored.off, content[pn]);
      }
    }
  }

  /** The truncated direct.bin is the object. */
  lemma TruncatedIsObject(m: Meta, direct: seq<byte>, files: map<nat, seq<byte>>, content: map<nat, seq<byte>>, n: nat, s: nat)
    requires 1 <= n && Recorded(m, n) && FixedLayout(m, n, s) && SlotsFit(m, n, s)
    requires AllIn(content, n) && Intact(m, direct, files, content, n)
    requires forall pn :: 1 <= pn <= n ==> m.parts[pn].stored.Direct?
    ensures Truncate(direct, LayoutEnd(m, n, s)) == Assembled(content, n)
  {
    SlotsSpellObject(m, direct, files, content, n, s, n);
    forall pn | 1 <= pn <= n ensures m.parts[pn].size == |content[pn]| { assert PartReads(m, direct, files, pn, content[pn]); }
    AssembledLength(m, content, n, s, n);
    var a := Assembled(content, n);
    forall i | 0 <= i < |a|
      ensures Truncate(direct, |a|)[i] == a[i]
    {
      assert ByteOrZero(direct, 0 + i) == a[i];
    }
  }

  // ------------------------------------------------------------ what the kernel answers

  datatype RenameResult = Renamed | Exists | CrossDevice | RenameFailed

  /** Whether a rename stays on one device, crosses to another, or fails for a reason of its own. */
  datatype Device = Works | Crosses | Fails

  /**
   * What a rename meets: the object `found` at the destination, whether removing it first
   * would work, and the device.
   */
  datatype Try = Try(found: Option<seq<byte>>, clears: bool, device: Device)

  /** The answers to committing an assembled file: its rename, and across devices the copy and the copy's rename. */
  datatype Commit = Commit(first: Try, copies: bool, second: Try)

  /**
   * All answers one completion may get.  `unopened`, `uncopied` and `stays` are the part files
   * that do not open, whose copy into direct.bin fails, and whose removal fails; `waiting`
   * numbers the writes of a failed copy still in flight when it returns, which land before or
   * after the fallback reads; `assembles` says that every call of the fallback up to the
   * commit of its staging file works, and `beside` that this file is next to the destination.
   */
  datatype Answers = Answers(
    opensDirect: bool, unopened: set<nat>, uncopied: set<nat>, waiting: set<nat>, stays: set<nat>,
    truncates: bool, direct: Commit, landsFirst: bool, assembles: bool, beside: bool, staged: Commit)

  datatype Verdict = Done | Taken | Failed

  /** An occupied destination refuses a rename that must not replace; otherwise the device decides. */
  function TryVerdict(t: Try, noreplace: bool): Verdict {
    if !t.device.Works? then Failed else if noreplace && t.found.Some? then Taken else Done
  }

  function CommitVerdict(c: Commit, mayCopy: bool, noreplace: bool): Verdict {
    if !c.first.device.Crosses? then TryVerdict(c.first, noreplace)
    else if mayCopy && c.copies then TryVerdict(c.second, noreplace)
    else Failed
  }

  predicate Agrees(r: CommitResult, v: Verdict) {
    match v
    case Done => r.Committed?
    case Taken => r.DestinationExists?
    case Failed => r.CommitFailed?
  }

  // ------------------------------------------------------------ the destination

  /**
   * The key the object is to be stored under.  `stored` counts the renames of this process
   * that took effect, `displaced` the objects of others it replaced or removed.
   */
  datatype Place = Place(held: Option<seq<byte>>, stored: nat, displaced: nat)

  class Destination {
    var place: Place

    constructor ()
      ensures place == Place(None, 0, 0)
    {
      place := Place(None, 0, 0);
    }

    /** Others store and delete as they like. */
    method Meanwhile(found: Option<seq<byte>>)
      modifies this
      ensures place == old(place).(held := found)
    {
      place := place.(held := found);
    }

    /** unlink(2), best effort. */
    method Clear(works: bool)
      modifies this
      ensures place == if works && old(place).held.Some? then Place(None, old(place).stored, old(place).displaced + 1)
                       else old(place)
    {
      if works && place.held.Some? {
        place := Place(None, place.stored, place.displaced + 1);
      }
    }

    /** rename(2) replaces what is there; renameat2 with RENAME_NOREPLACE refuses. */
    method Rename(data: seq<byte>, noreplace: bool, device: Device) returns (r: RenameResult)
      modifies this
      ensures r.CrossDevice? <==> device.Crosses?
      ensures r.RenameFailed? <==> device.Fails?
      ensures r.Exists? <==> device.Works? && noreplace && old(place).held.Some?
      ensures !r.Renamed? ==> place == old(place)
      ensures r.Renamed? ==>
                place == Place(Some(data), old(place).stored + 1, old(place).displaced + if old(place).held.Some? then 1 else 0)
    {
      match device
      case Crosses => r := CrossDevice;
      case Fails => r := RenameFailed;
      case Works =>
        if noreplace && place.held.Some? {
          r := Exists;
        } else {
          place := Place(Some(data), place.stored + 1, place.displaced + if place.held.Some? then 1 else 0);
          r := Renamed;
        }
    }
  }

  /**
   * A commit and its destination: committed means the object is there, stored once; any other
   * answer means it was not stored; a refusal means that something is there; and with
   * `noreplace` nothing of others is ever replaced or removed.
   */
  predicate Settles(before: Place, after: Place, r: CommitResult, noreplace: bool) {
    && after.stored == before.stored + (if r.Committed? then 1 else 0)
    && (r.Committed? ==> after.held == Some(r.bytes))
    && (r.DestinationExists? ==> noreplace && after.held.Some?)
    && before.displaced <= after.displaced && (noreplace ==> after.displaced == before.displaced)
  }

  /** The commit gets as far as renaming a copy. */
  predicate ReachesCopy(c: Commit, mayCopy: bool) {
    c.first.device.Crosses? && mayCopy && c.copies
  }

  /** A commit without `noreplace` removes an object before a rename: always before that of a copy, else if told to. */
  predicate Removes(c: Commit, mayCopy: bool, clearFirst: bool) {
    || (clearFirst && c.first.found.Some? && c.first.clears)
    || (ReachesCopy(c, mayCopy) && c.second.found.Some? && c.second.clears)
  }

  /** The object a refused commit met. */
  function Occupant(c: Commit): Option<seq<byte>> {
    if c.first.device.Works? then c.first.found else c.second.found
  }

  /** What a failed commit leaves at the destination. */
  function LeftThere(c: Commit, mayCopy: bool, clearFirst: bool, noreplace: bool): Option<seq<byte>> {
    var (t, cleared) := if ReachesCopy(c, mayCopy) then (c.second, true) else (c.first, clearFirst);
    if !noreplace && cleared && t.clears then None else t.found
  }

  /** Renames an assembled file into place, across devices by a copy next to the destination. */
  method CommitFile(dst: Destination, data: seq<byte>, c: Commit, mayCopy: bool, clearFirst: bool, noreplace: bool, cfg: StreamCfg)
    returns (r: CommitResult)
    requires cfg.Valid()
    modifies dst
    ensures Agrees(r, CommitVerdict(c, mayCopy, noreplace)) && (r.Committed? ==> r.bytes == data)
    ensures Settles(old(dst.place), dst.place, r, noreplace)
    ensures r.Committed? <==>
              || (c.first.device.Works? && !(noreplace && c.first.found.Some?))
              || (ReachesCopy(c, mayCopy) && c.second.device.Works? && !(noreplace && c.second.found.Some?))
    ensures r.DestinationExists? <==>
              noreplace && ((c.first.device.Works? && c.first.found.Some?)
                            || (ReachesCopy(c, mayCopy) && c.second.device.Works? && c.second.found.Some?))
    ensures r.DestinationExists? ==> dst.place.held == Occupant(c)
    ensures r.CommitFailed? ==>
              && (dst.place.displaced > old(dst.place).displaced <==> !noreplace && Removes(c, mayCopy, clearFirst))
              && dst.place.held == LeftThere(c, mayCopy, clearFirst, noreplace)
  {
    dst.Meanwhile(c.first.found);
    if clearFirst && !noreplace {
      dst.Clear(c.first.clears);
    }
    var bytes := data;
    var renamed := dst.Rename(data, noreplace, c.first.device);
    if renamed.CrossDevice? {
      if !mayCopy {
        return CommitFailed;
      }
      var tmp := new PosixFile([]);
      var ok := CopyFileToFile(data, tmp, |data|, cfg, c.copies);
      if !ok {
        return CommitFailed;
      }
      assert data[..|data|] == data;
      dst.Meanwhile(c.second.found);
      if !noreplace {
        dst.Clear(c.second.clears);
      }
      bytes := tmp.data;
      renamed := dst.Rename(bytes, noreplace, c.second.device);
    }
    match renamed
    case Renamed => r := Committed(bytes);
    case Exists => r := DestinationExists;
    case _ => r := CommitFailed;
  }

  predicate Opens(files: map<nat, seq<byte>>, k: Answers, pn: nat) {
    pn in files && pn !in k.unopened
  }

  /** The part file of `pn` gets into direct.bin. */
  predicate Fillable(m: Meta, files: map<nat, seq<byte>>, k: Answers, pn: nat)
    requires pn in m.parts
  {
    Opens(files, k, pn) && (m.parts[pn].size == 0 || (pn !in k.uncopied && m.parts[pn].size <= |files[pn]|))
  }

  /** Every part file of 1..n gets into direct.bin. */
  predicate HolesFill(m: Meta, files: map<nat, seq<byte>>, k: Answers, n: nat)
    requires Recorded(m, n)
  {
    forall pn :: 1 <= pn <= n && m.parts[pn].stored.InFile? ==> Fillable(m, files, k, pn)
  }

  /** The copy of the last part into direct.bin is begun. */
  predicate Attempted(m: Meta, files: map<nat, seq<byte>>, k: Answers, n: nat)
    requires 1 <= n && Recorded(m, n)
  {
    m.parts[n].stored.InFile? && Opens(files, k, n) && HolesFill(m, files, k, n - 1)
  }

  predicate Fast(m: Meta, n: nat)
    requires 1 <= n && Recorded(m, n)
  {
    m.assumed.Some? && FixedLayout(m, n, m.assumed.value)
  }

  /** How far the fast path gets: nothing of the last part, some of it, all parts filled, or direct.bin truncated. */
  datatype Stage = Untouched | Spoiled | Filled | Cut

  function StageOf(m: Meta, files: map<nat, seq<byte>>, k: Answers, n: nat): Stage
    requires 1 <= n && Recorded(m, n)
  {
    if !Fast(m, n) || !k.opensDirect then Untouched
    else if HolesFill(m, files, k, n) then if k.truncates then Cut else Filled
    else if Attempted(m, files, k, n) then Spoiled
    else Untouched
  }

  /** The fast path decides; otherwise the fallback does. */
  predicate FastDecides(m: Meta, files: map<nat, seq<byte>>, k: Answers, n: nat, noreplace: bool)
    requires 1 <= n && Recorded(m, n)
  {
    StageOf(m, files, k, n).Cut? && !CommitVerdict(k.direct, true, noreplace).Failed?
  }

  /** A completion that fails without `noreplace` has removed the object that was at the destination. */
  predicate Empties(m: Meta, files: map<nat, seq<byte>>, k: Answers, n: nat)
    requires 1 <= n && Recorded(m, n)
  {
    || (StageOf(m, files, k, n).Cut? && Removes(k.direct, true, false))
    || (k.assembles && Removes(k.staged, !k.beside, true))
  }

  /** All bytes of part `pn` are there to be read. */
  predicate PartPresent(m: Meta, direct: seq<byte>, files: map<nat, seq<byte>>, pn: nat)
    requires pn in m.parts
  {
    match m.parts[pn].stored
    case Direct(off) => m.parts[pn].size == 0 || off + m.parts[pn].size <= |direct|
    case InFile => pn in files && m.parts[pn].size <= |files[pn]|
  }

  predicate Present(m: Meta, direct: seq<byte>, files: map<nat, seq<byte>>, n: nat) {
    forall pn :: 1 <= pn <= n ==> pn in m.parts && PartPresent(m, direct, files, pn)
  }

  predicate InRange(op: WriteOp, base: nat, len: nat) {
    base <= op.off && op.off + |op.data| <= base + len
  }

  predicate AllInRange(ops: seq<WriteOp>, base: nat, len: nat) {
    forall i :: 0 <= i < |ops| ==> InRange(ops[i], base, len)
  }

  lemma {:induction false} ApplyInRange(f: seq<byte>, g: seq<byte>, ops: seq<WriteOp>, base: nat, len: nat)
    requires OnlyRangeChanged(f, g, base, len) && AllInRange(ops, base, len)
    ensures OnlyRangeChanged(f, ApplyAll(g, ops), base, len)
    decreases ops
  {
    if ops != [] {
      var g' := WriteAt(g, ops[0].off, ops[0].data);
      assert InRange(ops[0], base, len);
      OneInRange(f, g, ops[0], base, len);
      assert forall i :: 0 <= i < |ops[1..]| ==> ops[1..][i] == ops[i + 1];
      ApplyInRange(f, g', ops[1..], base, len);
    }
  }

  lemma OneInRange(f: seq<byte>, g: seq<byte>, op: WriteOp, base: nat, len: nat)
    requires OnlyRangeChanged(f, g, base, len) && InRange(op, base, len)
    ensures OnlyRangeChanged(f, WriteAt(g, op.off, op.data), base, len)
  {
  }

  lemma CopiesInRange(ops: seq<WriteOp>, src: seq<byte>, srcOff: nat, dstOff: nat, len: nat)
    requires forall i :: 0 <= i < |ops| ==> CopyOp(ops[i], src, srcOff, dstOff, len)
    ensures AllInRange(ops, dstOff, len)
  {
  }

  // ------------------------------------------------------------ the upload directory

  class UploadDir {
    var meta: Meta
    var files: map<nat, seq<byte>>
    const direct: PosixFile

    constructor ()
      ensures meta == Created.meta && files == map[] && fresh(direct) && direct.data == []
    {
      meta, files := Created.meta, map[];
      direct := new PosixFile([]);
    }

    /** Phase 1 of UploadPart and UploadPartCopy. */
    method PlanPart(pn: nat, len: nat) returns (r: PlanResult)
      modifies this`meta
      ensures r.BadPartNumber? <==> !(1 <= pn <= MAX_PARTS)
      ensures r.NotActive? <==> 1 <= pn <= MAX_PARTS && !old(meta).phase.Active?
      ensures r.Placed? ==> meta == Promote(old(meta), pn, len) && r.stored == Placement(meta, pn, len)
      ensures meta == old(meta).(assumed := meta.assumed) && (old(meta).assumed.Some? ==> meta == old(meta))
      ensures r.Placed? && old(meta).assumed.None? ==>
                meta.assumed == if pn == 1 || exists q :: q in meta.parts && meta.parts[q].size == len then Some(len) else None
      ensures r.Placed? && meta.assumed.Some? ==>
                var s := meta.assumed.value; r.stored == if len <= s then Direct(((pn - 1) * s) % U64) else InFile
      ensures r.Placed? && meta.assumed.None? ==>
                r.stored == if InSequence(meta.parts, pn) then Direct(Min(Total(meta.parts, pn), U64 - 1)) else InFile
      ensures !r.Placed? ==> meta == old(meta)
    {
      if pn == 0 || pn > MAX_PARTS {
        return BadPartNumber;
      }
      if !meta.phase.Active? {
        return NotActive;
      }
      meta := Promote(meta, pn, len);
      match meta.assumed {
        case Some(s) =>
          r := Placed(if len <= s then Direct(DirectOff(pn, s)) else InFile);
        case None =>
          var off := SequentialDirectOffset(pn);
          SequentialIff(meta, pn);
          r := Placed(if off.Some? then Direct(off.value) else InFile);
      }
    }

    /** `compute_sequential_direct_offset` */
    method SequentialDirectOffset(pn: nat) returns (r: Option<nat>)
      ensures r == SequentialOffset(meta, pn)
    {
      if pn <= 1 {
        return Some(0);
      }
      var off, i := 0, 1;
      while i < pn
        invariant 1 <= i <= pn
        invariant SequentialFrom(meta.parts, 1, pn, 0) == SequentialFrom(meta.parts, i, pn, off)
      {
        if i !in meta.parts || meta.parts[i].stored != Direct(off) {
          return None;
        }
        off := SatAdd(off, meta.parts[i].size);
        i := i + 1;
      }
      return Some(off);
    }

    /** Phase 3: insert the part and, while the part size is unknown, look for a shared size. */
    method RecordPart(pn: nat, size: nat, stored: Stored) returns (ok: bool)
      modifies this`meta
      ensures ok <==> old(meta).phase.Active?
      ensures !ok ==> meta == old(meta)
      ensures ok ==>
                var inserted := old(meta).(parts := old(meta).parts[pn := PartMeta(size, stored)]);
                meta == inserted.(assumed := meta.assumed) && Recomputed(inserted, meta.assumed)
    {
      if !meta.phase.Active? {
        return false;
      }
      meta := meta.(parts := meta.parts[pn := PartMeta(size, stored)]);
      if meta.assumed.None? {
        var found := FindSharedSize(meta.parts);
        meta := meta.(assumed := found);
      }
      return true;
    }

    /** The fast-path test: returns the part size when parts 1..n have the fixed layout. */
    method FastPathSize(n: nat) returns (r: Option<nat>)
      requires 1 <= n && Recorded(meta, n)
      ensures r.Some? <==> meta.assumed.Some? && FixedLayout(meta, n, meta.assumed.value)
      ensures r.Some? ==> r == meta.assumed
    {
      if meta.assumed.None? {
        return None;
      }
      var s := meta.assumed.value;
      var pn := 1;
      while pn < n
        invariant 1 <= pn <= n
        invariant forall q :: 1 <= q < pn ==> meta.parts[q].size == s
        invariant forall q :: 1 <= q < pn && meta.parts[q].stored.Direct? ==> meta.parts[q].stored.off == DirectOff(q, s)
      {
        if meta.parts[pn].size != s {
          return None;
        }
        if meta.parts[pn].stored.Direct? && meta.parts[pn].stored.off != DirectOff(pn, s) {
          return None;
        }
        pn := pn + 1;
      }
      if meta.parts[n].stored.Direct? && meta.parts[n].stored.off != DirectOff(n, s) {
        return None;
      }
      return Some(s);
    }

    /**
     * Copies one part file into its slot of direct.bin, then forgets the file.  `late` are
     * writes of a failed copy that have yet to land, all of them in the slot.
     */
    method FillOne(pn: nat, n: nat, s: nat, chunk: nat, k: Answers, ghost content: map<nat, seq<byte>>)
      returns (ok: bool, late: seq<WriteOp>)
      requires 0 < chunk && 1 <= pn <= n
      requires Recorded(meta, n) && FixedLayout(meta, n, s) && Safe(meta, direct.data, files, content, n, s)
      requires meta.parts[pn].stored.InFile?
      modifies this`meta, this`files, direct
      ensures ok <==> Fillable(old(meta), old(files), k, pn)
      ensures meta == if ok then StoredIn(old(meta), pn, Direct(DirectOff(pn, s))) else old(meta)
      ensures files == if ok && pn !in k.stays then old(files) - {pn} else old(files)
      ensures Safe(meta, direct.data, files, content, n, s)
      ensures OnlyRangeChanged(old(direct.data), direct.data, DirectOff(pn, s), meta.parts[pn].size)
      ensures ok ==> late == [] && PartPresent(meta, direct.data, files, pn)
      ensures AllInRange(late, DirectOff(pn, s), meta.parts[pn].size)
      ensures !Opens(old(files), k, pn) ==> late == [] && direct.data == old(direct.data)
    {
      hide Intact;
      var size, off := meta.parts[pn].size, DirectOff(pn, s);
      if pn !in files || pn in k.unopened {
        return false, [];
      }
      ghost var before := direct.data;
      ok, late := CopyRange(files[pn], 0, direct, off, size, chunk, pn !in k.uncopied, k.waiting);
      CopiesInRange(late, files[pn], 0, off, size);
      if SlotsFit(meta, n, s) { SlotChangeIntact(meta, before, direct.data, files, content, n, s, pn); }
      if ok {
        // removing the part file is best effort
        var files' := if pn in k.stays then files else files - {pn};
        if SlotsFit(meta, n, s) { FilledSlotIntact(meta, before, direct.data, files, files', content, n, pn, off); }
        meta := StoredIn(meta, pn, Direct(off));
        files := files';
      }
    }

    /** Parts and files beyond n are as they were. */
    twostate predicate BeyondUnchanged(n: nat)
      reads this
    {
      UpTo(old(meta), meta, old(files), files, n)
    }

    /** One round of filling: part `at`, if it is a file. */
    method FillNext(at: nat, n: nat, s: nat, chunk: nat, k: Answers, ghost content: map<nat, seq<byte>>,
                    ghost m0: Meta, ghost files0: map<nat, seq<byte>>, ghost d0: seq<byte>)
      returns (ok: bool, late: seq<WriteOp>)
      requires 0 < chunk && 1 <= at <= n && Recorded(m0, n) && Recorded(meta, n) && meta.assumed == Some(s)
      requires UpTo(m0, meta, files0, files, at - 1) && HolesFill(m0, files0, k, at - 1)
      requires FixedLayout(meta, n, s) && Safe(meta, direct.data, files, content, n, s)
      requires SlotsFit(meta, n, s) ==> SameTail(d0, direct.data, (n - 1) * s)
      modifies this`meta, this`files, direct
      ensures UpTo(m0, meta, files0, files, at) && FixedLayout(meta, n, s) && Safe(meta, direct.data, files, content, n, s)
      ensures HolesFill(m0, files0, k, at) <==> ok
      ensures ok ==> late == [] && meta.parts[at].stored.Direct?
      ensures forall q :: q in meta.parts && q != at ==> meta.parts[q] == old(meta).parts[q]
      ensures !ok ==> meta.parts[at].stored.InFile? && AllInRange(late, DirectOff(at, s), meta.parts[at].size)
      ensures !ok ==> meta == old(meta)
      ensures !ok && at == n && late != [] ==> Attempted(m0, files0, k, n)
      ensures |old(direct.data)| <= |direct.data|
      ensures SlotsFit(meta, n, s) && at < n ==> SameTail(d0, direct.data, (n - 1) * s)
      ensures SlotsFit(meta, n, s) ==> SameTail(d0, direct.data, FillEnd(m0, files0, k, n, s))
      ensures Present(old(meta), old(direct.data), old(files), n) ==> Present(meta, direct.data, files, n)
    {
      hide Safe, SlotsFit, FixedLayout, Fillable, SameTail, OnlyRangeChanged, Present, DirectOff, FillEnd, UpTo, HolesFill;
      UpToNext(m0, meta, files0, files, at);
      OneMoreHole(m0, files0, k, at);
      if meta.parts[at].stored.Direct? {
        TailToFillEnd(m0, files0, k, n, s, d0, direct.data);
        return true, [];
      }
      ghost var was, had, before := meta, files, direct.data;
      SizesFixEnd(m0, was, n, s);
      ok, late := FillOne(at, n, s, chunk, k, content);
      SameFillable(m0, was, files0, had, k, at);
      FilledKeeps(was, meta, n, s, at, ok);
      FilledUpTo(m0, was, meta, files0, had, files, at, s, ok);
      FillTail(m0, was, files0, k, n, s, at, d0, before, direct.data);
      if Present(was, before, had, n) { FillPresent(was, meta, before, direct.data, had, files, n, at, ok); }
    }

    /**
     * Moves every part file of 1..n into direct.bin.  If that fails at part `at`, nothing is
     * lost, and `late` are writes into the slot of that part that have yet to land.
     */
    method FillHoles(n: nat, s: nat, chunk: nat, k: Answers, ghost content: map<nat, seq<byte>>)
      returns (ok: bool, at: nat, late: seq<WriteOp>)
      requires 0 < chunk && 1 <= n && meta.assumed == Some(s)
      requires Recorded(meta, n) && FixedLayout(meta, n, s) && Safe(meta, direct.data, files, content, n, s)
      modifies this`meta, this`files, direct
      ensures BeyondUnchanged(n)
      ensures FixedLayout(meta, n, s) && Safe(meta, direct.data, files, content, n, s)
      ensures ok <==> HolesFill(old(meta), old(files), k, n)
      ensures ok ==> forall pn :: 1 <= pn <= n ==> meta.parts[pn].stored.Direct?
      ensures !ok ==> 1 <= at <= n && meta.parts[at].stored.InFile? && meta.parts[n] == old(meta).parts[n]
      ensures !ok ==> AllInRange(late, DirectOff(at, s), meta.parts[at].size)
      ensures !ok && at == n && late != [] ==> Attempted(old(meta), old(files), k, n)
      ensures |old(direct.data)| <= |direct.data|
      ensures SlotsFit(meta, n, s) ==>
                SameTail(old(direct.data), direct.data, FillEnd(old(meta), old(files), k, n, s))
      ensures Present(old(meta), old(direct.data), old(files), n) ==> Present(meta, direct.data, files, n)
    {
      hide Safe, SlotsFit, FixedLayout, HolesFill, Attempted, SameTail, Present, FillEnd, DirectOff, AllInRange;
      ghost var m0, files0, d0 := meta, files, direct.data;
      ok, at, late := true, 1, [];
      SameTailItself(d0, (n - 1) * s);
      NoHoles(m0, files0, k);
      while at <= n
        invariant 1 <= at <= n + 1
        invariant Recorded(meta, n) && UpTo(m0, meta, files0, files, at - 1) && HolesFill(m0, files0, k, at - 1)
        invariant FixedLayout(meta, n, s) && Safe(meta, direct.data, files, content, n, s)
        invariant |d0| <= |direct.data|
        invariant SlotsFit(meta, n, s) && at <= n ==> SameTail(d0, direct.data, (n - 1) * s)
        invariant SlotsFit(meta, n, s) && at > n ==> SameTail(d0, direct.data, FillEnd(m0, files0, k, n, s))
        invariant forall q :: 1 <= q < at ==> meta.parts[q].stored.Direct?
        invariant Present(m0, d0, files0, n) ==> Present(meta, direct.data, files, n)
      {
        ok, late := FillNext(at, n, s, chunk, k, content, m0, files0, d0);
        if !ok {
          FewerHoles(m0, files0, k, at, n);
          return;
        }
        at := at + 1;
      }
      late := [];
    }

    /** The writes a failed copy left behind land. */
    method Land(late: seq<WriteOp>, at: nat, n: nat, s: nat, ghost content: map<nat, seq<byte>>)
      requires 1 <= at <= n && Recorded(meta, n) && FixedLayout(meta, n, s) && meta.parts[at].stored.InFile?
      requires Safe(meta, direct.data, files, content, n, s) && AllInRange(late, DirectOff(at, s), meta.parts[at].size)
      modifies direct
      ensures Safe(meta, direct.data, files, content, n, s)
      ensures OnlyRangeChanged(old(direct.data), direct.data, DirectOff(at, s), meta.parts[at].size)
      ensures late == [] ==> direct.data == old(direct.data)
    {
      hide Intact;
      ApplyInRange(direct.data, direct.data, late, DirectOff(at, s), meta.parts[at].size);
      if SlotsFit(meta, n, s) { SlotChangeIntact(meta, direct.data, ApplyAll(direct.data, late), files, content, n, s, at); }
      direct.data := ApplyAll(direct.data, late);
    }

    /** Truncate direct.bin to the object and publish it, across devices by one copy. */
    method PublishDirect(dst: Destination, n: nat, s: nat, noreplace: bool, cfg: StreamCfg, k: Answers,
                         ghost content: map<nat, seq<byte>>)
      returns (r: CommitResult)
      requires cfg.Valid() && 1 <= n
      requires Recorded(meta, n) && FixedLayout(meta, n, s) && Safe(meta, direct.data, files, content, n, s)
      requires forall pn :: 1 <= pn <= n ==> meta.parts[pn].stored.Direct?
      modifies direct, dst
      ensures Settles(old(dst.place), dst.place, r, noreplace)
      ensures r.DestinationExists? ==> dst.place.held == Occupant(k.direct)
      ensures r.CommitFailed? ==>
                (dst.place.displaced > old(dst.place).displaced <==> !noreplace && k.truncates && Removes(k.direct, true, false))
      ensures Agrees(r, if k.truncates then CommitVerdict(k.direct, true, noreplace) else Failed)
      ensures r.Committed? && AllIn(content, n) && SlotsFit(meta, n, s) ==> r.bytes == Assembled(content, n)
      ensures Safe(meta, direct.data, files, content, n, s)
      ensures !k.truncates ==> direct.data == old(direct.data)
      ensures k.truncates && SlotsFit(meta, n, s) ==> direct.data == Truncate(old(direct.data), LayoutEnd(meta, n, s))
    {
      hide Intact, FixedLayout;
      var finalSize := (DirectOff(n, s) + meta.parts[n].size) % U64;
      if !k.truncates {
        return CommitFailed;
      }
      if SlotsFit(meta, n, s) {
        FittingOffset(meta, n, s, n);
        SmallIsItsRemainder(LayoutEnd(meta, n, s));
        TruncateKeepsSlots(meta, direct.data, files, content, n, s);
        if AllIn(content, n) { TruncatedIsObject(meta, direct.data, files, content, n, s); }
      }
      direct.data := Truncate(direct.data, finalSize);
      r := CommitFile(dst, direct.data, k.direct, true, false, noreplace, cfg);
    }

    /** Appends part `pn` to the staging file, from direct.bin or from its own file. */
    method AppendPart(out: PosixFile, outOff: nat, pn: nat, chunk: nat, works: bool, ghost content: map<nat, seq<byte>>)
      returns (ok: bool)
      requires 0 < chunk && pn in meta.parts && out != direct
      modifies out
      ensures works ==> (ok <==> PartPresent(meta, direct.data, files, pn))
      ensures ok ==> PartPresent(meta, direct.data, files, pn)
      ensures ok && pn in content && PartReads(meta, direct.data, files, pn, content[pn]) && outOff == |old(out.data)|
              ==> out.data == old(out.data) + content[pn]
    {
      var part := meta.parts[pn];
      ghost var before := out.data;
      var src: seq<byte>, srcOff := [], 0;
      var refused: bool := *;
      if !works && refused {
        return false;
      }
      match part.stored {
        case Direct(off) =>
          src, srcOff := direct.data, off;
        case InFile =>
          if pn !in files {
            return false;
          }
          src := files[pn];
      }
      var late;
      ok, late := CopyRange(src, srcOff, out, outOff, part.size, chunk, works, {});
      if ok && pn in content && PartReads(meta, direct.data, files, pn, content[pn]) && outOff == |before| {
        FullReadIsContent(meta, direct.data, files, pn, content[pn]);
        WriteAtEnd(before, content[pn]);
      }
    }

    /** The fallback's copy loop: parts 1..n in order into a staging file. */
    method Assemble(n: nat, chunk: nat, works: bool, ghost content: map<nat, seq<byte>>) returns (ok: bool, out: PosixFile)
      requires 0 < chunk && Recorded(meta, n)
      ensures fresh(out)
      ensures ok <==> works && Present(meta, direct.data, files, n)
      ensures ok && AllIn(content, n) && Intact(meta, direct.data, files, content, n) && |Assembled(content, n)| < U64
              ==> out.data == Assembled(content, n)
    {
      hide PartReads, PartPresent;
      out := new PosixFile([]);
      ok := false;
      var outOff, pn := 0, 1;
      ghost var known := AllIn(content, n) && Intact(meta, direct.data, files, content, n) && |Assembled(content, n)| < U64;
      while pn <= n
        invariant 1 <= pn <= n + 1 && fresh(out)
        invariant known ==> out.data == Assembled(content, pn - 1) && outOff == |out.data|
        invariant direct.data == old(direct.data)
        invariant forall q :: 1 <= q < pn ==> PartPresent(meta, direct.data, files, q)
      {
        var copied := AppendPart(out, outOff, pn, chunk, works, content);
        if !copied {
          return;
        }
        if known {
          assert PartReads(meta, direct.data, files, pn, content[pn]);
          ReadSize(meta, direct.data, files, pn, content[pn]);
          AssembledGrows(content, pn, n);
        }
        outOff := SatAdd(outOff, meta.parts[pn].size);
        pn := pn + 1;
      }
      if !works {
        return;
      }
      out.data := Truncate(out.data, outOff);
      ok := true;
    }

    /** Assemble, then commit the staging file; staged beside the destination it is one rename, elsewhere it may need a copy. */
    method Fallback(dst: Destination, n: nat, noreplace: bool, cfg: StreamCfg, k: Answers, ghost content: map<nat, seq<byte>>)
      returns (r: CommitResult)
      requires cfg.Valid() && Recorded(meta, n)
      modifies dst
      ensures Settles(old(dst.place), dst.place, r, noreplace)
      ensures r.DestinationExists? ==> dst.place.held == Occupant(k.staged)
      ensures !(k.assembles && Present(meta, direct.data, files, n)) ==> dst.place == old(dst.place)
      ensures r.CommitFailed? && k.assembles && Present(meta, direct.data, files, n) ==>
                && (dst.place.displaced > old(dst.place).displaced <==> !noreplace && Removes(k.staged, !k.beside, true))
                && dst.place.held == LeftThere(k.staged, !k.beside, true, noreplace)
      ensures Agrees(r, if k.assembles && Present(meta, direct.data, files, n)
                        then CommitVerdict(k.staged, !k.beside, noreplace) else Failed)
      ensures r.Committed? && AllIn(content, n) && Intact(meta, direct.data, files, content, n) && |Assembled(content, n)| < U64
              ==> r.bytes == Assembled(content, n)
    {
      hide Present;
      var ok, out := Assemble(n, cfg.chunk, k.assembles, content);
      if !ok {
        return CommitFailed;
      }
      r := CommitFile(dst, out.data, k.staged, !k.beside, true, noreplace, cfg);
    }

    /** Fill the holes and publish direct.bin. */
    method FastPath(dst: Destination, n: nat, s: nat, noreplace: bool, cfg: StreamCfg, k: Answers,
                    ghost content: map<nat, seq<byte>>)
      returns (r: CommitResult, at: nat, late: seq<WriteOp>)
      requires cfg.Valid() && 1 <= n && Recorded(meta, n) && meta.assumed == Some(s) && FixedLayout(meta, n, s)
      requires k.opensDirect && Safe(meta, direct.data, files, content, n, s)
      modifies this`meta, this`files, direct, dst
      ensures Settles(old(dst.place), dst.place, r, noreplace)
      ensures r.DestinationExists? ==> dst.place.held == Occupant(k.direct)
      ensures r.CommitFailed? ==>
                (dst.place.displaced > old(dst.place).displaced
                 <==> !noreplace && StageOf(old(meta), old(files), k, n).Cut? && Removes(k.direct, true, false))
      ensures BeyondUnchanged(n) && FixedLayout(meta, n, s) && Safe(meta, direct.data, files, content, n, s)
      ensures Agrees(r, if StageOf(old(meta), old(files), k, n).Cut? then CommitVerdict(k.direct, true, noreplace) else Failed)
      ensures r.Committed? && AllIn(content, n) && SlotsFit(meta, n, s) ==> r.bytes == Assembled(content, n)
      ensures Fitting(meta, n) ==>
                Passed(old(meta), n, old(direct.data), direct.data, StageOf(old(meta), old(files), k, n))
      ensures FilledIn(old(meta), meta, n, StageOf(old(meta), old(files), k, n))
      ensures Fitting(meta, n) && Present(old(meta), old(direct.data), old(files), n) ==> Present(meta, direct.data, files, n)
      ensures late != [] ==> LateAt(old(meta), meta, old(files), k, n, s, at, late)
    {
      hide FixedLayout, Truncate, Present, HolesFill, Attempted, SameTail, Safe, AllInRange, FillEnd, DirectOff;
      var filled;
      filled, at, late := FillHoles(n, s, cfg.chunk, k, content);
      if !filled {
        StoppedPassed(old(meta), meta, old(files), k, n, s, old(direct.data), direct.data);
        return CommitFailed, at, late;
      }
      ghost var full := direct.data;
      r := PublishDirect(dst, n, s, noreplace, cfg, k, content);
      CutPassed(old(meta), meta, old(files), k, n, s, old(direct.data), full, direct.data);
      AllFilledIn(old(meta), meta, n, s, StageOf(old(meta), old(files), k, n));
      if SlotsFit(meta, n, s) { CutPresent(meta, full, files, n, s); }
      late := [];
    }

    /** The fallback, with writes that a failed copy left behind landing before it or after it. */
    method TakeOver(dst: Destination, n: nat, noreplace: bool, cfg: StreamCfg, k: Answers, at: nat, late: seq<WriteOp>,
                    ghost content: map<nat, seq<byte>>, ghost m0: Meta, ghost files0: map<nat, seq<byte>>, ghost d0: seq<byte>)
      returns (r: CommitResult)
      requires cfg.Valid() && 1 <= n && Recorded(m0, n) && Recorded(meta, n)
      requires Fitting(meta, n) ==> Intact(meta, direct.data, files, content, n)
      requires Fitting(meta, n) ==> Passed(m0, n, d0, direct.data, StageOf(m0, files0, k, n))
      requires late != [] ==> meta.assumed.Some? && LateAt(m0, meta, files0, k, n, meta.assumed.value, at, late)
      modifies direct, dst
      ensures Settles(old(dst.place), dst.place, r, noreplace)
      ensures r.DestinationExists? ==> dst.place.held == Occupant(k.staged)
      ensures !k.assembles ==> dst.place == old(dst.place)
      ensures r.CommitFailed? && k.assembles && Present(meta, old(direct.data), files, n) ==>
                && (dst.place.displaced > old(dst.place).displaced <==> !noreplace && Removes(k.staged, !k.beside, true))
                && dst.place.held == LeftThere(k.staged, !k.beside, true, noreplace)
      ensures Fitting(meta, n) ==> Intact(meta, direct.data, files, content, n)
      ensures Fitting(meta, n) ==> Passed(m0, n, d0, direct.data, StageOf(m0, files0, k, n))
      ensures !k.assembles ==> r.CommitFailed?
      ensures k.assembles && Present(meta, old(direct.data), files, n) ==> Agrees(r, CommitVerdict(k.staged, !k.beside, noreplace))
      ensures r.DestinationExists? ==> noreplace
      ensures r.Committed? && Intact(meta, old(direct.data), files, content, n) && (late != [] ==> Fitting(meta, n)) ==>
                AllIn(content, n) && |Assembled(content, n)| < U64 ==> r.bytes == Assembled(content, n)
      ensures Present(meta, old(direct.data), files, n) ==> Present(meta, direct.data, files, n)
    {
      hide Intact, FixedLayout, Present, HolesFill, Attempted, Safe, AllInRange, Passed, Fitting, OnlyRangeChanged, DirectOff;
      SafeIsIntact(meta, direct.data, files, content, n);
      if late != [] && k.landsFirst {
        Land(late, at, n, meta.assumed.value, content);
        LandPassed(m0, meta, files0, k, n, meta.assumed.value, at, d0, old(direct.data), direct.data);
        LongerPresent(meta, old(direct.data), direct.data, files, n, DirectOff(at, meta.assumed.value), meta.parts[at].size);
      }
      SafeIsIntact(meta, direct.data, files, content, n);
      r := Fallback(dst, n, noreplace, cfg, k, content);
      if late != [] && !k.landsFirst {
        Land(late, at, n, meta.assumed.value, content);
        LandPassed(m0, meta, files0, k, n, meta.assumed.value, at, d0, old(direct.data), direct.data);
        LongerPresent(meta, old(direct.data), direct.data, files, n, DirectOff(at, meta.assumed.value), meta.parts[at].size);
      }
      SafeIsIntact(meta, direct.data, files, content, n);
    }

    /**
     * The two assembly paths, the second taking over wherever the first gives up.  Which of
     * them decides, how, and what is left of direct.bin beyond the listed parts, follows from
     * the answers.
     */
    method Publish(dst: Destination, n: nat, noreplace: bool, cfg: StreamCfg, k: Answers, ghost content: map<nat, seq<byte>>)
      returns (r: CommitResult)
      requires cfg.Valid() && 1 <= n && Recorded(meta, n) && Intact(meta, direct.data, files, content, n)
      modifies this`meta, this`files, direct, dst
      ensures Settles(old(dst.place), dst.place, r, noreplace)
      ensures r.DestinationExists? ==>
                dst.place.held == Occupant(if FastDecides(old(meta), old(files), k, n, noreplace) then k.direct else k.staged)
      ensures r.CommitFailed? && Fitting(meta, n) && Present(old(meta), old(direct.data), old(files), n) ==>
                && (dst.place.displaced > old(dst.place).displaced <==> !noreplace && Empties(old(meta), old(files), k, n))
                && (k.assembles ==> dst.place.held == LeftThere(k.staged, !k.beside, true, noreplace))
      ensures BeyondUnchanged(n)
      ensures Fitting(meta, n) ==> Intact(meta, direct.data, files, content, n)
      ensures r.Committed? && AllIn(content, n) && |Assembled(content, n)| < U64 ==> r.bytes == Assembled(content, n)
      ensures FastDecides(old(meta), old(files), k, n, noreplace) ==> Agrees(r, CommitVerdict(k.direct, true, noreplace))
      ensures !FastDecides(old(meta), old(files), k, n, noreplace) ==>
                && (!k.assembles ==> r.CommitFailed?)
                && (Fitting(meta, n) && Present(old(meta), old(direct.data), old(files), n) && k.assembles
                    ==> Agrees(r, CommitVerdict(k.staged, !k.beside, noreplace)))
      ensures r.DestinationExists? ==> noreplace
      ensures Fitting(meta, n) ==>
                Passed(old(meta), n, old(direct.data), direct.data, StageOf(old(meta), old(files), k, n))
      ensures FilledIn(old(meta), meta, n, StageOf(old(meta), old(files), k, n))
      ensures Fitting(meta, n) && Present(old(meta), old(direct.data), old(files), n) ==> Present(meta, direct.data, files, n)
    {
      hide Intact, FixedLayout, Present, HolesFill, Attempted, Safe, Passed, LateAt, SlotsFit, FilledIn;
      SafeIsIntact(meta, direct.data, files, content, n);
      NotFast(meta, files, k, n, direct.data);
      if AllIn(content, n) && |Assembled(content, n)| < U64 { KnownFitting(meta, direct.data, files, content, n); }
      var late: seq<WriteOp>, at := [], 1;
      var fast := FastPathSize(n);
      if fast.Some? && k.opensDirect {
        r, at, late := FastPath(dst, n, fast.value, noreplace, cfg, k, content);
        SameFitting(old(meta), meta, n);
        SafeIsIntact(meta, direct.data, files, content, n);
        if !r.CommitFailed? {
          FastObject(old(meta), meta, content, n, fast.value);
          return;
        }
      }
      SafeIsIntact(meta, direct.data, files, content, n);
      r := TakeOver(dst, n, noreplace, cfg, k, at, late, content, old(meta), old(files), old(direct.data));
    }

    /**
     * CompleteMultipartUpload.  `content` is whatever is known of the recorded parts: the
     * published object is the concatenation of parts 1..n.  Every outcome is tied to the
     * request, the upload and the answers.  Only a rename refused with 412 puts the upload
     * back to Active, with the listed parts still intact, the others as they were in the
     * metadata, and of direct.bin beyond the list what the stage reached leaves; every other
     * refusal leaves it in Completing.
     */
    method Complete(dst: Destination, requested: seq<nat>, noreplace: bool, precondition: bool, cfg: StreamCfg, k: Answers,
                    ghost content: map<nat, seq<byte>>)
      returns (r: Outcome)
      requires cfg.Valid() && requested != [] && Increasing(requested)
      requires Intact(meta, direct.data, files, content, requested[|requested| - 1])
      modifies this`meta, this`files, direct, dst
      ensures dst.place.stored == old(dst.place).stored + if r.Published? then 1 else 0
      ensures r.Published? ==> dst.place.held == Some(r.bytes)
      ensures r.PreconditionFailed? && precondition ==>
                && dst.place.held.Some? && 1 <= |requested| && Recorded(old(meta), |requested|)
                && dst.place.held
                   == Occupant(if FastDecides(old(meta), old(files), k, |requested|, noreplace) then k.direct else k.staged)
      ensures noreplace ==> dst.place.displaced == old(dst.place).displaced
      ensures r.Conflict? || r.BadRequest? || !precondition ==> dst.place == old(dst.place)
      ensures r.InternalError? && Fitting(old(meta), |requested|) && Recorded(old(meta), |requested|) ==>
                var n := |requested|;
                Present(old(meta), old(direct.data), old(files), n) ==>
                  && (dst.place.displaced > old(dst.place).displaced <==> !noreplace && Empties(old(meta), old(files), k, n))
                  && (k.assembles ==> dst.place.held == LeftThere(k.staged, !k.beside, true, noreplace))
      ensures r.Conflict? <==> !old(meta).phase.Active?
      ensures r.Conflict? ==> meta == old(meta) && files == old(files) && direct.data == old(direct.data)
      ensures r.BadRequest? <==> old(meta).phase.Active? && !ListOk(old(meta), requested)
      ensures old(meta).phase.Active? && ListOk(old(meta), requested) && !precondition ==> r.PreconditionFailed?
      ensures r.PreconditionFailed? ==> !precondition || noreplace
      ensures !r.Conflict? ==> (meta.phase.Active? <==> r.PreconditionFailed? && precondition)
      ensures !r.Conflict? ==> (meta.phase.Completed? <==> r.Published?)
      ensures r.Published? ==>
                var n := |requested|;
                AllIn(content, n) && |Assembled(content, n)| < U64 ==> r.bytes == Assembled(content, n)
      ensures old(meta).phase.Active? && ListOk(old(meta), requested) && precondition ==>
                var n := |requested|;
                && (FastDecides(old(meta), old(files), k, n, noreplace) ==> Shows(r, CommitVerdict(k.direct, true, noreplace)))
                && (!FastDecides(old(meta), old(files), k, n, noreplace) && !k.assembles ==> r.InternalError?)
                && (!FastDecides(old(meta), old(files), k, n, noreplace) && k.assembles && Fitting(old(meta), n)
                    && Present(old(meta), old(direct.data), old(files), n)
                    ==> Shows(r, CommitVerdict(k.staged, !k.beside, noreplace)))
      ensures !r.Conflict? && meta.phase.Active? ==>
                var n := |requested|;
                && AfterRefusal(n) && Recorded(old(meta), n) && (Fitting(meta, n) <==> Fitting(old(meta), n))
                && FilledIn(old(meta), meta, n, StageOf(old(meta), old(files), k, n))
                && (Fitting(meta, n) ==>
                      && Intact(meta, direct.data, files, content, n)
                      && Passed(old(meta), n, old(direct.data), direct.data, StageOf(old(meta), old(files), k, n))
                      && (Present(old(meta), old(direct.data), old(files), n) ==> Present(meta, direct.data, files, n)))
      ensures meta.assumed == old(meta).assumed && meta.parts.Keys == old(meta).parts.Keys
    {
      hide Intact, Passed, Fitting, StageOf, FastDecides, Present, FilledIn, LeftThere, Removes;
      if !meta.phase.Active? {
        return Conflict;
      }
      meta := meta.(phase := Completing);
      var n := requested[|requested| - 1];
      if n > MAX_PARTS || |requested| != n || requested[0] != 1 {
        return BadRequest;
      }
      if exists pn :: 1 <= pn <= n && pn !in meta.parts {
        return BadRequest;
      }
      if !precondition {
        return PreconditionFailed;
      }
      SamePhase(old(meta), meta, direct.data, files, content, n, k, noreplace);
      ghost var begun := meta;
      var committed := Publish(dst, n, noreplace, cfg, k, content);
      SameFitting(begun, meta, n);
      SamePassed(old(meta), begun, n, old(direct.data), direct.data, StageOf(begun, old(files), k, n));
      ghost var was := meta;
      match committed
      case Committed(bytes) =>
        meta := meta.(phase := Completed);
        r := Published(bytes);
      case DestinationExists =>
        meta := meta.(phase := Active);
        SamePhase(was, meta, direct.data, files, content, n, k, noreplace);
        SameFilledIn(old(meta), begun, was, meta, n, StageOf(begun, old(files), k, n));
        r := PreconditionFailed;
      case CommitFailed =>
        r := InternalError;
    }

    /** An upload put back to Active: listed parts recorded, all sizes and all parts and files beyond the list as before. */
    twostate predicate AfterRefusal(n: nat)
      reads this
    {
      BeyondUnchanged(n) && 1 <= n && Recorded(meta, n)
    }
  }

  /** The part list names exactly 1..n, within the limit, and all of them are recorded. */
  predicate ListOk(m: Meta, requested: seq<nat>)
    requires requested != []
  {
    && requested[0] == 1 && requested[|requested| - 1] == |requested| <= MAX_PARTS
    && Recorded(m, |requested|)
  }

  /** The listed slots do not wrap, if there is a part size at all. */
  predicate Fitting(m: Meta, n: nat) {
    1 <= n && n in m.parts && (m.assumed.Some? ==> SlotsFit(m, n, m.assumed.value))
  }

  predicate Shows(r: Outcome, v: Verdict) {
    match v
    case Done => r.Published?
    case Taken => r.PreconditionFailed?
    case Failed => r.InternalError?
  }

  function StoredIn(m: Meta, pn: nat, stored: Stored): Meta
    requires pn in m.parts
  {
    m.(parts := m.parts[pn := PartMeta(m.parts[pn].size, stored)])
  }

  /** Up to where filling the holes may have changed direct.bin. */
  function FillEnd(m: Meta, files: map<nat, seq<byte>>, k: Answers, n: nat, s: nat): nat
    requires 1 <= n && Recorded(m, n)
  {
    if Attempted(m, files, k, n) then LayoutEnd(m, n, s) else (n - 1) * s
  }

  /** direct.bin past the listed parts after a completion that got so far. */
  ghost predicate Passed(m: Meta, n: nat, before: seq<byte>, after: seq<byte>, stage: Stage)
    requires 1 <= n && n in m.parts
  {
    match m.assumed
    case None => after == before
    case Some(s) =>
      if stage.Cut? then |after| == LayoutEnd(m, n, s)
      else |before| <= |after| && SameTail(before, after, if stage.Untouched? then (n - 1) * s else LayoutEnd(m, n, s))
  }

  /** Parts move only on the fast path; the last one is in its slot of direct.bin exactly with all holes filled. */
  predicate FilledIn(m: Meta, m': Meta, n: nat, stage: Stage)
    requires 1 <= n && Recorded(m, n)
  {
    && n in m'.parts && (m'.parts != m.parts ==> Fast(m, n))
    && if stage.Filled? || stage.Cut? then m.assumed.Some? && m'.parts[n].stored == Direct(DirectOff(n, m.assumed.value))
       else m'.parts[n] == m.parts[n]
  }

  lemma SamePhase(m: Meta, m': Meta, direct: seq<byte>, files: map<nat, seq<byte>>, content: map<nat, seq<byte>>, n: nat,
                  k: Answers, noreplace: bool)
    requires m'.parts == m.parts && m'.assumed == m.assumed && 1 <= n && Recorded(m, n)
    ensures Intact(m, direct, files, content, n) <==> Intact(m', direct, files, content, n)
    ensures Fitting(m, n) <==> Fitting(m', n)
    ensures StageOf(m, files, k, n) == StageOf(m', files, k, n)
    ensures FastDecides(m, files, k, n, noreplace) <==> FastDecides(m', files, k, n, noreplace)
    ensures Present(m, direct, files, n) <==> Present(m', direct, files, n)
  {
    SamePhaseReads(m, m', direct, files, content, n);
    SamePhaseStage(m, m', files, k, n);
  }

  lemma SamePhaseReads(m: Meta, m': Meta, direct: seq<byte>, files: map<nat, seq<byte>>, content: map<nat, seq<byte>>, n: nat)
    requires m'.parts == m.parts
    ensures Intact(m, direct, files, content, n) <==> Intact(m', direct, files, content, n)
    ensures Present(m, direct, files, n) <==> Present(m', direct, files, n)
  {
    hide Reads, HoldsAt;
    assert forall pn, c :: PartReads(m, direct, files, pn, c) <==> PartReads(m', direct, files, pn, c);
    assert forall pn :: pn in m.parts ==> (PartPresent(m, direct, files, pn) <==> PartPresent(m', direct, files, pn));
  }

  lemma SamePhaseStage(m: Meta, m': Meta, files: map<nat, seq<byte>>, k: Answers, n: nat)
    requires m'.parts == m.parts && m'.assumed == m.assumed && 1 <= n && Recorded(m, n)
    ensures StageOf(m, files, k, n) == StageOf(m', files, k, n)
  {
    hide DirectOff;
    assert forall pn :: pn in m.parts ==> (Fillable(m, files, k, pn) <==> Fillable(m', files, k, pn));
    assert HolesFill(m, files, k, n) <==> HolesFill(m', files, k, n);
    assert HolesFill(m, files, k, n - 1) <==> HolesFill(m', files, k, n - 1);
    assert Fast(m, n) <==> Fast(m', n);
  }

  lemma SameFitting(m: Meta, m': Meta, n: nat)
    requires n in m.parts && n in m'.parts && m'.assumed == m.assumed && m'.parts[n].size == m.parts[n].size
    ensures Fitting(m, n) <==> Fitting(m', n)
  {
  }

  lemma SamePassed(m: Meta, m': Meta, n: nat, before: seq<byte>, after: seq<byte>, stage: Stage)
    requires m'.parts == m.parts && m'.assumed == m.assumed && 1 <= n && n in m.parts
    ensures Passed(m, n, before, after, stage) <==> Passed(m', n, before, after, stage)
  {
  }

  lemma SameFilledIn(m: Meta, m1: Meta, m2: Meta, m3: Meta, n: nat, stage: Stage)
    requires m1.assumed == m.assumed && m1.parts == m.parts && m3.parts == m2.parts && 1 <= n && Recorded(m, n)
    ensures FilledIn(m1, m2, n, stage) ==> FilledIn(m, m3, n, stage)
  {
  }

  lemma SafeIsIntact(m: Meta, direct: seq<byte>, files: map<nat, seq<byte>>, content: map<nat, seq<byte>>, n: nat)
    requires 1 <= n && n in m.parts
    ensures m.assumed.Some? ==>
              (Safe(m, direct, files, content, n, m.assumed.value) <==> (Fitting(m, n) ==> Intact(m, direct, files, content, n)))
  {
  }

  /** Metadata and files differ at most in where parts up to n are stored. */
  ghost predicate UpTo(m: Meta, m': Meta, files: map<nat, seq<byte>>, files': map<nat, seq<byte>>, n: nat) {
    && m' == m.(parts := m'.parts) && m'.parts.Keys == m.parts.Keys
    && (forall q :: q in m'.parts ==> m'.parts[q].size == m.parts[q].size)
    && (forall q :: q in m'.parts && q > n ==> m'.parts[q] == m.parts[q])
    && (forall q :: q in m'.parts ==> m'.parts[q] == m.parts[q] || MovedIn(m, m', q))
    && (forall q :: q > n ==> (q in files' <==> q in files) && (q in files' ==> files'[q] == files[q]))
  }

  /** The part went from its file into its slot of direct.bin. */
  predicate MovedIn(m: Meta, m': Meta, pn: nat)
    requires pn in m.parts && pn in m'.parts
  {
    1 <= pn && m.assumed.Some? && m.parts[pn].stored.InFile?
    && m'.parts[pn].stored == Direct(DirectOff(pn, m.assumed.value))
  }

  /** Filling stopped at part `at`, whose slot is where the writes left behind go. */
  ghost predicate LateAt(m: Meta, m': Meta, files: map<nat, seq<byte>>, k: Answers, n: nat, s: nat, at: nat, late: seq<WriteOp>)
  {
    && 1 <= at <= n && Recorded(m, n) && Recorded(m', n) && FixedLayout(m', n, s) && m'.parts[at].stored.InFile?
    && AllInRange(late, DirectOff(at, s), m'.parts[at].size)
    && Fast(m, n) && m.assumed == Some(s) && m'.assumed == Some(s) && m'.parts[n].size == m.parts[n].size
    && k.opensDirect && !HolesFill(m, files, k, n) && (at == n ==> Attempted(m, files, k, n))
  }

  lemma NotFast(m: Meta, files: map<nat, seq<byte>>, k: Answers, n: nat, direct: seq<byte>)
    requires 1 <= n && Recorded(m, n)
    ensures !Fast(m, n) || !k.opensDirect ==>
              Passed(m, n, direct, direct, StageOf(m, files, k, n)) && FilledIn(m, m, n, StageOf(m, files, k, n))
  {
    hide HolesFill, Attempted, FixedLayout;
  }

  /** An object of known content below 2^64 bytes has slots that fit, if it is on the fast path at all. */
  lemma KnownFitting(m: Meta, direct: seq<byte>, files: map<nat, seq<byte>>, content: map<nat, seq<byte>>, n: nat)
    requires 1 <= n && Recorded(m, n) && Intact(m, direct, files, content, n) && AllIn(content, n) && |Assembled(content, n)| < U64
    ensures Fast(m, n) ==> Fitting(m, n)
  {
    if Fast(m, n) { KnownObjectFits(m, direct, files, content, n, m.assumed.value); }
  }

  lemma FastObject(m: Meta, m': Meta, content: map<nat, seq<byte>>, n: nat, s: nat)
    requires 1 <= n && n in m'.parts && m'.assumed == Some(s)
    ensures Fitting(m', n) <==> SlotsFit(m', n, s)
  {
  }

  lemma UpToNext(m: Meta, m': Meta, files: map<nat, seq<byte>>, files': map<nat, seq<byte>>, at: nat)
    requires 1 <= at && at in m.parts && UpTo(m, m', files, files', at - 1)
    ensures at in m'.parts && m'.parts[at] == m.parts[at] && UpTo(m, m', files, files', at) && m'.assumed == m.assumed
    ensures (at in files <==> at in files') && (at in files ==> files'[at] == files[at])
    ensures forall q :: q in m.parts ==> q in m'.parts && m'.parts[q].size == m.parts[q].size
  {
  }

  lemma FilledUpTo(m: Meta, was: Meta, m': Meta, files: map<nat, seq<byte>>, had: map<nat, seq<byte>>,
                   files': map<nat, seq<byte>>, at: nat, s: nat, ok: bool)
    requires 1 <= at && at in m.parts && UpTo(m, was, files, had, at - 1) && was.assumed == Some(s)
    requires at in was.parts && was.parts[at].stored.InFile?
    requires m' == if ok then StoredIn(was, at, Direct(DirectOff(at, s))) else was
    requires files' == had || files' == had - {at}
    ensures UpTo(m, m', files, files', at)
  {
    hide DirectOff;
  }

  lemma OneMoreHole(m: Meta, files: map<nat, seq<byte>>, k: Answers, at: nat)
    requires 1 <= at && Recorded(m, at)
    ensures HolesFill(m, files, k, at)
            <==> HolesFill(m, files, k, at - 1) && (m.parts[at].stored.InFile? ==> Fillable(m, files, k, at))
  {
    hide Fillable;
  }

  lemma NoHoles(m: Meta, files: map<nat, seq<byte>>, k: Answers)
    ensures HolesFill(m, files, k, 0)
  {
  }

  lemma FewerHoles(m: Meta, files: map<nat, seq<byte>>, k: Answers, at: nat, n: nat)
    requires at <= n && Recorded(m, n)
    ensures HolesFill(m, files, k, n) ==> HolesFill(m, files, k, at)
  {
  }

  lemma AllFilledIn(m: Meta, m': Meta, n: nat, s: nat, stage: Stage)
    requires 1 <= n && Recorded(m, n) && Recorded(m', n) && Fast(m, n) && m.assumed == Some(s)
    requires FixedLayout(m', n, s) && m'.parts[n].stored.Direct? && (stage.Filled? || stage.Cut?)
    ensures FilledIn(m, m', n, stage)
  {
  }

  lemma SameTailItself(f: seq<byte>, end: nat)
    ensures SameTail(f, f, end)
  {
  }

  lemma TailLater(f: seq<byte>, g: seq<byte>, end: nat, end': nat)
    requires SameTail(f, g, end) && end <= end'
    ensures SameTail(f, g, end')
  {
  }

  lemma SameFillable(m: Meta, m': Meta, files: map<nat, seq<byte>>, files': map<nat, seq<byte>>, k: Answers, pn: nat)
    requires pn in m.parts && pn in m'.parts && m'.parts[pn].size == m.parts[pn].size
    requires (pn in files <==> pn in files') && (pn in files ==> files'[pn] == files[pn])
    ensures Opens(files, k, pn) <==> Opens(files', k, pn)
    ensures Fillable(m, files, k, pn) <==> Fillable(m', files', k, pn)
  {
  }

  lemma FilledKeeps(m: Meta, m': Meta, n: nat, s: nat, pn: nat, ok: bool)
    requires 1 <= pn <= n && Recorded(m, n) && FixedLayout(m, n, s)
    requires m' == if ok then StoredIn(m, pn, Direct(DirectOff(pn, s))) else m
    ensures Recorded(m', n) && FixedLayout(m', n, s) && SameEnd(m, m', n, s)
    ensures LayoutEnd(m, n, s) == LayoutEnd(m', n, s) && SlotsFit(m, n, s) == SlotsFit(m', n, s)
  {
    hide DirectOff;
  }

  /** A change in the slot of part `pn` of 1..n stays before the last slot, or before the end of the layout. */
  lemma SlotTail(m: Meta, n: nat, s: nat, pn: nat, f: seq<byte>, g: seq<byte>)
    requires 1 <= pn <= n && Recorded(m, n) && FixedLayout(m, n, s) && SlotsFit(m, n, s)
    requires OnlyRangeChanged(f, g, DirectOff(pn, s), m.parts[pn].size)
    ensures |f| <= |g| && SameTail(f, g, if pn < n then (n - 1) * s else LayoutEnd(m, n, s))
  {
    FittingOffset(m, n, s, pn);
    if pn < n { SlotsApart(pn, n, s); }
    ChangeKeepsTail(f, g, (pn - 1) * s, m.parts[pn].size, if pn < n then (n - 1) * s else LayoutEnd(m, n, s));
  }

  lemma FillTail(m: Meta, was: Meta, files: map<nat, seq<byte>>, k: Answers, n: nat, s: nat, at: nat,
                 d0: seq<byte>, before: seq<byte>, after: seq<byte>)
    requires 1 <= at <= n && Recorded(m, n) && Recorded(was, n) && FixedLayout(was, n, s)
    requires SameEnd(m, was, n, s) && m.parts[at] == was.parts[at] && was.parts[at].stored.InFile?
    requires HolesFill(m, files, k, at - 1)
    requires SlotsFit(was, n, s) ==> SameTail(d0, before, (n - 1) * s)
    requires OnlyRangeChanged(before, after, DirectOff(at, s), was.parts[at].size)
    requires !Opens(files, k, at) ==> after == before
    ensures |before| <= |after|
    ensures SlotsFit(was, n, s) && at < n ==> SameTail(d0, after, (n - 1) * s)
    ensures SlotsFit(was, n, s) ==> SameTail(d0, after, FillEnd(m, files, k, n, s))
  {
    hide SameTail, HolesFill, FixedLayout;
    if SlotsFit(was, n, s) {
      SlotTail(was, n, s, at, before, after);
      if at < n {
        TailsChain(d0, before, after, (n - 1) * s);
        TailLater(d0, after, (n - 1) * s, FillEnd(m, files, k, n, s));
      } else if Opens(files, k, n) {
        TailLater(d0, before, (n - 1) * s, LayoutEnd(was, n, s));
        TailsChain(d0, before, after, LayoutEnd(was, n, s));
      }
    }
  }

  lemma TailToFillEnd(m: Meta, files: map<nat, seq<byte>>, k: Answers, n: nat, s: nat, f: seq<byte>, g: seq<byte>)
    requires 1 <= n && Recorded(m, n)
    ensures SameTail(f, g, (n - 1) * s) ==> SameTail(f, g, FillEnd(m, files, k, n, s))
  {
    hide Attempted;
  }

  lemma FillPresent(m: Meta, m': Meta, direct: seq<byte>, direct': seq<byte>, files: map<nat, seq<byte>>,
                    files': map<nat, seq<byte>>, n: nat, at: nat, ok: bool)
    requires 1 <= at <= n && Recorded(m, n) && m'.parts.Keys == m.parts.Keys && |direct| <= |direct'|
    requires forall q :: q in m.parts && q != at ==> m'.parts[q] == m.parts[q]
    requires files' == files || files' == files - {at}
    requires if ok then PartPresent(m', direct', files', at) else m' == m && files' == files && m.parts[at].stored.InFile?
    requires Present(m, direct, files, n)
    ensures Present(m', direct', files', n)
  {
    forall pn | 1 <= pn <= n ensures pn in m'.parts && PartPresent(m', direct', files', pn) { assert PartPresent(m, direct, files, pn); }
  }

  lemma LongerPresent(m: Meta, f: seq<byte>, g: seq<byte>, files: map<nat, seq<byte>>, n: nat, base: nat, len: nat)
    requires OnlyRangeChanged(f, g, base, len)
    ensures Present(m, f, files, n) ==> Present(m, g, files, n)
  {
  }

  lemma CutPresent(m: Meta, f: seq<byte>, files: map<nat, seq<byte>>, n: nat, s: nat)
    requires 1 <= n && Recorded(m, n) && FixedLayout(m, n, s) && SlotsFit(m, n, s)
    requires forall pn :: 1 <= pn <= n ==> m.parts[pn].stored.Direct?
    ensures Present(m, Truncate(f, LayoutEnd(m, n, s)), files, n)
  {
    forall pn | 1 <= pn <= n
      ensures PartPresent(m, Truncate(f, LayoutEnd(m, n, s)), files, pn)
    {
      FittingOffset(m, n, s, pn);
      if pn < n { SlotsApart(pn, n, s); }
    }
  }

  /** The fast path filled all holes: what is left beyond. */
  lemma CutPassed(m: Meta, m': Meta, files: map<nat, seq<byte>>, k: Answers, n: nat, s: nat,
                  d0: seq<byte>, full: seq<byte>, after: seq<byte>)
    requires 1 <= n && Recorded(m, n) && n in m'.parts && Fast(m, n) && m.assumed == Some(s) && m'.assumed == Some(s)
    requires k.opensDirect && HolesFill(m, files, k, n) && m'.parts[n].size == m.parts[n].size
    requires SlotsFit(m', n, s) ==> SameTail(d0, full, FillEnd(m, files, k, n, s))
    requires |d0| <= |full| && (!k.truncates ==> after == full)
    requires k.truncates && SlotsFit(m', n, s) ==> after == Truncate(full, LayoutEnd(m', n, s))
    ensures Fitting(m', n) ==> Passed(m, n, d0, after, StageOf(m, files, k, n))
  {
    hide SameTail, HolesFill, FixedLayout, Attempted;
    if Fitting(m', n) { TailLater(d0, full, FillEnd(m, files, k, n, s), LayoutEnd(m, n, s)); }
  }

  /** The fast path stopped at a hole. */
  lemma StoppedPassed(m: Meta, m': Meta, files: map<nat, seq<byte>>, k: Answers, n: nat, s: nat, d0: seq<byte>, after: seq<byte>)
    requires 1 <= n && Recorded(m, n) && n in m'.parts && Fast(m, n) && m.assumed == Some(s) && m'.assumed == Some(s)
    requires k.opensDirect && !HolesFill(m, files, k, n) && m'.parts[n].size == m.parts[n].size
    requires SlotsFit(m', n, s) ==> SameTail(d0, after, FillEnd(m, files, k, n, s))
    requires |d0| <= |after|
    ensures Fitting(m', n) ==> Passed(m, n, d0, after, StageOf(m, files, k, n))
  {
    hide SameTail, HolesFill, FixedLayout, Attempted;
  }

  lemma LandPassed(m: Meta, m': Meta, files: map<nat, seq<byte>>, k: Answers, n: nat, s: nat, at: nat,
                   d0: seq<byte>, middle: seq<byte>, after: seq<byte>)
    requires 1 <= at <= n && Recorded(m, n) && Recorded(m', n) && FixedLayout(m', n, s)
    requires Fast(m, n) && m.assumed == Some(s) && m'.assumed == Some(s) && m'.parts[n].size == m.parts[n].size
    requires k.opensDirect && !HolesFill(m, files, k, n) && (at == n ==> Attempted(m, files, k, n))
    requires Fitting(m', n) ==> Passed(m, n, d0, middle, StageOf(m, files, k, n))
    requires OnlyRangeChanged(middle, after, DirectOff(at, s), m'.parts[at].size)
    ensures Fitting(m', n) ==> Passed(m, n, d0, after, StageOf(m, files, k, n))
  {
    hide SameTail, HolesFill, FixedLayout, Attempted, OnlyRangeChanged;
    if Fitting(m', n) {
      SlotTail(m', n, s, at, middle, after);
      var end := if StageOf(m, files, k, n).Untouched? then (n - 1) * s else LayoutEnd(m, n, s);
      TailLater(middle, after, if at < n then (n - 1) * s else LayoutEnd(m', n, s), end);
      TailsChain(d0, middle, after, end);
    }
  }

  ghost predicate SameEnd(m: Meta, m': Meta, n: nat, s: nat)
    requires 1 <= n && n in m.parts && n in m'.parts
  {
    LayoutEnd(m, n, s) == LayoutEnd(m', n, s)
  }

  lemma SizesFixEnd(m: Meta, m': Meta, n: nat, s: nat)
    requires 1 <= n && n in m.parts && n in m'.parts && m'.parts[n].size == m.parts[n].size
    ensures SameEnd(m, m', n, s) && LayoutEnd(m, n, s) == LayoutEnd(m', n, s) && SlotsFit(m, n, s) == SlotsFit(m', n, s)
  {
  }

  lemma TailsChain(a: seq<byte>, b: seq<byte>, c: seq<byte>, end: nat)
    requires SameTail(a, b, end) && SameTail(b, c, end)
    ensures SameTail(a, c, end)
  {
    hide ByteOrZero;
  }

  /** An object of known content below 2^64 bytes has slots that fit. */
  lemma KnownObjectFits(m: Meta, direct: seq<byte>, files: map<nat, seq<byte>>, content: map<nat, seq<byte>>, n: nat, s: nat)
    requires 1 <= n && Recorded(m, n) && FixedLayout(m, n, s) && Intact(m, direct, files, content, n)
    ensures AllIn(content, n) && |Assembled(content, n)| < U64 ==> SlotsFit(m, n, s)
  {
    if AllIn(content, n) {
      forall pn | 1 <= pn <= n ensures m.parts[pn].size == |content[pn]| { assert PartReads(m, direct, files, pn, content[pn]); }
      AssembledLength(m, content, n, s, n);
    }
  }

  lemma ReadSize(m: Meta, direct: seq<byte>, files: map<nat, seq<byte>>, pn: nat, content: seq<byte>)
    requires PartReads(m, direct, files, pn, content)
    ensures m.parts[pn].size == |content|
  {
  }

  /** A full read of a part's place is its content. */
  lemma FullReadIsContent(m: Meta, direct: seq<byte>, files: map<nat, seq<byte>>, pn: nat, content: seq<byte>)
    requires PartReads(m, direct, files, pn, content)
    ensures var p := m.parts[pn];
            match p.stored
            case Direct(off) => p.size > 0 && off + p.size <= |direct| ==> direct[off..off + p.size] == content
            case InFile => pn in files && p.size <= |files[pn]| && files[pn][0..p.size] == content
    ensures m.parts[pn].size == 0 ==> content == []
  {
    var p := m.parts[pn];
    if p.stored.Direct? && p.size > 0 && p.stored.off + p.size <= |direct| {
      var off := p.stored.off;
      forall i | 0 <= i < |content|
        ensures direct[off..off + p.size][i] == content[i]
      {
        assert ByteOrZero(direct, off + i) == content[i];
      }
    }
  }

  /** The tally of the parts outside `todo`: a count of 1 names its only part, a higher one is shared. */
  ghost predicate Tallied(parts: map<nat, PartMeta>, todo: set<nat>, counts: map<nat, nat>, first: map<nat, nat>) {
    && counts.Keys == first.Keys
    && (forall p :: p in parts && p !in todo ==> parts[p].size in counts)
    && (forall p :: p in parts && p !in todo && counts[parts[p].size] < 2 ==> p == first[parts[p].size])
    && (forall size :: size in first ==> first[size] in parts && first[size] !in todo && parts[first[size]].size == size)
    && (forall size :: size in counts ==> counts[size] >= 1 && (counts[size] >= 2 ==> SharedSize(parts, size)))
  }

  lemma TallyStarts(parts: map<nat, PartMeta>)
    ensures Tallied(parts, parts.Keys, map[], map[])
  {
  }

  lemma TallyShows(parts: map<nat, PartMeta>, counts: map<nat, nat>, first: map<nat, nat>, size: nat)
    requires Tallied(parts, {}, counts, first) && size in counts && counts[size] >= 2
    ensures SharedSize(parts, size)
  {
  }

  /** With every part counted, no count above 1 means no shared size. */
  lemma TallyDecides(parts: map<nat, PartMeta>, counts: map<nat, nat>, first: map<nat, nat>)
    requires Tallied(parts, {}, counts, first) && forall size :: size in counts ==> counts[size] < 2
    ensures forall size :: !SharedSize(parts, size)
  {
  }

  lemma CountAgain(parts: map<nat, PartMeta>, todo: set<nat>, counts: map<nat, nat>, first: map<nat, nat>, p: nat)
    requires Tallied(parts, todo, counts, first) && p in todo && p in parts && parts[p].size in counts
    ensures Tallied(parts, todo - {p}, counts[parts[p].size := counts[parts[p].size] + 1], first)
  {
    var size := parts[p].size;
    assert first[size] != p;
    assert SharedSize(parts, size);
  }

  lemma CountFirst(parts: map<nat, PartMeta>, todo: set<nat>, counts: map<nat, nat>, first: map<nat, nat>, p: nat)
    requires Tallied(parts, todo, counts, first) && p in todo && p in parts && parts[p].size !in counts
    ensures Tallied(parts, todo - {p}, counts[parts[p].size := 1], first[parts[p].size := p])
  {
  }

  /** Counts part sizes and returns one that occurs at least twice, if any. */
  method FindSharedSize(parts: map<nat, PartMeta>) returns (found: Option<nat>)
    ensures found.Some? ==> SharedSize(parts, found.value)
    ensures found.None? ==> forall size :: !SharedSize(parts, size)
  {
    hide Tallied, SharedSize;
    var counts: map<nat, nat> := map[];
    var todo := parts.Keys;
    TallyStarts(parts);
    ghost var first: map<nat, nat> := map[];
    while todo != {}
      invariant todo <= parts.Keys && Tallied(parts, todo, counts, first)
      decreases |todo|
    {
      var p :| p in todo;
      var size := parts[p].size;
      if size in counts {
        CountAgain(parts, todo, counts, first, p);
        counts := counts[size := counts[size] + 1];
      } else {
        CountFirst(parts, todo, counts, first, p);
        counts, first := counts[size := 1], first[size := p];
      }
      todo := todo - {p};
    }
    if size :| size in counts && counts[size] >= 2 {
      TallyShows(parts, counts, first, size);
      found := Some(size);
    } else {
      TallyDecides(parts, counts, first);
      found := None;
    }
  }
}
