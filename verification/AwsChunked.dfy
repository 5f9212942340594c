/**
 * The aws-chunked decoder: chunk headers, data, CRLFs and trailers read from a body
 * that arrives in arbitrary fragments.
 */
module AwsChunked {
  import opened Posix

  type Bytes = seq<byte>

  const LF: byte := 10
  const CR: byte := 13
  const PLUS: byte := 43
  const SEMICOLON: byte := 59
  const CRLF: Bytes := [CR, LF]

  /** One item of the body stream; the stream ends after its last item. */
  datatype Item = Data(bytes: Bytes) | Failure

  /** The bytes a reader can get before the stream ends or fails. */
  function Flat(items: seq<Item>): Bytes {
    if items == [] || items[0].Failure? then [] else items[0].bytes + Flat(items[1..])
  }

  // ------------------------------------------------------------ chunk sizes

  /** The first index of `b`, or the length. */
  function Find(s: Bytes, b: byte): (n: nat)
    ensures n <= |s|
  {
    if s == [] || s[0] == b then 0 else 1 + Find(s[1..], b)
  }

  lemma {:induction false} FindNone(s: Bytes, b: byte)
    ensures Find(s, b) == |s| <==> b !in s
  {
    if s != [] {
      FindNone(s[1..], b);
      assert s == [s[0]] + s[1..];
    }
  }

  function StripSuffix(s: Bytes, b: byte): Bytes {
    if s != [] && s[|s| - 1] == b then s[..|s| - 1] else s
  }

  function HexDigit(b: byte): Option<nat> {
    if 48 <= b <= 57 then Some(b as nat - 48)
    else if 65 <= b <= 70 then Some(b as nat - 55)
    else if 97 <= b <= 102 then Some(b as nat - 87)
    else None
  }

  function HexValue(s: Bytes): Option<nat> {
    if s == [] then Some(0)
    else
      var n := |s| - 1;
      match (HexValue(s[..n]), HexDigit(s[n]))
      case (Some(v), Some(d)) => Some(16 * v + d)
      case _ => None
  }

  /** `usize::from_str_radix(s, 16)` on a 64-bit target. */
  function ParseHex(s: Bytes): Option<nat> {
    var digits := if s != [] && s[0] == PLUS then s[1..] else s;
    if digits == [] then None
    else match HexValue(digits)
         case Some(v) => if v < U64 then Some(v) else None
         case None => None
  }

  /** The sixteen digits in order, letters in lower case. */
  const DIGITS: Bytes := [48, 49, 50, 51, 52, 53, 54, 55, 56, 57, 97, 98, 99, 100, 101, 102]

  const CASE: nat := 32

  /** `b` stands for the value `d`, a letter in either case. */
  predicate StandsFor(b: byte, d: nat) {
    d < 16 && (b == DIGITS[d] || (d >= 10 && b as nat + CASE == DIGITS[d] as nat))
  }

  /** A numeral of `n` in base 16, perhaps with leading zeros. */
  predicate Numeral(s: Bytes, n: nat) {
    s != [] && StandsFor(s[|s| - 1], n % 16) && if |s| == 1 then n < 16 else Numeral(s[..|s| - 1], n / 16)
  }

  /** A numeral, perhaps after a plus sign. */
  predicate Spells(s: Bytes, n: nat) {
    Numeral(if s != [] && s[0] == PLUS then s[1..] else s, n)
  }

  lemma DigitIff(b: byte, d: nat)
    ensures HexDigit(b) == Some(d) <==> StandsFor(b, d)
  {
  }

  lemma {:induction false} ValueIff(s: Bytes, n: nat)
    requires s != []
    ensures HexValue(s) == Some(n) <==> Numeral(s, n)
  {
    hide HexDigit, StandsFor;
    var k := |s| - 1;
    DigitIff(s[k], n % 16);
    if k == 0 {
      assert s[..k] == [];
      if HexValue(s).Some? { DigitIff(s[k], HexValue(s).value); DigitSmall(s[k]); }
    } else {
      ValueIff(s[..k], n / 16);
      if HexValue(s).Some? { DigitSmall(s[k]); }
    }
  }

  lemma DigitSmall(b: byte)
    ensures HexDigit(b).Some? ==> HexDigit(b).value < 16
  {
  }

  /** The parser accepts exactly the spellings of numbers below 2^64. */
  lemma ParsesIff(s: Bytes, n: nat)
    ensures ParseHex(s) == Some(n) <==> Spells(s, n) && n < U64
  {
    hide HexValue, Numeral;
    var digits := if s != [] && s[0] == PLUS then s[1..] else s;
    if digits != [] { ValueIff(digits, n); } else { assert !Numeral(digits, n) by { EmptyIsNoNumeral(n); } }
  }

  lemma EmptyIsNoNumeral(n: nat)
    ensures !Numeral([], n)
  {
  }

  /** `parse_chunk_len_line` */
  function ChunkLen(line: Bytes): Option<nat> {
    var text := StripSuffix(StripSuffix(line, LF), CR);
    ParseHex(text[..Find(text, SEMICOLON)])
  }

  // ------------------------------------------------------------ what a body denotes

  datatype State = NeedHeader | NeedData | NeedCrlf | NeedTrailers | Done

  datatype End = Clean | Broken

  /** The payload a body yields and whether it ends properly after it. */
  datatype Decoded = Decoded(payload: Bytes, end: End)

  function Rank(st: State): nat {
    if st.NeedData? then 1 else 0
  }

  function Decode(st: State, left: nat, s: Bytes): Decoded
    decreases |s|, Rank(st)
  {
    match st
    case Done => Decoded([], Clean)
    case NeedHeader =>
      var n := Find(s, LF);
      if n == |s| then Decoded([], Broken)
      else (match ChunkLen(s[..n + 1])
            case None => Decoded([], Broken)
            case Some(len) => Decode(if len == 0 then NeedTrailers else NeedData, len, s[n + 1..]))
    case NeedData =>
      if |s| < left then Decoded(s, Broken)
      else
        var d := Decode(NeedCrlf, 0, s[left..]);
        Decoded(s[..left] + d.payload, d.end)
    case NeedCrlf =>
      if CRLF <= s then Decode(NeedHeader, 0, s[2..]) else Decoded([], Broken)
    case NeedTrailers =>
      Decoded([], if TrailersEnd(s) then Clean else Broken)
  }

  predicate Blank(line: Bytes) {
    line == [LF] || line == CRLF
  }

  predicate TrailersEnd(s: Bytes)
    decreases |s|
  {
    var n := Find(s, LF);
    n < |s| && (Blank(s[..n + 1]) || TrailersEnd(s[n + 1..]))
  }

  // ------------------------------------------------------------ the decoder

  datatype Raw = Chunk(bytes: Bytes) | Finished | Failed

  datatype ReadResult = Filled | Short | Malformed

  class Decoder {
    var items: seq<Item>
    var buf: Bytes
    var pending: Bytes
    var scratch: Bytes
    var state: State
    var left: nat
    var eof: bool

    constructor (body: seq<Item>)
      ensures Valid() && pending == [] && Todo() == Decode(NeedHeader, 0, Flat(body))
      ensures Owed() == Decode(NeedHeader, 0, Flat(body)).payload
    {
      items, buf, pending, scratch := body, [], [], [];
      state, left, eof := NeedHeader, 0, false;
      new;
      assert Input() == Flat(body);
    }

    ghost predicate Valid()
      reads `eof, `items
    {
      eof ==> items == []
    }

    /** The bytes not yet interpreted. */
    ghost function Input(): Bytes
      reads `buf, `items
    {
      buf + Flat(items)
    }

    /** What the bytes not yet interpreted denote. */
    ghost function Todo(): Decoded
      reads `state, `left, `buf, `items
    {
      Decode(state, left, Input())
    }

    /** The payload not yet handed out. */
    ghost function Owed(): Bytes
      reads `pending, `state, `left, `buf, `items
    {
      pending + Todo().payload
    }

    method Refill() returns (ok: bool)
      requires Valid()
      modifies `items, `buf, `eof
      ensures Valid() && (ok ==> Input() == old(Input()) && (buf == [] ==> eof && Input() == []))
      ensures !ok ==> old(Input()) == []
      ensures ok && old(buf) != [] ==> buf == old(buf)
    {
      while buf == [] && !eof
        invariant Valid() && Input() == old(Input())
        invariant old(buf) != [] ==> buf == old(buf)
        decreases |items|, !eof
      {
        if items == [] {
          eof := true;
        } else {
          var next := items[0];
          items := items[1..];
          match next
          case Data(b) => buf := b;
          case Failure => return false;
        }
      }
      return true;
    }

    /** The newline is in the buffer: the line is what was set aside plus the buffer up to it. */
    method TakeLine(pos: nat) returns (line: Bytes)
      requires LF !in scratch && pos == Find(buf, LF) < |buf|
      modifies `buf, `scratch
      ensures var s := old(scratch + Input());
              var n := Find(s, LF);
              n < |s| && line == s[..n + 1] && Input() == s[n + 1..]
    {
      hide Flat, Find;
      LineEnd(scratch, buf, Flat(items));
      LineCut(scratch, buf, Flat(items), pos + 1);
      line := buf[..pos + 1];
      buf := buf[pos + 1..];
      if scratch != [] {
        scratch := scratch + line;
        line := scratch;
      }
    }

    /** A line up to and including its newline, wherever the fragments were cut. */
    method ReadLine() returns (line: Option<Bytes>)
      requires Valid()
      modifies `items, `buf, `eof, `scratch
      ensures Valid()
      ensures var s := old(Input());
              var n := Find(s, LF);
              match line
              case None => n == |s|
              case Some(l) => n < |s| && l == s[..n + 1] && Input() == s[n + 1..]
    {
      hide Flat, Find;
      scratch := [];
      ghost var s := Input();
      while true
        invariant Valid() && scratch + Input() == s && LF !in scratch
        decreases |Input()|, buf == []
      {
        var pos := Find(buf, LF);
        if pos < |buf| {
          var l := TakeLine(pos);
          return Some(l);
        }
        Regroup(scratch, buf, Flat(items));
        FindNone(buf, LF);
        if buf != [] {
          scratch := scratch + buf;
          buf := [];
        }
        var ok := Refill();
        if !ok || (eof && buf == []) {
          assert s == scratch;
          FindNone(s, LF);
          return None;
        }
      }
    }

    method ConsumeExact(want: Bytes) returns (ok: bool)
      requires Valid()
      modifies `items, `buf, `eof
      ensures Valid() && (ok <==> want <= old(Input())) && (ok ==> Input() == old(Input())[|want|..])
    {
      hide Flat;
      var need := want;
      ghost var s := Input();
      ghost var got: Bytes := [];
      while need != []
        invariant Valid() && want == got + need && s == got + Input()
        decreases |need|
      {
        var more := Refill();
        if !more || (eof && buf == []) {
          assert |s| < |want|;
          return false;
        }
        var take := Min(|need|, |buf|);
        CutInFirst(buf, Flat(items), take);
        if buf[..take] != need[..take] {
          Mismatch(got, need, Input(), take);
          return false;
        }
        Match(got, need, Input(), take);
        got := got + need[..take];
        buf := buf[take..];
        need := need[take..];
      }
      return true;
    }

    method ReadTrailersUntilBlank() returns (ok: bool)
      requires Valid()
      modifies `items, `buf, `eof, `scratch
      ensures Valid() && (ok <==> TrailersEnd(old(Input())))
    {
      while true
        invariant Valid() && TrailersEnd(Input()) == TrailersEnd(old(Input()))
        decreases |Input()|
      {
        var line := ReadLine();
        if line.None? {
          return false;
        }
        if Blank(line.value) {
          return true;
        }
      }
    }

    method TakeHeader() returns (ok: bool)
      requires Valid() && state == NeedHeader
      modifies `items, `buf, `eof, `scratch, `state, `left
      ensures Valid() && (ok ==> Todo() == old(Todo()) && |Input()| < old(|Input()|))
      ensures !ok ==> old(Todo()) == Decoded([], Broken)
    {
      hide Flat, Find, ChunkLen, TrailersEnd;
      var line := ReadLine();
      if line.None? {
        return false;
      }
      var n := ChunkLen(line.value);
      if n.None? {
        return false;
      }
      if n.value == 0 {
        state := NeedTrailers;
      } else {
        left := n.value;
        state := NeedData;
      }
      TrailersIgnoreLeft(Input(), left, n.value);
      return true;
    }

    method TakeData() returns (out: Option<Bytes>)
      requires Valid() && state == NeedData && left > 0
      modifies `items, `buf, `eof, `left
      ensures Valid()
      ensures match out
              case None => old(Todo()) == Decoded([], Broken)
              case Some(b) => b != [] && old(Todo()) == Decoded(b + Todo().payload, Todo().end)
    {
      hide Flat, Decode;
      var more := Refill();
      if !more || (eof && buf == []) {
        DataMissing(left);
        return None;
      }
      var take := Min(left, |buf|);
      DataSplits(left, Input(), take);
      CutInFirst(buf, Flat(items), take);
      var b := buf[..take];
      buf := buf[take..];
      left := left - take;
      return Some(b);
    }

    /** The next piece of payload straight from the buffer. */
    method NextPayloadRaw() returns (r: Raw)
      requires Valid()
      modifies `items, `buf, `eof, `scratch, `state, `left
      ensures Valid()
      ensures match r
              case Chunk(b) => b != [] && old(Todo()) == Decoded(b + Todo().payload, Todo().end)
              case Finished => old(Todo()) == Decoded([], Clean) && Todo() == old(Todo())
              case Failed => old(Todo()) == Decoded([], Broken)
    {
      hide Flat, Decode, Input, TrailersEnd;
      while true
        invariant Valid() && Todo() == old(Todo())
        decreases |Input()|, Rank(state)
      {
        DecodeSteps(left, Input());
        match state {
          case Done =>
            return Finished;
          case NeedHeader =>
            var ok := TakeHeader();
            if !ok {
              return Failed;
            }
          case NeedData =>
            if left == 0 {
              state := NeedCrlf;
            } else {
              var b := TakeData();
              return if b.None? then Failed else Chunk(b.value);
            }
          case NeedCrlf =>
            var ok := ConsumeExact(CRLF);
            if !ok {
              return Failed;
            }
            state := NeedHeader;
          case NeedTrailers =>
            var ok := ReadTrailersUntilBlank();
            if !ok {
              return Failed;
            }
            state := Done;
            DecodeSteps(left, Input());
            return Finished;
        }
      }
    }

    method FetchPending() returns (r: ReadResult)
      requires Valid() && pending == []
      modifies this
      ensures Valid() && (r.Filled? ==> pending != [] && Owed() == old(Owed()) && Todo().end == old(Todo().end))
      ensures !r.Filled? ==> old(Owed()) == [] && old(Todo().end) == (if r.Short? then Clean else Broken)
    {
      hide Todo;
      var raw := NextPayloadRaw();
      match raw
      case Finished => return Short;
      case Failed => return Malformed;
      case Chunk(b) =>
        pending := b;
        return Filled;
    }

    method TakePending(dst: array<byte>, pos: nat) returns (next: nat)
      requires pending != [] && pos < dst.Length
      modifies `pending, dst
      ensures pos < next <= dst.Length && dst[..next] + Owed() == old(dst[..pos]) + old(Owed())
    {
      hide Todo;
      var n := Min(dst.Length - pos, |pending|);
      ghost var before, todo := dst[..pos], Todo().payload;
      ghost var was := pending;
      CopyInto(dst, pos, pending[..n]);
      pending := pending[n..];
      assert dst[..pos + n] == before + was[..n];
      TakeSplits(before, was, todo, n);
      return pos + n;
    }

    /** Fills the whole buffer with the next payload bytes, or fails because there are not enough of them. */
    method ReadExactPayload(dst: array<byte>) returns (r: ReadResult)
      requires Valid()
      modifies this, dst
      ensures Valid() && (r.Filled? <==> dst.Length <= |old(Owed())|)
      ensures r.Filled? ==>
                && dst[..] == old(Owed())[..dst.Length]
                && Owed() == old(Owed())[dst.Length..] && Todo().end == old(Todo().end)
      ensures r.Short? ==> old(Todo().end) == Clean
      ensures r.Malformed? ==> old(Todo().end) == Broken
    {
      hide Todo, Owed;
      var pos := 0;
      while pos < dst.Length
        invariant 0 <= pos <= dst.Length && Valid()
        invariant dst[..pos] + Owed() == old(Owed()) && Todo().end == old(Todo().end)
      {
        if pending == [] {
          var got := FetchPending();
          if got != Filled {
            return got;
          }
        }
        pos := TakePending(dst, pos);
      }
      assert dst[..pos] == dst[..];
      return Filled;
    }
  }

  method CopyInto(dst: array<byte>, pos: nat, b: Bytes)
    requires pos + |b| <= dst.Length
    modifies dst
    ensures dst[..pos + |b|] == old(dst[..pos]) + b
  {
    forall i | 0 <= i < |b| {
      dst[pos + i] := b[i];
    }
  }

  lemma TrailersIgnoreLeft(s: Bytes, a: nat, b: nat)
    ensures Decode(NeedTrailers, a, s) == Decode(NeedTrailers, b, s)
  {
  }

  lemma DataMissing(left: nat)
    requires left > 0
    ensures Decode(NeedData, left, []) == Decoded([], Broken)
  {
  }

  /** The interpretation of the simpler states, one step at a time. */
  lemma DecodeSteps(left: nat, s: Bytes)
    ensures Decode(Done, left, s) == Decoded([], Clean)
    ensures Decode(NeedTrailers, left, s) == Decoded([], if TrailersEnd(s) then Clean else Broken)
    ensures Decode(NeedCrlf, left, s) == if CRLF <= s then Decode(NeedHeader, left, s[2..]) else Decoded([], Broken)
    ensures Decode(NeedData, 0, s) == Decode(NeedCrlf, 0, s)
  {
    hide Find, ChunkLen, TrailersEnd;
    assert s[0..] == s;
    assert s[..0] == [];
  }

  lemma Regroup(a: Bytes, b: Bytes, c: Bytes)
    ensures a + (b + c) == (a + b) + ([] + c) && a + (b + c) == (a + b) + c
  {
  }

  lemma {:induction false} FindSkips(before: Bytes, t: Bytes, b: byte)
    requires b !in before
    ensures Find(before + t, b) == |before| + Find(t, b)
  {
    if before == [] {
      assert before + t == t;
    } else {
      assert (before + t)[1..] == before[1..] + t && (before + t)[0] == before[0];
      assert b !in before[1..];
      FindSkips(before[1..], t, b);
    }
  }

  lemma {:induction false} FindInFirst(t: Bytes, after: Bytes, b: byte)
    requires Find(t, b) < |t|
    ensures Find(t + after, b) == Find(t, b)
  {
    if t[0] != b {
      assert (t + after)[1..] == t[1..] + after;
      FindInFirst(t[1..], after, b);
    }
  }

  lemma CutInside(before: Bytes, t: Bytes, n: nat)
    requires n <= |t|
    ensures (before + t)[..|before| + n] == before + t[..n] && (before + t)[|before| + n..] == t[n..]
  {
  }

  lemma CutInFirst(t: Bytes, after: Bytes, n: nat)
    requires n <= |t|
    ensures (t + after)[..n] == t[..n] && (t + after)[n..] == t[n..] + after
  {
  }

  /** Where the first line of fragmented input ends. */
  lemma LineEnd(before: Bytes, buf: Bytes, after: Bytes)
    requires LF !in before && Find(buf, LF) < |buf|
    ensures Find(before + (buf + after), LF) == |before| + Find(buf, LF)
  {
    hide Find;
    FindSkips(before, buf + after, LF);
    FindInFirst(buf, after, LF);
  }

  lemma LineCut(before: Bytes, buf: Bytes, after: Bytes, n: nat)
    requires n <= |buf|
    ensures (before + (buf + after))[..|before| + n] == before + buf[..n]
    ensures (before + (buf + after))[|before| + n..] == buf[n..] + after
  {
    CutInside(before, buf + after, n);
    CutInFirst(buf, after, n);
  }

  lemma Mismatch(got: Bytes, need: Bytes, inp: Bytes, take: nat)
    requires take <= |need| && take <= |inp| && inp[..take] != need[..take]
    ensures !(got + need <= got + inp)
  {
    var k :| 0 <= k < take && inp[..take][k] != need[..take][k];
    assert (got + inp)[|got| + k] == inp[k] && (got + need)[|got| + k] == need[k];
  }

  lemma Match(got: Bytes, need: Bytes, inp: Bytes, take: nat)
    requires take <= |need| && take <= |inp| && inp[..take] == need[..take]
    ensures got + need == got + need[..take] + need[take..]
    ensures got + inp == got + need[..take] + inp[take..]
  {
  }

  lemma TakeSplits(before: Bytes, pending: Bytes, todo: Bytes, n: nat)
    requires n <= |pending|
    ensures before + pending[..n] + (pending[n..] + todo) == before + (pending + todo)
  {
    assert pending == pending[..n] + pending[n..];
  }

  lemma DataSplits(left: nat, s: Bytes, take: nat)
    requires take <= left && take <= |s|
    ensures var d := Decode(NeedData, left - take, s[take..]);
            Decode(NeedData, left, s) == Decoded(s[..take] + d.payload, d.end)
  {
    assert s == s[..take] + s[take..];
    if left <= |s| {
      assert s[take..][left - take..] == s[left..];
      assert s[..left] == s[..take] + s[take..][..left - take];
    }
  }

  // ------------------------------------------------------------ well-formed bodies

  /** A chunk with any spelling of its size, any extension, either line ending and any data. */
  datatype ChunkText = ChunkText(size: Bytes, ext: Bytes, eol: Bytes, data: Bytes) {
    predicate WellFormed() {
      && Spells(size, |data|) && |data| < U64
      && (ext == [] || ext[0] == SEMICOLON) && LF !in ext && Blank(eol)
    }

    function Header(): Bytes {
      size + ext + eol
    }
  }

  /** Chunks with data, one without, and lines up to a blank one. */
  datatype Body = Body(chunks: seq<ChunkText>, last: ChunkText, trailers: seq<Bytes>, blank: Bytes) {
    predicate WellFormed() {
      && (forall i :: 0 <= i < |chunks| ==> chunks[i].WellFormed() && chunks[i].data != [])
      && last.WellFormed() && last.data == []
      && (forall i :: 0 <= i < |trailers| ==> LF !in trailers[i] && !Blank(trailers[i] + [LF])) && Blank(blank)
    }
  }

  function Trailers(lines: seq<Bytes>, blank: Bytes): Bytes {
    if lines == [] then blank else lines[0] + [LF] + Trailers(lines[1..], blank)
  }

  function Encode(body: Body): Bytes
    decreases |body.chunks|
  {
    if body.chunks == [] then body.last.Header() + Trailers(body.trailers, body.blank)
    else body.chunks[0].Header() + (body.chunks[0].data + (CRLF + Encode(body.(chunks := body.chunks[1..]))))
  }

  function Payload(chunks: seq<ChunkText>): Bytes {
    if chunks == [] then [] else chunks[0].data + Payload(chunks[1..])
  }

  lemma {:induction false} HexHasNoBreaks(s: Bytes, b: byte)
    requires HexValue(s).Some? && HexDigit(b).None?
    ensures b !in s
  {
    if s != [] {
      var n := |s| - 1;
      HexHasNoBreaks(s[..n], b);
      assert s == s[..n] + [s[n]];
    }
  }

  lemma SizeHasNoBreaks(s: Bytes, b: byte)
    requires ParseHex(s).Some? && HexDigit(b).None? && b != PLUS
    ensures b !in s
  {
    var digits := if s[0] == PLUS then s[1..] else s;
    HexHasNoBreaks(digits, b);
    assert s[0] == PLUS ==> s == [PLUS] + digits;
  }

  /** A header line parses to the size it spells, whatever its extension. */
  lemma HeaderParses(c: ChunkText)
    requires c.WellFormed()
    ensures ChunkLen(c.Header()) == Some(|c.data|)
  {
    hide ParseHex, Find, Spells;
    ParsesIff(c.size, |c.data|);
    SizeHasNoBreaks(c.size, SEMICOLON);
    SizeHasNoBreaks(c.size, CR);
    var line := c.Header();
    var text := StripSuffix(StripSuffix(line, LF), CR);
    var ext := if c.eol == [LF] then StripSuffix(c.ext, CR) else c.ext;
    assert text == c.size + ext by { StrippedHeader(c.size, c.ext, c.eol); }
    FindSkips(c.size, ext, SEMICOLON);
    FindAtStart(ext, SEMICOLON);
    assert text[..|c.size|] == c.size;
  }

  lemma StrippedHeader(size: Bytes, ext: Bytes, eol: Bytes)
    requires Blank(eol) && CR !in size && (ext == [] || ext[0] == SEMICOLON)
    ensures StripSuffix(StripSuffix(size + ext + eol, LF), CR)
            == size + if eol == [LF] then StripSuffix(ext, CR) else ext
  {
    var text := size + ext;
    if eol == [LF] {
      assert StripSuffix(text + eol, LF) == text;
      if ext == [] {
        assert text == size;
      } else {
        assert text[|text| - 1] == ext[|ext| - 1] && text[..|text| - 1] == size + ext[..|ext| - 1];
      }
    } else {
      assert StripSuffix(text + eol, LF) == text + [CR];
      assert (text + [CR])[..|text|] == text;
    }
  }

  lemma FindAtStart(s: Bytes, b: byte)
    requires s == [] || s[0] == b
    ensures Find(s, b) == 0
  {
  }

  /** A line without an inner newline is found whole. */
  lemma LineIsWhole(text: Bytes, rest: Bytes)
    requires LF !in text
    ensures var s := text + [LF] + rest;
            && Find(s, LF) == |text|
            && s[..Find(s, LF) + 1] == text + [LF] && s[Find(s, LF) + 1..] == rest
  {
    hide Find;
    var s := text + [LF] + rest;
    assert s == text + ([LF] + rest);
    FindSkips(text, [LF] + rest, LF);
    FindAtStart([LF] + rest, LF);
  }

  lemma HeaderDecodes(c: ChunkText, rest: Bytes)
    requires c.WellFormed()
    ensures Decode(NeedHeader, 0, c.Header() + rest)
            == Decode(if c.data == [] then NeedTrailers else NeedData, |c.data|, rest)
  {
    hide Find, ChunkLen, ParseHex, TrailersEnd, Spells;
    ParsesIff(c.size, |c.data|);
    SizeHasNoBreaks(c.size, LF);
    HeaderParses(c);
    var text := c.size + c.ext + c.eol[..|c.eol| - 1];
    assert c.Header() == text + [LF];
    assert LF !in text;
    LineIsWhole(text, rest);
  }

  lemma {:induction false} TrailersDecode(lines: seq<Bytes>, blank: Bytes, junk: Bytes)
    requires (forall i :: 0 <= i < |lines| ==> LF !in lines[i] && !Blank(lines[i] + [LF])) && Blank(blank)
    ensures TrailersEnd(Trailers(lines, blank) + junk)
  {
    hide Find;
    if lines == [] {
      var text := blank[..|blank| - 1];
      assert blank == text + [LF];
      LineIsWhole(text, junk);
    } else {
      var rest := Trailers(lines[1..], blank) + junk;
      assert Trailers(lines, blank) + junk == lines[0] + [LF] + rest;
      LineIsWhole(lines[0], rest);
      TrailersDecode(lines[1..], blank, junk);
    }
  }

  lemma DataDecodes(data: Bytes, rest: Bytes)
    ensures var d := Decode(NeedHeader, 0, rest);
            Decode(NeedData, |data|, data + (CRLF + rest)) == Decoded(data + d.payload, d.end)
  {
    hide Find, ChunkLen, TrailersEnd;
    var s := data + (CRLF + rest);
    assert s[|data|..] == CRLF + rest && s[..|data|] == data;
    assert CRLF <= CRLF + rest && (CRLF + rest)[2..] == rest;
  }

  /**
   * Every well-formed body, followed by anything, denotes the concatenation of its
   * chunks' data and ends cleanly.
   */
  lemma {:induction false} WellFormedBodyDecodes(body: Body, junk: Bytes)
    requires body.WellFormed()
    ensures Decode(NeedHeader, 0, Encode(body) + junk) == Decoded(Payload(body.chunks), Clean)
    decreases |body.chunks|
  {
    hide Decode, TrailersEnd, ParseHex, Spells, Blank, Trailers;
    if body.chunks == [] {
      var rest := Trailers(body.trailers, body.blank) + junk;
      assert Encode(body) + junk == body.last.Header() + rest;
      HeaderDecodes(body.last, rest);
      TrailersDecode(body.trailers, body.blank, junk);
      DecodeSteps(0, rest);
    } else {
      var c, tail := body.chunks[0], body.(chunks := body.chunks[1..]);
      var rest := Encode(tail) + junk;
      assert Encode(body) + junk == c.Header() + (c.data + (CRLF + rest));
      HeaderDecodes(c, c.data + (CRLF + rest));
      DataDecodes(c.data, rest);
      WellFormedBodyDecodes(tail, junk);
    }
  }

  // ------------------------------------------------------------ nothing else decodes

  lemma {:induction false} FindIs(s: Bytes, b: byte)
    ensures Find(s, b) < |s| ==> s[Find(s, b)] == b && b !in s[..Find(s, b)]
  {
    if s != [] && s[0] != b {
      FindIs(s[1..], b);
      var n := Find(s, b);
      if n < |s| { assert s[..n] == [s[0]] + s[1..][..n - 1]; }
    }
  }

  /** A header line that parses to `n` is a spelling of `n`, an extension and a line ending. */
  lemma HeaderOf(line: Bytes, n: nat) returns (size: Bytes, ext: Bytes, eol: Bytes)
    requires line != [] && line[|line| - 1] == LF && LF !in line[..|line| - 1] && ChunkLen(line) == Some(n)
    ensures line == size + ext + eol && Spells(size, n) && n < U64
    ensures (ext == [] || ext[0] == SEMICOLON) && LF !in ext && Blank(eol)
  {
    hide ParseHex, Spells, Find;
    var inner := line[..|line| - 1];
    var text := StripSuffix(inner, CR);
    assert StripSuffix(line, LF) == inner;
    var k := Find(text, SEMICOLON);
    FindIs(text, SEMICOLON);
    size, ext := text[..k], text[k..];
    eol := if text == inner then [LF] else CRLF;
    ParsesIff(size, n);
    assert text == size + ext;
    assert text != inner ==> inner == text + [CR];
    assert forall i :: 0 <= i < |ext| ==> ext[i] == inner[k + i];
  }

  /** The first line of some bytes. */
  lemma FirstLine(s: Bytes) returns (text: Bytes, rest: Bytes)
    requires Find(s, LF) < |s|
    ensures LF !in text && s == text + [LF] + rest
    ensures s[..Find(s, LF) + 1] == text + [LF] && s[Find(s, LF) + 1..] == rest
  {
    hide Find;
    FindIs(s, LF);
    var n := Find(s, LF);
    text, rest := s[..n], s[n + 1..];
  }

  predicate TrailerLines(lines: seq<Bytes>) {
    forall i :: 0 <= i < |lines| ==> LF !in lines[i] && !Blank(lines[i] + [LF])
  }

  lemma MoreTrailers(line: Bytes, lines: seq<Bytes>, blank: Bytes, junk: Bytes)
    requires LF !in line && !Blank(line + [LF]) && TrailerLines(lines)
    ensures TrailerLines([line] + lines)
    ensures Trailers([line] + lines, blank) + junk == line + [LF] + (Trailers(lines, blank) + junk)
  {
    assert ([line] + lines)[1..] == lines;
  }

  lemma {:induction false} TrailersOf(s: Bytes) returns (lines: seq<Bytes>, blank: Bytes, junk: Bytes)
    requires TrailersEnd(s)
    ensures s == Trailers(lines, blank) + junk && Blank(blank) && TrailerLines(lines)
    decreases |s|
  {
    hide Find, Blank, Trailers, TrailerLines;
    var line, rest := FirstLine(s);
    if Blank(line + [LF]) {
      lines, blank, junk := [], line + [LF], rest;
      NoTrailers(blank);
    } else {
      var more;
      more, blank, junk := TrailersOf(rest);
      lines := [line] + more;
      MoreTrailers(line, more, blank, junk);
    }
  }

  lemma NoTrailers(blank: Bytes)
    ensures Trailers([], blank) == blank && TrailerLines([])
  {
  }

  /** One more chunk in front of a body. */
  lemma MoreChunks(c: ChunkText, tail: Body, junk: Bytes) returns (body: Body)
    requires c.WellFormed() && c.data != [] && tail.WellFormed()
    ensures body.WellFormed() && Encode(body) + junk == c.Header() + (c.data + (CRLF + (Encode(tail) + junk)))
  {
    hide Spells, Blank;
    body := tail.(chunks := [c] + tail.chunks);
    assert body.chunks[1..] == tail.chunks && body.(chunks := tail.chunks) == tail;
  }

  /** What a clean chunk of `len` bytes is followed by. */
  lemma CleanData(len: nat, rest: Bytes)
    requires Decode(NeedData, len, rest).end.Clean?
    ensures len + 2 <= |rest| && CRLF <= rest[len..] && rest == rest[..len] + (CRLF + rest[len..][2..])
    ensures Decode(NeedHeader, 0, rest[len..][2..]).end.Clean?
  {
    hide Find, ChunkLen, TrailersEnd;
    assert len <= |rest|;
    DecodeSteps(0, rest[len..]);
  }

  lemma HeaderStep(s: Bytes, n: nat)
    requires n == Find(s, LF)
    ensures n == |s| || ChunkLen(s[..n + 1]).None? ==> Decode(NeedHeader, 0, s).end.Broken?
    ensures n < |s| && ChunkLen(s[..n + 1]).Some? ==>
              var len := ChunkLen(s[..n + 1]).value;
              Decode(NeedHeader, 0, s) == Decode(if len == 0 then NeedTrailers else NeedData, len, s[n + 1..])
  {
    hide Find, ChunkLen, TrailersEnd;
  }

  lemma CleanHeader(s: Bytes)
    requires Decode(NeedHeader, 0, s).end.Clean?
    ensures var n := Find(s, LF);
            && n < |s| && ChunkLen(s[..n + 1]).Some?
            && var len := ChunkLen(s[..n + 1]).value;
               if len == 0 then TrailersEnd(s[n + 1..]) else Decode(NeedData, len, s[n + 1..]).end.Clean?
  {
    hide Find, ChunkLen, TrailersEnd, Decode;
    var n := Find(s, LF);
    HeaderStep(s, n);
    if n < |s| { DecodeSteps(0, s[n + 1..]); }
  }

  lemma LastChunk(c: ChunkText, lines: seq<Bytes>, blank: Bytes, junk: Bytes) returns (body: Body)
    requires c.WellFormed() && c.data == [] && TrailerLines(lines) && Blank(blank)
    ensures body.WellFormed() && Encode(body) + junk == c.Header() + (Trailers(lines, blank) + junk)
  {
    hide Spells, Blank, Trailers;
    body := Body([], c, lines, blank);
  }

  lemma ChunkOf(size: Bytes, ext: Bytes, eol: Bytes, data: Bytes) returns (c: ChunkText)
    requires Spells(size, |data|) && |data| < U64
    requires (ext == [] || ext[0] == SEMICOLON) && LF !in ext && Blank(eol)
    ensures c.WellFormed() && c.data == data && c.Header() == size + ext + eol
  {
    hide Spells, Blank;
    c := ChunkText(size, ext, eol, data);
  }

  /** A body that decodes cleanly is a well-formed one, followed by anything. */
  lemma {:induction false} BodyOf(s: Bytes) returns (body: Body, junk: Bytes)
    requires Decode(NeedHeader, 0, s).end.Clean?
    ensures body.WellFormed() && s == Encode(body) + junk
    decreases |s|
  {
    hide *;
    CleanHeader(s);
    var text, rest := FirstLine(s);
    var line := text + [LF];
    var len := ChunkLen(line).value;
    assert line[..|line| - 1] == text;
    var size, ext, eol := HeaderOf(line, len);
    if len == 0 {
      var lines, blank;
      lines, blank, junk := TrailersOf(rest);
      var c := ChunkOf(size, ext, eol, []);
      body := LastChunk(c, lines, blank, junk);
    } else {
      CleanData(len, rest);
      var c := ChunkOf(size, ext, eol, rest[..len]);
      var tail;
      tail, junk := BodyOf(rest[len..][2..]);
      body := MoreChunks(c, tail, junk);
    }
  }

  /** The decoder's language: exactly the well-formed bodies, followed by anything, end cleanly, each with its own data. */
  lemma CleanIff(s: Bytes, payload: Bytes)
    ensures Decode(NeedHeader, 0, s) == Decoded(payload, Clean)
            <==> exists body: Body, junk :: body.WellFormed() && s == Encode(body) + junk && payload == Payload(body.chunks)
  {
    hide Decode, Encode, Payload;
    if Decode(NeedHeader, 0, s).end.Clean? {
      var body, junk := BodyOf(s);
      WellFormedBodyDecodes(body, junk);
    }
    if body: Body, junk :| body.WellFormed() && s == Encode(body) + junk && payload == Payload(body.chunks) {
      WellFormedBodyDecodes(body, junk);
    }
  }

  // ------------------------------------------------------------ every payload has such a body

  function HexOf(n: nat): (s: Bytes)
    ensures s != [] && s[0] != PLUS
  {
    if n < 16 then [DIGITS[n]] else HexOf(n / 16) + [DIGITS[n % 16]]
  }

  /** Every size has a numeral, which parses back if it is below 2^64. */
  lemma {:induction false} HexRoundTrip(n: nat)
    ensures Numeral(HexOf(n), n) && Spells(HexOf(n), n)
    ensures n < U64 ==> ParseHex(HexOf(n)) == Some(n)
  {
    hide ParseHex;
    var s := HexOf(n);
    if n >= 16 {
      HexRoundTrip(n / 16);
      assert s[..|s| - 1] == HexOf(n / 16);
    }
    ParsesIff(s, n);
  }

  // ------------------------------------------------------------ reading a whole body

  function Sum(sizes: seq<nat>): nat {
    if sizes == [] then 0 else Sum(sizes[..|sizes| - 1]) + sizes[|sizes| - 1]
  }

  lemma SumStep(sizes: seq<nat>, i: nat)
    requires i < |sizes|
    ensures Sum(sizes[..i + 1]) == Sum(sizes[..i]) + sizes[i]
  {
    assert sizes[..i + 1][..i] == sizes[..i];
  }

  lemma NoSum(sizes: seq<nat>)
    ensures Sum(sizes[..0]) == 0
  {
  }

  /**
   * A reader asking for pieces of any sizes, over any fragmentation of a well-formed
   * body, gets consecutive slices of the payload until it asks for more than is left.
   */
  method ReadPieces(items: seq<Item>, sizes: seq<nat>, ghost body: Body, ghost junk: Bytes)
    returns (payload: Bytes, served: nat)
    requires body.WellFormed() && Flat(items) == Encode(body) + junk
    ensures served <= |sizes| && Sum(sizes[..served]) <= |Payload(body.chunks)|
    ensures payload == Payload(body.chunks)[..Sum(sizes[..served])]
    ensures served < |sizes| ==> Sum(sizes[..served + 1]) > |Payload(body.chunks)|
  {
    hide *;
    var dec := new Decoder(items);
    WellFormedBodyDecodes(body, junk);
    ghost var all := Payload(body.chunks);
    NoSum(sizes);
    payload, served := [], 0;
    while served < |sizes|
      invariant served <= |sizes| && fresh(dec) && dec.Valid()
      invariant payload + dec.Owed() == all && |payload| == Sum(sizes[..served])
    {
      SumStep(sizes, served);
      var dst := new byte[sizes[served]];
      var r := dec.ReadExactPayload(dst);
      if !r.Filled? {
        return;
      }
      payload := payload + dst[..];
      served := served + 1;
    }
  }
}
