/** The object ETag derived from a file's inode, modification time and size. */
module ETag {
  type Word = bv64

  // ------------------------------------------------------------ the mix is a bijection

  function Xor30(z: Word): Word { z ^ (z >> 30) }
  function Xor27(z: Word): Word { z ^ (z >> 27) }
  function Xor31(z: Word): Word { z ^ (z >> 31) }
  function Times1(z: Word): Word { z * 0xbf58_476d_1ce4_e5b9 }
  function Times2(z: Word): Word { z * 0x94d0_49bb_1331_11eb }

  /** The splitmix64 finaliser. */
  function Mix(z: Word): Word {
    Xor31(Times2(Xor27(Times1(Xor30(z)))))
  }

  function Unxor30(y: Word): Word { y ^ (y >> 30) ^ (y >> 60) }
  function Unxor27(y: Word): Word { y ^ (y >> 27) ^ (y >> 54) }
  function Unxor31(y: Word): Word { y ^ (y >> 31) ^ (y >> 62) }
  function Divide1(y: Word): Word { y * 0x96de_1b17_3f11_9089 }
  function Divide2(y: Word): Word { y * 0x3196_42b2_d24d_8ec3 }

  function Unmix(y: Word): Word {
    Unxor30(Divide1(Unxor27(Divide2(Unxor31(y)))))
  }

  lemma Shift30Undone(z: Word)
    ensures Unxor30(z ^ (z >> 30)) == z
  {
  }

  lemma Unshift30Undone(z: Word)
    ensures Xor30(z ^ (z >> 30) ^ (z >> 60)) == z
  {
  }

  lemma Step30(z: Word)
    ensures Unxor30(Xor30(z)) == z
  {
    hide Unxor30;
    Shift30Undone(z);
  }

  lemma Unstep30(z: Word)
    ensures Xor30(Unxor30(z)) == z
  {
    hide Xor30;
    Unshift30Undone(z);
  }

  lemma Shift27Undone(z: Word)
    ensures Unxor27(z ^ (z >> 27)) == z
  {
  }

  lemma Unshift27Undone(z: Word)
    ensures Xor27(z ^ (z >> 27) ^ (z >> 54)) == z
  {
  }

  lemma Step27(z: Word)
    ensures Unxor27(Xor27(z)) == z
  {
    hide Unxor27;
    Shift27Undone(z);
  }

  lemma Unstep27(z: Word)
    ensures Xor27(Unxor27(z)) == z
  {
    hide Xor27;
    Unshift27Undone(z);
  }

  lemma Shift31Undone(z: Word)
    ensures Unxor31(z ^ (z >> 31)) == z
  {
  }

  lemma Unshift31Undone(z: Word)
    ensures Xor31(z ^ (z >> 31) ^ (z >> 62)) == z
  {
  }

  lemma Step31(z: Word)
    ensures Unxor31(Xor31(z)) == z
  {
    hide Unxor31;
    Shift31Undone(z);
  }

  lemma Unstep31(z: Word)
    ensures Xor31(Unxor31(z)) == z
  {
    hide Xor31;
    Unshift31Undone(z);
  }

  lemma Multiply1Undone(z: Word)
    ensures Divide1(z * 0xbf58_476d_1ce4_e5b9) == z
  {
  }

  lemma Divide1Undone(z: Word)
    ensures Times1(z * 0x96de_1b17_3f11_9089) == z
  {
  }

  lemma Product1(z: Word)
    ensures Divide1(Times1(z)) == z
  {
    hide Divide1;
    Multiply1Undone(z);
  }

  lemma Quotient1(z: Word)
    ensures Times1(Divide1(z)) == z
  {
    hide Times1;
    Divide1Undone(z);
  }

  lemma Multiply2Undone(z: Word)
    ensures Divide2(z * 0x94d0_49bb_1331_11eb) == z
  {
  }

  lemma Divide2Undone(z: Word)
    ensures Times2(z * 0x3196_42b2_d24d_8ec3) == z
  {
  }

  lemma Product2(z: Word)
    ensures Divide2(Times2(z)) == z
  {
    hide Divide2;
    Multiply2Undone(z);
  }

  lemma Quotient2(z: Word)
    ensures Times2(Divide2(z)) == z
  {
    hide Times2;
    Divide2Undone(z);
  }

  /** No two words mix to the same word, and every word is a mix. */
  lemma MixIsBijection(z: Word)
    ensures Unmix(Mix(z)) == z && Mix(Unmix(z)) == z
  {
    hide Xor30, Xor27, Xor31, Times1, Times2, Unxor30, Unxor27, Unxor31, Divide1, Divide2;
    var a := Times1(Xor30(z));
    var b := Times2(Xor27(a));
    Step31(b);
    Product2(Xor27(a));
    Step27(a);
    Product1(Xor30(z));
    Step30(z);
    var b' := Divide2(Unxor31(z));
    var a' := Divide1(Unxor27(b'));
    Unstep30(a');
    Quotient1(Unxor27(b'));
    Unstep27(b');
    Quotient2(Unxor31(z));
    Unstep31(z);
  }

  lemma MixInjective(x: Word, y: Word)
    ensures Mix(x) == Mix(y) <==> x == y
  {
    hide Mix, Unmix;
    MixIsBijection(x);
    MixIsBijection(y);
  }

  // ------------------------------------------------------------ sixteen hex digits

  function HexDigit(d: Word): char {
    if d == 0 then '0' else if d == 1 then '1' else if d == 2 then '2' else if d == 3 then '3'
    else if d == 4 then '4' else if d == 5 then '5' else if d == 6 then '6' else if d == 7 then '7'
    else if d == 8 then '8' else if d == 9 then '9' else if d == 10 then 'a' else if d == 11 then 'b'
    else if d == 12 then 'c' else if d == 13 then 'd' else if d == 14 then 'e' else 'f'
  }

  function Last(w: Word): Word {
    w & 0xf
  }

  function Rest(w: Word): Word {
    w >> 4
  }

  function Join(rest: Word, last: Word): Word {
    (rest << 4) | last
  }

  /** The lowest `n` digits, most significant first. */
  function Digits(w: Word, n: nat): (s: string)
    ensures |s| == n
    decreases n
  {
    if n == 0 then "" else Digits(Rest(w), n - 1) + [HexDigit(Last(w))]
  }

  /** `{:016x}` */
  function Hex16(w: Word): (s: string)
    ensures |s| == 16
  {
    Digits(w, 16)
  }

  function DigitValue(c: char): Word {
    match c
    case '0' => 0 case '1' => 1 case '2' => 2 case '3' => 3 case '4' => 4 case '5' => 5 case '6' => 6 case '7' => 7
    case '8' => 8 case '9' => 9 case 'a' => 10 case 'b' => 11 case 'c' => 12 case 'd' => 13 case 'e' => 14 case _ => 15
  }

  /** Digits read from left to right in base 16. */
  function ReadHex(s: string): Word {
    if s == "" then 0 else Join(ReadHex(s[..|s| - 1]), DigitValue(s[|s| - 1]))
  }

  lemma DigitReads(d: Word)
    requires d <= 15
    ensures DigitValue(HexDigit(d)) == d
  {
  }

  lemma LastReads(w: Word)
    ensures DigitValue(HexDigit(Last(w))) == Last(w)
  {
    hide DigitValue, HexDigit;
    DigitReads(Last(w));
  }

  lemma JoinBack(w: Word)
    ensures Join(Rest(w), Last(w)) == w
  {
  }

  /** The word has no more than `n` digits. */
  predicate Within(w: Word, n: nat)
    decreases n
  {
    if n == 0 then w == 0 else Within(Rest(w), n - 1)
  }

  lemma {:induction false} DigitsRead(w: Word, n: nat)
    requires Within(w, n)
    ensures ReadHex(Digits(w, n)) == w
    decreases n
  {
    hide HexDigit, DigitValue, Join, Rest, Last;
    if n > 0 {
      var s, d := Digits(Rest(w), n - 1), HexDigit(Last(w));
      assert (s + [d])[..n - 1] == s;
      DigitsRead(Rest(w), n - 1);
      LastReads(w);
      JoinBack(w);
    }
  }

  function Rest4(w: Word): Word {
    Rest(Rest(Rest(Rest(w))))
  }

  lemma FourMore(w: Word, n: nat)
    ensures Within(w, n + 4) == Within(Rest4(w), n)
  {
    hide Rest;
    assert Within(w, n + 4) == Within(Rest(w), n + 3) == Within(Rest(Rest(w)), n + 2) == Within(Rest(Rest(Rest(w))), n + 1);
  }

  lemma NothingLeft(w: Word)
    ensures Rest4(Rest4(Rest4(Rest4(w)))) == 0
  {
  }

  lemma WordWithin(w: Word)
    ensures Within(w, 16)
  {
    NothingLeft(w);
    hide Rest, Rest4;
    FourMore(Rest4(Rest4(Rest4(w))), 0);
    FourMore(Rest4(Rest4(w)), 4);
    FourMore(Rest4(w), 8);
    FourMore(w, 12);
  }

  /** Sixteen digits read back as the word they were written from. */
  lemma HexReads(w: Word)
    ensures ReadHex(Hex16(w)) == w
  {
    hide Within, ReadHex, Digits;
    WordWithin(w);
    DigitsRead(w, 16);
  }

  lemma Hex16Injective(v: Word, w: Word)
    ensures Hex16(v) == Hex16(w) <==> v == w
  {
    hide Hex16, ReadHex;
    HexReads(v);
    HexReads(w);
  }

  // ------------------------------------------------------------ the tag

  /** Distance from the epoch in nanoseconds. */
  datatype Mtime = Since(ns: bv128) | Before(ns: bv128)

  datatype Stat = Stat(ino: Word, mtime: Mtime, size: Word)

  /** `as u64` */
  function Low(n: bv128): Word {
    (n & 0xffff_ffff_ffff_ffff) as bv64
  }

  function MtimeWord(t: Mtime): Word {
    match t
    case Since(ns) => Low(ns)
    case Before(ns) => 0 - Low(ns)
  }

  lemma TruncationNegates(n: bv128)
    ensures 0 - (n & 0xffff_ffff_ffff_ffff) as bv64 == ((0 - n) & 0xffff_ffff_ffff_ffff) as bv64
  {
  }

  /** Truncating and negating is reducing the signed time modulo 2^64 on both sides of the epoch. */
  lemma MtimeWordIsModulo(t: Mtime)
    ensures MtimeWord(t) == Low(if t.Since? then t.ns else 0 - t.ns)
  {
    if t.Before? { TruncationNegates(t.ns); }
  }

  /** Less than 2^63 nanoseconds, 292 years, from the epoch. */
  predicate Near(t: Mtime) {
    match t
    case Since(ns) => ns < 0x8000_0000_0000_0000
    case Before(ns) => 0 < ns <= 0x8000_0000_0000_0000
  }

  lemma TruncationKeeps(n: bv128)
    requires n <= 0x8000_0000_0000_0000
    ensures ((n & 0xffff_ffff_ffff_ffff) as bv64) as bv128 == n
  {
  }

  lemma LowInjective(m: bv128, n: bv128)
    requires m <= 0x8000_0000_0000_0000 && n <= 0x8000_0000_0000_0000
    ensures Low(m) == Low(n) ==> m == n
  {
    TruncationKeeps(m);
    TruncationKeeps(n);
  }

  lemma OppositeTruncations(m: bv128, n: bv128)
    requires m < 0x8000_0000_0000_0000 && 0 < n <= 0x8000_0000_0000_0000
    ensures (m & 0xffff_ffff_ffff_ffff) as bv64 != 0 - (n & 0xffff_ffff_ffff_ffff) as bv64
  {
  }

  lemma OppositesDiffer(m: bv128, n: bv128)
    requires m < 0x8000_0000_0000_0000 && 0 < n <= 0x8000_0000_0000_0000
    ensures Low(m) != 0 - Low(n)
  {
    OppositeTruncations(m, n);
  }

  lemma NegationInjective(v: Word, w: Word)
    ensures 0 - v == 0 - w <==> v == w
  {
  }

  /** Different times near the epoch have different words. */
  lemma NearTimesDiffer(t: Mtime, u: Mtime)
    requires Near(t) && Near(u)
    ensures MtimeWord(t) == MtimeWord(u) <==> t == u
  {
    hide Low;
    if t.Since? == u.Since? {
      SameSideDiffer(t.ns, u.ns);
    } else if t.Since? {
      OppositesDiffer(t.ns, u.ns);
    } else {
      OppositesDiffer(u.ns, t.ns);
    }
  }

  lemma SameSideDiffer(m: bv128, n: bv128)
    requires m <= 0x8000_0000_0000_0000 && n <= 0x8000_0000_0000_0000
    ensures (Low(m) == Low(n) <==> m == n) && (0 - Low(m) == 0 - Low(n) <==> m == n)
  {
    hide Low;
    LowInjective(m, n);
    NegationInjective(Low(m), Low(n));
  }

  /** `format_object_etag_unquoted` on the words of one stat result. */
  function Tag(ino: Word, mtime: Word, size: Word): string {
    Hex16(ino) + Hex16(Mix(mtime ^ Mix(size))) + "-1"
  }

  lemma SplitTag(a: string, b: string, c: string, d: string)
    requires |a| == |c| == 16 && |b| == |d| == 16
    ensures a + b + "-1" == c + d + "-1" <==> a == c && b == d
  {
    if a + b + "-1" == c + d + "-1" {
      assert a == (a + b + "-1")[..16] == (c + d + "-1")[..16] == c;
      assert b == (a + b + "-1")[16..32] == (c + d + "-1")[16..32] == d;
    }
  }

  /** The text of a tag: the inode and the mixed word in base 16, and a fixed ending. */
  lemma TagReads(ino: Word, mtime: Word, size: Word)
    ensures var t := Tag(ino, mtime, size);
            |t| == 34 && ReadHex(t[..16]) == ino && ReadHex(t[16..32]) == Mix(mtime ^ Mix(size)) && t[32..] == "-1"
  {
    hide Hex16, ReadHex, Mix;
    var a, b, t := Hex16(ino), Hex16(Mix(mtime ^ Mix(size))), Tag(ino, mtime, size);
    assert t[..16] == a && t[16..32] == b;
    HexReads(ino);
    HexReads(Mix(mtime ^ Mix(size)));
  }

  /** Known values of the splitmix64 finaliser. */
  lemma MixValues()
    ensures Mix(0) == 0 && Mix(1) == 0x5692_161d_100b_05e5 && Mix(2) == 0xdbd2_3897_3a2b_148a
  {
  }

  /** Exactly when two stat results get the same tag. */
  lemma TagsEqualIff(ino: Word, mtime: Word, size: Word, ino': Word, mtime': Word, size': Word)
    ensures Tag(ino, mtime, size) == Tag(ino', mtime', size')
            <==> ino == ino' && mtime ^ Mix(size) == mtime' ^ Mix(size')
  {
    hide Mix, Hex16;
    var m, m' := Mix(mtime ^ Mix(size)), Mix(mtime' ^ Mix(size'));
    SplitTag(Hex16(ino), Hex16(m), Hex16(ino'), Hex16(m'));
    Hex16Injective(ino, ino');
    Hex16Injective(m, m');
    MixInjective(mtime ^ Mix(size), mtime' ^ Mix(size'));
  }

  lemma XorCancels(a: Word, b: Word, c: Word)
    ensures (a ^ c == b ^ c <==> a == b) && (c ^ a == c ^ b <==> a == b)
  {
  }

  /** Words that differ in exactly one place give different tags. */
  lemma OneWordShows(ino: Word, mtime: Word, size: Word, ino': Word, mtime': Word, size': Word)
    requires || (ino != ino' && mtime == mtime' && size == size')
             || (ino == ino' && mtime != mtime' && size == size')
             || (ino == ino' && mtime == mtime' && size != size')
    ensures Tag(ino, mtime, size) != Tag(ino', mtime', size')
  {
    hide *;
    TagsEqualIff(ino, mtime, size, ino', mtime', size');
    if mtime != mtime' {
      XorCancels(mtime, mtime', Mix(size));
    } else if size != size' {
      XorCancels(Mix(size), Mix(size'), mtime);
      MixInjective(size, size');
    }
  }

  function StatTag(s: Stat): string {
    Tag(s.ino, MtimeWord(s.mtime), s.size)
  }

  predicate OneChanged(s: Stat, t: Stat) {
    || (s.ino != t.ino && s.mtime == t.mtime && s.size == t.size)
    || (s.ino == t.ino && s.mtime != t.mtime && s.size == t.size)
    || (s.ino == t.ino && s.mtime == t.mtime && s.size != t.size)
  }

  /**
   * Stat results that differ in exactly one of inode, time and size have different tags,
   * unless it is the time and both have the same word, which needs a time far from the epoch.
   */
  lemma OneChangeShows(s: Stat, t: Stat)
    requires OneChanged(s, t)
    ensures StatTag(s) == StatTag(t) <==> s.mtime != t.mtime && MtimeWord(s.mtime) == MtimeWord(t.mtime)
    ensures Near(s.mtime) && Near(t.mtime) ==> StatTag(s) != StatTag(t)
  {
    hide Tag, MtimeWord, Near;
    var v, w := MtimeWord(s.mtime), MtimeWord(t.mtime);
    if s.ino != t.ino || s.size != t.size || v != w { OneWordShows(s.ino, v, s.size, t.ino, w, t.size); }
    if Near(s.mtime) && Near(t.mtime) { NearTimesDiffer(s.mtime, t.mtime); }
  }

  /** For every change of size there is exactly one time that hides it. */
  lemma OneTimeHidesASize(ino: Word, mtime: Word, size: Word, size': Word, t: Word)
    ensures Tag(ino, mtime, size) == Tag(ino, t, size') <==> t == mtime ^ Mix(size) ^ Mix(size')
  {
    hide *;
    TagsEqualIff(ino, mtime, size, ino, t, size');
    XorMoves(mtime ^ Mix(size), t, Mix(size'));
  }

  lemma XorMoves(a: Word, t: Word, c: Word)
    ensures a == t ^ c <==> t == a ^ c
  {
  }
}
