/** Object keys: byte order, path segments and the split of a listing prefix. */
module ListKeys {
  import opened Posix

  type Key = seq<byte>

  const SLASH: byte := 47

  predicate HasPrefix(k: Key, p: Key) {
    |p| <= |k| && k[..|p|] == p
  }

  predicate EndsWithSlash(k: Key) {
    k != [] && k[|k| - 1] == SLASH
  }

  /** A directory key: empty for the bucket root, otherwise ending in '/'. */
  predicate DirKey(k: Key) {
    k == [] || EndsWithSlash(k)
  }

  predicate ValidName(n: Key) {
    n != [] && SLASH !in n
  }

  // ------------------------------------------------------------ order

  /** Byte-wise lexicographic order, the order of Rust strings and of S3 listings. */
  predicate Lt(a: Key, b: Key)
    decreases a
  {
    b != [] && (a == [] || a[0] < b[0] || (a[0] == b[0] && Lt(a[1..], b[1..])))
  }

  /** Where two keys first differ: the smaller one ends there or has the smaller byte. */
  predicate DiffersAt(a: Key, b: Key, i: nat) {
    i <= |a| && i < |b| && a[..i] == b[..i] && (i == |a| || a[i] < b[i])
  }

  /** The order is decided at the first difference. */
  lemma {:induction false} LtIff(a: Key, b: Key)
    ensures Lt(a, b) <==> exists i: nat :: DiffersAt(a, b, i)
    decreases a
  {
    if a == [] || b == [] || a[0] != b[0] {
      assert Lt(a, b) ==> DiffersAt(a, b, 0);
      assert forall i: nat :: DiffersAt(a, b, i) && i > 0 ==> a[0] == a[..i][0] == b[..i][0] == b[0];
    } else {
      LtIff(a[1..], b[1..]);
      if i: nat :| DiffersAt(a[1..], b[1..], i) {
        assert a[..i + 1] == [a[0]] + a[1..][..i] && b[..i + 1] == [b[0]] + b[1..][..i];
        assert DiffersAt(a, b, i + 1);
      }
      if i: nat :| DiffersAt(a, b, i) {
        assert i > 0;
        assert a[1..][..i - 1] == a[..i][1..] && b[1..][..i - 1] == b[..i][1..];
        assert DiffersAt(a[1..], b[1..], i - 1);
      }
    }
  }

  lemma {:induction false} LtIrreflexive(a: Key)
    ensures !Lt(a, a)
    decreases a
  {
    if a != [] { LtIrreflexive(a[1..]); }
  }

  lemma {:induction false} LtTransitive(a: Key, b: Key, c: Key)
    requires Lt(a, b) && Lt(b, c)
    ensures Lt(a, c)
    decreases a
  {
    if a != [] && a[0] == b[0] == c[0] { LtTransitive(a[1..], b[1..], c[1..]); }
  }

  lemma {:induction false} LtTotal(a: Key, b: Key)
    ensures Lt(a, b) || Lt(b, a) || a == b
    decreases a
  {
    if a != [] && b != [] && a[0] == b[0] {
      LtTotal(a[1..], b[1..]);
      assert a == [a[0]] + a[1..] && b == [b[0]] + b[1..];
    }
  }

  lemma LtAsymmetric(a: Key, b: Key)
    requires Lt(a, b)
    ensures !Lt(b, a) && a != b
  {
    LtIrreflexive(a);
    if Lt(b, a) { LtTransitive(a, b, a); }
  }

  /** A common prefix does not matter. */
  lemma {:induction false} LtUnderPrefix(p: Key, a: Key, b: Key)
    ensures Lt(p + a, p + b) <==> Lt(a, b)
    decreases p
  {
    if p == [] {
      assert p + a == a && p + b == b;
    } else {
      assert (p + a)[1..] == p[1..] + a && (p + b)[1..] == p[1..] + b;
      LtUnderPrefix(p[1..], a, b);
    }
  }

  /** Growing the right side keeps the order. */
  lemma {:induction false} LtGrowRight(a: Key, b: Key, y: Key)
    requires Lt(a, b)
    ensures Lt(a, b + y)
    decreases a
  {
    if a != [] && a[0] == b[0] {
      assert (b + y)[1..] == b[1..] + y;
      LtGrowRight(a[1..], b[1..], y);
    }
  }

  /** Keys that diverge stay in order under any extension of both. */
  lemma {:induction false} LtDiverge(a: Key, b: Key, x: Key, y: Key)
    requires Lt(a, b) && !HasPrefix(b, a)
    ensures Lt(a + x, b + y)
    decreases a
  {
    if a[0] == b[0] {
      assert (a + x)[1..] == a[1..] + x && (b + y)[1..] == b[1..] + y;
      assert |a| <= |b| ==> b[..|a|] == [b[0]] + b[1..][..|a| - 1];
      assert a == [a[0]] + a[1..];
      LtDiverge(a[1..], b[1..], x, y);
    }
  }

  lemma LtProperPrefix(a: Key, x: Key)
    requires x != []
    ensures Lt(a, a + x)
  {
    LtUnderPrefix(a, [], x);
    assert a + [] == a;
  }

  // ------------------------------------------------------------ segments

  function FirstSlash(k: Key): (n: nat)
    ensures n <= |k| && (forall i :: 0 <= i < n ==> k[i] != SLASH) && (n < |k| ==> k[n] == SLASH)
  {
    if k == [] || k[0] == SLASH then 0 else 1 + FirstSlash(k[1..])
  }

  /** `split('/')` without the empty pieces. */
  function Segs(k: Key): (r: seq<Key>)
    ensures forall i :: 0 <= i < |r| ==> ValidName(r[i])
    decreases |k|
  {
    if k == [] then []
    else if k[0] == SLASH then Segs(k[1..])
    else var n := FirstSlash(k);
         [k[..n]] + Segs(k[n..])
  }

  function Join(segs: seq<Key>): Key {
    if segs == [] then [] else if |segs| == 1 then segs[0] else segs[0] + [SLASH] + Join(segs[1..])
  }

  lemma FirstSlashAppend(a: Key, b: Key)
    requires FirstSlash(a) < |a|
    ensures FirstSlash(a + b) == FirstSlash(a)
    decreases |a|
  {
    var n, m := FirstSlash(a), FirstSlash(a + b);
    assert (a + b)[n] == a[n];
    if m < n { assert (a + b)[m] == a[m]; }
  }

  lemma SegsFirst(k: Key)
    requires k != [] && k[0] != SLASH
    ensures Segs(k) == [k[..FirstSlash(k)]] + Segs(k[FirstSlash(k)..])
  {
    hide FirstSlash;
  }

  /** Splitting at a directory boundary splits the segments. */
  lemma {:induction false} SegsConcat(a: Key, b: Key)
    requires DirKey(a)
    ensures Segs(a + b) == Segs(a) + Segs(b)
    decreases |a|
  {
    if a == [] {
      assert a + b == b;
    } else if a[0] == SLASH {
      assert (a + b)[1..] == a[1..] + b;
      SegsConcat(a[1..], b);
    } else {
      var n := FirstSlash(a);
      FirstSlashAppend(a, b);
      var k := a + b;
      assert k[0] == a[0] && k[..n] == a[..n] && k[n..] == a[n..] + b;
      SegsConcat(a[n..], b);
      assert Segs(k) == [k[..n]] + Segs(k[n..]) && Segs(a) == [a[..n]] + Segs(a[n..]) by { SegsFirst(k); SegsFirst(a); }
    }
  }

  lemma SegsOfName(name: Key)
    requires ValidName(name)
    ensures Segs(name) == [name] && Segs(name + [SLASH]) == [name]
  {
    assert FirstSlash(name) == |name| && name[..|name|] == name && name[|name|..] == [];
    var k := name + [SLASH];
    var n := FirstSlash(k);
    FirstSegment(k, name);
    assert k[..n] == name && k[n..] == [SLASH];
    assert Segs([SLASH]) == Segs([]);
  }

  /** One level deeper in the tree is one more segment. */
  lemma SegsOfChild(dir: Key, name: Key)
    requires DirKey(dir) && ValidName(name)
    ensures Segs(dir + name + [SLASH]) == Segs(dir) + [name]
  {
    assert dir + name + [SLASH] == dir + (name + [SLASH]);
    SegsConcat(dir, name + [SLASH]);
    SegsOfName(name);
  }

  // ------------------------------------------------------------ prefix split

  /** Index just past the last '/', or 0. */
  function LastSlash(k: Key): (n: nat)
    ensures n <= |k| && (n > 0 ==> k[n - 1] == SLASH) && (forall i :: n <= i < |k| ==> k[i] != SLASH)
  {
    if k == [] then 0 else if k[|k| - 1] == SLASH then |k| else LastSlash(k[..|k| - 1])
  }

  /** (directory prefix, leaf filter): a prefix "/x" loses its slash, as in the code. */
  function SplitPrefix(prefix: Key): (r: (Key, Option<Key>))
    ensures DirKey(r.0)
    ensures r.1.Some? ==> ValidName(r.1.value)
  {
    if prefix == [] || EndsWithSlash(prefix) then (prefix, None)
    else var n := LastSlash(prefix);
         (if n <= 1 then [] else prefix[..n], Some(prefix[n..]))
  }

  /** The two halves spell the prefix exactly when it does not consist of '/' and one name. */
  lemma SplitPrefixSpells(prefix: Key)
    ensures var (dir, leaf) := SplitPrefix(prefix);
            prefix == dir + (if leaf.Some? then leaf.value else [])
            <==> !(|prefix| > 1 && prefix[0] == SLASH && ValidName(prefix[1..]))
  {
    if prefix == [] || EndsWithSlash(prefix) {
      assert prefix + [] == prefix;
      if |prefix| > 1 && prefix[0] == SLASH { assert prefix[1..][|prefix| - 2] == SLASH; }
    } else {
      var n := LastSlash(prefix);
      assert prefix == prefix[..n] + prefix[n..];
      if n == 0 {
        assert [] + prefix[0..] == prefix;
      } else if n == 1 {
        assert [] + prefix[1..] != prefix;
      } else if |prefix| > 1 && prefix[0] == SLASH {
        assert prefix[1..][n - 2] == SLASH;
      }
    }
  }

  // ------------------------------------------------------------ the reserved directory

  function TrimEnd(k: Key): (r: Key)
    ensures !EndsWithSlash(r)
    ensures HasPrefix(k, r) && forall i :: |r| <= i < |k| ==> k[i] == SLASH
  {
    if EndsWithSlash(k) then TrimEnd(k[..|k| - 1]) else k
  }

  /** `is_reserved_first_segment` */
  predicate Reserved(k: Key, mpu: Key) {
    var t := TrimEnd(k);
    t == mpu || HasPrefix(t, mpu + [SLASH])
  }

  /** The first segment, followed by a slash, is the text before the first slash. */
  lemma FirstSegment(k: Key, m: Key)
    requires ValidName(m)
    ensures HasPrefix(k, m + [SLASH]) <==> FirstSlash(k) == |m| < |k| && k[..|m|] == m
  {
    var n, ms := FirstSlash(k), m + [SLASH];
    assert |m| < |k| ==> k[..|ms|] == k[..|m|] + [k[|m|]];
    assert HasPrefix(k, ms) ==> k[|m|] == ms[|m|] && (forall i :: 0 <= i < |m| ==> k[i] == ms[i] == m[i]);
  }

  /** Trimming cannot hide a reserved first segment. */
  lemma ReservedIffFirstSegment(k: Key, mpu: Key)
    requires ValidName(mpu)
    ensures Reserved(k, mpu) <==> k == mpu || HasPrefix(k, mpu + [SLASH])
  {
    var t := TrimEnd(k);
    FirstSegment(k, mpu);
    FirstSegment(t, mpu);
    assert t == k[..|t|];
    assert FirstSlash(t) == Min(FirstSlash(k), |t|) by {
      var n, n' := FirstSlash(k), FirstSlash(t);
      assert n' < |t| ==> k[n'] == t[n'];
      assert n < |t| ==> t[n] == k[n];
    }
    assert k == mpu || HasPrefix(k, mpu + [SLASH]) ==> k[|mpu| - 1] == mpu[|mpu| - 1] != SLASH && |mpu| <= |t|;
    assert |mpu| <= |t| ==> t[..|mpu|] == k[..|mpu|];
    assert t[..|t|] == t && k[..|k|] == k;
  }

  /** Descending into any directory other than the multipart one at the root stays outside it. */
  lemma DescendNotReserved(dir: Key, name: Key, mpu: Key)
    requires DirKey(dir) && ValidName(name) && ValidName(mpu)
    requires !Reserved(dir, mpu) && !(dir == [] && name == mpu)
    ensures !Reserved(dir + name + [SLASH], mpu)
  {
    var k := dir + name + [SLASH];
    ReservedIffFirstSegment(dir, mpu);
    ReservedIffFirstSegment(k, mpu);
    FirstSegment(dir, mpu);
    FirstSegment(k, mpu);
    assert k[|k| - 1] == SLASH;
    if dir == [] {
      assert k == name + [SLASH];
      FirstSegment(k, name);
    } else {
      assert k == dir + (name + [SLASH]);
      FirstSlashAppend(dir, name + [SLASH]);
      assert k[..FirstSlash(dir)] == dir[..FirstSlash(dir)];
    }
  }
}
