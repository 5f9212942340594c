/** Listing requests that resume from a key: V1 markers and StartAfter. */
module ListMarker {
  import opened Posix
  import opened ListKeys
  import opened ListTree
  import opened ListPage
  import opened ListExact
  import opened ListResume

  function DirOf(q: Query): Key {
    SplitPrefix(q.prefix).0
  }

  function MarkerFrames(q: Query, m: Key): seq<Frame> {
    ResumeFrames(DirOf(q), m, q.recursive)
  }

  lemma SegsJoinCons(name: Key, rest: Key)
    requires ValidName(name)
    ensures Segs(name + [SLASH] + rest) == [name] + Segs(rest)
  {
    hide Segs;
    SegsOfName(name);
    SegsConcat(name + [SLASH], rest);
  }

  lemma {:induction false} SegsJoin(segs: seq<Key>)
    requires Names(segs)
    ensures Segs(Join(segs)) == segs && Segs(Join(segs) + [SLASH]) == segs
  {
    if |segs| == 0 {
    } else if |segs| == 1 {
      SegsOfName(segs[0]);
    } else {
      hide Segs;
      var b := Join(segs[1..]);
      SegsJoin(segs[1..]);
      SegsJoinCons(segs[0], b);
      SegsJoinCons(segs[0], b + [SLASH]);
      assert segs[0] + [SLASH] + b + [SLASH] == segs[0] + [SLASH] + (b + [SLASH]);
    }
  }

  /**
   * A marker spelled without empty segments: with or without a final '/', the resumed
   * listing is exactly the listed keys greater than the marker without that '/'.
   */
  lemma KeyMarkerIsExact(q: Query, segs: seq<Key>, slash: bool)
    requires q.Valid() && q.recursive && Names(segs)
    requires var m := DirOf(q) + Join(segs) + if slash then [SLASH] else [];
             FramesOk(q, MarkerFrames(q, m))
    ensures var m := DirOf(q) + Join(segs) + if slash then [SLASH] else [];
            Rest(q, MarkerFrames(q, m)) == After(Traversal(q), DirOf(q) + Join(segs))
  {
    hide Rest, After, Traversal, SplitPrefix, FramesOk, Join, Segs;
    var dir := DirOf(q);
    var m := dir + Join(segs) + if slash then [SLASH] else [];
    assert m[|dir|..] == Join(segs) + if slash then [SLASH] else [];
    assert Join(segs) + [] == Join(segs);
    SegsJoin(segs);
    assert m[..|dir|] == dir;
    RecursiveResume(q, m);
  }

  /** A marker outside the prefix directory restarts the listing: right exactly when it sorts before the directory. */
  lemma ForeignMarker(q: Query, m: Key)
    requires q.Valid() && !HasPrefix(m, DirOf(q))
    ensures Rest(q, MarkerFrames(q, m)) == Traversal(q)
    ensures Rest(q, MarkerFrames(q, m)) == After(Traversal(q), m) <==> Lt(m, DirOf(q)) || Traversal(q) == []
  {
    hide Rest, After, Traversal, SplitPrefix, Lt;
    var dir, os := DirOf(q), Traversal(q);
    FirstTokenOwesListing(q);
    LtTotal(m, dir);
    assert dir[..|dir|] == dir;
    if Lt(m, dir) {
      forall i | 0 <= i < |os| ensures Lt(m, os[i].key) { ListedExceedsDir(q, i); LtTransitive(m, dir, os[i].key); }
      AfterAll(os, m);
    } else {
      forall i | 0 <= i < |os|
        ensures !Lt(m, os[i].key)
      {
        var k := os[i].key;
        ListedBelowDir(q, i);
        assert k == dir + k[|dir|..] && m + [] == m;
        LtDiverge(dir, m, k[|dir|..], []);
        LtAsymmetric(k, m);
      }
      AfterNone(os, m);
    }
  }

  /** Listing "b/" of a bucket with the one file "b/a" after the marker "c" lists that file, which sorts before "c". */
  lemma ForeignMarkerExample(mpu: Key)
    requires ValidName(mpu) && mpu != [LOWER_B]
    ensures var q := Query(Dir([Item([LOWER_B], Dir([Item([LOWER_A], File)]))]), [LOWER_B, SLASH], true, mpu);
            && Listing(q) == [Obj([LOWER_B, SLASH, LOWER_A])] && Lt([LOWER_B, SLASH, LOWER_A], [99])
            && Rest(q, MarkerFrames(q, [99])) == Listing(q)
  {
    var file := Item([LOWER_A], File);
    var q := Query(Dir([Item([LOWER_B], Dir([file]))]), [LOWER_B, SLASH], true, mpu);
    var dir := [LOWER_B, SLASH];
    SegsOfName([LOWER_B]);
    assert [LOWER_B] + [SLASH] == dir;
    assert Descend(q.root, [[LOWER_B]]) == Some(Dir([file])) by { assert [[LOWER_B]][1..] == []; }
    SortOne(file);
    assert LoadAll(q, dir) == [file] && SplitPrefix(q.prefix) == (dir, None);
    OneEntryWalk(q, dir, file);
    assert dir + [LOWER_A] == [LOWER_B, SLASH, LOWER_A];
    FirstSegment(dir, mpu);
    ReservedIffFirstSegment(dir, mpu);
    assert FirstSlash(dir) == 1;
    assert WellFormed(Dir([file])) && q.Valid();
    ForeignMarker(q, [99]);
  }

  // ------------------------------------------------------------ resuming from what was listed

  /** A path of names with or without a final '/'. */
  predicate Spells(segs: seq<Key>, rel: Key) {
    segs != [] && Names(segs) && rel == Join(segs) + if EndsWithSlash(rel) then [SLASH] else []
  }

  lemma SpellsName(name: Key)
    requires ValidName(name)
    ensures Spells([name], name) && Spells([name], name + [SLASH])
  {
    assert name + [] == name;
  }

  lemma SpellsDeeper(name: Key, rest: seq<Key>, rel: Key)
    requires ValidName(name) && Spells(rest, rel)
    ensures Spells([name] + rest, name + [SLASH] + rel)
  {
    var segs, deep := [name] + rest, name + [SLASH] + rel;
    assert segs[1..] == rest;
    JoinNonEmpty(rest);
    assert EndsWithSlash(deep) == EndsWithSlash(rel);
    assert Join(segs) == name + [SLASH] + Join(rest);
  }

  /** A listed key is a path of names, with a final '/' exactly for an empty directory. */
  lemma {:induction false} ItemKeySegs(it: Item, rel: Key) returns (segs: seq<Key>)
    requires GoodItem(it) && ItemKey(it, rel)
    ensures Spells(segs, rel) && segs[0] == it.name && (|segs| > 1 ==> it.node.Dir?)
    decreases it
  {
    hide KeyOf, Spells;
    SpellsName(it.name);
    if it.node.File? || it.node.items == [] {
      segs := [it.name];
    } else {
      var rel' := rel[|it.name| + 1..];
      KeyOfIsItemKey(it.node.items, rel');
      var i :| 0 <= i < |it.node.items| && ItemKey(it.node.items[i], rel');
      var rest := ItemKeySegs(it.node.items[i], rel');
      segs := [it.name] + rest;
      SpellsDeeper(it.name, rest, rel');
      assert rel == it.name + [SLASH] + rel';
    }
  }

  lemma ListedSegs(q: Query, i: nat) returns (segs: seq<Key>)
    requires q.Valid() && q.recursive && i < |Traversal(q)|
    ensures segs != [] && Names(segs) && (DirOf(q) == [] && |segs| > 1 ==> segs[0] != q.mpu)
    ensures var k := Traversal(q)[i].key;
            k == DirOf(q) + Join(segs) + if EndsWithSlash(k) then [SLASH] else []
  {
    hide Walk, Visit, Load, SplitPrefix, WellFormed, ItemKey, Join, SortKey, Lt;
    var dir, k := DirOf(q), Traversal(q)[i].key;
    var es := Load(q, dir, true);
    LoadEntries(q, dir, true);
    var j := WalkFrom(q, dir, es, i);
    WalkMatches(q, dir, es, i);
    assert Obj(k) in Visit(q, dir, es[j]);
    VisitExact(q, dir, es[j], k);
    ListedBelowDir(q, i);
    var rel := k[|dir|..];
    segs := ItemKeySegs(es[j], rel);
    assert k == dir + rel && EndsWithSlash(rel) == EndsWithSlash(k);
  }

  lemma ChainIsMarkerFrames(q: Query, segs: seq<Key>, slash: bool)
    requires q.recursive && segs != [] && Names(segs)
    ensures MarkerFrames(q, DirOf(q) + Join(segs) + if slash then [SLASH] else []) == Chain(DirOf(q), segs)
  {
    hide SplitPrefix, Segs, Chain, Join;
    var dir, tail := DirOf(q), if slash then [SLASH] else [];
    var m, rel := dir + Join(segs) + tail, Join(segs) + tail;
    assert m == dir + rel && m[|dir|..] == rel && m[..|dir|] == dir;
    SegsJoin(segs);
    assert Join(segs) + [] == Join(segs);
    SegsTrimStart(rel);
  }

  /**
   * Recursive mode: the key of any listed result is accepted as a marker, and the rest of
   * the listing follows exactly when the key does not end in '/'.  After an empty
   * directory's key the resumed listing starts at or before that key again.
   */
  lemma ResumeAfterListedKey(q: Query, i: nat) returns (j: nat)
    requires q.Valid() && q.recursive && i < |Traversal(q)| && !Reserved(DirOf(q), q.mpu)
    ensures var frames := MarkerFrames(q, Traversal(q)[i].key);
            && FramesOk(q, frames)
            && j <= |Traversal(q)| && Rest(q, frames) == Traversal(q)[j..]
            && (if EndsWithSlash(Traversal(q)[i].key) then j <= i else j == i + 1)
  {
    hide Rest, After, Traversal, SplitPrefix, FramesOk, Join, Segs, ResumeFrames, Reserved, Lt, Chain, DirKey;
    var os, dir := Traversal(q), DirOf(q);
    var k := os[i].key;
    var segs := ListedSegs(q, i);
    ChainIsMarkerFrames(q, segs, EndsWithSlash(k));
    ChainOk(q, dir, segs);
    KeyMarkerIsExact(q, segs, EndsWithSlash(k));
    ListingIncreasing(q);
    var m := dir + Join(segs);
    j := AfterIsSuffix(os, m);
    if EndsWithSlash(k) {
      LtProperPrefix(m, [SLASH]);
    } else {
      assert m + [] == m;
      AfterOneOfThem(os, i);
      assert |os[j..]| == |os[i + 1..]|;
    }
  }

  /** Delimiter mode: every entry contributes at most itself. */
  lemma {:induction false} FlatVisit(q: Query, dir: Key, it: Item, k: Out)
    requires !q.recursive && k in Visit(q, dir, it)
    ensures k.key == dir + SortKey(it) && Visit(q, dir, it) == [k]
  {
    assert dir + it.name + [SLASH] == dir + (it.name + [SLASH]);
  }

  lemma FlatFrames(q: Query, it: Item)
    requires !q.recursive && ValidName(it.name)
    ensures MarkerFrames(q, DirOf(q) + SortKey(it)) == [Frame(DirOf(q), SortKey(it))]
  {
    hide SplitPrefix;
    var dir, rel := DirOf(q), SortKey(it);
    var m := dir + rel;
    assert m[|dir|..] == rel && m[..|dir|] == dir && TrimStart(rel) == rel;
    assert EndsWithSlash(m) == EndsWithSlash(rel) == it.node.Dir?;
    if it.node.Dir? { FirstSegment(rel, it.name); }
    assert it.node.File? ==> FirstSlash(rel) == |rel|;
    assert rel[..FirstSlash(rel)] == it.name;
  }

  /** Delimiter mode: resuming from any listed key or common prefix gives exactly the later results. */
  lemma ResumeAfterListedEntry(q: Query, i: nat)
    requires q.Valid() && !q.recursive && i < |Traversal(q)| && !Reserved(DirOf(q), q.mpu)
    ensures var frames := MarkerFrames(q, Traversal(q)[i].key);
            FramesOk(q, frames) && Rest(q, frames) == Traversal(q)[i + 1..]
  {
    hide Rest, After, SplitPrefix, ResumeFrames, Reserved, Lt, Walk, Visit, Load, WellFormed, FirstAfter, SortKey;
    var os, dir := Traversal(q), DirOf(q);
    var es := Load(q, dir, true);
    var o := os[i];
    LoadEntries(q, dir, true);
    var j := WalkFrom(q, dir, es, i);
    FlatVisit(q, dir, es[j], o);
    FlatFrames(q, es[j]);
    ReplaceTop(q, [], Frame(dir, SortKey(es[j])));
    EmptyStackOwesNothing(q);
    assert [] + [Frame(dir, SortKey(es[j]))] == [Frame(dir, SortKey(es[j]))];
    ListingIncreasing(q);
    AfterOneOfThem(os, i);
    LevelSplit(q, dir, es, es[j], o.key);
    AtCursorFinds(es, es[j], j);
    OneEntryWalk(q, dir, es[j]);
    LtIrreflexive(o.key);
    AfterNone([o], o.key);
  }

  /** The rest of the listing follows a listed key, in every mode, except after a '/' key of a recursive listing. */
  lemma ResumeExactIff(q: Query, i: nat)
    requires q.Valid() && i < |Listing(q)|
    ensures var frames := MarkerFrames(q, Listing(q)[i].key);
            && FramesOk(q, frames)
            && (Rest(q, frames) == Listing(q)[i + 1..] <==> !(q.recursive && EndsWithSlash(Listing(q)[i].key)))
  {
    hide Traversal, Rest, FramesOk, MarkerFrames, Reserved, SplitPrefix;
    VisibleDirectory(q);
    if q.recursive {
      var j := ResumeAfterListedKey(q, i);
      assert |Listing(q)[j..]| == |Listing(q)| - j;
    } else {
      ResumeAfterListedEntry(q, i);
    }
  }

  // ------------------------------------------------------------ the V1 chain

  /** One V1 page: the same loop from the marker's stack; the last key emitted is the next marker. */
  method ListPageV1(q: Query, marker: Key, maxKeys: nat) returns (r: Page, next: Option<Key>)
    requires q.Valid()
    ensures !Looks(q) ==> r == Page([], None) && next == None
    ensures next.Some? ==> r.Page?
    ensures Looks(q) ==>
            var frames := if marker == [] then FirstToken(q) else MarkerFrames(q, marker);
            && (r.RejectedToken? <==> !FramesOk(q, frames))
            && (r.Page? && maxKeys > 0 ==>
                  && |r.out| <= maxKeys && r.out <= Rest(q, frames)
                  && (next.None? ==> r.out == Rest(q, frames))
                  && (next.Some? <==> |r.out| == maxKeys)
                  && (next.Some? ==> next.value == r.out[maxKeys - 1].key))
  {
    hide Rest, ResumeFrames, SplitPrefix, FramesOk, DirKey, WellFormed, Looks;
    var frames := FirstToken(q);
    if marker != [] {
      frames := BuildStackFromLast(DirOf(q), marker, q.recursive);
    }
    assert frames == if marker == [] then FirstToken(q) else MarkerFrames(q, marker);
    MarkerDirs(q, marker);
    r := ListPage.ListPage(q, frames, maxKeys);
    next := None;
    if r.Page? && r.next.Some? {
      next := Some(r.out[|r.out| - 1].key);
    }
  }

  /** Every frame rebuilt from a marker is for a directory key. */
  lemma MarkerDirs(q: Query, m: Key)
    ensures forall i :: 0 <= i < |FirstToken(q)| ==> DirKey(FirstToken(q)[i].dir)
    ensures forall i :: 0 <= i < |MarkerFrames(q, m)| ==> DirKey(MarkerFrames(q, m)[i].dir)
    ensures MarkerFrames(q, m) != []
  {
    hide Segs, SplitPrefix, Chain;
    if HasPrefix(m, DirOf(q)) {
      var segs := Segs(TrimStart(m[|DirOf(q)|..]));
      if segs != [] { ChainDirs(DirOf(q), segs); }
    }
  }

  lemma {:induction false} ChainDirs(dir: Key, segs: seq<Key>)
    requires DirKey(dir) && segs != []
    ensures Chain(dir, segs) != []
    ensures forall i :: 0 <= i < |Chain(dir, segs)| ==> DirKey(Chain(dir, segs)[i].dir)
    decreases segs
  {
    if |segs| > 1 { ChainDirs(dir + segs[0] + [SLASH], segs[1..]); }
  }

  /** How many results the first `n` full pages hold. */
  function Boundary(sizes: nat -> nat, n: nat): nat {
    if n == 0 then 0 else Boundary(sizes, n - 1) + sizes(n - 1)
  }

  /** A marker after which a recursive listing starts over at or before it: the key of an empty directory. */
  predicate Repeats(q: Query, marker: Key) {
    q.recursive && EndsWithSlash(marker)
  }

  /** No page of a recursive listing ends with an empty directory. */
  ghost predicate NoPageEndsInEmptyDir(q: Query, sizes: nat -> nat) {
    forall n: nat :: BoundaryOk(q, sizes, n)
  }

  predicate BoundaryOk(q: Query, sizes: nat -> nat, n: nat) {
    0 < Boundary(sizes, n) <= |Listing(q)| ==> !Repeats(q, Listing(q)[Boundary(sizes, n) - 1].key)
  }

  lemma {:induction false} BoundaryGrows(sizes: nat -> nat, m: nat, n: nat)
    requires (forall i :: sizes(i) >= 1) && m <= n
    ensures Boundary(sizes, m) + (n - m) <= Boundary(sizes, n)
  {
    if m < n { BoundaryGrows(sizes, m, n - 1); }
  }

  /** The marker a client has after `done` results. */
  predicate Standing(q: Query, marker: Key, done: nat) {
    && done <= |Listing(q)| && (done == 0 ==> marker == [])
    && (done > 0 ==> marker == Listing(q)[done - 1].key)
  }

  /**
   * A page from a marker that a client has after `done` results, if that is known.  From one
   * that does not repeat it holds the next results; from one that repeats it starts with
   * the result at `again`, already given.
   */
  method PageFromMarker(q: Query, marker: Key, size: nat, ghost known: bool, ghost done: nat)
    returns (r: Page, next: Option<Key>, ghost again: nat)
    requires q.Valid() && size >= 1 && (known ==> Standing(q, marker, done))
    ensures next.Some? ==> r.Page? && |r.out| == size
    ensures known && (done > 0 ==> !Repeats(q, marker)) ==>
              && r.Page? && done + |r.out| <= |Listing(q)| && r.out == Listing(q)[done..done + |r.out|]
              && (next.None? ==> done + |r.out| == |Listing(q)| && |r.out| < size)
              && (next.Some? ==> next.value == Listing(q)[done + size - 1].key)
    ensures known && done > 0 && Repeats(q, marker) ==>
              r.Page? && r.out != [] && again < done <= |Listing(q)| && r.out[0] == Listing(q)[again]
  {
    hide Rest, Listing, Traversal, Reserved, SplitPrefix, MarkerFrames, DirKey, Looks, WellFormed;
    FirstTokenOwesListing(q);
    EarlyAnswers(q);
    again := 0;
    if known && done > 0 {
      ResumeExactIff(q, done - 1);
      ListedBelowDir(q, done - 1);
      if Repeats(q, marker) { again := ResumeAfterListedKey(q, done - 1); }
    }
    r, next := ListPageV1(q, marker, size);
  }

  /** The results differ from the listing, or go on after its end, somewhere. */
  ghost predicate Strays(os: seq<Out>, listing: seq<Out>) {
    exists p :: Astray(os, listing, p)
  }

  predicate Astray(os: seq<Out>, listing: seq<Out>, p: nat) {
    p < |os| && (p < |listing| ==> os[p] != listing[p])
  }

  lemma StraysStays(os: seq<Out>, more: seq<Out>, listing: seq<Out>)
    requires Strays(os, listing)
    ensures Strays(os + more, listing) && os != listing
  {
    var p :| Astray(os, listing, p);
    assert Astray(os + more, listing, p);
  }

  /** Repeating a result instead of going on strays. */
  lemma RepeatStrays(q: Query, done: nat, more: seq<Out>, again: nat)
    requires q.Valid() && again < done <= |Listing(q)| && more != [] && more[0] == Listing(q)[again]
    ensures Strays(Listing(q)[..done] + more, Listing(q))
  {
    hide Listing, Traversal, WellFormed, Lt;
    var os := Listing(q)[..done] + more;
    ListingIncreasing(q);
    LtIrreflexive(Listing(q)[again].key);
    assert Astray(os, Listing(q), done);
  }

  /** Boundaries checked up to the last full page, and a page that was not full, leave none to check. */
  lemma AllBoundariesOk(q: Query, sizes: nat -> nat, n: nat)
    requires (forall i :: sizes(i) >= 1) && Boundary(sizes, n) > |Listing(q)|
    requires forall m :: 0 <= m < n ==> BoundaryOk(q, sizes, m)
    ensures NoPageEndsInEmptyDir(q, sizes)
  {
    hide Listing;
    forall m: nat ensures BoundaryOk(q, sizes, m) { if m >= n { BoundaryGrows(sizes, n, m); } }
  }

  /**
   * A V1 client that follows NextMarker for up to `limit` pages.  If it may ask for more
   * pages than there are results, it gets the unpaged listing exactly once and stops if and
   * only if no page of a recursive listing ends with an empty directory.
   */
  method ListV1ToEnd(q: Query, sizes: nat -> nat, limit: nat) returns (pages: seq<seq<Out>>, ended: bool)
    requires q.Valid() && forall i :: sizes(i) >= 1
    ensures |pages| <= limit && forall i :: 0 <= i < |pages| - 1 ==> |pages[i]| == sizes(i)
    ensures limit > |Listing(q)| ==> (ended && Concat(pages) == Listing(q) <==> NoPageEndsInEmptyDir(q, sizes))
  {
    hide Listing, WellFormed, BoundaryOk, Looks, Repeats, Strays, NoPageEndsInEmptyDir, Rest, MarkerFrames, FramesOk;
    pages, ended := [], false;
    var marker: Key := [];
    ghost var done: nat, exact := 0, true;
    while |pages| < limit
      invariant |pages| <= limit && !ended
      invariant forall i :: 0 <= i < |pages| ==> |pages[i]| == sizes(i)
      invariant exact ==> Standing(q, marker, done) && done == Boundary(sizes, |pages|) && Concat(pages) == Listing(q)[..done]
      invariant exact ==> forall m :: 0 <= m < |pages| ==> BoundaryOk(q, sizes, m)
      invariant !exact ==> !NoPageEndsInEmptyDir(q, sizes) && Strays(Concat(pages), Listing(q))
    {
      ghost var again;
      var r, next;
      r, next, again := PageFromMarker(q, marker, sizes(|pages|), exact, done);
      if r.RejectedToken? {
        return;
      }
      if !exact {
        StraysStays(Concat(pages), r.out, Listing(q));
      } else if done > 0 && Repeats(q, marker) {
        RepeatStrays(q, done, r.out, again);
        BadBoundary(q, sizes, |pages|);
        exact := false;
      } else {
        GoodBoundary(q, sizes, |pages|, marker, done);
        done := done + |r.out|;
      }
      assert (pages + [r.out])[..|pages|] == pages;
      pages := pages + [r.out];
      if next.None? {
        ended := true;
        if exact {
          AllBoundariesOk(q, sizes, |pages|);
        } else {
          StraysStays(Concat(pages), [], Listing(q));
        }
        return;
      }
      marker := next.value;
    }
    BoundaryGrows(sizes, 0, |pages|);
  }

  lemma GoodBoundary(q: Query, sizes: nat -> nat, n: nat, marker: Key, done: nat)
    requires Standing(q, marker, done) && done == Boundary(sizes, n) && (done > 0 ==> !Repeats(q, marker))
    ensures BoundaryOk(q, sizes, n)
  {
    hide Listing, Repeats;
  }

  lemma BadBoundary(q: Query, sizes: nat -> nat, n: nat)
    requires 0 < Boundary(sizes, n) <= |Listing(q)| && Repeats(q, Listing(q)[Boundary(sizes, n) - 1].key)
    ensures !NoPageEndsInEmptyDir(q, sizes)
  {
    hide Listing, Repeats;
    assert !BoundaryOk(q, sizes, n);
  }

  const LOWER_A: byte := 97
  const LOWER_B: byte := 98

  /** Paging by one through a bucket holding one empty directory: every page lists it, and none is the last. */
  method PagingByOneNeverEnds(mpu: Key, limit: nat) returns (pages: seq<seq<Out>>, next: Option<Key>)
    requires ValidName(mpu) && mpu != [LOWER_A]
    ensures |pages| == limit && forall i :: 0 <= i < limit ==> pages[i] == [Obj([LOWER_A, SLASH])]
    ensures next.Some?
  {
    hide Rest, MarkerFrames, Looks, FirstToken, FramesOk, Listing;
    var q := Query(Dir([Item([LOWER_A], Dir([]))]), [], true, mpu);
    EmptyDirectoryMarkerRepeats(mpu);
    FirstTokenOwesListing(q);
    EarlyAnswers(q);
    pages, next := [], Some([]);
    for n := 0 to limit
      invariant |pages| == n && forall i :: 0 <= i < n ==> pages[i] == [Obj([LOWER_A, SLASH])]
      invariant next == Some([]) || next == Some([LOWER_A, SLASH])
    {
      var r;
      r, next := ListPageV1(q, next.value, 1);
      pages := pages + [r.out];
    }
  }

  /** A bucket holding one empty directory: resuming from its marker lists it again, for ever. */
  lemma EmptyDirectoryMarkerRepeats(mpu: Key)
    requires ValidName(mpu) && mpu != [LOWER_A]
    ensures var q := Query(Dir([Item([LOWER_A], Dir([]))]), [], true, mpu);
            && Listing(q) == [Obj([LOWER_A, SLASH])] && Rest(q, MarkerFrames(q, [LOWER_A, SLASH])) == Listing(q)
            && q.Valid() && Looks(q) && FramesOk(q, FirstToken(q)) && FramesOk(q, MarkerFrames(q, [LOWER_A, SLASH]))
  {
    var it := Item([LOWER_A], Dir([]));
    var q := Query(Dir([it]), [], true, mpu);
    assert Segs([]) == [];
    assert Sort([it]) == [it] by { assert [it][1..] == []; }
    assert LoadAll(q, []) == [it];
    assert Load(q, [], true) == [it];
    OneEntryWalk(q, [], it);
    assert [] + [LOWER_A] + [SLASH] == [LOWER_A, SLASH];
    assert Traversal(q) == [Obj([LOWER_A, SLASH])];
    ReservedIffFirstSegment([], mpu);
    assert DirOf(q) == [] && WellFormed(it.node) && q.Valid();
    var j := ResumeAfterListedKey(q, 0);
  }

  /** A marker with an empty segment skips keys that sort after it: "a//b" resumes after "a/b", past "a/a". */
  lemma EmptySegmentMarkerSkips(q: Query)
    requires q.Valid() && q.recursive && DirOf(q) == [] && q.mpu != [LOWER_A]
    ensures var m := [LOWER_A, SLASH, SLASH, LOWER_B];
            && Rest(q, MarkerFrames(q, m)) == After(Traversal(q), [LOWER_A, SLASH, LOWER_B])
            && Lt(m, [LOWER_A, SLASH, LOWER_A]) && Lt([LOWER_A, SLASH, LOWER_A], [LOWER_A, SLASH, LOWER_B])
  {
    hide Rest, After, Traversal, SplitPrefix, FramesOk, Reserved;
    var a: Key, b: Key, m := [LOWER_A], [LOWER_B], [LOWER_A, SLASH, SLASH, LOWER_B];
    assert Segs(m) == [a, b] by { SpellsDoubled(); }
    assert m[0..] == m && TrimStart(m) == m;
    assert ResumeFrames([], m, true) == Chain([], [a, b]);
    ReservedIffFirstSegment([], q.mpu);
    ChainOk(q, [], [a, b]);
    RecursiveResume(q, m);
    assert [a, b][1..] == [b];
    assert [] + Join([a, b]) == [LOWER_A, SLASH, LOWER_B];
    LtUnderPrefix([LOWER_A, SLASH], [SLASH, LOWER_B], [LOWER_A]);
    LtUnderPrefix([LOWER_A, SLASH], [LOWER_A], [LOWER_B]);
    assert [LOWER_A, SLASH] + [SLASH, LOWER_B] == m;
    assert [LOWER_A, SLASH] + [LOWER_A] == [LOWER_A, SLASH, LOWER_A];
    assert [LOWER_A, SLASH] + [LOWER_B] == [LOWER_A, SLASH, LOWER_B];
  }

  lemma SpellsDoubled()
    ensures Segs([LOWER_A, SLASH, SLASH, LOWER_B]) == [[LOWER_A], [LOWER_B]]
  {
    SegsJoinCons([LOWER_A], [SLASH, LOWER_B]);
    assert [LOWER_A] + [SLASH] + [SLASH, LOWER_B] == [LOWER_A, SLASH, SLASH, LOWER_B];
    assert [SLASH, LOWER_B][1..] == [LOWER_B];
    SegsOfName([LOWER_B]);
  }

  // ------------------------------------------------------------ which markers are exact in every bucket

  /** A bucket with one file, at the path given by `segs`. */
  function OneFile(segs: seq<Key>): Node
    requires segs != []
  {
    Dir([Item(segs[0], if |segs| == 1 then File else OneFile(segs[1..]))])
  }

  function WholeBucket(root: Node, mpu: Key): Query {
    Query(root, [], true, mpu)
  }

  lemma SortOne(it: Item)
    ensures Sort([it]) == [it]
  {
    assert [it][1..] == [];
  }

  lemma {:induction false} OneFileWellFormed(segs: seq<Key>)
    requires segs != [] && Names(segs)
    ensures WellFormed(OneFile(segs))
  {
    if |segs| > 1 { OneFileWellFormed(segs[1..]); }
  }

  /** Walking the one entry of each directory arrives at the file. */
  lemma {:induction false} OneFileWalk(q: Query, dir: Key, segs: seq<Key>)
    requires q.recursive && q.prefix == [] && segs != [] && Names(segs)
    requires dir == [] && |segs| > 1 ==> segs[0] != q.mpu
    ensures Walk(q, dir, OneFile(segs).items) == [Obj(dir + Join(segs))]
    decreases segs
  {
    var it := OneFile(segs).items[0];
    OneEntryWalk(q, dir, it);
    if |segs| > 1 {
      var child := dir + segs[0] + [SLASH];
      OneFileWalk(q, child, segs[1..]);
      SortOne(OneFile(segs[1..]).items[0]);
      assert it.node.items == [OneFile(segs[1..]).items[0]];
      JoinDeeper(dir, segs);
    }
  }

  lemma OneFileListing(segs: seq<Key>, mpu: Key)
    requires segs != [] && Names(segs) && (|segs| > 1 ==> segs[0] != mpu)
    ensures Listing(WholeBucket(OneFile(segs), mpu)) == [Obj(Join(segs))]
  {
    hide Walk, Join;
    var q := WholeBucket(OneFile(segs), mpu);
    var it := OneFile(segs).items[0];
    SortOne(it);
    assert Segs([]) == [] && OneFile(segs).items == [it];
    assert LoadAll(q, []) == [it];
    assert Load(q, [], true) == [it] && SplitPrefix([]).0 == [];
    OneFileWalk(q, [], segs);
    assert [] + Join(segs) == Join(segs);
  }

  /** Without NUL bytes nothing sorts between a key and the key extended by the byte 1. */
  lemma {:induction false} NextKey(a: Key, m: Key)
    requires Lt(a, m) && 0 !in m
    ensures !Lt(m, a + [1])
    decreases a
  {
    if a == [] {
      assert a + [1] == [1] && m[0] in m;
    } else if a[0] == m[0] {
      assert (a + [1])[1..] == a[1..] + [1];
      assert m == [m[0]] + m[1..];
      NextKey(a[1..], m[1..]);
    } else {
      assert (a + [1])[0] == a[0];
    }
  }

  /** The path whose last name is longer by the byte 1. */
  function Longer(segs: seq<Key>): seq<Key> {
    if segs == [] then [[1]]
    else if |segs| == 1 then [segs[0] + [1]]
    else [segs[0]] + Longer(segs[1..])
  }

  lemma {:induction false} LongerJoins(segs: seq<Key>)
    requires Names(segs)
    ensures Longer(segs) != [] && Names(Longer(segs)) && Join(Longer(segs)) == Join(segs) + [1]
    ensures |segs| > 1 ==> Longer(segs)[0] == segs[0]
    ensures |segs| <= 1 ==> |Longer(segs)| == 1
  {
    if |segs| > 1 {
      LongerJoins(segs[1..]);
      assert Longer(segs)[1..] == Longer(segs[1..]);
      assert |Longer(segs)| > 1;
    }
  }

  lemma MarkerOwes(root: Node, m: Key, mpu: Key)
    requires root.Dir? && WellFormed(root) && ValidName(mpu)
    requires |Segs(m)| > 1 ==> Segs(m)[0] != mpu
    ensures var q := WholeBucket(root, mpu);
            Rest(q, MarkerFrames(q, m)) == After(Listing(q), Join(Segs(m)))
  {
    hide Rest, After, Traversal, Reserved, WellFormed, Segs, Chain;
    var q := WholeBucket(root, mpu);
    assert m[0..] == m && HasPrefix(m, []) && SplitPrefix([]).0 == [];
    SegsTrimStart(m);
    NamesOfSegs(m);
    ReservedIffFirstSegment([], mpu);
    if Segs(m) != [] { ChainOk(q, [], Segs(m)); }
    RecursiveResume(q, m);
    assert [] + Join(Segs(m)) == Join(Segs(m));
  }

  lemma NamesOfSegs(m: Key)
    ensures Names(Segs(m))
  {
  }

  /** A marker that is not its own canonical spelling goes wrong in some bucket with a single file. */
  lemma SomeBucketShows(m: Key, mpu: Key) returns (root: Node)
    requires ValidName(mpu) && 0 !in m && (|Segs(m)| > 1 ==> Segs(m)[0] != mpu) && m != Join(Segs(m))
    ensures root.Dir? && WellFormed(root)
    ensures var q := WholeBucket(root, mpu); Rest(q, MarkerFrames(q, m)) != After(Listing(q), m)
  {
    hide Rest, Traversal, Reserved, WellFormed, Segs, Join, Lt, MarkerFrames;
    var canon, segs := Join(Segs(m)), Segs(m);
    NamesOfSegs(m);
    LtTotal(m, canon);
    var path := segs;
    if Lt(m, canon) {
      NothingJoined(m);
      LtIrreflexive(canon);
    } else {
      path := Longer(segs);
      LongerJoins(segs);
      NextKey(canon, m);
      LtProperPrefix(canon, [1]);
    }
    root := OneFile(path);
    OneFileWellFormed(path);
    OneFileListing(path, mpu);
    MarkerOwes(root, m, mpu);
    AfterOne(Obj(Join(path)), m);
    AfterOne(Obj(Join(path)), canon);
  }

  lemma AfterOne(o: Out, m: Key)
    ensures After([o], m) == if Lt(m, o.key) then [o] else []
  {
    assert [o][1..] == [];
  }

  lemma NothingJoined(m: Key)
    ensures Segs(m) == [] ==> !Lt(m, Join(Segs(m)))
  {
  }

  /**
   * Resuming after a key under the bucket root is exact in every bucket if and only if the
   * key has no empty segment and no final '/'.
   */
  lemma MarkerExactIffCanonical(m: Key, mpu: Key)
    requires ValidName(mpu) && 0 !in m && (|Segs(m)| > 1 ==> Segs(m)[0] != mpu)
    ensures (forall root: Node :: root.Dir? && WellFormed(root) ==>
               Rest(WholeBucket(root, mpu), MarkerFrames(WholeBucket(root, mpu), m)) == After(Listing(WholeBucket(root, mpu)), m))
            <==> m == Join(Segs(m))
  {
    hide Rest, After, Traversal, WellFormed, Segs, Join, MarkerFrames, WholeBucket;
    if m == Join(Segs(m)) {
      forall root: Node | root.Dir? && WellFormed(root)
        ensures Rest(WholeBucket(root, mpu), MarkerFrames(WholeBucket(root, mpu), m)) == After(Listing(WholeBucket(root, mpu)), m)
      {
        MarkerOwes(root, m, mpu);
      }
    } else {
      var root := SomeBucketShows(m, mpu);
    }
  }
}
