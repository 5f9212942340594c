/** What a listing contains: strictly increasing keys, and exactly the keys of the bucket. */
module ListExact {
  import opened ListKeys
  import opened ListTree

  predicate KeysAscend(os: seq<Out>) {
    forall i, j :: 0 <= i < j < |os| ==> Lt(os[i].key, os[j].key)
  }

  // ------------------------------------------------------------ order

  /** Every key an entry contributes extends the entry's own key; a file contributes just that. */
  lemma {:induction false} VisitExtends(q: Query, dir: Key, it: Item, k: nat)
    requires k < |Visit(q, dir, it)|
    ensures HasPrefix(Visit(q, dir, it)[k].key, dir + SortKey(it))
    ensures it.node.File? ==> Visit(q, dir, it)[k].key == dir + SortKey(it)
    decreases Size(it.node), 0
  {
    assert dir + it.name + [SLASH] == dir + (it.name + [SLASH]);
    if it.node.Dir? && q.recursive && it.node.items != [] && !(dir == [] && it.name == q.mpu) {
      var es, child := Sort(it.node.items), dir + it.name + [SLASH];
      SortKeeps(it.node.items);
      var j := WalkFrom(q, child, es, k);
      HasPrefixTransitive(Walk(q, child, es)[k].key, child + SortKey(es[j]), child);
    }
  }

  lemma HasPrefixTransitive(k: Key, p: Key, r: Key)
    requires HasPrefix(k, p) && HasPrefix(p, r)
    ensures HasPrefix(k, r)
  {
    assert k[..|r|] == k[..|p|][..|r|];
  }

  /** Each result of a walk comes from one of its entries. */
  lemma {:induction false} WalkFrom(q: Query, dir: Key, es: seq<Item>, k: nat) returns (j: nat)
    requires k < |Walk(q, dir, es)|
    ensures j < |es| && Walk(q, dir, es)[k] in Visit(q, dir, es[j])
    ensures HasPrefix(Walk(q, dir, es)[k].key, dir + SortKey(es[j]))
    ensures es[j].node.File? ==> Walk(q, dir, es)[k].key == dir + SortKey(es[j])
    decreases SumSize(es), 1
  {
    var v := Visit(q, dir, es[0]);
    if k < |v| {
      VisitExtends(q, dir, es[0], k);
      j := 0;
    } else {
      var i := WalkFrom(q, dir, es[1..], k - |v|);
      j := i + 1;
    }
  }

  /** Sort keys never extend one another: a '/' can only be their last byte. */
  lemma SortKeysDiverge(a: Item, b: Item)
    requires ValidName(a.name) && ValidName(b.name) && a.node.Dir? && Lt(SortKey(a), SortKey(b))
    ensures !HasPrefix(SortKey(b), SortKey(a))
  {
    var ka, kb := SortKey(a), SortKey(b);
    assert ka[|ka| - 1] == SLASH && forall i :: 0 <= i < |b.name| ==> kb[i] == b.name[i];
    assert |ka| <= |kb| ==> kb[..|ka|][|ka| - 1] == kb[|ka| - 1];
    assert kb[..|kb|] == kb;
    LtIrreflexive(ka);
  }

  /** Keys of an earlier entry precede keys of a later one. */
  lemma EarlierEntry(dir: Key, a: Item, b: Item, ka: Key, kb: Key)
    requires ValidName(a.name) && ValidName(b.name) && Lt(SortKey(a), SortKey(b))
    requires HasPrefix(ka, dir + SortKey(a)) && HasPrefix(kb, dir + SortKey(b))
    requires a.node.File? ==> ka == dir + SortKey(a)
    ensures Lt(ka, kb)
  {
    var sa, sb := SortKey(a), SortKey(b);
    var x, y := ka[|dir + sa|..], kb[|dir + sb|..];
    assert ka == dir + (sa + x) && kb == dir + (sb + y);
    if a.node.File? {
      assert sa + x == sa;
      LtGrowRight(sa, sb, y);
    } else {
      SortKeysDiverge(a, b);
      LtDiverge(sa, sb, x, y);
    }
    LtUnderPrefix(dir, sa + x, sb + y);
  }

  lemma {:induction false} VisitIncreasing(q: Query, dir: Key, it: Item)
    requires GoodItem(it)
    ensures KeysAscend(Visit(q, dir, it))
    decreases Size(it.node), 0
  {
    if it.node.Dir? && q.recursive && it.node.items != [] && !(dir == [] && it.name == q.mpu) {
      SortSorts(it.node.items);
      WalkIncreasing(q, dir + it.name + [SLASH], Sort(it.node.items));
    }
  }

  /** A walk over sorted entries emits strictly increasing keys. */
  lemma {:induction false} WalkIncreasing(q: Query, dir: Key, es: seq<Item>)
    requires Entries(es)
    ensures KeysAscend(Walk(q, dir, es))
    decreases SumSize(es), 1
  {
    hide WellFormed;
    if es != [] {
      var v, w := Visit(q, dir, es[0]), Walk(q, dir, es[1..]);
      VisitIncreasing(q, dir, es[0]);
      WalkIncreasing(q, dir, es[1..]);
      forall i, j | 0 <= i < |v| && 0 <= j < |w|
        ensures Lt(v[i].key, w[j].key)
      {
        VisitExtends(q, dir, es[0], i);
        var k := WalkFrom(q, dir, es[1..], j);
        EarlierEntry(dir, es[0], es[k + 1], v[i].key, w[j].key);
      }
      ConcatIncreasing(v, w);
    }
  }

  lemma ConcatIncreasing(v: seq<Out>, w: seq<Out>)
    requires KeysAscend(v) && KeysAscend(w)
    requires forall i, j :: 0 <= i < |v| && 0 <= j < |w| ==> Lt(v[i].key, w[j].key)
    ensures KeysAscend(v + w)
  {
    forall i, j | 0 <= i < j < |v + w|
      ensures Lt((v + w)[i].key, (v + w)[j].key)
    {
      if i >= |v| { assert (v + w)[i] == w[i - |v|] && (v + w)[j] == w[j - |v|]; }
    }
  }

  lemma ListingIncreasing(q: Query)
    requires q.Valid()
    ensures KeysAscend(Traversal(q)) && KeysAscend(Listing(q))
  {
    var dir := SplitPrefix(q.prefix).0;
    LoadEntries(q, dir, true);
    WalkIncreasing(q, dir, Load(q, dir, true));
  }

  // ------------------------------------------------------------ exactness

  /** `rel` is the key, relative to the directory, of a file or a leaf-empty directory strictly below it. */
  ghost predicate KeyOf(node: Node, rel: Key)
    decreases node
  {
    node.Dir? && exists i :: 0 <= i < |node.items| && ItemKey(node.items[i], rel)
  }

  /** `rel` names a file, or a directory with nothing in it, at or below the entry. */
  ghost predicate ItemKey(it: Item, rel: Key)
    decreases it
  {
    if it.node.File? then rel == it.name
    else if it.node.items == [] then rel == it.name + [SLASH]
    else HasPrefix(rel, it.name + [SLASH]) && KeyOf(it.node, rel[|it.name| + 1..])
  }

  lemma KeyOfIsItemKey(items: seq<Item>, rel: Key)
    ensures KeyOf(Dir(items), rel) <==> exists i :: 0 <= i < |items| && ItemKey(items[i], rel)
  {
  }

  predicate Hidden(q: Query, dir: Key, it: Item) {
    dir == [] && it.node.Dir? && it.name == q.mpu
  }

  ghost predicate KeyAmong(q: Query, dir: Key, es: seq<Item>, rel: Key) {
    exists i :: 0 <= i < |es| && !Hidden(q, dir, es[i]) && ItemKey(es[i], rel)
  }

  lemma EmitsIff(q: Query, key: Key, k: Key)
    ensures Obj(k) in Emit(q, key) <==> HasPrefix(k, q.prefix) && k == key
  {
  }

  lemma {:induction false} VisitExact(q: Query, dir: Key, it: Item, k: Key)
    requires q.recursive && GoodItem(it)
    ensures Obj(k) in Visit(q, dir, it)
            <==> HasPrefix(k, q.prefix) && HasPrefix(k, dir) && !Hidden(q, dir, it) && ItemKey(it, k[|dir|..])
    decreases Size(it.node), 0
  {
    hide Lt, Segs;
    var child := dir + it.name + [SLASH];
    assert child == dir + (it.name + [SLASH]);
    assert HasPrefix(k, dir) ==> k == dir + k[|dir|..];
    if it.node.File? {
      EmitsIff(q, dir + it.name, k);
    } else if it.node.items == [] {
      EmitsIff(q, child, k);
    } else if !Hidden(q, dir, it) {
      var es := Sort(it.node.items);
      SortSorts(it.node.items);
      WalkExact(q, child, es, k);
      SubtreeSplit(k, dir, it.name);
      KeyAmongSorted(q, child, it.node.items, k[if |child| <= |k| then |child| else 0..]);
    }
  }

  /** Going below a subdirectory: strip the directory, then the name and its slash. */
  lemma SubtreeSplit(k: Key, dir: Key, name: Key)
    ensures HasPrefix(k, dir + name + [SLASH]) <==> HasPrefix(k, dir) && HasPrefix(k[|dir|..], name + [SLASH])
    ensures HasPrefix(k, dir + name + [SLASH]) ==> k[|dir + name + [SLASH]|..] == k[|dir|..][|name| + 1..]
  {
    var child := dir + name + [SLASH];
    assert child == dir + (name + [SLASH]);
    if HasPrefix(k, dir) {
      assert |child| <= |k| ==> k[..|child|] == dir + k[|dir|..][..|name| + 1];
    } else {
      assert |child| <= |k| ==> k[..|dir|] == k[..|child|][..|dir|];
      assert child[..|dir|] == dir;
    }
  }

  /** Below the root nothing is hidden, and sorting does not change which keys there are. */
  lemma KeyAmongSorted(q: Query, dir: Key, items: seq<Item>, rel: Key)
    requires dir != []
    ensures KeyAmong(q, dir, Sort(items), rel) <==> KeyOf(Dir(items), rel)
  {
    var es := Sort(items);
    SortKeeps(items);
    KeyOfIsItemKey(items, rel);
    if KeyAmong(q, dir, es, rel) {
      var k :| 0 <= k < |es| && ItemKey(es[k], rel);
      var i := SortedItemFrom(items, k);
    }
    if i :| 0 <= i < |items| && ItemKey(items[i], rel) {
      assert items[i] in multiset(items);
      assert items[i] in multiset(es);
      var k :| 0 <= k < |es| && es[k] == items[i];
      assert !Hidden(q, dir, es[k]);
    }
  }

  lemma {:induction false} WalkExact(q: Query, dir: Key, es: seq<Item>, k: Key)
    requires q.recursive && Entries(es)
    ensures Obj(k) in Walk(q, dir, es)
            <==> HasPrefix(k, q.prefix) && HasPrefix(k, dir) && KeyAmong(q, dir, es, k[|dir|..])
    decreases SumSize(es), 1
  {
    hide Lt, Segs, WellFormed, ItemKey;
    if es != [] {
      VisitExact(q, dir, es[0], k);
      WalkExact(q, dir, es[1..], k);
      if HasPrefix(k, dir) { KeyAmongCons(q, dir, es, k[|dir|..]); }
    }
  }

  lemma KeyAmongCons(q: Query, dir: Key, es: seq<Item>, rel: Key)
    requires es != []
    ensures KeyAmong(q, dir, es, rel) <==> (!Hidden(q, dir, es[0]) && ItemKey(es[0], rel)) || KeyAmong(q, dir, es[1..], rel)
  {
    hide ItemKey, Hidden;
    if KeyAmong(q, dir, es[1..], rel) {
      var i :| 0 <= i < |es[1..]| && !Hidden(q, dir, es[1..][i]) && ItemKey(es[1..][i], rel);
      assert !Hidden(q, dir, es[i + 1]) && ItemKey(es[i + 1], rel);
    }
    if i :| 1 <= i < |es| && !Hidden(q, dir, es[i]) && ItemKey(es[i], rel) {
      assert es[1..][i - 1] == es[i];
    }
  }

  /** An entry's keys start with its sort key, so its first segment is its name. */
  lemma ItemKeyExtends(it: Item, rel: Key)
    requires ItemKey(it, rel)
    ensures HasPrefix(rel, SortKey(it)) && (it.node.File? ==> rel == SortKey(it))
  {
  }

  /** The leaf filter of the root frame drops no key that matches the request prefix. */
  lemma FilterKeepsMatch(it: Item, rel: Key, leaf: Key)
    requires ValidName(it.name) && ValidName(leaf) && ItemKey(it, rel) && HasPrefix(rel, leaf)
    ensures HasPrefix(SortKey(it), leaf)
  {
    ItemKeyExtends(it, rel);
    var sk := SortKey(it);
    assert forall i :: 0 <= i < |leaf| ==> leaf[i] == rel[..|leaf|][i] == rel[i];
    assert forall i :: 0 <= i < |sk| ==> sk[i] == rel[..|sk|][i] == rel[i];
    assert it.node.Dir? ==> sk[|it.name|] == SLASH;
  }

  lemma {:induction false} MatchingHas(es: seq<Item>, leaf: Key, i: nat) returns (k: nat)
    requires i < |es| && HasPrefix(SortKey(es[i]), leaf)
    ensures k < |Matching(es, leaf)| && Matching(es, leaf)[k] == es[i]
  {
    if i == 0 {
      k := 0;
    } else {
      var j := MatchingHas(es[1..], leaf, i - 1);
      k := j + if HasPrefix(SortKey(es[0]), leaf) then 1 else 0;
    }
  }

  /** Among keys that match the prefix, the filtered and the unfiltered root directory have the same ones. */
  lemma LeafFilterHarmless(q: Query, k: Key)
    requires q.Valid() && HasPrefix(k, q.prefix) && HasPrefix(k, SplitPrefix(q.prefix).0)
    ensures var dir := SplitPrefix(q.prefix).0;
            KeyAmong(q, dir, Load(q, dir, true), k[|dir|..]) <==> KeyAmong(q, dir, LoadAll(q, dir), k[|dir|..])
  {
    hide LoadAll, Segs, WellFormed, KeyOf, Hidden;
    var (dir, leaf) := SplitPrefix(q.prefix);
    var rel, all := k[|dir|..], LoadAll(q, dir);
    LoadAllEntries(q, dir);
    if leaf.Some? {
      var es := Matching(all, leaf.value);
      if j :| 0 <= j < |es| && !Hidden(q, dir, es[j]) && ItemKey(es[j], rel) {
        var i := MatchingFrom(all, leaf.value, j);
      }
      if i :| 0 <= i < |all| && !Hidden(q, dir, all[i]) && ItemKey(all[i], rel) {
        PrefixOfRel(q.prefix, k, all[i]);
        FilterKeepsMatch(all[i], rel, leaf.value);
        var j := MatchingHas(all, leaf.value, i);
        assert es[j] == all[i];
      }
    }
  }

  /** The relative key starts with the leaf filter, also when the split lost a leading slash. */
  lemma PrefixOfRel(prefix: Key, k: Key, it: Item)
    requires HasPrefix(k, prefix) && HasPrefix(k, SplitPrefix(prefix).0) && SplitPrefix(prefix).1.Some?
    requires ValidName(it.name) && ItemKey(it, k[|SplitPrefix(prefix).0|..])
    ensures HasPrefix(k[|SplitPrefix(prefix).0|..], SplitPrefix(prefix).1.value)
  {
    var (dir, leaf) := SplitPrefix(prefix);
    var n, rel := LastSlash(prefix), k[|dir|..];
    assert k[..|prefix|][0] == k[0] == prefix[0];
    ItemKeyExtends(it, rel);
    assert rel[0] == SortKey(it)[0] == it.name[0];
    assert rel[..|leaf.value|] == k[..|prefix|][n..];
  }

  /** Hiding the multipart directory removes exactly the keys under its name. */
  lemma HiddenIffUnderMpu(q: Query, dir: Key, es: seq<Item>, rel: Key)
    requires q.Valid() && Entries(es)
    ensures KeyAmong(q, dir, es, rel)
            <==> (exists i :: 0 <= i < |es| && ItemKey(es[i], rel)) && !(dir == [] && HasPrefix(rel, q.mpu + [SLASH]))
  {
    hide WellFormed, KeyOf;
    forall i | 0 <= i < |es| && ItemKey(es[i], rel)
      ensures Hidden(q, dir, es[i]) <==> dir == [] && HasPrefix(rel, q.mpu + [SLASH])
    {
      ItemKeyExtends(es[i], rel);
      FirstSegment(rel, q.mpu);
      if es[i].node.Dir? {
        FirstSegment(rel, es[i].name);
      } else {
        assert FirstSlash(rel) == |rel|;
      }
    }
  }

  /** The directory `dir` of the bucket exists and has the key `rel` strictly below it. */
  ghost predicate Below(q: Query, dir: Key, rel: Key) {
    var d := Descend(q.root, Segs(dir));
    d.Some? && KeyOf(d.value, rel)
  }

  lemma BelowIsAmong(q: Query, dir: Key, rel: Key)
    requires q.Valid()
    ensures Below(q, dir, rel) <==> exists i :: 0 <= i < |LoadAll(q, dir)| && ItemKey(LoadAll(q, dir)[i], rel)
  {
    hide Segs, WellFormed, Lt;
    match Descend(q.root, Segs(dir)) {
      case Some(Dir(items)) =>
        var es := Sort(items);
        KeyAmongSorted(q, [SLASH], items, rel);
        assert LoadAll(q, dir) == es;
        assert forall i :: 0 <= i < |es| ==> !Hidden(q, [SLASH], es[i]);
        assert KeyAmong(q, [SLASH], es, rel) <==> exists i :: 0 <= i < |es| && ItemKey(es[i], rel);
      case _ =>
    }
  }

  /** The loop emits exactly the keys strictly below the prefix directory that match, minus those of the multipart directory. */
  lemma TraversalExact(q: Query, k: Key)
    requires q.Valid() && q.recursive
    ensures var dir := SplitPrefix(q.prefix).0;
            Obj(k) in Traversal(q)
            <==> && HasPrefix(k, q.prefix) && HasPrefix(k, dir) && Below(q, dir, k[|dir|..])
                 && !(dir == [] && HasPrefix(k, q.mpu + [SLASH]))
  {
    hide Walk, KeyAmong, Below, Load, LoadAll;
    var dir := SplitPrefix(q.prefix).0;
    LoadEntries(q, dir, true);
    LoadAllEntries(q, dir);
    WalkExact(q, dir, Load(q, dir, true), k);
    if HasPrefix(k, q.prefix) && HasPrefix(k, dir) {
      LeafFilterHarmless(q, k);
      HiddenIffUnderMpu(q, dir, LoadAll(q, dir), k[|dir|..]);
      BelowIsAmong(q, dir, k[|dir|..]);
    }
  }

  /**
   * A recursive listing contains exactly the keys strictly below the prefix directory
   * that start with the prefix, minus those under the multipart directory; it is empty
   * for every prefix whose first segment is that directory.
   */
  lemma ListingExact(q: Query, k: Key)
    requires q.Valid() && q.recursive
    ensures var dir := SplitPrefix(q.prefix).0;
            Obj(k) in Listing(q)
            <==> && !HiddenPrefix(q)
                 && HasPrefix(k, q.prefix) && HasPrefix(k, dir) && Below(q, dir, k[|dir|..])
                 && !(dir == [] && HasPrefix(k, q.mpu + [SLASH]))
  {
    hide Traversal, Below, SplitPrefix;
    TraversalExact(q, k);
  }

  /** A directory path spelled out: every segment followed by '/'. */
  function Path(segs: seq<Key>): Key {
    if segs == [] then [] else segs[0] + [SLASH] + Path(segs[1..])
  }

  /** Keys below a directory are the bucket keys that start with its path. */
  lemma {:induction false} DescendKey(node: Node, segs: seq<Key>, rel: Key)
    requires WellFormed(node) && rel != [] && forall i :: 0 <= i < |segs| ==> ValidName(segs[i])
    ensures KeyOf(node, Path(segs) + rel) <==> Descend(node, segs).Some? && KeyOf(Descend(node, segs).value, rel)
    decreases segs
  {
    if segs == [] {
      assert Path(segs) + rel == rel;
    } else if node.Dir? {
      var tail := Path(segs[1..]) + rel;
      assert Path(segs) + rel == segs[0] + [SLASH] + tail;
      KeyBelowName(node.items, segs[0], tail);
      ChildWellFormed(node.items, segs[0]);
      if Child(node.items, segs[0]).Some? {
        DescendKey(Child(node.items, segs[0]).value, segs[1..], rel);
      }
    }
  }

  lemma KeyBelowName(items: seq<Item>, name: Key, tail: Key)
    requires WellFormed(Dir(items)) && ValidName(name) && tail != []
    ensures KeyOf(Dir(items), name + [SLASH] + tail)
            <==> Child(items, name).Some? && KeyOf(Child(items, name).value, tail)
  {
    var rel := name + [SLASH] + tail;
    assert rel[..|name| + 1] == name + [SLASH] && rel[|name| + 1..] == tail;
    KeyOfIsItemKey(items, rel);
    if i :| 0 <= i < |items| && ItemKey(items[i], rel) {
      ItemKeyExtends(items[i], rel);
      FirstSegment(rel, name);
      FirstSegment(rel, items[i].name);
      ChildIs(items, i);
    }
    if Child(items, name).Some? && KeyOf(Child(items, name).value, tail) {
      var i := ChildFrom(items, name);
      assert ItemKey(items[i], rel);
    }
  }

  /**
   * For a prefix whose directory part has no empty segments: the listing is exactly
   * the keys of the bucket that start with the prefix, other than the prefix directory
   * itself and the keys under the multipart directory, unless the prefix is hidden.
   */
  lemma ListingIsBucketKeys(q: Query, k: Key)
    requires q.Valid() && q.recursive
    requires var dir := SplitPrefix(q.prefix).0; dir == Path(Segs(dir))
    ensures Obj(k) in Listing(q)
            <==> && !HiddenPrefix(q)
                 && HasPrefix(k, q.prefix) && HasPrefix(k, SplitPrefix(q.prefix).0) && k != SplitPrefix(q.prefix).0
                 && KeyOf(q.root, k) && !HasPrefix(k, q.mpu + [SLASH])
  {
    hide Listing, KeyOf, WellFormed, HiddenPrefix;
    ListingExact(q, k);
    if !HiddenPrefix(q) {
      VisibleDirectory(q);
      BelowIsBucketKey(q, k);
    }
  }

  lemma BelowIsBucketKey(q: Query, k: Key)
    requires q.Valid()
    requires var dir := SplitPrefix(q.prefix).0; dir == Path(Segs(dir)) && !Reserved(dir, q.mpu)
    ensures var dir := SplitPrefix(q.prefix).0;
            HasPrefix(k, dir) && Below(q, dir, k[|dir|..]) && !(dir == [] && HasPrefix(k, q.mpu + [SLASH]))
            <==> HasPrefix(k, dir) && k != dir && KeyOf(q.root, k) && !HasPrefix(k, q.mpu + [SLASH])
  {
    hide KeyOf, WellFormed;
    var dir := SplitPrefix(q.prefix).0;
    ReservedIffFirstSegment(dir, q.mpu);
    if HasPrefix(k, dir) {
      var rel := k[|dir|..];
      assert k == dir + rel;
      NothingBelowEmpty(q, dir);
      if rel != [] { DescendKey(q.root, Segs(dir), rel); }
      if dir != [] {
        FirstSegment(dir, q.mpu);
        FirstSegment(k, q.mpu);
        FirstSlashAppend(dir, rel);
        assert k[..FirstSlash(dir)] == dir[..FirstSlash(dir)];
      }
    }
  }

  lemma NothingBelowEmpty(q: Query, dir: Key)
    requires q.Valid()
    ensures !Below(q, dir, [])
  {
    DescendWellFormed(q.root, Segs(dir));
    var d := Descend(q.root, Segs(dir));
    if d.Some? && d.value.Dir? { KeyOfIsItemKey(d.value.items, []); }
  }
}
