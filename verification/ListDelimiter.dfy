/** What a listing with the delimiter "/" contains: common prefixes and files, each against the tree and against the keys. */
module ListDelimiter {
  import opened ListKeys
  import opened ListTree
  import opened ListExact

  /** The directory `dir` of the bucket has an entry of this name: a subdirectory, or a file. */
  predicate HasEntry(q: Query, dir: Key, name: Key, isDir: bool) {
    var d := Descend(q.root, Segs(dir));
    d.Some? && d.value.Dir? && exists i :: 0 <= i < |d.value.items| && NamedEntry(d.value.items[i], name, isDir)
  }

  predicate NamedEntry(it: Item, name: Key, isDir: bool) {
    it.name == name && it.node.Dir? == isDir
  }

  /** The name starts with what the prefix says after its last slash. */
  predicate LeafMatches(q: Query, name: Key) {
    var leaf := SplitPrefix(q.prefix).1;
    leaf.Some? ==> HasPrefix(name, leaf.value)
  }

  /** `k` is a subdirectory of the prefix directory that matches and is not the multipart directory. */
  ghost predicate CommonPrefix(q: Query, k: Key) {
    var dir := SplitPrefix(q.prefix).0;
    exists name :: HasEntry(q, dir, name, true) && k == dir + name + [SLASH] && LeafMatches(q, name) && !(dir == [] && name == q.mpu)
  }

  /** `k` is a file directly in the prefix directory that starts with the prefix. */
  ghost predicate FileHere(q: Query, k: Key) {
    var dir := SplitPrefix(q.prefix).0;
    HasPrefix(k, q.prefix) && exists name :: HasEntry(q, dir, name, false) && k == dir + name
  }

  // ------------------------------------------------------------ what the walk emits

  predicate VisitHas(q: Query, dir: Key, it: Item, o: Out) {
    o in Visit(q, dir, it)
  }

  lemma {:induction false} WalkHas(q: Query, dir: Key, es: seq<Item>, o: Out)
    ensures o in Walk(q, dir, es) <==> exists i :: 0 <= i < |es| && VisitHas(q, dir, es[i], o)
    decreases |es|
  {
    hide Visit;
    if es != [] {
      WalkHas(q, dir, es[1..], o);
      if i :| 0 <= i < |es[1..]| && VisitHas(q, dir, es[1..][i], o) { assert VisitHas(q, dir, es[i + 1], o); }
      if i :| 1 <= i < |es| && VisitHas(q, dir, es[i], o) { assert VisitHas(q, dir, es[1..][i - 1], o); }
    }
  }

  /** What one entry contributes in delimiter mode. */
  lemma FlatVisitIff(q: Query, dir: Key, it: Item, k: Key)
    requires !q.recursive
    ensures VisitHas(q, dir, it, Common(k)) <==> it.node.Dir? && !(dir == [] && it.name == q.mpu) && k == dir + it.name + [SLASH]
    ensures VisitHas(q, dir, it, Obj(k)) <==> it.node.File? && k == dir + it.name && HasPrefix(k, q.prefix)
  {
  }

  /** A name without slashes starts the name with a slash exactly if it starts the name. */
  lemma LeafOfDir(name: Key, leaf: Key)
    requires ValidName(leaf)
    ensures HasPrefix(name + [SLASH], leaf) <==> HasPrefix(name, leaf)
  {
    var k := name + [SLASH];
    assert |leaf| <= |name| ==> k[..|leaf|] == name[..|leaf|];
    assert k[|name|] == SLASH && (|leaf| == |k| && k[..|leaf|] == leaf ==> SLASH in leaf) by {
      assert k[..|k|] == k;
    }
  }

  predicate Passes(q: Query, it: Item) {
    var leaf := SplitPrefix(q.prefix).1;
    leaf.Some? ==> HasPrefix(SortKey(it), leaf.value)
  }

  /** The root frame holds exactly the entries of the directory that pass the leaf filter. */
  lemma LoadIff(q: Query, it: Item)
    requires q.Valid()
    ensures var dir := SplitPrefix(q.prefix).0;
            var d := Descend(q.root, Segs(dir));
            it in Load(q, dir, true) <==> Passes(q, it) && d.Some? && d.value.Dir? && it in d.value.items
  {
    hide Descend, Segs, SplitPrefix, WellFormed, SortKey;
    var (dir, leaf) := SplitPrefix(q.prefix);
    var d, all := Descend(q.root, Segs(dir)), LoadAll(q, dir);
    if d.Some? && d.value.Dir? {
      SortKeeps(d.value.items);
      assert it in all <==> it in multiset(all);
      assert it in d.value.items <==> it in multiset(d.value.items);
    }
    if leaf.Some? {
      var es := Matching(all, leaf.value);
      if it in es {
        var j :| 0 <= j < |es| && es[j] == it;
        var i := MatchingFrom(all, leaf.value, j);
      }
      if it in all && Passes(q, it) {
        var i :| 0 <= i < |all| && all[i] == it;
        var j := MatchingHas(all, leaf.value, i);
      }
    }
  }

  lemma CommonTraversed(q: Query, k: Key)
    requires q.Valid() && !q.recursive
    ensures Common(k) in Traversal(q) <==> CommonPrefix(q, k)
  {
    hide Walk, Load, Descend, Segs, SplitPrefix, WellFormed;
    var dir := SplitPrefix(q.prefix).0;
    var es, d := Load(q, dir, true), Descend(q.root, Segs(dir));
    WalkHas(q, dir, es, Common(k));
    if i :| 0 <= i < |es| && VisitHas(q, dir, es[i], Common(k)) {
      FlatVisitIff(q, dir, es[i], k);
      LoadIff(q, es[i]);
      PassesDir(q, es[i]);
      EntryListed(q, dir, es[i]);
    }
    if name :| HasEntry(q, dir, name, true) && k == dir + name + [SLASH] && LeafMatches(q, name) && !(dir == [] && name == q.mpu) {
      var it := ListedEntry(q, dir, name, true);
      PassesDir(q, it);
      LoadIff(q, it);
      FlatVisitIff(q, dir, it, k);
      var i :| 0 <= i < |es| && es[i] == it;
    }
  }

  lemma PassesDir(q: Query, it: Item)
    requires it.node.Dir?
    ensures Passes(q, it) <==> LeafMatches(q, it.name)
  {
    hide SplitPrefix;
    var leaf := SplitPrefix(q.prefix).1;
    if leaf.Some? { LeafOfDir(it.name, leaf.value); }
  }

  lemma EntryListed(q: Query, dir: Key, it: Item)
    requires var d := Descend(q.root, Segs(dir)); d.Some? && d.value.Dir? && it in d.value.items
    ensures HasEntry(q, dir, it.name, it.node.Dir?)
  {
    hide Descend, Segs;
    var items := Descend(q.root, Segs(dir)).value.items;
    var i :| 0 <= i < |items| && items[i] == it;
    assert NamedEntry(items[i], it.name, it.node.Dir?);
  }

  lemma ListedEntry(q: Query, dir: Key, name: Key, isDir: bool) returns (it: Item)
    requires HasEntry(q, dir, name, isDir)
    ensures var d := Descend(q.root, Segs(dir)); d.Some? && d.value.Dir? && it in d.value.items && NamedEntry(it, name, isDir)
  {
    hide Descend, Segs;
    var items := Descend(q.root, Segs(dir)).value.items;
    var i :| 0 <= i < |items| && NamedEntry(items[i], name, isDir);
    it := items[i];
  }

  lemma FilesTraversed(q: Query, k: Key)
    requires q.Valid() && !q.recursive
    ensures Obj(k) in Traversal(q) <==> FileHere(q, k)
  {
    hide Walk, Load, Descend, Segs, SplitPrefix, WellFormed;
    var dir := SplitPrefix(q.prefix).0;
    var es := Load(q, dir, true);
    WalkHas(q, dir, es, Obj(k));
    if i :| 0 <= i < |es| && VisitHas(q, dir, es[i], Obj(k)) {
      FlatVisitIff(q, dir, es[i], k);
      LoadIff(q, es[i]);
      EntryListed(q, dir, es[i]);
    }
    if name :| HasPrefix(k, q.prefix) && HasEntry(q, dir, name, false) && k == dir + name {
      var it := ListedEntry(q, dir, name, false);
      FilePasses(q, it, k);
      LoadIff(q, it);
      FlatVisitIff(q, dir, it, k);
      var i :| 0 <= i < |es| && es[i] == it;
    }
  }

  /** A file that starts with the prefix passes the leaf filter. */
  lemma FilePasses(q: Query, it: Item, k: Key)
    requires q.Valid() && it.node.File? && HasPrefix(k, q.prefix) && k == SplitPrefix(q.prefix).0 + it.name
    requires var d := Descend(q.root, Segs(SplitPrefix(q.prefix).0)); d.Some? && d.value.Dir? && it in d.value.items
    ensures Passes(q, it)
  {
    var (dir, leaf) := SplitPrefix(q.prefix);
    DescendWellFormed(q.root, Segs(dir));
    hide Descend, Segs;
    assert ValidName(it.name);
    if leaf.Some? {
      assert k[..|dir|] == dir && k[|dir|..] == it.name;
      PrefixOfRel(q.prefix, k, it);
    }
  }

  /**
   * A listing with the delimiter holds exactly the matching subdirectories of the prefix
   * directory as common prefixes and the matching files directly in it as objects; it is
   * empty for a hidden prefix.
   */
  lemma DelimiterExact(q: Query, k: Key)
    requires q.Valid() && !q.recursive
    ensures Common(k) in Listing(q) <==> !HiddenPrefix(q) && CommonPrefix(q, k)
    ensures Obj(k) in Listing(q) <==> !HiddenPrefix(q) && FileHere(q, k)
  {
    hide Traversal, CommonPrefix, FileHere, HiddenPrefix;
    CommonTraversed(q, k);
    FilesTraversed(q, k);
  }

  // ------------------------------------------------------------ against the keys of the bucket

  /** Everything of `k` up to the first slash after the prefix directory. */
  predicate RollsUp(k: Key, dir: Key, c: Key) {
    && HasPrefix(k, dir) && FirstSlash(k[|dir|..]) < |k| - |dir|
    && c == k[..|dir| + FirstSlash(k[|dir|..]) + 1]
  }

  /** Every entry has a key at or below it. */
  lemma {:induction false} SomeKey(it: Item) returns (rel: Key)
    requires GoodItem(it)
    ensures ItemKey(it, rel)
    decreases it
  {
    if it.node.File? {
      rel := it.name;
    } else if it.node.items == [] {
      rel := it.name + [SLASH];
    } else {
      var below := SomeKey(it.node.items[0]);
      rel := it.name + [SLASH] + below;
      assert rel[..|it.name| + 1] == it.name + [SLASH] && rel[|it.name| + 1..] == below;
      assert KeyOf(it.node, below);
    }
  }

  /** A key of an entry rolls up to the entry if that is a directory, and has no slash if it is a file. */
  lemma KeyRollsUp(dir: Key, it: Item, rel: Key)
    requires GoodItem(it) && ItemKey(it, rel)
    ensures it.node.Dir? ==> RollsUp(dir + rel, dir, dir + it.name + [SLASH])
    ensures FirstSlash(rel) < |rel| <==> it.node.Dir?
    ensures it.node.File? ==> rel == it.name
  {
    hide KeyOf;
    var k := dir + rel;
    ItemKeyExtends(it, rel);
    assert k[..|dir|] == dir && k[|dir|..] == rel;
    if it.node.Dir? {
      FirstSegment(rel, it.name);
      assert k[..|dir| + |it.name| + 1] == dir + rel[..|it.name| + 1];
    } else {
      assert FirstSlash(rel) == |rel|;
    }
  }

  /** The prefix is its directory and its leaf. */
  predicate Spelled(q: Query) {
    var (dir, leaf) := SplitPrefix(q.prefix);
    q.prefix == dir + if leaf.Some? then leaf.value else []
  }

  lemma PrefixIff(q: Query, rel: Key)
    requires Spelled(q)
    ensures HasPrefix(SplitPrefix(q.prefix).0 + rel, q.prefix) <==> LeafMatches(q, rel)
  {
    hide SplitPrefix;
    var (dir, leaf) := SplitPrefix(q.prefix);
    var tail, k := if leaf.Some? then leaf.value else [], dir + rel;
    if |tail| <= |rel| {
      assert k[..|dir| + |tail|] == dir + rel[..|tail|];
      assert dir + rel[..|tail|] == dir + tail ==> rel[..|tail|] == (dir + rel[..|tail|])[|dir|..] == (dir + tail)[|dir|..] == tail;
    }
  }

  /** Keys of an entry start with the leaf exactly if the entry does. */
  lemma LeafOfEntry(q: Query, it: Item, rel: Key)
    requires GoodItem(it) && ItemKey(it, rel)
    ensures LeafMatches(q, rel) <==> LeafMatches(q, it.name)
  {
    hide SplitPrefix, KeyOf, WellFormed;
    var leaf := SplitPrefix(q.prefix).1;
    ItemKeyExtends(it, rel);
    if leaf.Some? {
      if HasPrefix(rel, leaf.value) { FilterKeepsMatch(it, rel, leaf.value); }
      LeafOfDir(it.name, leaf.value);
      if HasPrefix(SortKey(it), leaf.value) { HasPrefixTransitive(rel, SortKey(it), leaf.value); }
    }
  }

  /** A key below the prefix directory belongs to one of its entries. */
  lemma EntryOfKey(q: Query, dir: Key, rel: Key) returns (it: Item)
    requires q.Valid() && Below(q, dir, rel)
    ensures var d := Descend(q.root, Segs(dir)); d.Some? && d.value.Dir? && it in d.value.items
    ensures GoodItem(it) && ItemKey(it, rel)
  {
    DescendWellFormed(q.root, Segs(dir));
    hide Descend, Segs;
    var d := Descend(q.root, Segs(dir)).value;
    var i :| 0 <= i < |d.items| && ItemKey(d.items[i], rel);
    it := d.items[i];
  }

  lemma KeyOfEntry(q: Query, dir: Key, it: Item, rel: Key)
    requires q.Valid() && ItemKey(it, rel)
    requires var d := Descend(q.root, Segs(dir)); d.Some? && d.value.Dir? && it in d.value.items
    ensures Below(q, dir, rel) && GoodItem(it)
  {
    DescendWellFormed(q.root, Segs(dir));
    hide Descend, Segs;
    var d := Descend(q.root, Segs(dir)).value;
    var i :| 0 <= i < |d.items| && d.items[i] == it;
    assert ItemKey(d.items[i], rel);
  }

  lemma UnderMpu(q: Query, it: Item, rel: Key)
    requires q.Valid() && GoodItem(it) && ItemKey(it, rel) && it.node.Dir?
    ensures HasPrefix(rel, q.mpu + [SLASH]) <==> it.name == q.mpu
  {
    hide KeyOf, WellFormed;
    ItemKeyExtends(it, rel);
    FirstSegment(rel, it.name);
    FirstSegment(rel, q.mpu);
  }

  /** A recursive listing, and its keys by entry. */
  lemma ListedKey(q: Query, k: Key) returns (it: Item)
    requires q.Valid() && q.recursive && Obj(k) in Listing(q)
    ensures var dir := SplitPrefix(q.prefix).0;
            var d := Descend(q.root, Segs(dir));
            && !HiddenPrefix(q) && HasPrefix(k, q.prefix) && HasPrefix(k, dir) && GoodItem(it) && ItemKey(it, k[|dir|..])
            && d.Some? && d.value.Dir? && it in d.value.items && (it.node.Dir? ==> !(dir == [] && it.name == q.mpu))
  {
    hide Listing, SplitPrefix, Below, HiddenPrefix, KeyOf, ItemKey, WellFormed, Descend, Segs;
    var dir := SplitPrefix(q.prefix).0;
    ListingExact(q, k);
    it := EntryOfKey(q, dir, k[|dir|..]);
    if it.node.Dir? && dir == [] {
      assert k[0..] == k;
      UnderMpu(q, it, k);
    }
  }

  lemma KeyListed(q: Query, it: Item, rel: Key)
    requires q.Valid() && q.recursive && !HiddenPrefix(q) && Spelled(q) && ItemKey(it, rel)
    requires var d := Descend(q.root, Segs(SplitPrefix(q.prefix).0)); d.Some? && d.value.Dir? && it in d.value.items
    requires LeafMatches(q, it.name) && !(SplitPrefix(q.prefix).0 == [] && it.node.Dir? && it.name == q.mpu)
    ensures Obj(SplitPrefix(q.prefix).0 + rel) in Listing(q)
  {
    hide Listing, SplitPrefix, Below, HiddenPrefix, KeyOf, ItemKey, WellFormed, Descend, Segs, Spelled, LeafMatches;
    var dir := SplitPrefix(q.prefix).0;
    var k := dir + rel;
    assert k[..|dir|] == dir && k[|dir|..] == rel;
    KeyOfEntry(q, dir, it, rel);
    LeafOfEntry(q, it, rel);
    PrefixIff(q, rel);
    ListingExact(q, k);
    if dir == [] {
      assert k == rel;
      if it.node.Dir? { UnderMpu(q, it, rel); } else { FileNotUnder(it, rel, q.mpu); }
    }
  }

  lemma FileNotUnder(it: Item, rel: Key, mpu: Key)
    requires GoodItem(it) && it.node.File? && ItemKey(it, rel) && ValidName(mpu)
    ensures !HasPrefix(rel, mpu + [SLASH])
  {
    FirstSegment(rel, mpu);
    assert FirstSlash(rel) == |rel|;
  }

  /**
   * The delimiter rolls the keys of the recursive listing up: the common prefixes are what
   * keys with a slash after the prefix directory have in front of it, and the objects are the
   * keys without one.  This holds for every prefix but those of one slash and one name, which
   * lose their slash.
   */
  lemma DelimiterRollsUp(q: Query, c: Key)
    requires q.Valid() && !q.recursive && Spelled(q)
    ensures var dir, all := SplitPrefix(q.prefix).0, Listing(q.(recursive := true));
            && (Common(c) in Listing(q) <==> exists k :: Obj(k) in all && RollsUp(k, dir, c))
            && (Obj(c) in Listing(q) <==> Obj(c) in all && HasPrefix(c, dir) && FirstSlash(c[|dir|..]) == |c| - |dir|)
  {
    hide Listing, SplitPrefix, HiddenPrefix, KeyOf, ItemKey, WellFormed, Descend, Segs, RollsUp, LeafMatches, HasEntry, Spelled;
    var r, dir := q.(recursive := true), SplitPrefix(q.prefix).0;
    DelimiterExact(q, c);
    assert HiddenPrefix(r) == HiddenPrefix(q) && Spelled(r) == Spelled(q) by { SameButMode(q, r); }
    if Common(c) in Listing(q) { CommonHasKey(q, r, c); }
    if k :| Obj(k) in Listing(r) && RollsUp(k, dir, c) { KeyHasCommon(q, r, k, c); }
    if Obj(c) in Listing(q) { FileHasKey(q, r, c); }
    if Obj(c) in Listing(r) && HasPrefix(c, dir) && FirstSlash(c[|dir|..]) == |c| - |dir| { KeyHasFile(q, r, c); }
  }

  lemma SameButMode(q: Query, r: Query)
    requires r == q.(recursive := true)
    ensures HiddenPrefix(r) == HiddenPrefix(q) && Spelled(r) == Spelled(q)
    ensures forall name :: LeafMatches(r, name) == LeafMatches(q, name)
  {
    hide SplitPrefix, Reserved;
  }

  lemma CommonHasKey(q: Query, r: Query, c: Key)
    requires q.Valid() && !q.recursive && r == q.(recursive := true) && Spelled(q) && !HiddenPrefix(q) && CommonPrefix(q, c)
    ensures exists k :: Obj(k) in Listing(r) && RollsUp(k, SplitPrefix(q.prefix).0, c)
  {
    hide Listing, SplitPrefix, HiddenPrefix, KeyOf, ItemKey, WellFormed, Descend, Segs, RollsUp, LeafMatches, HasEntry, Spelled;
    var dir := SplitPrefix(q.prefix).0;
    SameButMode(q, r);
    var name :| HasEntry(q, dir, name, true) && c == dir + name + [SLASH] && LeafMatches(q, name) && !(dir == [] && name == q.mpu);
    var it := ListedEntry(q, dir, name, true);
    EntryGood(q, dir, it);
    var rel := SomeKey(it);
    KeyListed(r, it, rel);
    KeyRollsUp(dir, it, rel);
  }

  lemma EntryGood(q: Query, dir: Key, it: Item)
    requires q.Valid() && var d := Descend(q.root, Segs(dir)); d.Some? && d.value.Dir? && it in d.value.items
    ensures GoodItem(it)
  {
    DescendWellFormed(q.root, Segs(dir));
  }

  lemma KeyHasCommon(q: Query, r: Query, k: Key, c: Key)
    requires q.Valid() && !q.recursive && r == q.(recursive := true) && Spelled(q)
    requires Obj(k) in Listing(r) && RollsUp(k, SplitPrefix(q.prefix).0, c)
    ensures !HiddenPrefix(q) && CommonPrefix(q, c)
  {
    hide Listing, SplitPrefix, HiddenPrefix, KeyOf, ItemKey, WellFormed, Descend, Segs, LeafMatches, HasEntry, Spelled;
    var dir := SplitPrefix(q.prefix).0;
    SameButMode(q, r);
    var it := ListedKey(r, k);
    var rel := k[|dir|..];
    assert k == dir + rel;
    KeyRollsUp(dir, it, rel);
    EntryListed(q, dir, it);
    LeafOfEntry(q, it, rel);
    PrefixIff(q, rel);
  }

  lemma FileHasKey(q: Query, r: Query, c: Key)
    requires q.Valid() && !q.recursive && r == q.(recursive := true) && Spelled(q) && !HiddenPrefix(q) && FileHere(q, c)
    ensures Obj(c) in Listing(r)
    ensures var dir := SplitPrefix(q.prefix).0; HasPrefix(c, dir) && FirstSlash(c[|dir|..]) == |c| - |dir|
  {
    hide Listing, SplitPrefix, HiddenPrefix, KeyOf, WellFormed, Descend, Segs, LeafMatches, HasEntry, Spelled;
    var dir := SplitPrefix(q.prefix).0;
    SameButMode(q, r);
    var name :| HasEntry(q, dir, name, false) && c == dir + name;
    var it := ListedEntry(q, dir, name, false);
    assert ItemKey(it, name);
    EntryGood(q, dir, it);
    assert c[..|dir|] == dir && c[|dir|..] == name;
    PrefixIff(q, name);
    KeyListed(r, it, name);
    KeyRollsUp(dir, it, name);
  }

  lemma KeyHasFile(q: Query, r: Query, c: Key)
    requires q.Valid() && !q.recursive && r == q.(recursive := true) && Obj(c) in Listing(r)
    requires var dir := SplitPrefix(q.prefix).0; HasPrefix(c, dir) && FirstSlash(c[|dir|..]) == |c| - |dir|
    ensures !HiddenPrefix(q) && FileHere(q, c)
  {
    hide Listing, SplitPrefix, HiddenPrefix, KeyOf, ItemKey, WellFormed, Descend, Segs, LeafMatches, HasEntry, Spelled;
    var dir := SplitPrefix(q.prefix).0;
    SameButMode(q, r);
    var it := ListedKey(r, c);
    var rel := c[|dir|..];
    assert c == dir + rel;
    KeyRollsUp(dir, it, rel);
    EntryListed(q, dir, it);
  }
}
