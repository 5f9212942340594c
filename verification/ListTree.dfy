/** A bucket as a finite tree, its directories as sorted entry lists, and the listing they denote. */
module ListTree {
  import opened Posix
  import opened ListKeys

  datatype Node = File | Dir(items: seq<Item>)

  datatype Item = Item(name: Key, node: Node)

  /** Names are valid and unique in every directory; `items` is in readdir order, that is, any order. */
  predicate WellFormed(node: Node) {
    node.Dir? ==>
      && (forall i :: 0 <= i < |node.items| ==> ValidName(node.items[i].name) && WellFormed(node.items[i].node))
      && (forall i, j :: 0 <= i < j < |node.items| ==> node.items[i].name != node.items[j].name)
  }

  /** Directories sort as "name/". */
  function SortKey(it: Item): Key {
    if it.node.Dir? then it.name + [SLASH] else it.name
  }

  function Size(node: Node): (n: nat)
    ensures n >= 1
  {
    match node case File => 1 case Dir(items) => 1 + SumSize(items)
  }

  function SumSize(es: seq<Item>): nat {
    if es == [] then 0 else Size(es[0].node) + SumSize(es[1..])
  }

  // ------------------------------------------------------------ sorting

  function Insert(es: seq<Item>, it: Item): seq<Item> {
    if es == [] || Lt(SortKey(it), SortKey(es[0])) then [it] + es else [es[0]] + Insert(es[1..], it)
  }

  function Sort(items: seq<Item>): seq<Item> {
    if items == [] then [] else Insert(Sort(items[1..]), items[0])
  }

  predicate StrictlySorted(es: seq<Item>) {
    forall i, j :: 0 <= i < j < |es| ==> Lt(SortKey(es[i]), SortKey(es[j]))
  }

  predicate GoodItem(it: Item) {
    ValidName(it.name) && WellFormed(it.node)
  }

  /** What `read_dir_sorted` returns, and what a leaf filter leaves of it. */
  predicate Entries(es: seq<Item>) {
    StrictlySorted(es) && forall i :: 0 <= i < |es| ==> GoodItem(es[i])
  }

  lemma SortKeyInjective(a: Item, b: Item)
    requires ValidName(a.name) && ValidName(b.name) && SortKey(a) == SortKey(b)
    ensures a.name == b.name && a.node.Dir? == b.node.Dir?
  {
    assert EndsWithSlash(SortKey(a)) == a.node.Dir?;
    assert EndsWithSlash(SortKey(b)) == b.node.Dir?;
    assert a.node.Dir? ==> SortKey(a)[..|SortKey(a)| - 1] == a.name;
    assert b.node.Dir? ==> SortKey(b)[..|SortKey(b)| - 1] == b.name;
  }

  lemma {:induction false} InsertKeeps(es: seq<Item>, it: Item)
    ensures multiset(Insert(es, it)) == multiset(es) + multiset{it}
    ensures SumSize(Insert(es, it)) == SumSize(es) + Size(it.node)
  {
    if es == [] || Lt(SortKey(it), SortKey(es[0])) {
      assert ([it] + es)[1..] == es;
    } else {
      InsertKeeps(es[1..], it);
      assert es == [es[0]] + es[1..];
      assert ([es[0]] + Insert(es[1..], it))[1..] == Insert(es[1..], it);
    }
  }

  lemma {:induction false} InsertSorted(es: seq<Item>, it: Item)
    requires StrictlySorted(es) && forall i :: 0 <= i < |es| ==> SortKey(es[i]) != SortKey(it)
    ensures StrictlySorted(Insert(es, it))
  {
    if es == [] {
    } else if Lt(SortKey(it), SortKey(es[0])) {
      forall j | 1 <= j < |es|
        ensures Lt(SortKey(it), SortKey(es[j]))
      {
        LtTransitive(SortKey(it), SortKey(es[0]), SortKey(es[j]));
      }
    } else {
      var rest := Insert(es[1..], it);
      InsertSorted(es[1..], it);
      InsertKeeps(es[1..], it);
      LtTotal(SortKey(it), SortKey(es[0]));
      forall j | 0 <= j < |rest|
        ensures Lt(SortKey(es[0]), SortKey(rest[j]))
      {
        assert rest[j] in multiset(rest);
        assert rest[j] == it || rest[j] in multiset(es[1..]);
        if rest[j] != it {
          var i :| 0 <= i < |es[1..]| && es[1..][i] == rest[j];
          assert es[i + 1] == rest[j];
        }
      }
    }
  }

  lemma {:induction false} SortKeeps(items: seq<Item>)
    ensures multiset(Sort(items)) == multiset(items) && SumSize(Sort(items)) == SumSize(items)
  {
    if items != [] {
      SortKeeps(items[1..]);
      InsertKeeps(Sort(items[1..]), items[0]);
      assert items == [items[0]] + items[1..];
    }
  }

  /** Membership survives sorting. */
  lemma SortedItemFrom(items: seq<Item>, k: nat) returns (i: nat)
    requires k < |Sort(items)|
    ensures i < |items| && items[i] == Sort(items)[k]
  {
    SortKeeps(items);
    assert Sort(items)[k] in multiset(Sort(items));
    assert Sort(items)[k] in multiset(items);
    i :| 0 <= i < |items| && items[i] == Sort(items)[k];
  }

  lemma {:induction false} SortStrict(items: seq<Item>)
    requires forall i, j :: 0 <= i < j < |items| ==> SortKey(items[i]) != SortKey(items[j])
    ensures StrictlySorted(Sort(items))
  {
    if items != [] {
      var rest := items[1..];
      SortStrict(rest);
      forall k | 0 <= k < |Sort(rest)|
        ensures SortKey(Sort(rest)[k]) != SortKey(items[0])
      {
        var i := SortedItemFrom(rest, k);
        assert items[i + 1] == rest[i];
      }
      InsertSorted(Sort(rest), items[0]);
    }
  }

  /** Sorting a directory keeps exactly its items and puts their sort keys in strict order. */
  lemma SortSorts(items: seq<Item>)
    requires WellFormed(Dir(items))
    ensures multiset(Sort(items)) == multiset(items) && SumSize(Sort(items)) == SumSize(items)
    ensures Entries(Sort(items))
  {
    SortKeeps(items);
    forall i, j | 0 <= i < j < |items|
      ensures SortKey(items[i]) != SortKey(items[j])
    {
      if SortKey(items[i]) == SortKey(items[j]) { SortKeyInjective(items[i], items[j]); }
    }
    SortStrict(items);
    forall k | 0 <= k < |Sort(items)|
      ensures GoodItem(Sort(items)[k])
    {
      var i := SortedItemFrom(items, k);
    }
  }

  // ------------------------------------------------------------ looking directories up

  function Child(items: seq<Item>, name: Key): Option<Node> {
    if items == [] then None else if items[0].name == name then Some(items[0].node) else Child(items[1..], name)
  }

  function Descend(node: Node, segs: seq<Key>): Option<Node>
    decreases segs
  {
    if segs == [] then Some(node)
    else if node.File? then None
    else match Child(node.items, segs[0]) case None => None case Some(n) => Descend(n, segs[1..])
  }

  /** One listing request over a bucket. */
  datatype Query = Query(root: Node, prefix: Key, recursive: bool, mpu: Key) {
    predicate Valid() {
      root.Dir? && WellFormed(root) && ValidName(mpu)
    }
  }

  /** All entries of a directory in key order; none when it is missing or not a directory. */
  function LoadAll(q: Query, dir: Key): seq<Item> {
    match Descend(q.root, Segs(dir))
    case Some(Dir(items)) => Sort(items)
    case _ => []
  }

  function Matching(es: seq<Item>, leaf: Key): seq<Item> {
    if es == [] then []
    else (if HasPrefix(SortKey(es[0]), leaf) then [es[0]] else []) + Matching(es[1..], leaf)
  }

  /** `ensure_frame_loaded`: only the root frame applies the leaf filter. */
  function Load(q: Query, dir: Key, isRoot: bool): seq<Item> {
    var leaf := SplitPrefix(q.prefix).1;
    if isRoot && leaf.Some? then Matching(LoadAll(q, dir), leaf.value) else LoadAll(q, dir)
  }

  lemma {:induction false} ChildIs(items: seq<Item>, i: nat)
    requires WellFormed(Dir(items)) && i < |items|
    ensures Child(items, items[i].name) == Some(items[i].node)
  {
    if i > 0 {
      var rest := items[1..];
      assert WellFormed(Dir(rest)) by {
        forall j | 0 <= j < |rest| ensures ValidName(rest[j].name) && WellFormed(rest[j].node) { assert rest[j] == items[j + 1]; }
      }
      assert items[0].name != items[i].name;
      ChildIs(rest, i - 1);
    }
  }

  lemma {:induction false} ChildWellFormed(items: seq<Item>, name: Key)
    requires forall i :: 0 <= i < |items| ==> WellFormed(items[i].node)
    ensures Child(items, name).Some? ==> WellFormed(Child(items, name).value)
  {
    if items != [] { ChildWellFormed(items[1..], name); }
  }

  lemma {:induction false} DescendWellFormed(node: Node, segs: seq<Key>)
    requires WellFormed(node)
    ensures Descend(node, segs).Some? ==> WellFormed(Descend(node, segs).value)
    decreases segs
  {
    if segs != [] && node.Dir? {
      ChildWellFormed(node.items, segs[0]);
      if Child(node.items, segs[0]).Some? { DescendWellFormed(Child(node.items, segs[0]).value, segs[1..]); }
    }
  }

  lemma {:induction false} DescendOneMore(node: Node, segs: seq<Key>, name: Key)
    ensures Descend(node, segs + [name])
            == match Descend(node, segs)
               case Some(Dir(items)) => Child(items, name)
               case _ => None
    decreases segs
  {
    if segs == [] {
      assert segs + [name] == [name];
      assert [name][1..] == [];
    } else {
      assert (segs + [name])[0] == segs[0] && (segs + [name])[1..] == segs[1..] + [name];
      if node.Dir? && Child(node.items, segs[0]).Some? {
        DescendOneMore(Child(node.items, segs[0]).value, segs[1..], name);
      }
    }
  }

  lemma {:induction false} MatchingFrom(es: seq<Item>, leaf: Key, k: nat) returns (i: nat)
    requires k < |Matching(es, leaf)|
    ensures k <= i < |es| && es[i] == Matching(es, leaf)[k] && HasPrefix(SortKey(es[i]), leaf)
  {
    var keep := HasPrefix(SortKey(es[0]), leaf);
    if keep && k == 0 {
      i := 0;
    } else {
      var j := MatchingFrom(es[1..], leaf, if keep then k - 1 else k);
      i := j + 1;
    }
  }

  lemma ConsSorted(it: Item, rest: seq<Item>)
    requires StrictlySorted(rest) && forall k :: 0 <= k < |rest| ==> Lt(SortKey(it), SortKey(rest[k]))
    ensures StrictlySorted([it] + rest)
  {
    var es := [it] + rest;
    forall i, j | 0 <= i < j < |es|
      ensures Lt(SortKey(es[i]), SortKey(es[j]))
    {
      assert es[j] == rest[j - 1];
      if i > 0 { assert es[i] == rest[i - 1]; }
    }
  }

  lemma {:induction false} MatchingSorted(es: seq<Item>, leaf: Key)
    requires StrictlySorted(es)
    ensures StrictlySorted(Matching(es, leaf))
  {
    if es != [] {
      var rest := Matching(es[1..], leaf);
      MatchingSorted(es[1..], leaf);
      forall k | 0 <= k < |rest|
        ensures Lt(SortKey(es[0]), SortKey(rest[k]))
      {
        var j := MatchingFrom(es[1..], leaf, k);
        assert es[j + 1] == rest[k];
      }
      ConsSorted(es[0], rest);
      assert [] + rest == rest;
    }
  }

  lemma MatchingEntries(es: seq<Item>, leaf: Key)
    requires Entries(es)
    ensures Entries(Matching(es, leaf))
    ensures forall k :: 0 <= k < |Matching(es, leaf)| ==> Matching(es, leaf)[k] in es
  {
    MatchingSorted(es, leaf);
    forall k | 0 <= k < |Matching(es, leaf)|
      ensures GoodItem(Matching(es, leaf)[k]) && Matching(es, leaf)[k] in es
    {
      var i := MatchingFrom(es, leaf, k);
    }
  }

  lemma LoadAllEntries(q: Query, dir: Key)
    requires q.Valid()
    ensures Entries(LoadAll(q, dir))
  {
    DescendWellFormed(q.root, Segs(dir));
    match Descend(q.root, Segs(dir))
    case Some(Dir(items)) => SortSorts(items);
    case _ =>
  }

  lemma LoadEntries(q: Query, dir: Key, isRoot: bool)
    requires q.Valid()
    ensures Entries(Load(q, dir, isRoot))
    ensures forall k :: 0 <= k < |Load(q, dir, isRoot)| ==> Load(q, dir, isRoot)[k] in LoadAll(q, dir)
  {
    LoadAllEntries(q, dir);
    var leaf := SplitPrefix(q.prefix).1;
    if leaf.Some? { MatchingEntries(LoadAll(q, dir), leaf.value); }
  }

  /** The frame pushed for a subdirectory loads that subdirectory. */
  lemma LoadChild(q: Query, dir: Key, it: Item)
    requires q.Valid() && DirKey(dir) && it in LoadAll(q, dir) && it.node.Dir?
    ensures LoadAll(q, dir + it.name + [SLASH]) == Sort(it.node.items)
  {
    DescendWellFormed(q.root, Segs(dir));
    var items := Descend(q.root, Segs(dir)).value.items;
    var k :| 0 <= k < |Sort(items)| && Sort(items)[k] == it;
    var i := SortedItemFrom(items, k);
    ChildIs(items, i);
    SegsOfChild(dir, it.name);
    DescendOneMore(q.root, Segs(dir), it.name);
  }

  /** Nothing loads below a name that is not a directory of `dir`. */
  lemma LoadMissing(q: Query, dir: Key, name: Key)
    requires q.Valid() && DirKey(dir) && ValidName(name)
    requires forall it :: it in LoadAll(q, dir) && it.node.Dir? ==> it.name != name
    ensures LoadAll(q, dir + name + [SLASH]) == []
  {
    SegsOfChild(dir, name);
    DescendOneMore(q.root, Segs(dir), name);
    DescendWellFormed(q.root, Segs(dir));
    match Descend(q.root, Segs(dir))
    case Some(Dir(items)) =>
      if Child(items, name).Some? { SortedHasChild(items, name); }
    case _ =>
  }

  lemma {:induction false} ChildFrom(items: seq<Item>, name: Key) returns (i: nat)
    requires Child(items, name).Some?
    ensures i < |items| && items[i].name == name && items[i].node == Child(items, name).value
  {
    if items[0].name == name {
      i := 0;
    } else {
      var j := ChildFrom(items[1..], name);
      i := j + 1;
    }
  }

  lemma SortedHasChild(items: seq<Item>, name: Key)
    requires Child(items, name).Some?
    ensures Item(name, Child(items, name).value) in Sort(items)
  {
    var i := ChildFrom(items, name);
    SortKeeps(items);
    assert items[i] in multiset(items);
    assert items[i] in multiset(Sort(items));
  }

  // ------------------------------------------------------------ the listing

  /** A result: an object (or directory marker), or a common prefix in delimiter mode. */
  datatype Out = Obj(key: Key) | Common(key: Key)

  function Emit(q: Query, key: Key): seq<Out> {
    if HasPrefix(key, q.prefix) then [Obj(key)] else []
  }

  /** Everything one entry contributes to the listing. */
  function Visit(q: Query, dir: Key, it: Item): seq<Out>
    decreases Size(it.node), 0
  {
    if it.node.File? then Emit(q, dir + it.name)
    else if dir == [] && it.name == q.mpu then []
    else if !q.recursive then [Common(dir + it.name + [SLASH])]
    else if it.node.items == [] then Emit(q, dir + it.name + [SLASH])
    else
      SortKeeps(it.node.items);
      Walk(q, dir + it.name + [SLASH], Sort(it.node.items))
  }

  function Walk(q: Query, dir: Key, es: seq<Item>): seq<Out>
    decreases SumSize(es), 1
  {
    if es == [] then [] else Visit(q, dir, es[0]) + Walk(q, dir, es[1..])
  }

  /** What the loop emits from its first stack, without paging. */
  function Traversal(q: Query): seq<Out> {
    var dir := SplitPrefix(q.prefix).0;
    Walk(q, dir, Load(q, dir, true))
  }

  /** A prefix whose first segment is the multipart directory is answered without looking. */
  predicate HiddenPrefix(q: Query) {
    q.prefix != [] && Reserved(q.prefix, q.mpu)
  }

  /** The directory a prefix starts in exists. */
  predicate StartExists(q: Query) {
    var start := Descend(q.root, Segs(SplitPrefix(q.prefix).0));
    start.Some? && start.value.Dir?
  }

  /** Neither of the two early empty answers applies. */
  predicate Looks(q: Query) {
    !HiddenPrefix(q) && StartExists(q)
  }

  lemma MissingStartListsNothing(q: Query)
    requires !StartExists(q)
    ensures Traversal(q) == []
  {
    hide Descend, Segs, SplitPrefix;
    var dir := SplitPrefix(q.prefix).0;
    assert LoadAll(q, dir) == [];
  }

  /** The listing without paging. */
  function Listing(q: Query): seq<Out> {
    if HiddenPrefix(q) then [] else Traversal(q)
  }

  /** A prefix that is not hidden starts in a directory that is not reserved. */
  lemma VisibleDirectory(q: Query)
    requires q.Valid() && !HiddenPrefix(q)
    ensures !Reserved(SplitPrefix(q.prefix).0, q.mpu)
  {
    var dir := SplitPrefix(q.prefix).0;
    ReservedIffFirstSegment(dir, q.mpu);
    ReservedIffFirstSegment(q.prefix, q.mpu);
    var ms := q.mpu + [SLASH];
    assert dir != [] ==> dir[|dir| - 1] == SLASH;
    assert dir == [] || dir == q.prefix[..|dir|];
    assert |ms| <= |dir| ==> q.prefix[..|ms|] == dir[..|ms|];
  }

  /** Where the early answers apply nothing is to be listed; elsewhere it is the traversal of a visible directory. */
  lemma EarlyAnswers(q: Query)
    requires q.Valid()
    ensures if Looks(q) then Listing(q) == Traversal(q) && !Reserved(SplitPrefix(q.prefix).0, q.mpu) else Listing(q) == []
  {
    hide Traversal, Reserved, SplitPrefix, HiddenPrefix, StartExists;
    if !HiddenPrefix(q) { VisibleDirectory(q); }
    if !StartExists(q) { MissingStartListsNothing(q); }
  }
}
