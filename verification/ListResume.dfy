/** Resuming a listing from a bare key: StartAfter and the V1 marker. */
module ListResume {
  import opened ListKeys
  import opened ListTree
  import opened ListPage
  import opened ListExact

  function TrimStart(k: Key): Key {
    if k != [] && k[0] == SLASH then TrimStart(k[1..]) else k
  }

  /** One cursor per directory on the way to the key, each past the entry leading deeper. */
  function Chain(dir: Key, segs: seq<Key>): seq<Frame>
    requires segs != []
    decreases segs
  {
    if |segs| == 1 then [Frame(dir, segs[0])]
    else [Frame(dir, segs[0] + [SLASH])] + Chain(dir + segs[0] + [SLASH], segs[1..])
  }

  function ResumeFrames(dir: Key, m: Key, recursive: bool): seq<Frame> {
    if !HasPrefix(m, dir) then [Frame(dir, [])]
    else
      var rel := TrimStart(m[|dir|..]);
      if rel == [] then [Frame(dir, [])]
      else if !recursive then
        var first := rel[..FirstSlash(rel)];
        [Frame(dir, if EndsWithSlash(m) then first + [SLASH] else first)]
      else if Segs(rel) == [] then [Frame(dir, [])]
      else Chain(dir, Segs(rel))
  }

  /** `build_stack_from_last` grows the stack one path segment at a time. */
  method BuildStackFromLast(dir: Key, m: Key, recursive: bool) returns (frames: seq<Frame>)
    ensures frames == ResumeFrames(dir, m, recursive)
  {
    frames := [Frame(dir, [])];
    if !HasPrefix(m, dir) {
      return;
    }
    var rel := TrimStart(m[|dir|..]);
    if rel == [] {
      return;
    }
    if !recursive {
      var first := rel[..FirstSlash(rel)];
      frames := [Frame(dir, if EndsWithSlash(m) then first + [SLASH] else first)];
      return;
    }
    var parts := Segs(rel);
    if parts == [] {
      return;
    }
    hide Segs;
    frames := [];
    var cur, i := dir, 0;
    while i < |parts| - 1
      invariant 0 <= i < |parts|
      invariant frames + Chain(cur, parts[i..]) == Chain(dir, parts)
    {
      assert parts[i..][1..] == parts[i + 1..];
      frames := frames + [Frame(cur, parts[i] + [SLASH])];
      cur := cur + parts[i] + [SLASH];
      i := i + 1;
    }
    frames := frames + [Frame(cur, parts[i])];
  }

  // ------------------------------------------------------------ later results

  /** The results whose key exceeds `m`. */
  function After(os: seq<Out>, m: Key): seq<Out> {
    if os == [] then [] else (if Lt(m, os[0].key) then [os[0]] else []) + After(os[1..], m)
  }

  lemma {:induction false} AfterConcat(a: seq<Out>, b: seq<Out>, m: Key)
    ensures After(a + b, m) == After(a, m) + After(b, m)
  {
    hide Lt;
    if a == [] {
      assert a + b == b;
    } else {
      assert (a + b)[1..] == a[1..] + b && (a + b)[0] == a[0];
      AfterConcat(a[1..], b, m);
      ConcatAssociates(if Lt(m, a[0].key) then [a[0]] else [], After(a[1..], m), After(b, m));
    }
  }

  lemma ConcatAssociates<T>(a: seq<T>, b: seq<T>, c: seq<T>)
    ensures a + (b + c) == (a + b) + c
  {
  }

  lemma {:induction false} AfterNone(os: seq<Out>, m: Key)
    requires forall i :: 0 <= i < |os| ==> !Lt(m, os[i].key)
    ensures After(os, m) == []
  {
    if os != [] { AfterNone(os[1..], m); }
  }

  lemma {:induction false} AfterAll(os: seq<Out>, m: Key)
    requires forall i :: 0 <= i < |os| ==> Lt(m, os[i].key)
    ensures After(os, m) == os
  {
    if os != [] { AfterAll(os[1..], m); }
  }

  /** In an increasing listing the results after any key are a suffix. */
  lemma {:induction false} AfterIsSuffix(os: seq<Out>, m: Key) returns (j: nat)
    requires KeysAscend(os)
    ensures j <= |os| && After(os, m) == os[j..]
    ensures forall t :: 0 <= t < |os| ==> (j <= t <==> Lt(m, os[t].key))
  {
    hide Lt;
    if os == [] {
      j := 0;
    } else if Lt(m, os[0].key) {
      forall t | 0 <= t < |os|
        ensures Lt(m, os[t].key)
      {
        if t > 0 { LtTransitive(m, os[0].key, os[t].key); }
      }
      AfterAll(os, m);
      j := 0;
    } else {
      var i := AfterIsSuffix(os[1..], m);
      j := i + 1;
      forall t | 0 <= t < |os|
        ensures j <= t <==> Lt(m, os[t].key)
      {
        if t > 0 { assert os[t] == os[1..][t - 1]; }
      }
    }
  }

  /** The results after one of them are the rest of the listing. */
  lemma AfterOneOfThem(os: seq<Out>, i: nat)
    requires KeysAscend(os) && i < |os|
    ensures After(os, os[i].key) == os[i + 1..]
  {
    hide Lt, After;
    var j := AfterIsSuffix(os, os[i].key);
    LtIrreflexive(os[i].key);
    assert i + 1 < |os| ==> Lt(os[i].key, os[i + 1].key);
  }

  lemma {:induction false} WalkConcat(q: Query, dir: Key, a: seq<Item>, b: seq<Item>)
    ensures Walk(q, dir, a + b) == Walk(q, dir, a) + Walk(q, dir, b)
    decreases |a|
  {
    if a == [] {
      assert a + b == b;
    } else {
      assert (a + b)[1..] == a[1..] + b && (a + b)[0] == a[0];
      WalkConcat(q, dir, a[1..], b);
    }
  }

  // ------------------------------------------------------------ one directory level

  /** `m` lies at or below the place of entry `b` in directory `dir`. */
  predicate At(dir: Key, b: Item, m: Key) {
    HasPrefix(m, dir + SortKey(b)) && (b.node.File? ==> m == dir + SortKey(b))
  }

  /** Entries sorting before `b` contribute nothing after `m`. */
  lemma EarlierContributeNothing(q: Query, dir: Key, es: seq<Item>, b: Item, m: Key)
    requires Entries(es) && ValidName(b.name) && At(dir, b, m)
    requires forall i :: 0 <= i < |es| ==> Lt(SortKey(es[i]), SortKey(b))
    ensures After(Walk(q, dir, es), m) == []
  {
    hide WellFormed, Lt, Walk, Visit;
    var w := Walk(q, dir, es);
    forall k | 0 <= k < |w|
      ensures !Lt(m, w[k].key)
    {
      var j := WalkFrom(q, dir, es, k);
      EarlierEntry(dir, es[j], b, w[k].key, m);
      LtAsymmetric(w[k].key, m);
    }
    AfterNone(w, m);
  }

  /** Entries sorting after `b` contribute only results after `m`. */
  lemma LaterContributeAll(q: Query, dir: Key, es: seq<Item>, b: Item, m: Key)
    requires Entries(es) && ValidName(b.name) && At(dir, b, m)
    requires forall i :: 0 <= i < |es| ==> Lt(SortKey(b), SortKey(es[i]))
    ensures After(Walk(q, dir, es), m) == Walk(q, dir, es)
  {
    hide WellFormed, Lt, Walk, Visit;
    var w := Walk(q, dir, es);
    forall k | 0 <= k < |w|
      ensures Lt(m, w[k].key)
    {
      var j := WalkFrom(q, dir, es, k);
      EarlierEntry(dir, b, es[j], m, w[k].key);
    }
    AfterAll(w, m);
  }

  /** The entry at the cursor itself, if the directory has it. */
  function AtCursor(es: seq<Item>, b: Item): seq<Item> {
    var n := FirstAfter(es, SortKey(b));
    if n > 0 && SortKey(es[n - 1]) == SortKey(b) then [es[n - 1]] else []
  }

  /** Past `m` a sorted directory owes what the entry at the cursor owes past `m`, then all entries after the cursor. */
  lemma LevelSplit(q: Query, dir: Key, es: seq<Item>, b: Item, m: Key)
    requires Entries(es) && ValidName(b.name) && At(dir, b, m)
    ensures After(Walk(q, dir, es), m)
            == After(Walk(q, dir, AtCursor(es, b)), m) + Walk(q, dir, es[FirstAfter(es, SortKey(b))..])
  {
    hide WellFormed, Lt, Walk, Visit, FirstAfter, SortKey, After;
    var n, here := FirstAfter(es, SortKey(b)), AtCursor(es, b);
    var a := es[..n - |here|];
    assert SortKey(b) != [] by { SortKeyNonEmpty(b); }
    FirstAfterSplits(es, SortKey(b));
    assert es == a + here + es[n..];
    WalkConcat(q, dir, a + here, es[n..]);
    WalkConcat(q, dir, a, here);
    AfterConcat(Walk(q, dir, a) + Walk(q, dir, here), Walk(q, dir, es[n..]), m);
    AfterConcat(Walk(q, dir, a), Walk(q, dir, here), m);
    forall i | 0 <= i < |a|
      ensures Lt(SortKey(a[i]), SortKey(b))
    {
      LtTotal(SortKey(a[i]), SortKey(b));
      assert i < n - 1 ==> Lt(SortKey(es[i]), SortKey(es[n - 1]));
    }
    EarlierContributeNothing(q, dir, a, b, m);
    LaterContributeAll(q, dir, es[n..], b, m);
    var x, y, z := Walk(q, dir, a), Walk(q, dir, here), Walk(q, dir, es[n..]);
    assert After(x + y + z, m) == After(x, m) + After(y, m) + After(z, m);
    assert After(x, m) == [] && After(z, m) == z;
  }

  lemma SortKeyNonEmpty(b: Item)
    requires ValidName(b.name)
    ensures SortKey(b) != []
  {
  }

  lemma AtCursorFinds(es: seq<Item>, b: Item, i: nat)
    requires Entries(es) && ValidName(b.name) && i < |es| && SortKey(es[i]) == SortKey(b)
    ensures AtCursor(es, b) == [es[i]]
  {
    CursorSurvives(es, i);
  }

  /** Resuming after a plain name in a directory. */
  lemma LeafLevel(q: Query, dir: Key, es: seq<Item>, name: Key)
    requires q.recursive && Entries(es) && ValidName(name)
    ensures After(Walk(q, dir, es), dir + name) == Walk(q, dir, es[FirstAfter(es, name)..])
  {
    hide WellFormed, Lt, Walk, Visit, FirstAfter;
    var b, m := Item(name, File), dir + name;
    LevelSplit(q, dir, es, b, m);
    var here := AtCursor(es, b);
    if here != [] {
      SortKeyInjective(here[0], b);
      FileAtMarker(q, dir, here[0]);
      OneEntryWalk(q, dir, here[0]);
    } else {
      NoEntryWalk(q, dir);
      AfterNone([], m);
    }
  }

  lemma NoEntryWalk(q: Query, dir: Key)
    ensures Walk(q, dir, []) == []
  {
  }

  lemma OneEntryWalk(q: Query, dir: Key, it: Item)
    ensures Walk(q, dir, [it]) == Visit(q, dir, it)
  {
    assert [it][1..] == [];
  }

  lemma FileAtMarker(q: Query, dir: Key, it: Item)
    requires it.node.File?
    ensures After(Visit(q, dir, it), dir + it.name) == []
  {
    LtIrreflexive(dir + it.name);
    AfterNone(Visit(q, dir, it), dir + it.name);
  }

  /** Below a key inside a subdirectory, visiting the subdirectory is walking its entries. */
  lemma SubdirAtMarker(q: Query, dir: Key, it: Item, x: Key)
    requires q.recursive && it.node.Dir? && !Hidden(q, dir, it) && x != []
    ensures var child := dir + it.name + [SLASH];
            After(Visit(q, dir, it), child + x) == After(Walk(q, child, Sort(it.node.items)), child + x)
  {
    var child := dir + it.name + [SLASH];
    if it.node.items == [] {
      LtProperPrefix(child, x);
      LtAsymmetric(child, child + x);
      AfterNone(Visit(q, dir, it), child + x);
      NoEntryWalk(q, child);
    }
  }

  /** Resuming after a key inside the subdirectory `name`. */
  lemma DeepLevel(q: Query, dir: Key, es: seq<Item>, name: Key, x: Key)
    requires q.recursive && Entries(es) && ValidName(name) && x != [] && !(dir == [] && name == q.mpu)
    ensures var b, child := Item(name, Dir([])), dir + name + [SLASH];
            After(Walk(q, dir, es), child + x)
            == (if AtCursor(es, b) == [] then [] else After(Walk(q, child, Sort(AtCursor(es, b)[0].node.items)), child + x))
               + Walk(q, dir, es[FirstAfter(es, name + [SLASH])..])
    ensures var here := AtCursor(es, Item(name, Dir([]))); here != [] ==> here[0].node.Dir?
  {
    hide WellFormed, Lt, Walk, Visit, FirstAfter, Sort;
    var b, child := Item(name, Dir([])), dir + name + [SLASH];
    var m := child + x;
    assert child == dir + SortKey(b) && HasPrefix(m, child);
    LevelSplit(q, dir, es, b, m);
    var here := AtCursor(es, b);
    if here != [] {
      SortKeyInjective(here[0], b);
      OneEntryWalk(q, dir, here[0]);
      SubdirAtMarker(q, dir, here[0], x);
    } else {
      NoEntryWalk(q, dir);
      AfterNone([], m);
    }
  }

  // ------------------------------------------------------------ the whole stack

  /** What the cursors of a chain owe when the chain is not at the bottom of the stack. */
  function ChainRest(q: Query, dir: Key, segs: seq<Key>): seq<Out>
    requires segs != []
    decreases segs
  {
    if |segs| == 1 then Walk(q, dir, Remaining(q, Frame(dir, segs[0]), false))
    else ChainRest(q, dir + segs[0] + [SLASH], segs[1..])
         + Walk(q, dir, Remaining(q, Frame(dir, segs[0] + [SLASH]), false))
  }

  lemma ChainUnfolds(q: Query, dir: Key, segs: seq<Key>)
    requires |segs| > 1
    ensures var f, child := Frame(dir, segs[0] + [SLASH]), dir + segs[0] + [SLASH];
            && Chain(dir, segs) == [f] + Chain(child, segs[1..])
            && ChainRest(q, dir, segs) == ChainRest(q, child, segs[1..]) + Walk(q, dir, Remaining(q, f, false))
  {
  }

  lemma LeafChain(q: Query, dir: Key, name: Key)
    ensures Chain(dir, [name]) == [Frame(dir, name)]
    ensures ChainRest(q, dir, [name]) == Walk(q, dir, Remaining(q, Frame(dir, name), false))
  {
  }

  lemma {:induction false} ChainOnTop(q: Query, fs: seq<Frame>, dir: Key, segs: seq<Key>)
    requires fs != [] && segs != []
    ensures Rest(q, fs + Chain(dir, segs)) == ChainRest(q, dir, segs) + Rest(q, fs)
    decreases segs
  {
    hide *;
    if |segs| == 1 {
      assert segs == [segs[0]];
      LeafChain(q, dir, segs[0]);
      ReplaceTop(q, fs, Frame(dir, segs[0]));
    } else {
      var f, child := Frame(dir, segs[0] + [SLASH]), dir + segs[0] + [SLASH];
      ChainUnfolds(q, dir, segs);
      ReplaceTop(q, fs, f);
      ChainOnTop(q, fs + [f], child, segs[1..]);
      ConcatAssociates(fs, [f], Chain(child, segs[1..]));
      ConcatAssociates(ChainRest(q, child, segs[1..]), Walk(q, dir, Remaining(q, f, false)), Rest(q, fs));
    }
  }

  predicate Names(segs: seq<Key>) {
    forall i :: 0 <= i < |segs| ==> ValidName(segs[i])
  }

  lemma JoinDeeper(dir: Key, segs: seq<Key>)
    requires Names(segs) && |segs| > 1
    ensures dir + Join(segs) == dir + segs[0] + [SLASH] + Join(segs[1..]) && Join(segs[1..]) != []
  {
    JoinNonEmpty(segs[1..]);
  }

  lemma JoinNonEmpty(segs: seq<Key>)
    requires Names(segs) && segs != []
    ensures Join(segs) != []
  {
  }

  /** A chain of cursors below the root owes exactly the keys after the one it was built from. */
  lemma {:induction false} DeepResume(q: Query, dir: Key, segs: seq<Key>)
    requires q.Valid() && q.recursive && DirKey(dir) && segs != [] && Names(segs)
    requires dir == [] && |segs| > 1 ==> segs[0] != q.mpu
    ensures ChainRest(q, dir, segs) == After(Walk(q, dir, LoadAll(q, dir)), dir + Join(segs))
    decreases segs
  {
    hide WellFormed, Lt, Walk, FirstAfter, LoadAll, Sort, After;
    var es := LoadAll(q, dir);
    LoadAllEntries(q, dir);
    if |segs| == 1 {
      LeafLevel(q, dir, es, segs[0]);
    } else {
      var name, x := segs[0], Join(segs[1..]);
      var child := dir + name + [SLASH];
      JoinDeeper(dir, segs);
      DeepLevel(q, dir, es, name, x);
      DeepResume(q, child, segs[1..]);
      ChildLoads(q, dir, name);
      NoEntryWalk(q, child);
      AfterNone([], child + x);
    }
  }

  /** The child directory of a chain loads what the entry at the cursor holds, or nothing. */
  lemma ChildLoads(q: Query, dir: Key, name: Key)
    requires q.Valid() && DirKey(dir) && ValidName(name)
    ensures var here := AtCursor(LoadAll(q, dir), Item(name, Dir([])));
            && (here != [] ==> here[0] in LoadAll(q, dir) && here[0].node.Dir?)
            && LoadAll(q, dir + name + [SLASH]) == if here == [] then [] else Sort(here[0].node.items)
  {
    hide WellFormed, Lt, LoadAll, Sort, FirstAfter;
    var es, b := LoadAll(q, dir), Item(name, Dir([]));
    LoadAllEntries(q, dir);
    var here := AtCursor(es, b);
    if here != [] {
      SortKeyInjective(here[0], b);
      LoadChild(q, dir, here[0]);
    } else {
      forall it | it in es && it.node.Dir?
        ensures it.name != name
      {
        var i :| 0 <= i < |es| && es[i] == it;
        if it.name == name { AtCursorFinds(es, b, i); }
      }
      LoadMissing(q, dir, name);
    }
  }

  /** In recursive mode every result is an object matching the prefix. */
  lemma {:induction false} VisitMatches(q: Query, dir: Key, it: Item, k: nat)
    requires q.recursive && k < |Visit(q, dir, it)|
    ensures Visit(q, dir, it)[k].Obj? && HasPrefix(Visit(q, dir, it)[k].key, q.prefix)
    decreases Size(it.node), 0
  {
    hide Lt, HasPrefix;
    if it.node.Dir? && it.node.items != [] && !(dir == [] && it.name == q.mpu) {
      SortKeeps(it.node.items);
      WalkMatches(q, dir + it.name + [SLASH], Sort(it.node.items), k);
    }
  }

  lemma {:induction false} WalkMatches(q: Query, dir: Key, es: seq<Item>, k: nat)
    requires q.recursive && k < |Walk(q, dir, es)|
    ensures Walk(q, dir, es)[k].Obj? && HasPrefix(Walk(q, dir, es)[k].key, q.prefix)
    decreases SumSize(es), 1
  {
    hide Lt, HasPrefix;
    var v := Visit(q, dir, es[0]);
    if k < |v| { VisitMatches(q, dir, es[0], k); } else { WalkMatches(q, dir, es[1..], k - |v|); }
  }

  /** A subdirectory dropped by the leaf filter has nothing to contribute. */
  lemma FilteredOutIsSilent(q: Query, it: Item)
    requires q.Valid() && q.recursive && it.node.Dir?
    requires var dir := SplitPrefix(q.prefix).0; it in LoadAll(q, dir) && it !in Load(q, dir, true)
    ensures Walk(q, SplitPrefix(q.prefix).0 + it.name + [SLASH], Sort(it.node.items)) == []
  {
    hide LoadAll, Segs, WellFormed, Lt, Walk, SplitPrefix, KeyOf;
    var (dir, leaf) := SplitPrefix(q.prefix);
    LoadAllEntries(q, dir);
    var all := LoadAll(q, dir);
    var i :| 0 <= i < |all| && all[i] == it;
    var child, es := dir + it.name + [SLASH], Sort(it.node.items);
    if Walk(q, child, es) != [] {
      WalkMatches(q, child, es, 0);
      var k := Walk(q, child, es)[0].key;
      assert Obj(k) in Walk(q, child, es);
      KeyUnderItem(q, dir, it, k);
      PrefixOfRel(q.prefix, k, it);
      FilterKeepsMatch(it, k[|dir|..], leaf.value);
      var j := MatchingHas(all, leaf.value, i);
      assert false;
    }
  }

  lemma KeyUnderItem(q: Query, dir: Key, it: Item, k: Key)
    requires q.recursive && GoodItem(it) && it.node.Dir?
    requires Obj(k) in Walk(q, dir + it.name + [SLASH], Sort(it.node.items))
    ensures HasPrefix(k, q.prefix) && HasPrefix(k, dir) && ItemKey(it, k[|dir|..])
  {
    hide Walk, Lt, Segs;
    var child, es := dir + it.name + [SLASH], Sort(it.node.items);
    SortSorts(it.node.items);
    WalkExact(q, child, es, k);
    KeyAmongSorted(q, child, it.node.items, k[|child|..]);
    SubtreeSplit(k, dir, it.name);
  }

  /** What the entry at the cursor of the root frame owes is what the deeper frames owe. */
  lemma RootChildLoads(q: Query, name: Key)
    requires q.Valid() && q.recursive && ValidName(name)
    ensures var here := AtCursor(Load(q, SplitPrefix(q.prefix).0, true), Item(name, Dir([]))); here != [] ==> here[0].node.Dir?
    ensures var dir := SplitPrefix(q.prefix).0;
            var here, child := AtCursor(Load(q, dir, true), Item(name, Dir([]))), dir + name + [SLASH];
            Walk(q, child, LoadAll(q, child)) == if here == [] then [] else Walk(q, child, Sort(here[0].node.items))
  {
    hide WellFormed, Lt, LoadAll, Sort, FirstAfter, Walk, Load, SplitPrefix;
    var dir, b := SplitPrefix(q.prefix).0, Item(name, Dir([]));
    var es, child := Load(q, dir, true), dir + name + [SLASH];
    LoadEntries(q, dir, true);
    LoadAllEntries(q, dir);
    ChildLoads(q, dir, name);
    NoEntryWalk(q, child);
    var here, there := AtCursor(es, b), AtCursor(LoadAll(q, dir), b);
    if here != [] {
      SortKeyInjective(here[0], b);
      var i :| 0 <= i < |LoadAll(q, dir)| && LoadAll(q, dir)[i] == here[0];
      AtCursorFinds(LoadAll(q, dir), b, i);
    } else if there != [] {
      SortKeyInjective(there[0], b);
      if i :| 0 <= i < |es| && es[i] == there[0] { AtCursorFinds(es, b, i); }
      FilteredOutIsSilent(q, there[0]);
    }
  }

  /** The cursors built from a path under the prefix directory owe exactly the keys after that path. */
  lemma RootResume(q: Query, segs: seq<Key>)
    requires q.Valid() && q.recursive && segs != [] && Names(segs)
    requires SplitPrefix(q.prefix).0 == [] && |segs| > 1 ==> segs[0] != q.mpu
    ensures var dir := SplitPrefix(q.prefix).0;
            Rest(q, Chain(dir, segs)) == After(Traversal(q), dir + Join(segs))
  {
    hide WellFormed, Lt, Walk, FirstAfter, LoadAll, Load, Sort, After, SplitPrefix, Rest, Chain, AtCursor;
    var dir := SplitPrefix(q.prefix).0;
    var es := Load(q, dir, true);
    LoadEntries(q, dir, true);
    EmptyStackOwesNothing(q);
    if |segs| == 1 {
      assert segs == [segs[0]];
      LeafLevel(q, dir, es, segs[0]);
      LeafChain(q, dir, segs[0]);
      ReplaceTop(q, [], Frame(dir, segs[0]));
    } else {
      var name, x := segs[0], Join(segs[1..]);
      var child, f := dir + name + [SLASH], Frame(dir, name + [SLASH]);
      JoinDeeper(dir, segs);
      DeepLevel(q, dir, es, name, x);
      RootChildLoads(q, name);
      DeepResume(q, child, segs[1..]);
      ChainUnfolds(q, dir, segs);
      ChainOnTop(q, [f], child, segs[1..]);
      ReplaceTop(q, [], f);
      assert [] + [f] == [f];
      AfterNone([], child + x);
    }
  }

  // ------------------------------------------------------------ markers

  lemma {:induction false} SegsTrimStart(k: Key)
    ensures Segs(TrimStart(k)) == Segs(k)
    ensures TrimStart(k) == [] ==> Segs(k) == []
  {
    if k != [] && k[0] == SLASH { SegsTrimStart(k[1..]); }
  }

  /** Every listed key lies strictly below the prefix directory. */
  lemma ListedBelowDir(q: Query, i: nat)
    requires q.Valid() && i < |Traversal(q)|
    ensures var dir := SplitPrefix(q.prefix).0; HasPrefix(Traversal(q)[i].key, dir) && |Traversal(q)[i].key| > |dir|
  {
    hide Walk, Load, SplitPrefix;
    var dir := SplitPrefix(q.prefix).0;
    var es := Load(q, dir, true);
    LoadEntries(q, dir, true);
    var j := WalkFrom(q, dir, es, i);
    SortKeyNonEmpty(es[j]);
    HasPrefixTransitive(Traversal(q)[i].key, dir + SortKey(es[j]), dir);
  }

  lemma ListedExceedsDir(q: Query, i: nat)
    requires q.Valid() && i < |Traversal(q)|
    ensures Lt(SplitPrefix(q.prefix).0, Traversal(q)[i].key)
  {
    hide Traversal, SplitPrefix;
    var dir, k := SplitPrefix(q.prefix).0, Traversal(q)[i].key;
    ListedBelowDir(q, i);
    LtProperPrefix(dir, k[|dir|..]);
    assert k == dir + k[|dir|..];
  }

  /**
   * Recursive resume from any key under the prefix directory: the rebuilt stack owes
   * exactly the listed keys after the key with its empty segments and final '/' removed.
   */
  lemma RecursiveResume(q: Query, m: Key)
    requires q.Valid() && q.recursive
    requires var dir := SplitPrefix(q.prefix).0; HasPrefix(m, dir) && FramesOk(q, ResumeFrames(dir, m, true))
    ensures var dir := SplitPrefix(q.prefix).0;
            Rest(q, ResumeFrames(dir, m, true)) == After(Traversal(q), dir + Join(Segs(m[|dir|..])))
  {
    hide Walk, Load, Rest, After, Traversal, SplitPrefix, Reserved;
    var dir := SplitPrefix(q.prefix).0;
    var segs := Segs(m[|dir|..]);
    SegsTrimStart(m[|dir|..]);
    if segs == [] {
      FirstTokenOwesListing(q);
      assert dir + Join(segs) == dir;
      forall i | 0 <= i < |Traversal(q)| ensures Lt(dir, Traversal(q)[i].key) { ListedExceedsDir(q, i); }
      AfterAll(Traversal(q), dir);
    } else {
      assert ResumeFrames(dir, m, true) == Chain(dir, segs);
      if |segs| > 1 { ReservedChain(q, dir, segs); }
      RootResume(q, segs);
    }
  }

  lemma ChainStarts(dir: Key, segs: seq<Key>)
    requires segs != []
    ensures Chain(dir, segs) != [] && Chain(dir, segs)[0].dir == dir
  {
  }

  /** A chain through the multipart directory has a frame that is refused. */
  lemma ReservedChain(q: Query, dir: Key, segs: seq<Key>)
    requires q.Valid() && |segs| > 1 && Names(segs) && FramesOk(q, Chain(dir, segs))
    ensures dir == [] ==> segs[0] != q.mpu
  {
    hide Walk, Remaining, Chain, ChainRest, Reserved, WellFormed;
    ChainUnfolds(q, dir, segs);
    ChainStarts(dir + segs[0] + [SLASH], segs[1..]);
    var f := Chain(dir, segs)[1];
    assert FrameOk(q, f);
    ReservedIffFirstSegment(f.dir, q.mpu);
    assert dir == [] ==> f.dir == segs[0] + [SLASH];
  }

  lemma {:induction false} ChainOk(q: Query, dir: Key, segs: seq<Key>)
    requires q.Valid() && segs != [] && Names(segs) && DirKey(dir) && !Reserved(dir, q.mpu)
    requires dir == [] && |segs| > 1 ==> segs[0] != q.mpu
    ensures FramesOk(q, Chain(dir, segs))
    decreases segs
  {
    hide Reserved;
    if |segs| > 1 {
      DescendNotReserved(dir, segs[0], q.mpu);
      ChainOk(q, dir + segs[0] + [SLASH], segs[1..]);
    }
  }
}
