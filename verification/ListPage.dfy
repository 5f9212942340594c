/**
 * The paging traversal: a stack of directory cursors, cut anywhere into pages and
 * resumed from the serialised stack (the V2 continuation token).
 */
module ListPage {
  import opened Posix
  import opened ListKeys
  import opened ListTree

  /** A serialised cursor: the entries of `dir` whose sort key exceeds `after` remain. */
  datatype Frame = Frame(dir: Key, after: Key)

  /** A cursor at run time: entries load lazily, `idx` is the next one. */
  datatype Cursor = Cursor(frame: Frame, entries: Option<seq<Item>>, idx: nat)

  function FirstAfter(es: seq<Item>, after: Key): (n: nat)
    ensures n <= |es|
  {
    if after == [] || es == [] || Lt(after, SortKey(es[0])) then 0 else 1 + FirstAfter(es[1..], after)
  }

  /** The scan of `first_index_after`. */
  method FirstIndexAfter(es: seq<Item>, after: Key) returns (n: nat)
    ensures n == FirstAfter(es, after)
  {
    if after == [] {
      return 0;
    }
    var i := 0;
    while i < |es|
      invariant 0 <= i <= |es|
      invariant FirstAfter(es, after) == i + FirstAfter(es[i..], after)
    {
      if Lt(after, SortKey(es[i])) {
        return i;
      }
      assert es[i..][1..] == es[i + 1..];
      i := i + 1;
    }
    return |es|;
  }

  /** Sorted entries: exactly those past the returned index exceed the cursor. */
  lemma {:induction false} FirstAfterSplits(es: seq<Item>, after: Key)
    requires StrictlySorted(es) && after != []
    ensures forall i :: 0 <= i < |es| ==> (FirstAfter(es, after) <= i <==> Lt(after, SortKey(es[i])))
  {
    if es != [] {
      FirstAfterSplits(es[1..], after);
      forall i | 0 <= i < |es|
        ensures FirstAfter(es, after) <= i <==> Lt(after, SortKey(es[i]))
      {
        if i > 0 {
          assert es[i] == es[1..][i - 1];
          if Lt(after, SortKey(es[0])) { LtTransitive(after, SortKey(es[0]), SortKey(es[i])); }
        }
      }
    }
  }

  /** Remembering the last entry's sort key is as good as remembering its index. */
  lemma CursorSurvives(es: seq<Item>, i: nat)
    requires Entries(es) && i < |es|
    ensures SortKey(es[i]) != [] && FirstAfter(es, SortKey(es[i])) == i + 1
  {
    var k := SortKey(es[i]);
    FirstAfterSplits(es, k);
    LtIrreflexive(k);
    assert i + 1 < |es| ==> Lt(k, SortKey(es[i + 1]));
  }

  function Remaining(q: Query, f: Frame, isRoot: bool): seq<Item> {
    var es := Load(q, f.dir, isRoot);
    es[FirstAfter(es, f.after)..]
  }

  /** The results a stack of cursors still owes, deepest cursor first. */
  function Rest(q: Query, fs: seq<Frame>): seq<Out> {
    if fs == [] then []
    else
      var n := |fs| - 1;
      Walk(q, fs[n].dir, Remaining(q, fs[n], n == 0)) + Rest(q, fs[..n])
  }

  /** A bound on the loop iterations a stack still needs. */
  function Work(q: Query, fs: seq<Frame>): nat {
    if fs == [] then 0
    else
      var n := |fs| - 1;
      1 + 2 * SumSize(Remaining(q, fs[n], n == 0)) + Work(q, fs[..n])
  }

  function Tokens(stack: seq<Cursor>): (fs: seq<Frame>)
    ensures |fs| == |stack| && forall i :: 0 <= i < |fs| ==> fs[i] == stack[i].frame
  {
    seq(|stack|, i requires 0 <= i < |stack| => stack[i].frame)
  }

  predicate FrameOk(q: Query, f: Frame) {
    DirKey(f.dir) && !Reserved(f.dir, q.mpu)
  }

  predicate CursorOk(q: Query, c: Cursor, isRoot: bool) {
    && FrameOk(q, c.frame)
    && (c.entries.Some? ==>
          c.entries.value == Load(q, c.frame.dir, isRoot) && c.idx == FirstAfter(c.entries.value, c.frame.after))
  }

  predicate StackOk(q: Query, stack: seq<Cursor>) {
    forall i :: 0 <= i < |stack| ==> CursorOk(q, stack[i], i == 0)
  }

  predicate FramesOk(q: Query, fs: seq<Frame>) {
    forall i :: 0 <= i < |fs| ==> FrameOk(q, fs[i])
  }

  /** `ensure_frame_loaded` */
  method EnsureLoaded(q: Query, c: Cursor, isRoot: bool) returns (c': Cursor)
    requires CursorOk(q, c, isRoot)
    ensures CursorOk(q, c', isRoot) && c'.frame == c.frame && c'.entries.Some?
  {
    c' := c;
    if c.entries.None? {
      var es := Load(q, c.frame.dir, isRoot);
      var idx := FirstIndexAfter(es, c.frame.after);
      c' := Cursor(c.frame, Some(es), idx);
    }
  }

  /** What the top cursor owes splits into its next entry and the advanced cursor. */
  lemma AdvanceCursor(q: Query, f: Frame, isRoot: bool)
    requires q.Valid() && Remaining(q, f, isRoot) != []
    ensures var it := Remaining(q, f, isRoot)[0];
            var f' := Frame(f.dir, SortKey(it));
            && it in LoadAll(q, f.dir) && GoodItem(it)
            && Remaining(q, f', isRoot) == Remaining(q, f, isRoot)[1..]
            && Walk(q, f.dir, Remaining(q, f, isRoot)) == Visit(q, f.dir, it) + Walk(q, f.dir, Remaining(q, f', isRoot))
            && SumSize(Remaining(q, f, isRoot)) == Size(it.node) + SumSize(Remaining(q, f', isRoot))
  {
    LoadEntries(q, f.dir, isRoot);
    var es := Load(q, f.dir, isRoot);
    CursorSurvives(es, FirstAfter(es, f.after));
  }

  lemma EmptyStackOwesNothing(q: Query)
    ensures Rest(q, []) == []
  {
  }

  lemma ReplaceTop(q: Query, below: seq<Frame>, top: Frame)
    ensures Rest(q, below + [top]) == Walk(q, top.dir, Remaining(q, top, below == [])) + Rest(q, below)
    ensures Work(q, below + [top]) == 1 + 2 * SumSize(Remaining(q, top, below == [])) + Work(q, below)
  {
    assert (below + [top])[..|below|] == below;
  }

  /** A pushed subdirectory cursor owes exactly what visiting the directory contributes. */
  lemma PushedChild(q: Query, dir: Key, it: Item)
    requires q.Valid() && DirKey(dir) && it in LoadAll(q, dir) && it.node.Dir?
    ensures var child := Frame(dir + it.name + [SLASH], []);
            Remaining(q, child, false) == Sort(it.node.items) && SumSize(Remaining(q, child, false)) == Size(it.node) - 1
  {
    LoadChild(q, dir, it);
    SortKeeps(it.node.items);
  }

  lemma NothingLeft(q: Query, f: Frame, isRoot: bool)
    requires Remaining(q, f, isRoot) == []
    ensures Walk(q, f.dir, Remaining(q, f, isRoot)) == [] && SumSize(Remaining(q, f, isRoot)) == 0
  {
  }

  /** Handles one entry: a result, nothing, or a subdirectory to descend into. */
  method Consume(q: Query, dir: Key, it: Item) returns (out: seq<Out>, push: seq<Frame>)
    requires q.Valid() && DirKey(dir) && !Reserved(dir, q.mpu) && it in LoadAll(q, dir) && GoodItem(it)
    ensures push == [] ==> Visit(q, dir, it) == out && |out| <= 1
    ensures push != [] ==> |push| == 1 && out == [] && FrameOk(q, push[0])
                           && Visit(q, dir, it) == Walk(q, push[0].dir, Remaining(q, push[0], false))
                           && SumSize(Remaining(q, push[0], false)) < Size(it.node)
  {
    out, push := [], [];
    if it.node.File? {
      out := Emit(q, dir + it.name);
    } else if dir == [] && it.name == q.mpu {
    } else if !q.recursive {
      out := [Common(dir + it.name + [SLASH])];
    } else if it.node.items == [] {
      out := Emit(q, dir + it.name + [SLASH]);
    } else {
      DescendNotReserved(dir, it.name, q.mpu);
      PushedChild(q, dir, it);
      push := [Frame(dir + it.name + [SLASH], [])];
    }
  }

  /** The books balance: advance the top cursor, emit, perhaps push. */
  lemma StepBalances(q: Query, fs: seq<Frame>, f: Frame, out: seq<Out>, push: seq<Frame>)
    requires q.Valid() && Remaining(q, f, fs == []) != []
    requires var it := Remaining(q, f, fs == [])[0];
             && (push == [] ==> Visit(q, f.dir, it) == out)
             && (push != [] ==> |push| == 1 && out == []
                                && Visit(q, f.dir, it) == Walk(q, push[0].dir, Remaining(q, push[0], false))
                                && SumSize(Remaining(q, push[0], false)) < Size(it.node))
    ensures var f' := Frame(f.dir, SortKey(Remaining(q, f, fs == [])[0]));
            && Rest(q, fs + [f]) == out + Rest(q, fs + [f'] + push)
            && Work(q, fs + [f'] + push) < Work(q, fs + [f])
  {
    hide *;
    var f' := Frame(f.dir, SortKey(Remaining(q, f, fs == [])[0]));
    AdvanceCursor(q, f, fs == []);
    ReplaceTop(q, fs, f);
    ReplaceTop(q, fs, f');
    if push == [] {
      assert fs + [f'] + push == fs + [f'];
    } else {
      assert fs + [f'] + push == (fs + [f']) + [push[0]];
      ReplaceTop(q, fs + [f'], push[0]);
    }
  }

  /** One iteration of the listing loop: at most one more result, and nothing lost. */
  method Step(q: Query, stack: seq<Cursor>) returns (out: seq<Out>, stack': seq<Cursor>)
    requires q.Valid() && stack != [] && StackOk(q, stack)
    ensures StackOk(q, stack') && |out| <= 1 && (out != [] ==> stack' != [])
    ensures Rest(q, Tokens(stack)) == out + Rest(q, Tokens(stack'))
    ensures Work(q, Tokens(stack')) < Work(q, Tokens(stack))
  {
    hide Rest, Work, Walk, Visit, Load, FirstAfter, SumSize, Reserved, DirKey, Segs;
    var n := |stack| - 1;
    var below := stack[..n];
    var top := EnsureLoaded(q, stack[n], n == 0);
    ghost var fs, f := Tokens(below), top.frame;
    assert Tokens(stack) == fs + [f];
    ReplaceTop(q, fs, f);
    if top.idx >= |top.entries.value| {
      NothingLeft(q, f, n == 0);
      return [], below;
    }
    var it := top.entries.value[top.idx];
    assert it == Remaining(q, f, n == 0)[0];
    AdvanceCursor(q, f, n == 0);
    LoadEntries(q, f.dir, n == 0);
    CursorSurvives(top.entries.value, top.idx);
    var push;
    out, push := Consume(q, top.frame.dir, it);
    StepBalances(q, fs, f, out, push);
    top := Cursor(Frame(top.frame.dir, SortKey(it)), top.entries, top.idx + 1);
    stack' := below + [top];
    if push != [] {
      stack' := stack' + [Cursor(push[0], None, 0)];
    }
    assert Tokens(stack') == fs + [top.frame] + push;
  }

  datatype Page = Page(out: seq<Out>, next: Option<seq<Frame>>) | RejectedToken

  function FirstToken(q: Query): seq<Frame> {
    [Frame(SplitPrefix(q.prefix).0, [])]
  }

  /** The cursors a request starts from: an empty token means the start of the listing. */
  function Given(q: Query, token: seq<Frame>): seq<Frame> {
    if token == [] then FirstToken(q) else token
  }

  /**
   * One listing request.  A hidden prefix or one whose directory is missing gets an empty
   * page.  Otherwise a token from a previous page is never rejected and the page is the next
   * `maxKeys` results the stack owes; a token comes back exactly when the page is full.
   */
  method ListPage(q: Query, token: seq<Frame>, maxKeys: nat) returns (r: Page)
    requires q.Valid() && forall i :: 0 <= i < |token| ==> DirKey(token[i].dir)
    ensures !Looks(q) ==> r == Page([], None)
    ensures r.RejectedToken? <==> Looks(q) && !FramesOk(q, token)
    ensures r.Page? && maxKeys > 0 && Looks(q)
            ==> r.out + (if r.next.Some? then Rest(q, r.next.value) else []) == Rest(q, Given(q, token))
    ensures r.Page? ==> |r.out| <= maxKeys
    ensures r.Page? ==> (r.next.Some? <==> |r.out| == maxKeys > 0)
    ensures r.Page? && r.next.Some? ==> r.next.value != [] && FramesOk(q, r.next.value)
  {
    hide Rest, Work, Walk, Load, Reserved, DirKey, StartExists, SplitPrefix;
    if q.prefix != [] && Reserved(q.prefix, q.mpu) {
      return Page([], None);
    }
    if !StartExists(q) {
      return Page([], None);
    }
    if exists i :: 0 <= i < |token| && Reserved(token[i].dir, q.mpu) {
      return RejectedToken;
    }
    var frames := Given(q, token);
    VisibleDirectory(q);
    FirstTokenOwesListing(q);
    var stack := seq(|frames|, i requires 0 <= i < |frames| => Cursor(frames[i], None, 0));
    assert Tokens(stack) == frames;
    var out: seq<Out> := [];
    while |out| < maxKeys && stack != []
      invariant StackOk(q, stack) && |out| <= maxKeys && (|out| == maxKeys > 0 ==> stack != [])
      invariant out + Rest(q, Tokens(stack)) == Rest(q, frames)
      decreases Work(q, Tokens(stack))
    {
      var more;
      more, stack := Step(q, stack);
      out := out + more;
    }
    if |out| >= maxKeys && stack != [] && |out| > 0 {
      r := Page(out, Some(Tokens(stack)));
    } else {
      EmptyStackOwesNothing(q);
      r := Page(out, None);
    }
  }

  lemma FirstTokenOwesListing(q: Query)
    requires q.Valid()
    ensures Rest(q, FirstToken(q)) == Traversal(q) && DirKey(FirstToken(q)[0].dir)
    ensures FirstToken(q)[0].dir == SplitPrefix(q.prefix).0
  {
    var f := FirstToken(q)[0];
    ReplaceTop(q, [], f);
    assert [] + [f] == FirstToken(q);
  }

  function Concat(pages: seq<seq<Out>>): seq<Out> {
    if pages == [] then [] else Concat(pages[..|pages| - 1]) + pages[|pages| - 1]
  }

  /**
   * A client following continuation tokens with any page sizes gets every result of
   * the unpaged listing exactly once, in order, and the chain ends.
   */
  method ListToEnd(q: Query, sizes: nat -> nat) returns (pages: seq<seq<Out>>)
    requires q.Valid() && forall i :: sizes(i) >= 1
    ensures Concat(pages) == Listing(q)
    ensures forall i :: 0 <= i < |pages| - 1 ==> |pages[i]| == sizes(i)
  {
    hide Rest, Listing, Traversal, Reserved, SplitPrefix, DirKey, Looks, WellFormed;
    FirstTokenOwesListing(q);
    EarlyAnswers(q);
    pages := [];
    var token := FirstToken(q);
    while true
      invariant !Looks(q) ==> pages == []
      invariant Looks(q) ==> FramesOk(q, token) && Concat(pages) + Rest(q, token) == Listing(q)
      invariant token != []
      invariant forall i :: 0 <= i < |token| ==> DirKey(token[i].dir)
      invariant forall i :: 0 <= i < |pages| ==> |pages[i]| == sizes(i)
      decreases |Rest(q, token)|
    {
      var r := ListPage(q, token, sizes(|pages|));
      assert (pages + [r.out])[..|pages|] == pages;
      pages := pages + [r.out];
      if r.next.None? {
        return;
      }
      token := r.next.value;
    }
  }
}
