/**
 * The buffer pool: a bounded queue of buffers behind a semaphore.  Taking a permit and
 * popping, pushing back and releasing the permit are separate atomic steps of separate
 * tasks; each is one method here and any interleaving is a sequence of calls.
 */
module BufPool {
  import opened Posix

  /** A buffer's identity. */
  type Buf = nat

  /** What some task does next; a step its task is not ready for does nothing. */
  datatype Step = Warm | Publish(n: nat) | Acquire | Take | GiveBack(buf: Buf) | Release

  /** How many buffers the steps try to warm. */
  function Warmed(steps: seq<Step>): nat {
    if steps == [] then 0 else Warmed(steps[..|steps| - 1]) + if steps[|steps| - 1].Warm? then 1 else 0
  }

  lemma WarmedStep(steps: seq<Step>, i: nat)
    requires i < |steps|
    ensures Warmed(steps[..i + 1]) == Warmed(steps[..i]) + if steps[i].Warm? then 1 else 0
  {
    assert steps[..i + 1][..i] == steps[..i];
  }

  lemma {:induction false} WarmedGrows(steps: seq<Step>, i: nat)
    requires i <= |steps|
    ensures Warmed(steps[..i]) <= Warmed(steps)
    decreases |steps| - i
  {
    if i < |steps| {
      WarmedStep(steps, i);
      WarmedGrows(steps, i + 1);
    } else {
      assert steps[..i] == steps;
    }
  }

  /**
   * The pool between two steps: the queue, the permits to be had, those taken whose buffer is
   * not yet popped, the buffers in use, the permits whose buffer is back in the queue already,
   * the warmed buffers whose permits are not yet added, and how many were ever made.
   */
  datatype Stock = Stock(
    queue: seq<Buf>, permits: nat, entitled: nat, held: set<Buf>, returning: nat, unpublished: nat, made: nat)

  /** Every buffer is in exactly one place, and every queued buffer has a permit somewhere. */
  ghost predicate Sound(s: Stock) {
    && Distinct(s.queue)
    && (forall i :: 0 <= i < |s.queue| ==> s.queue[i] < s.made && s.queue[i] !in s.held)
    && (forall b :: b in s.held ==> b < s.made)
    && (forall b :: 0 <= b < s.made ==> b in s.queue || b in s.held)
    && |s.queue| + |s.held| == s.made
    && |s.queue| == s.permits + s.entitled + s.returning + s.unpublished
  }

  /** One step on a queue of this capacity; None is a panic. */
  function Do(s: Stock, capacity: nat, step: Step): Option<Stock> {
    match step
    case Warm =>
      if |s.queue| >= capacity then None
      else Some(s.(queue := s.queue + [s.made], made := s.made + 1, unpublished := s.unpublished + 1))
    case Publish(n) => Some(if n <= s.unpublished then s.(permits := s.permits + n, unpublished := s.unpublished - n) else s)
    case Acquire => Some(if s.permits > 0 then s.(permits := s.permits - 1, entitled := s.entitled + 1) else s)
    case Take =>
      if s.entitled == 0 then Some(s)
      else if s.queue == [] then None
      else Some(s.(queue := s.queue[1..], entitled := s.entitled - 1, held := s.held + {s.queue[0]}))
    case GiveBack(b) =>
      if b !in s.held then Some(s)
      else if |s.queue| >= capacity then None
      else Some(s.(queue := s.queue + [b], held := s.held - {b}, returning := s.returning + 1))
    case Release => Some(if s.returning > 0 then s.(permits := s.permits + 1, returning := s.returning - 1) else s)
  }

  function DoAll(s: Stock, capacity: nat, steps: seq<Step>): Option<Stock>
    decreases |steps|
  {
    if steps == [] then Some(s)
    else match Do(s, capacity, steps[0])
      case None => None
      case Some(s') => DoAll(s', capacity, steps[1..])
  }

  lemma {:induction false} DoMore(s: Stock, capacity: nat, steps: seq<Step>, more: seq<Step>)
    ensures DoAll(s, capacity, steps + more)
            == match DoAll(s, capacity, steps) case None => None case Some(s') => DoAll(s', capacity, more)
    decreases |steps|
  {
    hide Do;
    if steps == [] {
      assert steps + more == more;
    } else {
      assert (steps + more)[1..] == steps[1..] + more;
      match Do(s, capacity, steps[0])
      case None =>
      case Some(s') => DoMore(s', capacity, steps[1..], more);
    }
  }

  lemma DoLast(s: Stock, capacity: nat, steps: seq<Step>, i: nat)
    requires i < |steps|
    ensures DoAll(s, capacity, steps[..i + 1])
            == match DoAll(s, capacity, steps[..i]) case None => None case Some(s') => Do(s', capacity, steps[i])
  {
    hide Do;
    assert steps[..i + 1] == steps[..i] + [steps[i]];
    DoMore(s, capacity, steps[..i], [steps[i]]);
  }

  /** Taking a buffer and giving it back moves it to the end of the queue and changes nothing else. */
  lemma RoundTrip(s: Stock, capacity: nat)
    requires Sound(s) && s.permits > 0 && |s.queue| <= capacity
    ensures s.queue != []
    ensures var b := s.queue[0];
            DoAll(s, capacity, [Acquire, Take, GiveBack(b), Release]) == Some(s.(queue := s.queue[1..] + [b]))
  {
    var b := s.queue[0];
    var s1 := s.(permits := s.permits - 1, entitled := s.entitled + 1);
    var s2 := s1.(queue := s.queue[1..], entitled := s.entitled, held := s.held + {b});
    var s3 := s2.(queue := s.queue[1..] + [b], held := s.held, returning := s.returning + 1);
    assert s.held + {b} - {b} == s.held;
    assert Do(s, capacity, Acquire) == Some(s1) && Do(s1, capacity, Take) == Some(s2);
    assert Do(s2, capacity, GiveBack(b)) == Some(s3);
    FourSteps(s, s1, s2, s3, capacity, b);
  }

  lemma FourSteps(s: Stock, s1: Stock, s2: Stock, s3: Stock, capacity: nat, b: Buf)
    requires Do(s, capacity, Acquire) == Some(s1) && Do(s1, capacity, Take) == Some(s2)
    requires Do(s2, capacity, GiveBack(b)) == Some(s3)
    ensures DoAll(s, capacity, [Acquire, Take, GiveBack(b), Release]) == Do(s3, capacity, Release)
  {
    hide Do;
    var steps := [Acquire, Take, GiveBack(b), Release];
    assert steps[1..] == [Take, GiveBack(b), Release] && steps[1..][1..] == [GiveBack(b), Release];
    assert [GiveBack(b), Release][1..] == [Release];
    assert DoAll(s2, capacity, [GiveBack(b), Release]) == DoAll(s3, capacity, [Release]);
  }

  /** Whoever has a permit takes its buffer, whoever has a buffer gives it back, and the permits follow. */
  function NextHome(s: Stock, b: Buf): Step {
    if s.entitled > 0 then Take
    else if b in s.held then GiveBack(b)
    else if s.returning > 0 then Release
    else Publish(s.unpublished)
  }

  function Outstanding(s: Stock): nat {
    3 * s.entitled + 2 * |s.held| + s.returning + if s.unpublished > 0 then 1 else 0
  }

  lemma TakeHome(s: Stock, capacity: nat)
    requires Sound(s) && s.entitled > 0
    ensures var r := Do(s, capacity, Take);
            r.Some? && Sound(r.value) && r.value.made == s.made && Outstanding(r.value) < Outstanding(s)
  {
    var c := s.queue[0];
    assert s.queue == [c] + s.queue[1..];
    assert |s.held + {c}| == |s.held| + 1;
  }

  lemma GiveHome(s: Stock, capacity: nat, b: Buf)
    requires Sound(s) && s.made <= capacity && b in s.held
    ensures var r := Do(s, capacity, GiveBack(b));
            r.Some? && Sound(r.value) && r.value.made == s.made && Outstanding(r.value) < Outstanding(s)
  {
    assert |s.held - {b}| == |s.held| - 1;
  }

  lemma OneHome(s: Stock, capacity: nat, b: Buf)
    requires Sound(s) && s.made <= capacity && (s.held != {} ==> b in s.held) && Outstanding(s) > 0
    ensures var r := Do(s, capacity, NextHome(s, b));
            r.Some? && Sound(r.value) && r.value.made == s.made && Outstanding(r.value) < Outstanding(s)
  {
    if s.entitled > 0 {
      TakeHome(s, capacity);
    } else if s.held != {} {
      GiveHome(s, capacity, b);
    }
  }

  /** Nothing is lost: from every sound pool that was not warmed beyond its size, all permits can come back. */
  lemma {:induction false} AllComeBack(s: Stock, capacity: nat) returns (steps: seq<Step>)
    requires Sound(s) && s.made <= capacity
    ensures var r := DoAll(s, capacity, steps);
            r.Some? && r.value.permits == |r.value.queue| == r.value.made == s.made && r.value.held == {}
    decreases Outstanding(s)
  {
    if Outstanding(s) == 0 {
      steps := [];
    } else {
      var b := 0;
      if s.held != {} { b :| b in s.held; }
      OneHome(s, capacity, b);
      hide Sound, Outstanding, NextHome, Do;
      var step := NextHome(s, b);
      var rest := AllComeBack(Do(s, capacity, step).value, capacity);
      steps := [step] + rest;
      assert steps[1..] == rest;
    }
  }

  class Pool {
    const capacity: nat
    var queue: seq<Buf>
    var permits: nat
    var entitled: nat
    var held: set<Buf>
    var returning: nat
    var unpublished: nat
    var made: nat

    constructor (poolSize: nat)
      ensures Valid() && capacity == Max(poolSize, 1) && View() == Stock([], 0, 0, {}, 0, 0, 0)
    {
      capacity := Max(poolSize, 1);
      queue, permits, entitled, held, returning, unpublished, made := [], 0, 0, {}, 0, 0, 0;
    }

    function View(): Stock
      reads this
    {
      Stock(queue, permits, entitled, held, returning, unpublished, made)
    }

    ghost predicate Valid()
      reads this
    {
      Sound(View()) && |queue| <= capacity
    }

    /** A push of a new buffer panics exactly if the queue is full. */
    method WarmPush() returns (ok: bool)
      requires Valid()
      modifies this
      ensures Valid() && (ok <==> old(|queue|) < capacity)
      ensures View() == if ok then Do(old(View()), capacity, Step.Warm).value else old(View())
    {
      if |queue| == capacity {
        return false;
      }
      queue := queue + [made];
      made := made + 1;
      unpublished := unpublished + 1;
      return true;
    }

    method WarmPublish(n: nat)
      requires Valid() && n <= unpublished
      modifies this
      ensures Valid() && View() == old(View()).(permits := old(permits) + n, unpublished := old(unpublished) - n)
    {
      permits := permits + n;
      unpublished := unpublished - n;
    }

    /** The semaphore hands out a permit only when it has one. */
    method TakePermit() returns (ok: bool)
      requires Valid()
      modifies this
      ensures Valid() && (ok <==> old(permits) > 0) && Some(View()) == Do(old(View()), capacity, Acquire)
      ensures permits + entitled == old(permits + entitled) && entitled == old(entitled) + if ok then 1 else 0
    {
      ok := permits > 0;
      if ok {
        permits := permits - 1;
        entitled := entitled + 1;
      }
    }

    /** A task with a permit pops: the queue cannot be empty. */
    method Pop() returns (b: Buf)
      requires Valid() && entitled > 0
      modifies this
      ensures Valid() && old(queue) == [b] + queue && b !in old(held) && held == old(held) + {b}
      ensures Some(View()) == Do(old(View()), capacity, Take)
    {
      b := queue[0];
      ghost var before := queue;
      queue := queue[1..];
      assert before == [b] + queue;
      entitled := entitled - 1;
      held := held + {b};
    }

    /** Dropping a buffer pushes it back first: the queue is full only if more than its capacity was warmed. */
    method PutBack(b: Buf) returns (ok: bool)
      requires Valid() && b in held
      modifies this
      ensures Valid() && (ok <==> old(|queue|) < capacity) && (made <= capacity ==> ok)
      ensures View() == if ok then Do(old(View()), capacity, GiveBack(b)).value else old(View())
      ensures ok ==> queue == old(queue) + [b] && held == old(held) - {b}
    {
      assert |held - {b}| == |held| - 1;
      if |queue| == capacity {
        return false;
      }
      queue := queue + [b];
      held := held - {b};
      returning := returning + 1;
      return true;
    }

    /** The permit is released after the buffer is back. */
    method ReleasePermit()
      requires Valid() && returning > 0
      modifies this
      ensures Valid() && View() == old(View()).(permits := old(permits) + 1, returning := old(returning) - 1)
    {
      returning := returning - 1;
      permits := permits + 1;
    }

    /** `warm`: succeeds exactly if the new buffers fit, and then publishes a permit for each. */
    method Warm(n: nat) returns (ok: bool)
      requires Valid()
      modifies this
      ensures Valid() && (ok <==> old(|queue|) + n <= capacity)
      ensures ok ==>
                View() == old(View()).(made := old(made) + n, permits := old(permits) + n,
                                       queue := old(queue) + seq(n, i requires 0 <= i => old(made) + i))
    {
      for i := 0 to n
        invariant Valid()
        invariant View() == old(View()).(made := old(made) + i, unpublished := old(unpublished) + i,
                                         queue := old(queue) + seq(i, k requires 0 <= k => old(made) + k))
      {
        ok := WarmPush();
        if !ok {
          return;
        }
      }
      WarmPublish(n);
      return true;
    }

    /**
     * Any steps of any tasks in any order, up to the first panic: the pool is what the steps
     * make of it, no pop finds the queue empty, and if no more than the capacity is ever
     * warmed, no push finds it full.
     */
    method Interleave(steps: seq<Step>) returns (panicked: bool)
      requires Valid()
      modifies this
      ensures Valid() && permits <= |queue| && |queue| + |held| == made
      ensures forall b :: 0 <= b < made ==> (b in queue <==> b !in held)
      ensures old(made) + Warmed(steps) <= capacity ==> !panicked
      ensures !panicked ==> made == old(made) + Warmed(steps)
      ensures DoAll(old(View()), capacity, steps) == if panicked then None else Some(View())
    {
      hide Do;
      assert steps[..0] == [];
      for i := 0 to |steps|
        invariant Valid() && made == old(made) + Warmed(steps[..i])
        invariant DoAll(old(View()), capacity, steps[..i]) == Some(View())
      {
        WarmedStep(steps, i);
        DoLast(old(View()), capacity, steps, i);
        var ok := TakeStep(steps[i]);
        if !ok {
          WarmedGrows(steps, i + 1);
          assert steps == steps[..i + 1] + steps[i + 1..];
          DoMore(old(View()), capacity, steps[..i + 1], steps[i + 1..]);
          return true;
        }
      }
      assert steps[..|steps|] == steps;
      return false;
    }

    method TakeStep(step: Step) returns (ok: bool)
      requires Valid()
      modifies this
      ensures Valid() && Do(old(View()), capacity, step) == if ok then Some(View()) else None
      ensures ok ==> made == old(made) + if step.Warm? then 1 else 0
      ensures !ok ==> made == old(made) && made + (if step.Warm? then 1 else 0) > capacity
    {
      ok := true;
      match step {
        case Warm => ok := WarmPush();
        case Publish(n) =>
          if n <= unpublished { WarmPublish(n); }
        case Acquire => var _ := TakePermit();
        case Take =>
          if entitled > 0 { var _ := Pop(); }
        case GiveBack(b) =>
          if b in held { ok := PutBack(b); }
        case Release =>
          if returning > 0 { ReleasePermit(); }
      }
    }

    /** If more was warmed than fits, giving all buffers back does panic. */
    method PutBackAll() returns (ok: bool)
      requires Valid()
      modifies this
      ensures Valid() && (ok <==> old(made) <= capacity)
      ensures ok ==> held == {} && |queue| == made && returning == old(returning) + old(|held|)
    {
      ok := true;
      while held != {}
        invariant Valid() && made == old(made) && ok && returning + |held| == old(returning) + old(|held|)
        decreases held
      {
        var b :| b in held;
        ok := PutBack(b);
        if !ok {
          return;
        }
      }
    }
  }
}
