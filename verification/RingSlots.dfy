/**
 * The io_uring thread: a table of slots, a list of free slot ids, a count of operations in
 * flight and a backlog.  What the senders, the kernel and the queue do is an input, round by
 * round.
 */
module RingSlots {
  import opened Posix

  /** An operation received from the channel. */
  type Op = nat

  function Stored(slots: seq<Option<Op>>): multiset<Op> {
    if slots == [] then multiset{}
    else
      var n := |slots| - 1;
      Stored(slots[..n]) + Content(slots[n])
  }

  function Occupied(slots: seq<Option<Op>>): nat {
    if slots == [] then 0 else Occupied(slots[..|slots| - 1]) + (if slots[|slots| - 1].Some? then 1 else 0)
  }

  function Content(slot: Option<Op>): multiset<Op> {
    if slot.Some? then multiset{slot.value} else multiset{}
  }

  lemma {:induction false} PutInSlot(slots: seq<Option<Op>>, id: nat, op: Op)
    requires id < |slots| && slots[id].None?
    ensures Stored(slots[id := Some(op)]) == Stored(slots) + multiset{op}
    ensures Occupied(slots[id := Some(op)]) == Occupied(slots) + 1
  {
    hide Content;
    var n, after := |slots| - 1, slots[id := Some(op)];
    if id == n {
      assert after[..n] == slots[..n];
      assert Content(slots[n]) == multiset{} && Content(after[n]) == multiset{op} by { ContentIs(op); }
    } else {
      PutInSlot(slots[..n], id, op);
      assert after[..n] == slots[..n][id := Some(op)];
    }
  }

  lemma ContentIs(op: Op)
    ensures Content(None) == multiset{} && Content(Some(op)) == multiset{op}
  {
  }

  lemma TakeFromSlot(slots: seq<Option<Op>>, id: nat)
    requires id < |slots| && slots[id].Some?
    ensures Stored(slots) == Stored(slots[id := None]) + multiset{slots[id].value}
    ensures Occupied(slots) == Occupied(slots[id := None]) + 1
  {
    PutInSlot(slots[id := None], id, slots[id].value);
    assert slots[id := None][id := Some(slots[id].value)] == slots;
  }

  lemma {:induction false} NoneStored(slots: seq<Option<Op>>)
    requires Occupied(slots) == 0
    ensures Stored(slots) == multiset{}
  {
    if slots != [] { NoneStored(slots[..|slots| - 1]); }
  }

  function EmptySlots(n: nat): (slots: seq<Option<Op>>)
    ensures |slots| == n && forall i :: 0 <= i < n ==> slots[i].None?
  {
    seq(n, _ => None)
  }

  lemma {:induction false} AllEmpty(slots: seq<Option<Op>>)
    requires forall i :: 0 <= i < |slots| ==> slots[i].None?
    ensures Stored(slots) == multiset{} && Occupied(slots) == 0
  {
    if slots != [] { AllEmpty(slots[..|slots| - 1]); }
  }

  /** The free ids and the occupied slots are complementary, without repetition. */
  predicate Partition(slots: seq<Option<Op>>, free: seq<nat>) {
    && (forall i :: 0 <= i < |free| ==> free[i] < |slots| && slots[free[i]].None?)
    && (forall i, j :: 0 <= i < j < |free| ==> free[i] != free[j])
    && (forall id :: 0 <= id < |slots| && slots[id].None? ==> id in free)
  }

  lemma OccupyFirstFree(slots: seq<Option<Op>>, free: seq<nat>, op: Op)
    requires Partition(slots, free) && free != []
    ensures Partition(slots[free[0] := Some(op)], free[1..])
  {
    var slots', rest := slots[free[0] := Some(op)], free[1..];
    assert forall i :: 0 <= i < |rest| ==> rest[i] == free[i + 1];
    forall id | 0 <= id < |slots'| && slots'[id].None?
      ensures id in rest
    {
      var i :| 0 <= i < |free| && free[i] == id;
      assert rest[i - 1] == id;
    }
  }

  lemma FreeSlot(slots: seq<Option<Op>>, free: seq<nat>, id: nat)
    requires Partition(slots, free) && id < |slots| && slots[id].Some?
    ensures Partition(slots[id := None], free + [id])
  {
    var slots', more := slots[id := None], free + [id];
    assert more[|free|] == id;
    assert forall i :: 0 <= i < |free| ==> more[i] == free[i];
  }

  /** The kernel has exactly the occupied slots' ids. */
  ghost predicate Owns(kernel: set<nat>, slots: seq<Option<Op>>) {
    forall id :: id in kernel <==> 0 <= id < |slots| && slots[id].Some?
  }

  function AllIds(n: nat): (ids: seq<nat>)
    ensures |ids| == n && forall i :: 0 <= i < n ==> ids[i] == i
  {
    seq(n, i => i)
  }

  lemma AllFree(n: nat)
    ensures Partition(EmptySlots(n), AllIds(n))
  {
    forall id | 0 <= id < n ensures id in AllIds(n) { assert AllIds(n)[id] == id; }
  }

  lemma NextOf(done: seq<Op>, todo: seq<Op>, k: nat)
    requires k < |todo|
    ensures done + todo[..k] + [todo[k..][0]] == done + todo[..k + 1] && todo[k..][1..] == todo[k + 1..]
  {
  }

  lemma MoveOver(a: seq<Op>, op: Op, b: seq<Op>, c: seq<Op>)
    ensures a + ([op] + (b + c)) == a + [op] + ([] + (b + c)) == a + ([] + ([op] + b + c))
  {
  }

  /** The operations in the slots, in slot order. */
  function SlotOps(slots: seq<Option<Op>>): seq<Op> {
    if slots == [] then []
    else
      var n := |slots| - 1;
      SlotOps(slots[..n]) + if slots[n].Some? then [slots[n].value] else []
  }

  lemma NoSlotOps()
    ensures SlotOps([]) == []
  {
  }

  lemma MoreSlotOps(slots: seq<Option<Op>>, i: nat)
    requires i < |slots|
    ensures SlotOps(slots[..i + 1]) == SlotOps(slots[..i]) + if slots[i].Some? then [slots[i].value] else []
  {
    assert slots[..i + 1][..i] == slots[..i];
  }

  lemma {:induction false} SlotOpsStored(slots: seq<Option<Op>>)
    ensures multiset(SlotOps(slots)) == Stored(slots)
  {
    if slots != [] { SlotOpsStored(slots[..|slots| - 1]); }
  }

  /** The operations of the slots the kernel returns, each id once, in that order. */
  function Returned(slots: seq<Option<Op>>, kernel: set<nat>, ids: seq<nat>): seq<Op> {
    if ids == [] then []
    else if ids[0] in kernel && ids[0] < |slots| && slots[ids[0]].Some?
    then [slots[ids[0]].value] + Returned(slots, kernel - {ids[0]}, ids[1..])
    else Returned(slots, kernel, ids[1..])
  }

  lemma ReturnedStep(slots: seq<Option<Op>>, kernel: set<nat>, ids: seq<nat>, k: nat)
    requires k < |ids|
    ensures Returned(slots, kernel, ids[k..])
            == if ids[k] in kernel && ids[k] < |slots| && slots[ids[k]].Some?
               then [slots[ids[k]].value] + Returned(slots, kernel - {ids[k]}, ids[k + 1..])
               else Returned(slots, kernel, ids[k + 1..])
  {
    assert ids[k..][1..] == ids[k + 1..];
  }

  /** A slot whose id the kernel no longer has does not matter. */
  lemma {:induction false} ReturnedElsewhere(slots: seq<Option<Op>>, kernel: set<nat>, ids: seq<nat>, id: nat)
    requires id !in kernel && id < |slots|
    ensures Returned(slots[id := None], kernel, ids) == Returned(slots, kernel, ids)
    decreases ids
  {
    if ids != [] {
      ReturnedElsewhere(slots, kernel, ids[1..], id);
      ReturnedElsewhere(slots, kernel - {ids[0]}, ids[1..], id);
    }
  }

  /**
   * One round of the loop as the others see it: the operations that arrive in time for it and
   * whether the last sender then goes, the ids the kernel has returned, whether the ring is
   * cancelled, after how many pushes the queue is full, and so on; `late` arrives after the fill.
   */
  datatype Round = Round(
    early: seq<Op>, hangsUp: bool, returned: seq<nat>, cancelled: bool, pushFails: Option<nat>, submitFails: bool,
    returnedLate: seq<nat>, waitFails: bool, late: seq<Op>, hangsUpLate: bool)

  /** Nothing goes wrong in the round. */
  predicate Calm(r: Round) {
    !r.cancelled && r.pushFails.None? && !r.submitFails && !r.waitFails
  }

  /** The kernel returns everything it has, both times. */
  predicate Prompt(r: Round, depth: nat) {
    forall id :: 0 <= id < depth ==> id in r.returned && id in r.returnedLate
  }

  predicate Untroubled(rounds: seq<Round>, depth: nat) {
    forall i :: 0 <= i < |rounds| ==> Calm(rounds[i]) && Prompt(rounds[i], depth)
  }

  lemma CancelledIsNotCalm(r: Round)
    ensures r.cancelled ==> !Calm(r)
  {
  }

  datatype End = Running | Closed | Cancelled

  class Ring {
    const depth: nat
    var slots: seq<Option<Op>>
    var free: seq<nat>
    var inflight: nat
    var backlog: seq<Op>
    var rxClosed: bool
    var fatal: bool
    var kernel: set<nat>      // ids handed to the kernel and not yet returned
    var chan: seq<Op>         // sent and not yet received
    var hungUp: bool          // no sender is left
    var sent: seq<Op>         // history: everything sent, in order
    var submitted: seq<Op>    // history: everything given to the kernel, in order
    var completed: seq<Op>    // history: everything the kernel completed
    var failed: seq<Op>       // history: everything failed without

    constructor (d: nat)
      ensures Valid() && depth == Max(d, 1) && sent == [] && completed == [] && failed == [] && !hungUp && !fatal
    {
      depth := Max(d, 1);
      slots := EmptySlots(Max(d, 1));
      free := AllIds(Max(d, 1));
      inflight, backlog, kernel, rxClosed, fatal := 0, [], {}, false, false;
      chan, hungUp, sent, submitted, completed, failed := [], false, [], [], [], [];
      new;
      AllEmpty(slots);
      AllFree(depth);
    }

    /** Nothing overtakes: what was sent is what was submitted, what is in hand, the backlog and the channel, in this order. */
    ghost predicate InOrder(inHand: seq<Op>)
      reads `sent, `submitted, `backlog, `chan
    {
      sent == submitted + (inHand + (backlog + chan))
    }

    /** Nothing submitted is lost or completed twice. */
    ghost predicate Books()
      reads `submitted, `completed, `slots
    {
      multiset(submitted) == multiset(completed) + Stored(slots)
    }

    ghost predicate SlotsOk()
      reads `slots, `free, `inflight, `kernel
    {
      && |slots| == depth >= 1 && Partition(slots, free)
      && inflight == Occupied(slots) && inflight + |free| == depth
      && Owns(kernel, slots)
    }

    ghost predicate Table()
      reads `slots, `free, `inflight, `kernel, `submitted, `completed
    {
      SlotsOk() && Books()
    }

    ghost predicate Valid()
      reads this
    {
      Table() && InOrder([]) && failed == [] && (rxClosed ==> hungUp && chan == [])
    }

    /** What is left to submit, and one more until the thread has seen that no sender is left. */
    function Left(): nat
      reads `backlog, `chan, `rxClosed
    {
      |backlog| + |chan| + if rxClosed then 0 else 1
    }

    /** Operations arrive as long as there is a sender. */
    method Arrive(ops: seq<Op>, hangsUp: bool)
      requires InOrder([])
      modifies `chan, `sent, `hungUp
      ensures InOrder([])
      ensures old(hungUp) ==> hungUp && chan == old(chan) && sent == old(sent)
      ensures !old(hungUp) ==> hungUp == hangsUp && chan == old(chan) + ops && sent == old(sent) + ops
    {
      if !hungUp {
        chan, sent, hungUp := chan + ops, sent + ops, hangsUp;
      }
    }

    /** One completion: the id is in range, its slot is occupied and the operation is completed. */
    method Complete(id: nat)
      requires Table() && id in kernel
      modifies `slots, `free, `inflight, `kernel, `completed
      ensures Table() && old(id < |slots| && slots[id].Some?)
      ensures completed == old(completed) + [old(slots[id].value)] && kernel == old(kernel) - {id}
      ensures slots == old(slots)[id := None] && free == old(free) + [id] && inflight == old(inflight) - 1
    {
      hide Stored, Occupied, Partition;
      kernel := kernel - {id};
      TakeFromSlot(slots, id);
      FreeSlot(slots, free, id);
      var item := slots[id];
      slots := slots[id := None];
      free := free + [id];
      inflight := Max(inflight, 1) - 1; // saturating
      completed := completed + [item.value];
    }

    /** `reap_all`: completes the operations whose ids the kernel returns, in that order. */
    method ReapAll(ids: seq<nat>)
      requires Table()
      modifies `slots, `free, `inflight, `kernel, `completed
      ensures Table() && completed == old(completed) + Returned(old(slots), old(kernel), ids)
      ensures kernel == old(kernel) - set id | id in ids
      ensures (forall id :: 0 <= id < depth ==> id in ids) ==> inflight == 0
      ensures inflight <= old(inflight)
    {
      hide SlotsOk, Books;
      var k := 0;
      while k < |ids|
        invariant k <= |ids| && Table() && inflight <= old(inflight)
        invariant completed + Returned(slots, kernel, ids[k..]) == old(completed) + Returned(old(slots), old(kernel), ids)
        invariant kernel == old(kernel) - set id | id in ids[..k]
      {
        ghost var before, had := slots, kernel;
        ReturnedStep(slots, kernel, ids, k);
        if ids[k] in kernel {
          KernelInSlots(ids[k]);
          Complete(ids[k]);
          ReturnedElsewhere(before, kernel, ids[k + 1..], ids[k]);
        }
        assert ids[..k + 1] == ids[..k] + [ids[k]];
        k := k + 1;
      }
      assert ids[..k] == ids && ids[k..] == [];
      if forall id :: 0 <= id < depth ==> id in ids { NothingInKernel(); }
    }

    lemma KernelInSlots(id: nat)
      requires SlotsOk() && id in kernel
      ensures id < |slots| && slots[id].Some?
    {
    }

    lemma NothingInKernel()
      requires SlotsOk() && forall id :: 0 <= id < depth ==> id !in kernel
      ensures inflight == 0
    {
      AllEmpty(slots);
    }

    /** Puts an operation into the first free slot; if the queue push fails it goes back to the front of the backlog. */
    method SubmitItem(op: Op, pushes: bool)
      requires Table() && InOrder([op]) && free != []
      modifies `slots, `free, `inflight, `backlog, `kernel, `submitted
      ensures Table() && InOrder([])
      ensures pushes ==> inflight == old(inflight) + 1 && backlog == old(backlog) && submitted == old(submitted) + [op]
      ensures pushes ==> slots == old(slots)[old(free[0]) := Some(op)] && free == old(free)[1..] && kernel == old(kernel) + {old(free[0])}
      ensures !pushes ==> backlog == [op] + old(backlog) && slots == old(slots) && free == old(free) && kernel == old(kernel)
      ensures !pushes ==> submitted == old(submitted) && inflight == old(inflight)
    {
      hide Stored, Occupied, Partition;
      var id := free[0];
      assert slots[id].None? && id < |slots| by { FirstFreeIsEmpty(slots, free); }
      PutInSlot(slots, id, op);
      OccupyFirstFree(slots, free, op);
      MoveOver(submitted, op, backlog, chan);
      if pushes {
        free := free[1..];
        slots := slots[id := Some(op)];
        kernel := kernel + {id};
        inflight := inflight + 1;
        submitted := submitted + [op];
      } else {
        backlog := [op] + backlog;
      }
    }

    /** The next operation, from the backlog or else from the channel. */
    method TakeNext() returns (op: Op)
      requires InOrder([]) && backlog + chan != []
      modifies `backlog, `chan
      ensures InOrder([op]) && [op] + (backlog + chan) == old(backlog + chan)
      ensures |backlog| + |chan| + 1 == old(|backlog| + |chan|) && (old(chan) == [] ==> chan == [])
    {
      if backlog != [] {
        op := backlog[0];
        assert backlog == [op] + backlog[1..];
        backlog := backlog[1..];
      } else {
        op := chan[0];
        assert chan == [op] + chan[1..];
        chan := chan[1..];
      }
    }

    /** One operation is submitted, or stays in front of those to come. */
    method PushNext(pushes: bool)
      requires Table() && InOrder([]) && backlog + chan != [] && inflight < depth
      modifies `slots, `free, `inflight, `backlog, `chan, `kernel, `submitted
      ensures Table() && InOrder([]) && (old(chan) == [] ==> chan == [])
      ensures pushes ==>
                && inflight == old(inflight) + 1 && submitted == old(submitted) + [old(backlog + chan)[0]]
                && backlog + chan == old(backlog + chan)[1..]
      ensures !pushes ==> inflight == old(inflight) && submitted == old(submitted) && backlog + chan == old(backlog + chan)
    {
      hide Table, InOrder;
      SomeSlotFree();
      var op := TakeNext();
      SubmitItem(op, pushes);
    }

    /**
     * Fills the submission queue from the backlog and then from the channel, in order, until
     * the ring is full, nothing is left or a push fails; notices if no sender is left.
     */
    method Fill(pushFails: Option<nat>) returns (pushed: nat)
      requires Valid() && !fatal
      modifies `slots, `free, `inflight, `backlog, `chan, `kernel, `submitted, `rxClosed, `fatal
      ensures Valid()
      ensures var todo, room := old(backlog + chan), depth - old(inflight);
              && (fatal <==> pushFails.Some? && pushFails.value < Min(room, |todo|))
              && pushed == (if fatal then pushFails.value else Min(room, |todo|))
              && submitted == old(submitted) + todo[..pushed] && backlog + chan == todo[pushed..]
              && inflight == old(inflight) + pushed
              && (rxClosed <==> old(rxClosed) || (hungUp && !fatal && |todo| < room))
    {
      hide Table, InOrder;
      ghost var todo := backlog + chan;
      WithinDepth();
      pushed := 0;
      while inflight < depth
        invariant Table() && InOrder([]) && (rxClosed ==> chan == [])
        invariant pushed <= |todo| && inflight == old(inflight) + pushed <= depth
        invariant submitted == old(submitted) + todo[..pushed] && backlog + chan == todo[pushed..]
        invariant !fatal && rxClosed == old(rxClosed) && (pushFails.Some? ==> pushed <= pushFails.value)
        decreases depth - inflight
      {
        if backlog + chan == [] {
          rxClosed := rxClosed || hungUp;
          return;
        }
        PushNext(pushFails != Some(pushed));
        if pushFails == Some(pushed) {
          fatal := true;
          return;
        }
        NextOf(old(submitted), todo, pushed);
        pushed := pushed + 1;
      }
    }

    lemma WithinDepth()
      requires Table()
      ensures inflight <= depth && depth >= 1 && |slots| == depth
    {
    }

    lemma SomeSlotFree()
      requires Table() && inflight < depth
      ensures free != []
    {
    }

    /** After a fatal error everything still held, and everything left in the channel, is failed. */
    method FailEverything()
      requires |slots| == depth
      modifies `slots, `backlog, `chan, `failed
      ensures backlog == [] && chan == []
      ensures failed == old(failed) + (old(backlog) + (SlotOps(old(slots)) + old(chan)))
    {
      hide SlotOps;
      failed, backlog := failed + backlog, [];
      ghost var was := failed;
      var i := 0;
      NoSlotOps();
      while i < depth
        invariant i <= depth && |slots| == depth && backlog == [] && chan == old(chan)
        invariant slots[i..] == old(slots)[i..] && failed == was + SlotOps(old(slots)[..i])
      {
        MoreSlotOps(old(slots), i);
        if slots[i].Some? {
          failed := failed + [slots[i].value];
          slots := slots[i := None];
        }
        i := i + 1;
      }
      assert old(slots)[..depth] == old(slots);
      failed, chan := failed + chan, [];
    }

    /** Blocks for one message, which goes to the backlog, or sees that no sender is left. */
    method BlockForOne(late: seq<Op>, hangsUp: bool)
      requires Valid() && !rxClosed
      modifies `chan, `sent, `hungUp, `backlog, `rxClosed
      ensures Valid()
      ensures old(hungUp) ==> sent == old(sent) && hungUp && backlog + chan == old(backlog + chan) && Left() <= old(Left())
      ensures old(hungUp && chan == []) ==> Left() + 1 == old(Left())
      ensures !old(hungUp) ==> hungUp == hangsUp && sent == old(sent) + late && backlog + chan == old(backlog + chan) + late
      ensures rxClosed <==> hungUp && old(chan) == [] && (old(hungUp) || late == [])
      ensures var there := old(chan) + if old(hungUp) then [] else late;
              var k := Min(1, |there|);
              backlog == old(backlog) + there[..k] && chan == there[k..]
    {
      hide Table;
      Arrive(late, hangsUp);
      if chan != [] {
        assert chan == [chan[0]] + chan[1..];
        backlog, chan := backlog + [chan[0]], chan[1..];
      } else if hungUp {
        rxClosed := true;
      }
    }

    lemma AllCompleted()
      requires Valid() && inflight == 0 && backlog == [] && chan == []
      ensures submitted == sent && multiset(completed) == multiset(sent)
    {
      NoneStored(slots);
      assert sent == submitted;
    }

    /** Completed or failed is everything that was sent. */
    ghost predicate Settled()
      reads `sent, `completed, `failed
    {
      multiset(sent) == multiset(completed) + multiset(failed)
    }

    method StopCancelled()
      requires Valid()
      modifies `slots, `backlog, `chan, `failed
      ensures Settled() && failed == old(backlog) + (SlotOps(old(slots)) + old(chan))
    {
      hide Stored, SlotOps, Occupied, Partition;
      SlotOpsStored(slots);
      FailEverything();
    }

    /** The end of a round: stop, wait for a completion, or wait for a message. */
    method Finish(r: Round) returns (end: End)
      requires Valid() && !fatal
      modifies `fatal, `chan, `sent, `hungUp, `backlog, `rxClosed
      ensures if old(hungUp) then sent == old(sent) && hungUp else sent == old(sent) || sent == old(sent) + r.late
      ensures !end.Cancelled? && Valid() && (fatal <==> r.waitFails && old(inflight) > 0)
      ensures old(inflight) > 0 ==> end.Running? && sent == old(sent) && backlog == old(backlog) && chan == old(chan)
      ensures end.Closed? ==> hungUp && submitted == sent && multiset(completed) == multiset(sent)
      ensures old(hungUp && inflight == 0) ==> Left() <= old(Left())
      ensures old(rxClosed && inflight == 0 && backlog == []) ==> end.Closed?
    {
      hide Table, InOrder;
      if rxClosed && inflight == 0 && backlog == [] {
        AllCompleted();
        return Closed;
      }
      if inflight > 0 {
        fatal := r.waitFails;
      } else if !rxClosed {
        BlockForOne(r.late, r.hangsUpLate);
      }
      end := Running;
    }

    /** A round after the check for cancellation. */
    method Proceed(r: Round) returns (end: End)
      requires Valid() && !fatal
      modifies this
      ensures if old(hungUp) then sent == old(sent) && hungUp else sent == old(sent) || sent == old(sent) + r.late
      ensures !end.Cancelled? && Valid() && (fatal ==> !Calm(r))
      ensures var n := Min(depth - old(inflight), |old(backlog + chan)|);
              (r.pushFails.Some? && r.pushFails.value < n) || (r.submitFails && n > 0) ==> fatal
      ensures end.Closed? ==> hungUp && submitted == sent && multiset(completed) == multiset(sent)
      ensures Calm(r) && Prompt(r, depth) && old(hungUp && inflight == 0) && !end.Closed? ==> Left() < old(Left())
    {
      hide Table, InOrder, Returned;
      WithinDepth();
      var pushed := Fill(r.pushFails);
      LeftAfter(old(backlog), old(chan), pushed);
      if pushed > 0 && r.submitFails {
        fatal := true;
        return Running;
      }
      ReapAll(r.returnedLate);
      if fatal {
        return Running;
      }
      end := Finish(r);
    }

    lemma LeftAfter(was: seq<Op>, chanWas: seq<Op>, pushed: nat)
      requires pushed <= |was + chanWas| && backlog + chan == (was + chanWas)[pushed..]
      ensures |backlog| + |chan| + pushed == |was| + |chanWas|
    {
      assert |backlog + chan| == |was + chanWas| - pushed;
    }

    /** One round of the loop. */
    method OneRound(r: Round) returns (end: End)
      requires Valid()
      modifies this
      ensures if old(hungUp) then sent == old(sent) && hungUp
              else sent == old(sent) + r.early || (!r.hangsUp && sent == old(sent) + r.early + r.late)
      ensures end.Cancelled? <==> r.cancelled || old(fatal)
      ensures if end.Cancelled? then Settled() else Valid()
      ensures end.Closed? ==> hungUp && submitted == sent && multiset(completed) == multiset(sent)
      ensures fatal ==> old(fatal) || !Calm(r)
      ensures Calm(r) && Prompt(r, depth) && !old(fatal) && old(hungUp) && !end.Closed? ==> Left() < old(Left())
    {
      hide Table, InOrder, Returned, SlotOps, Settled, Calm;
      Arrive(r.early, r.hangsUp);
      ReapAll(r.returned);
      if fatal || r.cancelled {
        CancelledIsNotCalm(r);
        StopCancelled();
        return Cancelled;
      }
      end := Proceed(r);
    }

    /**
     * The thread over any rounds: nothing overtakes, nothing is lost or finished twice, and
     * the slot table stays right.  It stops because the senders are gone, everything sent
     * having been completed, or because it was cancelled or something failed, everything sent
     * having been completed or failed; a cancelled round always stops it.  With no sender left,
     * nothing failing and a kernel that returns what it has, it stops by itself.
     */
    method IoThread(rounds: seq<Round>) returns (end: End)
      requires Valid()
      modifies this
      ensures old(sent) <= sent
      ensures end.Running? ==> Valid()
      ensures end.Closed? ==> Valid() && hungUp && submitted == sent && multiset(completed) == multiset(sent)
      ensures end.Cancelled? ==> Settled() && (old(fatal) || exists i :: 0 <= i < |rounds| && !Calm(rounds[i]))
      ensures (exists i :: 0 <= i < |rounds| && rounds[i].cancelled) ==> !end.Running?
      ensures !old(fatal) && old(hungUp) && Untroubled(rounds, depth) && |rounds| > old(Left()) ==> end.Closed?
    {
      hide Valid, Calm, Prompt;
      end := Running;
      for i := 0 to |rounds|
        invariant end.Running? && Valid() && old(sent) <= sent && (old(hungUp) ==> hungUp)
        invariant !fatal || old(fatal) || exists j :: 0 <= j < i && !Calm(rounds[j])
        invariant forall j :: 0 <= j < i ==> !rounds[j].cancelled
        invariant !old(fatal) && old(hungUp) && Untroubled(rounds, depth) ==> Left() + i <= old(Left())
      {
        end := OneRound(rounds[i]);
        if !end.Running? {
          assert end.Cancelled? && rounds[i].cancelled ==> !Calm(rounds[i]) by { CancelledIsNotCalm(rounds[i]); }
          return;
        }
      }
    }
  }

  lemma FirstFreeIsEmpty(slots: seq<Option<Op>>, free: seq<nat>)
    requires Partition(slots, free) && free != []
    ensures free[0] < |slots| && slots[free[0]].None?
  {
  }
}
