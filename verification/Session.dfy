/**
 * The completion protocol of an I/O session, one atomic operation at a time: submits and
 * completions count `pending` up and down, closing sets `closed`, and whoever may have made
 * both conditions true runs the finish sequence that sends the done signal.
 */
module Session {

  datatype Pc =
    | InFlight        // submitted, not yet completed
    | Failing         // completed badly, error not yet recorded
    | Finishing       // about to decrement `pending`
    | Closing         // about to set `closed`
    | SeeClosed       // finish sequence: about to load `closed`
    | SeePending      // about to load `pending`
    | TakeDone        // about to take the one-shot sender
    | TakeErr         // has the sender, about to take the error
    | Sending(failed: bool)
    | Idle

  /** `failed` is history: some completed operation recorded an error. `sent` lists the signals: true is an error. */
  datatype State = State(
    pending: int,
    closed: bool,
    err: bool,
    done: bool,
    actors: map<nat, Pc>,
    failed: bool,
    sent: seq<bool>)

  datatype Event =
    | Submit(actor: nat)
    | Close(actor: nat)
    | Succeed(actor: nat)
    | Fail(actor: nat)
    | Step(actor: nat)

  function Initial(): State {
    State(0, false, false, true, map[], false, [])
  }

  predicate Enabled(s: State, e: Event) {
    match e
    case Submit(a) => a !in s.actors && !s.closed
    case Close(a) => a !in s.actors
    case Succeed(a) => a in s.actors && s.actors[a].InFlight?
    case Fail(a) => a in s.actors && s.actors[a].InFlight?
    case Step(a) => a in s.actors && !s.actors[a].InFlight? && !s.actors[a].Idle?
  }

  function Set(s: State, a: nat, pc: Pc): State {
    s.(actors := s.actors[a := pc])
  }

  /** What the next atomic operation of an actor does to the shared state. */
  function Effect(s: State, pc: Pc): State {
    match pc
    case Failing => s.(err := true, failed := true)
    case Finishing => s.(pending := s.pending - 1)
    case Closing => s.(closed := true)
    case TakeDone => s.(done := false)
    case TakeErr => s.(err := false)
    case Sending(f) => s.(sent := s.sent + [f])
    case _ => s
  }

  /** Where that operation leaves the actor, given what it saw. */
  function After(s: State, pc: Pc): Pc {
    match pc
    case Failing => Finishing
    case Finishing => if s.pending <= 1 then SeeClosed else Idle
    case Closing => SeeClosed
    case SeeClosed => if s.closed then SeePending else Idle
    case SeePending => if s.pending == 0 then TakeDone else Idle
    case TakeDone => if s.done then TakeErr else Idle
    case TakeErr => Sending(s.err)
    case _ => Idle
  }

  function Advance(s: State, a: nat): State
    requires a in s.actors
  {
    Set(Effect(s, s.actors[a]), a, After(s, s.actors[a]))
  }

  function Next(s: State, e: Event): State
    requires Enabled(s, e)
  {
    match e
    case Submit(a) => Set(s.(pending := s.pending + 1), a, InFlight)
    case Close(a) => Set(s, a, Closing)
    case Succeed(a) => Set(s, a, Finishing)
    case Fail(a) => Set(s, a, Failing)
    case Step(a) => Advance(s, a)
  }

  // ------------------------------------------------------------ the invariant

  predicate Counted(pc: Pc) {
    pc.InFlight? || pc.Failing? || pc.Finishing?
  }

  /** Past the check that nothing is pending. */
  predicate Committed(pc: Pc) {
    pc.TakeDone? || Holds(pc)
  }

  /** Has taken the one-shot sender. */
  predicate Holds(pc: Pc) {
    pc.TakeErr? || pc.Sending?
  }

  /** Will take the sender unless it sees a reason not to. */
  predicate Looking(pc: Pc) {
    pc.SeeClosed? || pc.SeePending? || pc.TakeDone?
  }

  function CountedActors(s: State): set<nat> {
    set a | a in s.actors && Counted(s.actors[a])
  }

  predicate CountInv(s: State) {
    s.pending == |CountedActors(s)|
  }

  predicate QuietInv(s: State) {
    && (forall a :: a in s.actors && Committed(s.actors[a]) ==> s.closed && s.pending == 0)
    && (forall a :: a in s.actors && s.actors[a].SeePending? ==> s.closed)
    && (s.sent != [] ==> s.closed && s.pending == 0)
  }

  predicate OnceInv(s: State) {
    && (forall a, b :: a in s.actors && b in s.actors && Holds(s.actors[a]) && Holds(s.actors[b]) ==> a == b)
    && (forall a :: a in s.actors && Holds(s.actors[a]) ==> !s.done && s.sent == [])
    && (s.done ==> s.sent == [])
    && |s.sent| <= 1
  }

  predicate SomeHolds(s: State) {
    exists a :: a in s.actors && Holds(s.actors[a])
  }

  predicate SomeLooks(s: State) {
    exists a :: a in s.actors && Looking(s.actors[a])
  }

  /** Nothing is lost: the signal is out, or on its way, or somebody will still look. */
  predicate ProgressInv(s: State) {
    && (!s.done ==> SomeHolds(s) || s.sent != [])
    && (s.closed && s.pending == 0 && s.done ==> SomeLooks(s))
  }

  predicate ErrInv(s: State) {
    && (s.done ==> s.err == s.failed)
    && (forall a :: a in s.actors && s.actors[a].TakeErr? ==> s.err == s.failed)
    && (forall a :: a in s.actors && s.actors[a].Sending? ==> s.actors[a].failed == s.failed)
    && (s.sent != [] ==> s.sent[0] == s.failed)
  }

  predicate Inv(s: State) {
    CountInv(s) && QuietInv(s) && OnceInv(s) && ProgressInv(s) && ErrInv(s)
  }

  // ------------------------------------------------------------ preservation

  lemma NonePendingNoneCounted(s: State, a: nat)
    requires CountInv(s) && a in s.actors && Counted(s.actors[a])
    ensures s.pending > 0
  {
    assert a in CountedActors(s);
  }

  lemma OneElementApart(before: set<nat>, after: set<nat>, a: nat)
    requires after - {a} == before - {a}
    ensures |after| == |before| + (if a in after then 1 else 0) - (if a in before then 1 else 0)
  {
    assert a in after ==> |after| == |after - {a}| + 1;
    assert a !in after ==> after == after - {a};
    assert a in before ==> |before| == |before - {a}| + 1;
    assert a !in before ==> before == before - {a};
  }

  function One(b: bool): int {
    if b then 1 else 0
  }

  predicate IsCounted(s: State, a: nat) {
    a in s.actors && Counted(s.actors[a])
  }

  /** Counting after one actor changes place. */
  lemma Recount(s: State, s': State, a: nat, pc: Pc)
    requires CountInv(s) && s'.actors == s.actors[a := pc]
    requires s'.pending == s.pending + One(Counted(pc)) - One(IsCounted(s, a))
    ensures CountInv(s')
  {
    hide Counted;
    var before, after := CountedActors(s), CountedActors(s');
    assert after - {a} == before - {a};
    assert a in after <==> Counted(pc);
    assert a in before <==> IsCounted(s, a);
    OneElementApart(before, after, a);
  }

  /** A step moves one actor; `pending` changes by what that does to the count. */
  lemma StepMovesOne(s: State, a: nat)
    requires Enabled(s, Step(a))
    ensures var s' := Advance(s, a);
            && a in s'.actors && s'.actors == s.actors[a := s'.actors[a]]
            && s'.pending == s.pending + One(Counted(s'.actors[a])) - One(IsCounted(s, a))
  {
    var pc := s.actors[a];
    assert Advance(s, a).actors == s.actors[a := After(s, pc)] && Advance(s, a).pending == Effect(s, pc).pending;
  }

  lemma NextMovesOne(s: State, e: Event)
    requires Enabled(s, e)
    ensures var s' := Next(s, e);
            && e.actor in s'.actors && s'.actors == s.actors[e.actor := s'.actors[e.actor]]
            && s'.pending == s.pending + One(Counted(s'.actors[e.actor])) - One(IsCounted(s, e.actor))
  {
    hide Advance;
    if e.Step? { StepMovesOne(s, e.actor); }
  }

  lemma NextKeepsCount(s: State, e: Event)
    requires Inv(s) && Enabled(s, e)
    ensures CountInv(Next(s, e))
  {
    hide QuietInv, OnceInv, ProgressInv, ErrInv, CountInv, Next, Counted, IsCounted, Enabled;
    NextMovesOne(s, e);
    Recount(s, Next(s, e), e.actor, Next(s, e).actors[e.actor]);
  }

  lemma NextKeepsQuiet(s: State, e: Event)
    requires Inv(s) && Enabled(s, e)
    ensures QuietInv(Next(s, e))
  {
    hide OnceInv, ProgressInv, ErrInv;
    if e.actor in s.actors && Counted(s.actors[e.actor]) { NonePendingNoneCounted(s, e.actor); }
  }

  lemma MoveKeepsOnce(s: State, s': State, a: nat, pc: Pc)
    requires OnceInv(s) && s'.actors == s.actors[a := pc] && s'.sent == s.sent
    requires s'.done == s.done || !Holds(pc)
    requires s'.done ==> s.done
    requires Holds(pc) ==> a in s.actors && Holds(s.actors[a])
    ensures OnceInv(s')
  {
    hide Holds;
  }

  lemma TakeKeepsOnce(s: State, a: nat)
    requires OnceInv(s) && s.done
    ensures OnceInv(Set(s.(done := false), a, TakeErr))
  {
    hide Holds;
    assert Holds(TakeErr) by { TakerHolds(); }
  }

  lemma TakerHolds()
    ensures Holds(TakeErr) && !Holds(Idle)
  {
  }

  lemma SendKeepsOnce(s: State, a: nat, f: bool)
    requires OnceInv(s) && a in s.actors && Holds(s.actors[a])
    ensures OnceInv(Set(s.(sent := s.sent + [f]), a, Idle))
  {
    hide Holds;
    TakerHolds();
  }

  lemma NextKeepsOnce(s: State, e: Event)
    requires Inv(s) && Enabled(s, e)
    ensures OnceInv(Next(s, e))
  {
    hide OnceInv, CountInv, QuietInv, ProgressInv, ErrInv;
    var a := e.actor;
    if e.Step? && s.actors[a].TakeDone? && s.done {
      TakeKeepsOnce(s, a);
    } else if e.Step? && s.actors[a].Sending? {
      SendKeepsOnce(s, a, s.actors[a].failed);
    } else {
      NextMovesOne(s, e);
      MoveKeepsOnce(s, Next(s, e), a, Next(s, e).actors[a]);
    }
  }

  lemma NextKeepsErr(s: State, e: Event)
    requires Inv(s) && Enabled(s, e)
    ensures ErrInv(Next(s, e))
  {
    hide ProgressInv;
    if e.actor in s.actors && Counted(s.actors[e.actor]) { NonePendingNoneCounted(s, e.actor); }
  }

  /** Whoever held the sender or was looking still does, unless it is the actor that moved. */
  lemma OthersStay(s: State, s': State, a: nat, pc: Pc)
    requires s'.actors == s.actors[a := pc]
    ensures SomeHolds(s) ==> SomeHolds(s') || (a in s.actors && Holds(s.actors[a]))
    ensures SomeLooks(s) ==> SomeLooks(s') || (a in s.actors && Looking(s.actors[a]))
    ensures (Holds(pc) ==> SomeHolds(s')) && (Looking(pc) ==> SomeLooks(s'))
  {
    hide Holds, Looking;
    assert a in s'.actors && s'.actors[a] == pc;
    if SomeHolds(s) {
      var h :| h in s.actors && Holds(s.actors[h]);
      assert h != a ==> s'.actors[h] == s.actors[h];
    }
    if SomeLooks(s) {
      var l :| l in s.actors && Looking(s.actors[l]);
      assert l != a ==> s'.actors[l] == s.actors[l];
    }
  }

  lemma NextKeepsProgress(s: State, e: Event)
    requires Inv(s) && Enabled(s, e)
    ensures ProgressInv(Next(s, e))
  {
    hide ErrInv, CountInv, OnceInv, SomeHolds, SomeLooks;
    var a := e.actor;
    if a in s.actors && Counted(s.actors[a]) { NonePendingNoneCounted(s, a); }
    OthersStay(s, Next(s, e), a, Next(s, e).actors[a]);
  }

  lemma NextKeepsInv(s: State, e: Event)
    requires Inv(s) && Enabled(s, e)
    ensures Inv(Next(s, e))
  {
    hide CountInv, QuietInv, OnceInv, ProgressInv, ErrInv, Next, Enabled;
    NextKeepsCount(s, e);
    NextKeepsQuiet(s, e);
    NextKeepsOnce(s, e);
    NextKeepsErr(s, e);
    NextKeepsProgress(s, e);
  }

  // ------------------------------------------------------------ whole runs

  predicate Possible(s: State, es: seq<Event>)
    decreases |es|
  {
    es == [] || (Enabled(s, es[0]) && Possible(Next(s, es[0]), es[1..]))
  }

  function Run(s: State, es: seq<Event>): State
    requires Possible(s, es)
    decreases |es|
  {
    if es == [] then s else Run(Next(s, es[0]), es[1..])
  }

  lemma {:induction false} RunKeepsInv(s: State, es: seq<Event>)
    requires Inv(s) && Possible(s, es)
    ensures Inv(Run(s, es))
    decreases |es|
  {
    hide Inv, Enabled, Next;
    if es != [] {
      NextKeepsInv(s, es[0]);
      RunKeepsInv(Next(s, es[0]), es[1..]);
    }
  }

  predicate Quiescent(s: State) {
    forall a :: a in s.actors ==> s.actors[a].Idle?
  }

  // ------------------------------------------------------------ the signal against the events

  /** Some operation was reported to have failed. */
  predicate AnyFail(es: seq<Event>) {
    exists i :: 0 <= i < |es| && es[i].Fail?
  }

  predicate AnyClose(es: seq<Event>) {
    exists i :: 0 <= i < |es| && es[i].Close?
  }

  predicate SomeFails(s: State) {
    exists a :: a in s.actors && s.actors[a].Failing?
  }

  predicate SomeCloses(s: State) {
    exists a :: a in s.actors && s.actors[a].Closing?
  }

  /** The state against what has happened so far. */
  ghost predicate Reflects(s: State, es: seq<Event>) {
    && (s.failed || SomeFails(s) <==> AnyFail(es))
    && (s.closed || SomeCloses(s) <==> AnyClose(es))
    && (forall a :: Submit(a) in es ==> a in s.actors && (s.actors[a].InFlight? || Succeed(a) in es || Fail(a) in es))
  }

  lemma NothingReflected()
    ensures Reflects(Initial(), [])
  {
  }

  lemma FailGrows(es: seq<Event>, e: Event)
    ensures AnyFail(es + [e]) <==> AnyFail(es) || e.Fail?
    ensures AnyClose(es + [e]) <==> AnyClose(es) || e.Close?
  {
    var all := es + [e];
    assert all[|es|] == e && forall i :: 0 <= i < |es| ==> all[i] == es[i];
  }

  /** Moving one actor: who is failing and who is closing. */
  lemma MoveFailing(s: State, s': State, a: nat, pc: Pc)
    requires s'.actors == s.actors[a := pc]
    ensures SomeFails(s) ==> SomeFails(s') || (a in s.actors && s.actors[a].Failing?)
    ensures SomeFails(s') ==> SomeFails(s) || pc.Failing?
    ensures pc.Failing? ==> SomeFails(s')
    ensures SomeCloses(s) ==> SomeCloses(s') || (a in s.actors && s.actors[a].Closing?)
    ensures SomeCloses(s') ==> SomeCloses(s) || pc.Closing?
    ensures pc.Closing? ==> SomeCloses(s')
  {
    assert a in s'.actors && s'.actors[a] == pc;
    assert forall b :: b in s.actors && b != a ==> b in s'.actors && s'.actors[b] == s.actors[b];
    assert forall b :: b in s'.actors && b != a ==> b in s.actors && s'.actors[b] == s.actors[b];
  }

  lemma NextFailing(s: State, e: Event)
    requires Enabled(s, e)
    ensures var s' := Next(s, e);
            && (s'.failed || SomeFails(s') <==> s.failed || SomeFails(s) || e.Fail?)
            && (s'.closed || SomeCloses(s') <==> s.closed || SomeCloses(s) || e.Close?)
  {
    hide SomeFails, SomeCloses;
    var s', a := Next(s, e), e.actor;
    MoveFailing(s, s', a, s'.actors[a]);
    if a in s.actors {
      assert s.actors[a := s.actors[a]] == s.actors;
      MoveFailing(s, s, a, s.actors[a]);
    }
  }

  lemma NextReflects(s: State, es: seq<Event>, e: Event)
    requires Reflects(s, es) && Enabled(s, e)
    ensures Reflects(Next(s, e), es + [e])
  {
    hide AnyFail, AnyClose, SomeFails, SomeCloses;
    FailGrows(es, e);
    NextFailing(s, e);
    forall a | Submit(a) in es + [e]
      ensures var s' := Next(s, e);
              a in s'.actors && (s'.actors[a].InFlight? || Succeed(a) in es + [e] || Fail(a) in es + [e])
    {
      assert Submit(a) in es || e == Submit(a);
    }
  }

  lemma {:induction false} RunReflects(s: State, done: seq<Event>, es: seq<Event>)
    requires Reflects(s, done) && Possible(s, es)
    ensures Reflects(Run(s, es), done + es)
    decreases |es|
  {
    hide Reflects, Enabled, Next;
    if es == [] {
      assert done + es == done;
    } else {
      NextReflects(s, done, es[0]);
      RunReflects(Next(s, es[0]), done + [es[0]], es[1..]);
      assert done + [es[0]] + es[1..] == done + es;
    }
  }

  /**
   * In every run the done signal is sent at most once, only when closed and with every
   * submitted operation completed, and it is an error exactly when some operation failed.
   * Once everything is quiescent it has been sent exactly if the session was closed.
   */
  lemma DoneSignal(es: seq<Event>)
    requires Possible(Initial(), es)
    ensures var s := Run(Initial(), es);
            && |s.sent| <= 1
            && (s.sent != [] ==> s.sent == [AnyFail(es)] && AnyClose(es))
            && (s.sent != [] ==> forall a :: Submit(a) in es ==> Succeed(a) in es || Fail(a) in es)
            && (Quiescent(s) ==> s.pending == 0 && (s.sent != [] <==> AnyClose(es)))
  {
    hide Possible, Run, AnyFail, AnyClose;
    assert Inv(Initial());
    RunKeepsInv(Initial(), es);
    NothingReflected();
    RunReflects(Initial(), [], es);
    assert [] + es == es;
    var s := Run(Initial(), es);
    if Quiescent(s) { assert CountedActors(s) == {}; }
    if s.sent != [] {
      forall a | a in s.actors
        ensures !Counted(s.actors[a])
      {
        if Counted(s.actors[a]) { NonePendingNoneCounted(s, a); }
      }
    }
  }

  /** After the signal the verdict is final: no later step changes whether an operation failed. */
  lemma {:induction false} VerdictIsFinal(s: State, es: seq<Event>)
    requires Inv(s) && Possible(s, es) && s.sent != []
    ensures Run(s, es).sent == s.sent && Run(s, es).failed == s.failed
    decreases |es|
  {
    if es != [] {
      var s' := Next(s, es[0]);
      NextKeepsInv(s, es[0]);
      assert s'.sent == s.sent by {
        assert |s'.sent| <= 1;
      }
      VerdictIsFinal(s', es[1..]);
      assert s'.sent == [s'.failed] && s.sent == [s.failed];
    }
  }

  // ------------------------------------------------------------ it can always finish

  lemma {:induction false} RunConcat(s: State, es: seq<Event>, more: seq<Event>)
    requires Possible(s, es) && Possible(Run(s, es), more)
    ensures Possible(s, es + more) && Run(s, es + more) == Run(Run(s, es), more)
    decreases |es|
  {
    hide Enabled, Next;
    if es == [] {
      assert es + more == more;
    } else {
      RunConcat(Next(s, es[0]), es[1..], more);
      assert (es + more)[1..] == es[1..] + more;
    }
  }

  lemma RunOneMore(s: State, e: Event, es: seq<Event>)
    requires Enabled(s, e) && Possible(Next(s, e), es)
    ensures Possible(s, [e] + es) && Run(s, [e] + es) == Run(Next(s, e), es)
  {
    hide Enabled, Next;
    assert ([e] + es)[1..] == es;
  }

  /** How far an actor is from being idle. */
  function Distance(pc: Pc): nat {
    match pc
    case InFlight => 9 case Failing => 8 case Finishing => 7 case Closing => 7 case SeeClosed => 6
    case SeePending => 5 case TakeDone => 4 case TakeErr => 3 case Sending(_) => 2 case Idle => 0
  }

  /** How an operation in flight completes. */
  function Completion(a: nat, bad: set<nat>): Event {
    if a in bad then Fail(a) else Succeed(a)
  }

  /** Nothing new: only completions and steps. */
  predicate OnlyOld(es: seq<Event>) {
    forall e :: e in es ==> !e.Submit? && !e.Close?
  }

  lemma OneCloser(s: State, a: nat, bad: set<nat>) returns (e: Event)
    requires a in s.actors && !s.actors[a].Idle?
    ensures Enabled(s, e) && e == if s.actors[a].InFlight? then Completion(a, bad) else Step(a)
    ensures var s' := Next(s, e);
            && a in s'.actors && s'.actors == s.actors[a := s'.actors[a]] && !s'.actors[a].InFlight?
            && Distance(s'.actors[a]) < Distance(s.actors[a])
  {
    e := if s.actors[a].InFlight? then Completion(a, bad) else Step(a);
  }

  lemma {:induction false} OneRests(s: State, a: nat, bad: set<nat>) returns (es: seq<Event>)
    requires a in s.actors
    ensures Possible(s, es) && Run(s, es).actors == s.actors[a := Idle]
    ensures OnlyOld(es) && (s.actors[a].InFlight? ==> Completion(a, bad) in es)
    decreases Distance(s.actors[a])
  {
    if s.actors[a].Idle? {
      es := [];
      assert s.actors[a := Idle] == s.actors;
    } else {
      var e := OneCloser(s, a, bad);
      assert !e.Submit? && !e.Close?;
      hide Enabled, Next, Completion, Distance, Possible, Run;
      var rest := OneRests(Next(s, e), a, bad);
      RunOneMore(s, e, rest);
      es := [e] + rest;
      assert es[0] == e;
    }
  }

  lemma {:induction false} AllRest(s: State, todo: set<nat>, bad: set<nat>) returns (es: seq<Event>)
    requires forall a :: a in s.actors && !s.actors[a].Idle? ==> a in todo
    ensures Possible(s, es) && Quiescent(Run(s, es))
    ensures OnlyOld(es) && forall a :: a in s.actors && s.actors[a].InFlight? ==> Completion(a, bad) in es
    decreases |todo|
  {
    hide Completion;
    if todo * s.actors.Keys == {} {
      es := [];
    } else {
      var a :| a in todo * s.actors.Keys;
      var first := OneRests(s, a, bad);
      var mid := Run(s, first);
      hide Possible, Run;
      var rest := AllRest(mid, todo - {a}, bad);
      RunConcat(s, first, rest);
      es := first + rest;
    }
  }

  lemma {:induction false} Unused(used: set<nat>) returns (a: nat)
    ensures forall b :: b in used ==> b < a
    decreases |used|
  {
    if used == {} {
      a := 0;
    } else {
      var top :| top in used;
      var below := Unused(used - {top});
      a := if below <= top then top + 1 else below;
      forall b | b in used ensures b < a { if b != top { assert b in used - {top}; } }
    }
  }

  lemma CloseFirst(s: State) returns (e: Event)
    ensures e.Close? && Enabled(s, e)
    ensures forall a :: a in s.actors ==> a in Next(s, e).actors && Next(s, e).actors[a] == s.actors[a]
  {
    var a := Unused(s.actors.Keys);
    assert a !in s.actors.Keys;
    e := Close(a);
  }

  lemma CloseStays(es: seq<Event>, more: seq<Event>)
    ensures AnyClose(es) || AnyClose(more) ==> AnyClose(es + more)
  {
    if i :| 0 <= i < |es| && es[i].Close? { assert (es + more)[i] == es[i]; }
    if i :| 0 <= i < |more| && more[i].Close? { assert (es + more)[|es| + i] == more[i]; }
  }

  lemma CloseLeads(e: Event, more: seq<Event>)
    requires e.Close?
    ensures AnyClose([e] + more)
  {
    assert ([e] + more)[0] == e;
  }

  /**
   * No wake-up is ever lost: from every reachable state, once the session is closed,
   * letting the operations in flight complete, well or badly, and everybody take the steps
   * left leads to the signal, which reports exactly whether some operation failed.
   */
  lemma SignalAlwaysReachable(es: seq<Event>, bad: set<nat>) returns (more: seq<Event>)
    requires Possible(Initial(), es)
    ensures Possible(Initial(), es + more) && Run(Initial(), es + more).sent == [AnyFail(es + more)]
    ensures AnyClose(es) ==> OnlyOld(more)
    ensures var s := Run(Initial(), es);
            forall a :: a in s.actors && s.actors[a].InFlight? ==> Completion(a, bad) in more
  {
    hide *;
    var s := Run(Initial(), es);
    if AnyClose(es) {
      more := AllRest(s, s.actors.Keys, bad);
    } else {
      var close := CloseFirst(s);
      var closed := Next(s, close);
      var rest := AllRest(closed, closed.actors.Keys, bad);
      RunOneMore(s, close, rest);
      CloseLeads(close, rest);
      more := [close] + rest;
    }
    CloseStays(es, more);
    RunConcat(Initial(), es, more);
    DoneSignal(es + more);
  }
}
