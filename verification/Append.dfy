/** Appends at a given offset: the section under the file lock, and its interleavings. */
module Append {
  import opened Posix
  import opened Streaming
  import opened Upload

  datatype Outcome = Appended | InvalidOffset | PreconditionFailed | EmptyBody | WriteFailed

  /**
   * What an append does while it holds the lock.  Each refusal is exactly on its condition
   * and changes nothing; otherwise it succeeds exactly if the body is long enough and the
   * session sees no error.  A success found the file ending at the offset and leaves it
   * followed by the payload, if and only if the ring was not cancelled in time to drop some
   * of it; a failed write leaves everything below the offset alone.
   */
  method AppendLocked(file: PosixFile, offset: nat, body: seq<byte>, len: nat, preconditionOk: bool, cfg: StreamCfg,
                      ring: RingFate)
    returns (r: Outcome)
    requires cfg.Valid()
    modifies file
    ensures r.InvalidOffset? <==> offset != old(|file.data|)
    ensures r.PreconditionFailed? <==> offset == old(|file.data|) && !preconditionOk
    ensures r.EmptyBody? <==> offset == old(|file.data|) && preconditionOk && len == 0
    ensures offset == old(|file.data|) && preconditionOk && len > 0 && offset + len <= U64
            ==> (r.Appended? <==> len <= |body| && ring.works)
    ensures r.Appended? ==> 0 < len <= |body| && file.data == old(file.data) + body[..Kept(len, cfg.chunk, ring.cancelAt)]
    ensures r.Appended? ==> (file.data == old(file.data) + body[..len] <==> Kept(len, cfg.chunk, ring.cancelAt) == len)
    ensures r.InvalidOffset? || r.PreconditionFailed? || r.EmptyBody? ==> file.data == old(file.data)
    ensures r.WriteFailed? ==> old(file.data) <= file.data && |file.data| <= offset + len
  {
    if offset != |file.data| {
      return InvalidOffset;
    }
    if !preconditionOk {
      return PreconditionFailed;
    }
    if len == 0 {
      return EmptyBody;
    }
    var w := WriteObjectBody(file, ToFile(offset), body, len, cfg, ring);
    assert file.data[..offset] == old(file.data);
    if !w.Written? {
      r := WriteFailed;
    } else {
      WriteAtEnd(old(file.data), body[..Kept(len, cfg.chunk, ring.cancelAt)]);
      r := Appended;
    }
  }

  // ------------------------------------------------------------ interleavings

  datatype Pc = Opened | Locked | Writing | Finished(outcome: Outcome)

  datatype Task = Task(offset: nat, payload: seq<byte>, pc: Pc)

  datatype Entry = Entry(task: nat, offset: nat, payload: seq<byte>)

  /**
   * `base` is the content when the current writer checked the offset, or all of it if
   * nobody is writing; `log` lists the successful appends in lock order.
   */
  datatype State = State(
    data: seq<byte>,
    lock: Option<nat>,
    tasks: map<nat, Task>,
    base: seq<byte>,
    log: seq<Entry>,
    failed: bool)

  datatype Event =
    | Open(task: nat, offset: nat, payload: seq<byte>)
    | Lock(task: nat)
    | Check(task: nat, preconditionOk: bool)
    | PartialWrite(task: nat, data: seq<byte>)
    | Succeed(task: nat)
    | Fail(task: nat)

  function Initial(original: seq<byte>): State {
    State(original, None, map[], original, [], false)
  }

  predicate Enabled(s: State, e: Event) {
    match e
    case Open(t, _, _) => t !in s.tasks
    case Lock(t) => t in s.tasks && s.tasks[t].pc.Opened? && s.lock.None?
    case Check(t, _) => t in s.tasks && s.tasks[t].pc.Locked?
    case PartialWrite(t, d) =>
      && t in s.tasks && s.tasks[t].pc.Writing?
      && OnlyRangeChanged(s.base, d, s.tasks[t].offset, |s.tasks[t].payload|)
    case Succeed(t) => t in s.tasks && s.tasks[t].pc.Writing?
    case Fail(t) => t in s.tasks && s.tasks[t].pc.Writing?
  }

  function SetPc(s: State, t: nat, pc: Pc): State
    requires t in s.tasks
  {
    s.(tasks := s.tasks[t := s.tasks[t].(pc := pc)])
  }

  function Leave(s: State, t: nat, r: Outcome): State
    requires t in s.tasks
  {
    SetPc(s.(lock := None), t, Finished(r))
  }

  function Next(s: State, e: Event): State
    requires Enabled(s, e)
  {
    match e
    case Open(t, offset, payload) => s.(tasks := s.tasks[t := Task(offset, payload, Opened)])
    case Lock(t) => SetPc(s.(lock := Some(t)), t, Locked)
    case Check(t, ok) =>
      if s.tasks[t].offset != |s.data| then Leave(s, t, InvalidOffset)
      else if !ok then Leave(s, t, PreconditionFailed)
      else if s.tasks[t].payload == [] then Leave(s, t, EmptyBody)
      else SetPc(s, t, Writing)
    case PartialWrite(t, d) => s.(data := d)
    case Succeed(t) =>
      var after := WriteAt(s.base, s.tasks[t].offset, s.tasks[t].payload);
      Leave(s.(data := after, base := after,
               log := s.log + [Entry(t, s.tasks[t].offset, s.tasks[t].payload)]), t, Appended)
    case Fail(t) => Leave(s.(base := s.data, failed := true), t, WriteFailed)
  }

  function Payloads(log: seq<Entry>): seq<byte> {
    if log == [] then [] else Payloads(log[..|log| - 1]) + log[|log| - 1].payload
  }

  /** Only the lock holder is between check and end; what it started from is still there below its offset. */
  predicate LockInv(s: State) {
    && (forall t :: t in s.tasks && (s.tasks[t].pc.Locked? || s.tasks[t].pc.Writing?) ==> s.lock == Some(t))
    && (forall t :: t in s.tasks && s.tasks[t].pc.Writing? ==> s.tasks[t].offset == |s.base| && s.tasks[t].payload != [])
    && s.base <= s.data
    && ((forall t :: t in s.tasks ==> !s.tasks[t].pc.Writing?) ==> s.base == s.data)
  }

  /** Acknowledged payloads lie one after the other and are still in the file. */
  predicate LogInv(original: seq<byte>, s: State) {
    && original <= s.base
    && (forall i :: 0 <= i < |s.log| ==> s.log[i].payload != [] && HoldsAt(s.base, s.log[i].offset, s.log[i].payload))
    && (forall i, j :: 0 <= i < j < |s.log| ==> s.log[i].offset + |s.log[i].payload| <= s.log[j].offset)
    && (!s.failed ==> s.base == original + Payloads(s.log))
  }

  predicate Logged(s: State, t: nat)
    requires t in s.tasks
  {
    exists i :: 0 <= i < |s.log| && s.log[i] == Entry(t, s.tasks[t].offset, s.tasks[t].payload)
  }

  predicate AckInv(s: State) {
    forall t :: t in s.tasks && s.tasks[t].pc == Finished(Appended) ==> Logged(s, t)
  }

  predicate Inv(original: seq<byte>, s: State) {
    LockInv(s) && LogInv(original, s) && AckInv(s)
  }

  // ------------------------------------------------------------ preservation

  lemma RangeAtEnd(f: seq<byte>, g: seq<byte>, len: nat)
    requires OnlyRangeChanged(f, g, |f|, len)
    ensures f <= g
  {
  }

  lemma NextKeepsLock(original: seq<byte>, s: State, e: Event)
    requires Inv(original, s) && Enabled(s, e)
    ensures LockInv(Next(s, e))
  {
    hide LogInv, AckInv, WriteAt;
    if e.PartialWrite? {
      RangeAtEnd(s.base, e.data, |s.tasks[e.task].payload|);
    } else if e.Succeed? {
      WriteAtEnd(s.base, s.tasks[e.task].payload);
    } else if e.Open? {
      assert forall t :: t in s.tasks ==> t in Next(s, e).tasks && Next(s, e).tasks[t] == s.tasks[t];
    }
    assert e.task in Next(s, e).tasks;
    assert forall t :: t in s.tasks && t != e.task ==> t in Next(s, e).tasks && Next(s, e).tasks[t] == s.tasks[t];
  }

  lemma StillHolds(f: seq<byte>, g: seq<byte>, off: nat, data: seq<byte>)
    requires f <= g && HoldsAt(f, off, data)
    ensures HoldsAt(g, off, data)
  {
    assert g[off..off + |data|] == g[..|f|][off..off + |data|];
  }

  lemma AppendHolds(f: seq<byte>, payload: seq<byte>)
    ensures HoldsAt(f + payload, |f|, payload)
  {
  }

  lemma PayloadsGrow(log: seq<Entry>, e: Entry)
    ensures Payloads(log + [e]) == Payloads(log) + e.payload
  {
    assert (log + [e])[..|log|] == log;
  }

  lemma SucceedKeepsLog(original: seq<byte>, s: State, t: nat)
    requires Inv(original, s) && Enabled(s, Succeed(t))
    ensures LogInv(original, Next(s, Succeed(t)))
  {
    hide AckInv, WriteAt, HoldsAt, Payloads;
    var e := Entry(t, s.tasks[t].offset, s.tasks[t].payload);
    var after, log := s.base + e.payload, s.log + [e];
    WriteAtEnd(s.base, e.payload);
    AppendHolds(s.base, e.payload);
    PayloadsGrow(s.log, e);
    forall i | 0 <= i < |log|
      ensures log[i].payload != [] && HoldsAt(after, log[i].offset, log[i].payload)
    {
      if i < |s.log| { StillHolds(s.base, after, log[i].offset, log[i].payload); }
    }
    forall i | 0 <= i < |s.log|
      ensures log[i].offset + |log[i].payload| <= e.offset
    {
      HeldWithin(s.base, log[i].offset, log[i].payload);
    }
  }

  lemma HeldWithin(f: seq<byte>, off: nat, data: seq<byte>)
    requires HoldsAt(f, off, data)
    ensures off + |data| <= |f|
  {
  }

  lemma FailKeepsLog(original: seq<byte>, s: State, t: nat)
    requires Inv(original, s) && Enabled(s, Fail(t))
    ensures LogInv(original, Next(s, Fail(t)))
  {
    hide AckInv, HoldsAt;
    forall i | 0 <= i < |s.log|
      ensures HoldsAt(s.data, s.log[i].offset, s.log[i].payload)
    {
      StillHolds(s.base, s.data, s.log[i].offset, s.log[i].payload);
    }
  }

  lemma NextKeepsLog(original: seq<byte>, s: State, e: Event)
    requires Inv(original, s) && Enabled(s, e)
    ensures LogInv(original, Next(s, e))
  {
    if e.Succeed? {
      SucceedKeepsLog(original, s, e.task);
    } else if e.Fail? {
      FailKeepsLog(original, s, e.task);
    } else {
      hide HoldsAt, Payloads, AckInv, LockInv, OnlyRangeChanged;
      assert Next(s, e).base == s.base && Next(s, e).log == s.log && Next(s, e).failed == s.failed;
    }
  }

  lemma NextKeepsAck(original: seq<byte>, s: State, e: Event)
    requires Inv(original, s) && Enabled(s, e)
    ensures AckInv(Next(s, e))
  {
    hide LogInv, WriteAt, OnlyRangeChanged;
    var s' := Next(s, e);
    forall t | t in s'.tasks && s'.tasks[t].pc == Finished(Appended)
      ensures Logged(s', t)
    {
      if t == e.task && e.Succeed? {
        assert s'.log[|s.log|] == Entry(t, s.tasks[t].offset, s.tasks[t].payload);
      } else {
        assert t in s.tasks && s'.tasks[t] == s.tasks[t];
        assert Logged(s, t);
        var i :| 0 <= i < |s.log| && s.log[i] == Entry(t, s.tasks[t].offset, s.tasks[t].payload);
        assert s'.log[i] == s.log[i];
      }
    }
  }

  lemma NextKeepsInv(original: seq<byte>, s: State, e: Event)
    requires Inv(original, s) && Enabled(s, e)
    ensures Inv(original, Next(s, e))
  {
    hide LockInv, LogInv, AckInv, Next, Enabled;
    NextKeepsLock(original, s, e);
    NextKeepsLog(original, s, e);
    NextKeepsAck(original, s, e);
  }

  // ------------------------------------------------------------ whole runs

  predicate Possible(s: State, es: seq<Event>)
    decreases |es|
  {
    es == [] || (Enabled(s, es[0]) && Possible(Next(s, es[0]), es[1..]))
  }

  function Run(s: State, es: seq<Event>): State
    requires Possible(s, es)
    decreases |es|
  {
    if es == [] then s else Run(Next(s, es[0]), es[1..])
  }

  lemma {:induction false} RunKeepsInv(original: seq<byte>, s: State, es: seq<Event>)
    requires Inv(original, s) && Possible(s, es)
    ensures Inv(original, Run(s, es))
    decreases |es|
  {
    hide Inv, Enabled, Next;
    if es != [] {
      NextKeepsInv(original, s, es[0]);
      RunKeepsInv(original, Next(s, es[0]), es[1..]);
    }
  }

  /**
   * In every run: every acknowledged payload is in the file at its offset, the original
   * content is untouched, and two appends at the same offset never both succeed.
   */
  lemma AcknowledgedAppendsStay(original: seq<byte>, es: seq<Event>, t: nat, u: nat)
    requires Possible(Initial(original), es)
    requires var s := Run(Initial(original), es);
             t in s.tasks && u in s.tasks && s.tasks[t].pc == Finished(Appended) && s.tasks[u].pc == Finished(Appended)
    ensures var s := Run(Initial(original), es);
            && original <= s.data
            && HoldsAt(s.data, s.tasks[t].offset, s.tasks[t].payload)
            && (t != u ==> s.tasks[t].offset != s.tasks[u].offset)
  {
    hide Possible, Run, HoldsAt, Payloads;
    assert Inv(original, Initial(original)) by { assert Payloads([]) == [] by { NoPayloads(); } }
    RunKeepsInv(original, Initial(original), es);
    var s := Run(Initial(original), es);
    assert Logged(s, t) && Logged(s, u);
    var i :| 0 <= i < |s.log| && s.log[i] == Entry(t, s.tasks[t].offset, s.tasks[t].payload);
    var j :| 0 <= j < |s.log| && s.log[j] == Entry(u, s.tasks[u].offset, s.tasks[u].payload);
    StillHolds(s.base, s.data, s.log[i].offset, s.log[i].payload);
  }

  lemma NoPayloads()
    ensures Payloads([]) == []
  {
  }

  // ------------------------------------------------------------ the outcomes against the events

  /** What an append asked for, read off the events: its offset and payload. */
  function Asked(es: seq<Event>, t: nat): Option<(nat, seq<byte>)> {
    if es == [] then None
    else
      var n := |es| - 1;
      if es[n].Open? && es[n].task == t then Some((es[n].offset, es[n].payload)) else Asked(es[..n], t)
  }

  /** The payloads asked for by the appends that succeeded, in that order. */
  function Appends(es: seq<Event>): seq<byte> {
    if es == [] then []
    else
      var n := |es| - 1;
      Appends(es[..n]) + if es[n].Succeed? && Asked(es[..n], es[n].task).Some? then Asked(es[..n], es[n].task).value.1 else []
  }

  lemma {:induction false} RunLast(s: State, es: seq<Event>, e: Event)
    requires Possible(s, es + [e])
    ensures Possible(s, es) && Enabled(Run(s, es), e) && Run(s, es + [e]) == Next(Run(s, es), e)
    decreases |es|
  {
    hide Enabled, Next;
    if es == [] {
      assert es + [e] == [e];
    } else {
      assert (es + [e])[0] == es[0] && (es + [e])[1..] == es[1..] + [e];
      RunLast(Next(s, es[0]), es[1..], e);
    }
  }

  /** Requests and log are as the events tell them. */
  predicate Tells(es: seq<Event>, s: State) {
    && (forall t :: t in s.tasks ==> Asked(es, t) == Some((s.tasks[t].offset, s.tasks[t].payload)))
    && Payloads(s.log) == Appends(es)
  }

  lemma NextTells(es: seq<Event>, s: State, e: Event)
    requires Tells(es, s) && Enabled(s, e)
    ensures Tells(es + [e], Next(s, e))
  {
    hide OnlyRangeChanged, WriteAt, Payloads;
    var all := es + [e];
    assert all[|es|] == e && all[..|es|] == es;
    if e.Succeed? { PayloadsGrow(s.log, Entry(e.task, s.tasks[e.task].offset, s.tasks[e.task].payload)); }
  }

  lemma {:induction false} RunTells(original: seq<byte>, es: seq<Event>)
    requires Possible(Initial(original), es)
    ensures Tells(es, Run(Initial(original), es))
  {
    if es == [] {
      NoPayloads();
    } else {
      hide Tells, Enabled, Next, Possible, Run;
      var n := |es| - 1;
      assert es[..n] + [es[n]] == es;
      RunLast(Initial(original), es[..n], es[n]);
      RunTells(original, es[..n]);
      NextTells(es[..n], Run(Initial(original), es[..n]), es[n]);
    }
  }

  /** The append was checked at event `k`, when the file had `size` bytes. */
  predicate Checked(original: seq<byte>, es: seq<Event>, t: nat, ok: bool, k: nat, size: nat) {
    k < |es| && es[k] == Check(t, ok) && Possible(Initial(original), es[..k]) && |Run(Initial(original), es[..k]).data| == size
  }

  ghost predicate WasChecked(original: seq<byte>, es: seq<Event>, t: nat, ok: bool, size: nat) {
    exists k: nat :: Checked(original, es, t, ok, k, size)
  }

  lemma ChecksStay(original: seq<byte>, es: seq<Event>, e: Event, t: nat)
    ensures forall ok, size: nat :: WasChecked(original, es, t, ok, size) ==> WasChecked(original, es + [e], t, ok, size)
  {
    hide Possible, Run;
    forall ok, size: nat | WasChecked(original, es, t, ok, size)
      ensures WasChecked(original, es + [e], t, ok, size)
    {
      var k: nat :| Checked(original, es, t, ok, k, size);
      assert (es + [e])[..k] == es[..k] && (es + [e])[k] == es[k];
      assert Checked(original, es + [e], t, ok, k, size);
    }
  }

  lemma ChecksNow(original: seq<byte>, es: seq<Event>, t: nat, ok: bool)
    requires Possible(Initial(original), es)
    ensures WasChecked(original, es + [Check(t, ok)], t, ok, |Run(Initial(original), es).data|)
  {
    hide Possible, Run;
    var all := es + [Check(t, ok)];
    assert all[..|es|] == es;
    assert Checked(original, all, t, ok, |es|, |Run(Initial(original), es).data|);
  }

  /** Each way an append can stand and what must have happened for it. */
  ghost predicate Explained(original: seq<byte>, es: seq<Event>, t: nat, task: Task) {
    match task.pc
    case Opened => true
    case Locked => true
    case Writing => task.payload != [] && WasChecked(original, es, t, true, task.offset)
    case Finished(InvalidOffset) => exists ok, size: nat :: size != task.offset && WasChecked(original, es, t, ok, size)
    case Finished(PreconditionFailed) => WasChecked(original, es, t, false, task.offset)
    case Finished(EmptyBody) => task.payload == [] && WasChecked(original, es, t, true, task.offset)
    case Finished(Appended) => task.payload != [] && WasChecked(original, es, t, true, task.offset) && Succeed(t) in es
    case Finished(WriteFailed) => task.payload != [] && WasChecked(original, es, t, true, task.offset) && Fail(t) in es
  }

  lemma NextExplained(original: seq<byte>, es: seq<Event>, e: Event, t: nat)
    requires Possible(Initial(original), es) && Enabled(Run(Initial(original), es), e)
    requires var s := Run(Initial(original), es); t in s.tasks ==> Explained(original, es, t, s.tasks[t])
    requires t in Next(Run(Initial(original), es), e).tasks
    ensures Explained(original, es + [e], t, Next(Run(Initial(original), es), e).tasks[t])
  {
    hide Possible, Run, WasChecked, OnlyRangeChanged, WriteAt;
    ChecksStay(original, es, e, t);
    if e.Check? && e.task == t { ChecksNow(original, es, t, e.preconditionOk); }
  }

  /**
   * In every run every outcome has its reason: an offset refused differed from the size of
   * the file at the check, a precondition refused had failed, an empty body was empty, and
   * whoever wrote had passed all three; the request is the one the append came with.
   */
  lemma {:induction false} OutcomesExplained(original: seq<byte>, es: seq<Event>, t: nat)
    requires Possible(Initial(original), es) && t in Run(Initial(original), es).tasks
    ensures var task := Run(Initial(original), es).tasks[t];
            Explained(original, es, t, task) && Asked(es, t) == Some((task.offset, task.payload))
    decreases |es|
  {
    RunTells(original, es);
    if es != [] {
      hide Enabled, Next, Possible, Run, Explained;
      var n := |es| - 1;
      var init := es[..n];
      assert init + [es[n]] == es;
      RunLast(Initial(original), init, es[n]);
      if t in Run(Initial(original), init).tasks { OutcomesExplained(original, init, t); }
      NextExplained(original, init, es[n], t);
    }
  }

  /**
   * In every run without a failed write, whenever nobody is writing the object is the
   * original followed by the payloads of the successful appends, in the order they succeeded.
   */
  lemma AppendsLinearize(original: seq<byte>, es: seq<Event>)
    requires Possible(Initial(original), es) && forall i :: 0 <= i < |es| ==> !es[i].Fail?
    ensures var s := Run(Initial(original), es);
            (forall t :: t in s.tasks ==> !s.tasks[t].pc.Writing?) ==> s.data == original + Appends(es)
  {
    hide HoldsAt, Payloads;
    assert Inv(original, Initial(original)) by { NoPayloads(); }
    RunKeepsInv(original, Initial(original), es);
    NoFailure(Initial(original), es);
    RunTells(original, es);
  }

  lemma {:induction false} NoFailure(s: State, es: seq<Event>)
    requires Possible(s, es) && !s.failed && forall i :: 0 <= i < |es| ==> !es[i].Fail?
    ensures !Run(s, es).failed
    decreases |es|
  {
    if es != [] { NoFailure(Next(s, es[0]), es[1..]); }
  }

  // ------------------------------------------------------------ every append can finish

  lemma {:induction false} RunConcat(s: State, es: seq<Event>, more: seq<Event>)
    requires Possible(s, es) && Possible(Run(s, es), more)
    ensures Possible(s, es + more) && Run(s, es + more) == Run(Run(s, es), more)
    decreases |es|
  {
    hide Enabled, Next;
    if es == [] {
      assert es + more == more;
    } else {
      RunConcat(Next(s, es[0]), es[1..], more);
      assert (es + more)[1..] == es[1..] + more;
    }
  }

  lemma RunOne(s: State, e: Event)
    requires Enabled(s, e)
    ensures Possible(s, [e]) && Run(s, [e]) == Next(s, e)
  {
    hide Enabled, Next;
    assert [e][1..] == [];
  }

  /** The lock holder gets to its end on its own, giving the lock back. */
  lemma HolderFinishes(s: State, t: nat) returns (es: seq<Event>)
    requires t in s.tasks && (s.tasks[t].pc.Locked? || s.tasks[t].pc.Writing?)
    ensures Possible(s, es)
    ensures var s' := Run(s, es);
            s'.lock == None && t in s'.tasks && s'.tasks[t].pc.Finished? && s'.tasks == s.tasks[t := s'.tasks[t]]
  {
    hide OnlyRangeChanged, WriteAt, Possible, Run;
    var mid := s;
    es := [];
    if s.tasks[t].pc.Locked? {
      RunOne(s, Check(t, true));
      es, mid := [Check(t, true)], Next(s, Check(t, true));
    } else {
      NoRun(s);
    }
    if mid.tasks[t].pc.Writing? {
      RunOne(mid, Succeed(t));
      RunConcat(s, es, [Succeed(t)]);
      es := es + [Succeed(t)];
    }
  }

  lemma NoRun(s: State)
    ensures Possible(s, []) && Run(s, []) == s
  {
  }

  predicate HeldInv(s: State) {
    s.lock.Some? ==> s.lock.value in s.tasks && (s.tasks[s.lock.value].pc.Locked? || s.tasks[s.lock.value].pc.Writing?)
  }

  lemma NextKeepsHeld(s: State, e: Event)
    requires HeldInv(s) && LockInv(s) && Enabled(s, e)
    ensures HeldInv(Next(s, e))
  {
    hide OnlyRangeChanged, WriteAt;
  }

  lemma {:induction false} RunKeepsHeld(original: seq<byte>, s: State, es: seq<Event>)
    requires Inv(original, s) && HeldInv(s) && Possible(s, es)
    ensures HeldInv(Run(s, es))
    decreases |es|
  {
    hide LockInv, LogInv, AckInv, HeldInv, Enabled, Next;
    if es != [] {
      NextKeepsInv(original, s, es[0]);
      NextKeepsHeld(s, es[0]);
      RunKeepsHeld(original, Next(s, es[0]), es[1..]);
    }
  }

  /** The lock is never lost: from every reachable state every append can still get to its end. */
  lemma AppendCanFinish(original: seq<byte>, es: seq<Event>, t: nat) returns (more: seq<Event>)
    requires Possible(Initial(original), es) && t in Run(Initial(original), es).tasks
    ensures Possible(Initial(original), es + more)
    ensures var s := Run(Initial(original), es + more); t in s.tasks && s.tasks[t].pc.Finished?
  {
    var s := Run(Initial(original), es);
    assert Inv(original, Initial(original)) by { hide HoldsAt; NoPayloads(); }
    RunKeepsInv(original, Initial(original), es);
    RunKeepsHeld(original, Initial(original), es);
    hide LogInv, AckInv, Possible, Run, OnlyRangeChanged, Next;
    NoRun(s);
    var first := [];
    if s.lock.Some? && s.lock.value != t { first := HolderFinishes(s, s.lock.value); }
    var free := Run(s, first);
    var take := [];
    NoRun(free);
    if free.tasks[t].pc.Opened? {
      take := [Lock(t)];
      RunOne(free, Lock(t));
      assert Next(free, Lock(t)).tasks[t].pc.Locked? by { LockTaken(free, t); }
    }
    var mid := Run(free, take);
    NoRun(mid);
    var last := [];
    if !mid.tasks[t].pc.Finished? { last := HolderFinishes(mid, t); }
    RunConcat(s, first, take);
    RunConcat(s, first + take, last);
    more := first + take + last;
    RunConcat(Initial(original), es, more);
  }

  lemma LockTaken(s: State, t: nat)
    requires Enabled(s, Lock(t))
    ensures t in Next(s, Lock(t)).tasks && Next(s, Lock(t)).tasks[t].pc.Locked?
  {
  }
}
