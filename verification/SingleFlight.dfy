/**
 * Lookups through the TTL cache as interleaved atomic steps: the first read, joining the
 * per-key flight slot, taking its lock, the second read, the backend call, the insert, and
 * giving lock, reference and slot back.  A lookup may be cancelled at any await point.
 */
module SingleFlight {
  import opened Posix
  import opened TtlCache

  /** A directory document; only its identity matters here. */
  type Doc = nat

  type LockId = nat

  /** What the backend says: a document, no such key, or a failure. */
  datatype Reply = Ok(doc: Option<Doc>) | Err

  datatype Config = Config(ttl: nat, negativeTtl: nat, cap: nat) {
    function TtlOf(doc: Option<Doc>): nat {
      if doc.Some? then ttl else negativeTtl
    }
  }

  datatype Pc =
    | Begin
    | Missed
    | Joined(lock: LockId)                 // holds a reference to the slot
    | Locked(lock: LockId)                 // and its lock
    | Calling(lock: LockId)                // backend call running
    | Answered(lock: LockId, reply: Reply)
    | Settled(lock: LockId, reply: Reply)  // cache updated if it had to be
    | Unlocked(lock: LockId, reply: Reply)
    | Dropped(reply: Reply)                // reference given back, slot not yet looked at
    | Returned(reply: Reply)
    | Aborted(lock: LockId)                // cancelled: lock gone, reference not yet
    | Gone

  datatype Task = Task(key: Key, pc: Pc)

  /** An answer and when it was stored. */
  datatype Kept = Kept(doc: Option<Doc>, at: nat)

  /**
   * `answers`, `stored` and `evicted` are history: every backend reply, what was stored last
   * under a key and when, and the keys whose last stored answer was dropped before its time.
   */
  datatype State = State(
    now: nat,
    cache: map<Key, Entry<Option<Doc>>>,
    slots: map<Key, LockId>,
    nextLock: LockId,
    tasks: map<nat, Task>,
    answers: set<(Key, Reply)>,
    stored: map<Key, Kept>,
    evicted: set<Key>)

  datatype Event =
    | Tick(to: nat)
    | Spawn(task: nat, key: Key)
    | Peek(task: nat)
    | Join(task: nat)
    | Lock(task: nat)
    | Recheck(task: nat)
    | Answer(task: nat, reply: Reply)
    | Insert(task: nat, pruneAt: nat, insertAt: nat, victim: Key)
    | SkipInsert(task: nat)
    | DropGuard(task: nat)
    | DropRef(task: nat)
    | Release(task: nat)
    | Cancel(task: nat)

  // ------------------------------------------------------------ who holds what

  function RefOf(pc: Pc): Option<LockId> {
    if pc.Joined? || pc.Locked? || pc.Calling? || pc.Answered? || pc.Settled? || pc.Unlocked? || pc.Aborted?
    then Some(pc.lock) else None
  }

  function GuardOf(pc: Pc): Option<LockId> {
    if pc.Locked? || pc.Calling? || pc.Answered? || pc.Settled? then Some(pc.lock) else None
  }

  predicate Fetching(pc: Pc) {
    pc.Calling? || pc.Answered?
  }

  function ReplyOf(pc: Pc): Option<Reply> {
    if pc.Answered? || pc.Settled? || pc.Unlocked? || pc.Dropped? || pc.Returned? then Some(pc.reply) else None
  }

  predicate HasFresh(s: State, key: Key) {
    key in s.cache && s.cache[key].expiresAt > s.now
  }

  /** Some lookup still holds a reference to the lock: its strong count exceeds the map's own. */
  predicate Referenced(s: State, lock: LockId) {
    exists t :: t in s.tasks && RefOf(s.tasks[t].pc) == Some(lock)
  }

  predicate LockFree(s: State, lock: LockId) {
    forall t :: t in s.tasks ==> GuardOf(s.tasks[t].pc) != Some(lock)
  }

  // ------------------------------------------------------------ steps

  function SetPc(s: State, t: nat, pc: Pc): State
    requires t in s.tasks
  {
    s.(tasks := s.tasks[t := s.tasks[t].(pc := pc)])
  }

  predicate Enabled(cfg: Config, s: State, e: Event) {
    match e
    case Tick(to) => s.now <= to
    case Spawn(t, _) => t !in s.tasks
    case _ => e.task in s.tasks && EnabledFor(cfg, s, e, s.tasks[e.task].pc)
  }

  predicate EnabledFor(cfg: Config, s: State, e: Event, pc: Pc)
    requires !e.Tick?
  {
    match e
    case Peek(_) => pc.Begin?
    case Join(_) => pc.Missed?
    case Lock(_) => pc.Joined? && LockFree(s, pc.lock)
    case Recheck(_) => pc.Locked?
    case Answer(_, _) => pc.Calling?
    case Insert(_, p, i, victim) =>
      pc.Answered? && pc.reply.Ok? && s.now <= p <= i && LegalVictim(s.cache, cfg.cap, p, victim)
    case SkipInsert(_) => pc.Answered? && pc.reply.Err?
    case DropGuard(_) => pc.Settled?
    case DropRef(_) => pc.Unlocked? || pc.Aborted?
    case Release(_) => pc.Dropped?
    case Cancel(_) => !pc.Unlocked? && !pc.Returned? && !pc.Aborted? && !pc.Gone?
    case _ => false
  }

  function JoinStep(s: State, t: nat): State
    requires t in s.tasks
  {
    var k := s.tasks[t].key;
    if k in s.slots then SetPc(s, t, Joined(s.slots[k]))
    else SetPc(s.(slots := s.slots[k := s.nextLock], nextLock := s.nextLock + 1), t, Joined(s.nextLock))
  }

  function ReadStep(s: State, t: nat, hit: Option<Doc> -> Pc, miss: Pc): State
    requires t in s.tasks
  {
    var k := s.tasks[t].key;
    SetPc(s, t, if HasFresh(s, k) then hit(s.cache[k].value) else miss)
  }

  function InsertStep(cfg: Config, s: State, t: nat, pruneAt: nat, insertAt: nat, victim: Key): State
    requires t in s.tasks && s.tasks[t].pc.Answered? && s.tasks[t].pc.reply.Ok?
  {
    var k, pc := s.tasks[t].key, s.tasks[t].pc;
    var room := MakeRoom(s.cache, cfg.cap, pruneAt, victim);
    var until := insertAt + cfg.TtlOf(pc.reply.doc);
    var lost := set j | j in s.cache && j !in room && s.cache[j].expiresAt > pruneAt;
    var s' := s.(now := insertAt, cache := room[k := Entry(pc.reply.doc, until)],
                 stored := s.stored[k := Kept(pc.reply.doc, insertAt)],
                 evicted := s.evicted + lost - {k});
    SetPc(s', t, Settled(pc.lock, pc.reply))
  }

  function ReleaseStep(s: State, t: nat): State
    requires t in s.tasks && s.tasks[t].pc.Dropped?
  {
    var k := s.tasks[t].key;
    var slots := if k in s.slots && !Referenced(s, s.slots[k]) then s.slots - {k} else s.slots;
    SetPc(s.(slots := slots), t, Returned(s.tasks[t].pc.reply))
  }

  function CancelTo(pc: Pc): Pc {
    if GuardOf(pc).Some? || pc.Joined? then Aborted(pc.lock) else Gone
  }

  function Next(cfg: Config, s: State, e: Event): State
    requires Enabled(cfg, s, e)
  {
    match e
    case Tick(to) => s.(now := to)
    case Spawn(t, key) => s.(tasks := s.tasks[t := Task(key, Begin)])
    case Peek(t) => ReadStep(s, t, doc => Returned(Ok(doc)), Missed)
    case Join(t) => JoinStep(s, t)
    case Lock(t) => SetPc(s, t, Locked(s.tasks[t].pc.lock))
    case Recheck(t) =>
      var l := s.tasks[t].pc.lock;
      ReadStep(s, t, doc => Settled(l, Ok(doc)), Calling(l))
    case Answer(t, reply) =>
      SetPc(s.(answers := s.answers + {(s.tasks[t].key, reply)}), t, Answered(s.tasks[t].pc.lock, reply))
    case Insert(t, p, i, victim) => InsertStep(cfg, s, t, p, i, victim)
    case SkipInsert(t) => SetPc(s, t, Settled(s.tasks[t].pc.lock, s.tasks[t].pc.reply))
    case DropGuard(t) => SetPc(s, t, Unlocked(s.tasks[t].pc.lock, s.tasks[t].pc.reply))
    case DropRef(t) =>
      SetPc(s, t, if s.tasks[t].pc.Unlocked? then Dropped(s.tasks[t].pc.reply) else Gone)
    case Release(t) => ReleaseStep(s, t)
    case Cancel(t) => SetPc(s, t, CancelTo(s.tasks[t].pc))
  }

  // ------------------------------------------------------------ the invariant

  /** Every reference is to the lock now in the map, and keys have locks of their own. */
  predicate SlotsInv(s: State) {
    && (forall t :: t in s.tasks && RefOf(s.tasks[t].pc).Some? ==>
          s.tasks[t].key in s.slots && s.slots[s.tasks[t].key] == RefOf(s.tasks[t].pc).value)
    && (forall k :: k in s.slots ==> s.slots[k] < s.nextLock)
    && (forall j, k :: j in s.slots && k in s.slots && j != k ==> s.slots[j] != s.slots[k])
  }

  predicate GuardsInv(s: State) {
    forall t, u :: t in s.tasks && u in s.tasks && t != u && GuardOf(s.tasks[t].pc).Some? ==>
      GuardOf(s.tasks[t].pc) != GuardOf(s.tasks[u].pc)
  }

  /** While a lookup fetches, the cache has nothing fresh under its key. */
  predicate FetchInv(s: State) {
    forall t :: t in s.tasks && Fetching(s.tasks[t].pc) ==> !HasFresh(s, s.tasks[t].key)
  }

  function EntryFor(cfg: Config, kept: Kept): Entry<Option<Doc>> {
    Entry(kept.doc, kept.at + cfg.TtlOf(kept.doc))
  }

  predicate EntryOk(cfg: Config, s: State, k: Key, e: Entry<Option<Doc>>) {
    && (k, Ok(e.value)) in s.answers
    && k in s.stored && s.stored[k].at <= s.now && e == EntryFor(cfg, s.stored[k])
  }

  /** Entries and replies are backend answers, an entry expiring its own TTL after it was stored; errors are nowhere. */
  predicate CacheInv(cfg: Config, s: State) {
    && (forall k :: k in s.cache ==> EntryOk(cfg, s, k, s.cache[k]))
    && (forall t :: t in s.tasks && ReplyOf(s.tasks[t].pc).Some? ==>
          (s.tasks[t].key, ReplyOf(s.tasks[t].pc).value) in s.answers)
    && (cfg.cap >= 1 ==> |s.cache| <= cfg.cap)
  }

  /** A stored answer that was not evicted is in the cache until it expires. */
  predicate StoredInv(cfg: Config, s: State) {
    forall k :: k in s.stored && k !in s.evicted ==>
      (k in s.cache && s.cache[k] == EntryFor(cfg, s.stored[k])) || EntryFor(cfg, s.stored[k]).expiresAt <= s.now
  }

  predicate Inv(cfg: Config, s: State) {
    SlotsInv(s) && GuardsInv(s) && FetchInv(s) && CacheInv(cfg, s) && StoredInv(cfg, s)
  }

  function Initial(now: nat): State {
    State(now, map[], map[], 0, map[], {}, map[], {})
  }

  // ------------------------------------------------------------ preservation

  predicate RestInv(cfg: Config, s: State) {
    GuardsInv(s) && FetchInv(s) && CacheInv(cfg, s) && StoredInv(cfg, s)
  }

  lemma SetPcKeepsSlots(s: State, t: nat, pc: Pc)
    requires SlotsInv(s) && t in s.tasks
    requires RefOf(pc).Some? ==> s.tasks[t].key in s.slots && s.slots[s.tasks[t].key] == RefOf(pc).value
    ensures SlotsInv(SetPc(s, t, pc))
  {
    hide RefOf;
  }

  lemma SetPcKeepsRest(cfg: Config, s: State, t: nat, pc: Pc)
    requires RestInv(cfg, s) && t in s.tasks
    requires GuardOf(pc) == None || GuardOf(pc) == GuardOf(s.tasks[t].pc) || LockFree(s, GuardOf(pc).value)
    requires Fetching(pc) ==> !HasFresh(s, s.tasks[t].key)
    requires ReplyOf(pc).Some? ==> (s.tasks[t].key, ReplyOf(pc).value) in s.answers
    ensures RestInv(cfg, SetPc(s, t, pc))
  {
    hide RefOf, GuardOf, Fetching, ReplyOf;
  }

  /** A task that moves on without taking anything new keeps the invariant. */
  lemma SetPcKeepsInv(cfg: Config, s: State, t: nat, pc: Pc)
    requires Inv(cfg, s) && t in s.tasks
    requires RefOf(pc) == None || RefOf(pc) == RefOf(s.tasks[t].pc)
    requires GuardOf(pc) == None || GuardOf(pc) == GuardOf(s.tasks[t].pc) || LockFree(s, GuardOf(pc).value)
    requires Fetching(pc) ==> !HasFresh(s, s.tasks[t].key)
    requires ReplyOf(pc).Some? ==> (s.tasks[t].key, ReplyOf(pc).value) in s.answers
    ensures Inv(cfg, SetPc(s, t, pc))
  {
    hide RefOf, GuardOf, Fetching, ReplyOf, GuardsInv, FetchInv, CacheInv, StoredInv, HasFresh, LockFree;
    assert RefOf(pc).Some? ==> RefOf(s.tasks[t].pc).Some?;
    SetPcKeepsSlots(s, t, pc);
    SetPcKeepsRest(cfg, s, t, pc);
  }

  lemma NewSlot(s: State, k: Key)
    requires SlotsInv(s) && k !in s.slots
    ensures SlotsInv(s.(slots := s.slots[k := s.nextLock], nextLock := s.nextLock + 1))
  {
    hide RefOf;
  }

  lemma JoinKeepsInv(cfg: Config, s: State, t: nat)
    requires Inv(cfg, s) && t in s.tasks && s.tasks[t].pc.Missed?
    ensures Inv(cfg, JoinStep(s, t))
  {
    hide SlotsInv, GuardsInv, FetchInv, CacheInv, StoredInv, HasFresh;
    var k := s.tasks[t].key;
    if k in s.slots {
      SetPcKeepsSlots(s, t, Joined(s.slots[k]));
      SetPcKeepsRest(cfg, s, t, Joined(s.slots[k]));
    } else {
      var s1 := s.(slots := s.slots[k := s.nextLock], nextLock := s.nextLock + 1);
      NewSlot(s, k);
      SameRest(cfg, s, s1);
      SetPcKeepsSlots(s1, t, Joined(s.nextLock));
      SetPcKeepsRest(cfg, s1, t, Joined(s.nextLock));
    }
  }

  /** The flight slots are no part of the cache's own invariant. */
  lemma SameRest(cfg: Config, s: State, s1: State)
    requires RestInv(cfg, s) && s1 == s.(slots := s1.slots, nextLock := s1.nextLock)
    ensures RestInv(cfg, s1)
  {
    hide GuardOf, Fetching, ReplyOf;
  }

  lemma TickKeepsInv(cfg: Config, s: State, to: nat)
    requires Inv(cfg, s) && s.now <= to
    ensures Inv(cfg, s.(now := to))
  {
    hide RefOf, GuardOf, Fetching, ReplyOf;
  }

  lemma SpawnKeepsInv(cfg: Config, s: State, t: nat, key: Key)
    requires Inv(cfg, s) && t !in s.tasks
    ensures Inv(cfg, s.(tasks := s.tasks[t := Task(key, Begin)]))
  {
    hide RefOf, GuardOf, Fetching, ReplyOf;
    BeginHoldsNothing();
    var s' := s.(tasks := s.tasks[t := Task(key, Begin)]);
    assert SlotsInv(s');
    assert GuardsInv(s');
    assert FetchInv(s');
    assert CacheInv(cfg, s');
  }

  lemma BeginHoldsNothing()
    ensures RefOf(Begin).None? && GuardOf(Begin).None? && !Fetching(Begin) && ReplyOf(Begin).None?
  {
  }

  lemma AnswerKeepsInv(cfg: Config, s: State, t: nat, reply: Reply)
    requires Inv(cfg, s) && t in s.tasks && s.tasks[t].pc.Calling?
    ensures Inv(cfg, Next(cfg, s, Answer(t, reply)))
  {
    var s1 := s.(answers := s.answers + {(s.tasks[t].key, reply)});
    assert CacheInv(cfg, s1) by { hide ReplyOf; }
    assert FetchInv(s1) && !HasFresh(s1, s.tasks[t].key);
    SetPcKeepsInv(cfg, s1, t, Answered(s.tasks[t].pc.lock, reply));
  }

  lemma DropSlot(s: State, k: Key)
    requires SlotsInv(s) && k in s.slots && !Referenced(s, s.slots[k])
    ensures SlotsInv(s.(slots := s.slots - {k}))
  {
    hide RefOf;
  }

  lemma ReplyIsAnswer(cfg: Config, s: State, t: nat)
    requires CacheInv(cfg, s) && t in s.tasks && ReplyOf(s.tasks[t].pc).Some?
    ensures (s.tasks[t].key, ReplyOf(s.tasks[t].pc).value) in s.answers
  {
    hide ReplyOf;
  }

  lemma ReleaseKeepsInv(cfg: Config, s: State, t: nat)
    requires Inv(cfg, s) && t in s.tasks && s.tasks[t].pc.Dropped?
    ensures Inv(cfg, ReleaseStep(s, t))
  {
    hide SlotsInv, GuardsInv, FetchInv, CacheInv, StoredInv, HasFresh, Referenced;
    var k := s.tasks[t].key;
    ReplyIsAnswer(cfg, s, t);
    if k in s.slots && !Referenced(s, s.slots[k]) {
      var s1 := s.(slots := s.slots - {k});
      DropSlot(s, k);
      SameRest(cfg, s, s1);
      SetPcKeepsInv(cfg, s1, t, Returned(s.tasks[t].pc.reply));
    } else {
      assert s.(slots := s.slots) == s;
      SetPcKeepsInv(cfg, s, t, Returned(s.tasks[t].pc.reply));
    }
  }

  /** Only the holder of a key's lock fetches for it, so an insert disturbs no other fetch. */
  lemma InsertKeepsFetch(cfg: Config, s: State, t: nat, pruneAt: nat, insertAt: nat, victim: Key)
    requires Inv(cfg, s) && Enabled(cfg, s, Insert(t, pruneAt, insertAt, victim))
    ensures FetchInv(InsertStep(cfg, s, t, pruneAt, insertAt, victim))
  {
    hide RefOf, GuardOf, ReplyOf, SlotsInv, GuardsInv, CacheInv, StoredInv, LegalVictim;
    var s' := InsertStep(cfg, s, t, pruneAt, insertAt, victim);
    forall u | u in s'.tasks && Fetching(s'.tasks[u].pc)
      ensures !HasFresh(s', s'.tasks[u].key)
    {
      assert u != t && s'.tasks[u] == s.tasks[u];
      assert s.tasks[u].key != s.tasks[t].key by {
        if s.tasks[u].key == s.tasks[t].key { OneFetchPerKey(cfg, s, t, u); }
      }
      assert !HasFresh(s, s.tasks[u].key);
    }
  }

  lemma InsertKeepsCache(cfg: Config, s: State, t: nat, pruneAt: nat, insertAt: nat, victim: Key)
    requires Inv(cfg, s) && Enabled(cfg, s, Insert(t, pruneAt, insertAt, victim))
    ensures CacheInv(cfg, InsertStep(cfg, s, t, pruneAt, insertAt, victim))
  {
    hide RefOf, GuardOf, HasFresh, Fetching, EntryOk, SlotsInv, GuardsInv, FetchInv, StoredInv;
    var s' := InsertStep(cfg, s, t, pruneAt, insertAt, victim);
    var k, doc := s.tasks[t].key, s.tasks[t].pc.reply.doc;
    assert ReplyOf(s.tasks[t].pc) == Some(Ok(doc));
    assert ReplyOf(s'.tasks[t].pc) == Some(Ok(doc));
    if cfg.cap >= 1 {
      InsertWithinCap(s.cache, cfg.cap, pruneAt, victim, k, Entry(doc, insertAt + cfg.TtlOf(doc)));
    }
    InsertKeepsEntries(cfg, s, t, pruneAt, insertAt, victim);
  }

  lemma EntryStays(cfg: Config, s: State, s': State, j: Key, e: Entry<Option<Doc>>, k: Key, doc: Option<Doc>)
    requires s.now <= s'.now && s'.answers == s.answers && s'.stored == s.stored[k := Kept(doc, s'.now)]
    requires if j == k then (k, Ok(doc)) in s.answers && e == EntryFor(cfg, Kept(doc, s'.now)) else EntryOk(cfg, s, j, e)
    ensures EntryOk(cfg, s', j, e)
  {
  }

  lemma InsertKeepsEntries(cfg: Config, s: State, t: nat, pruneAt: nat, insertAt: nat, victim: Key)
    requires CacheInv(cfg, s) && Enabled(cfg, s, Insert(t, pruneAt, insertAt, victim))
    ensures var s' := InsertStep(cfg, s, t, pruneAt, insertAt, victim);
            forall j :: j in s'.cache ==> EntryOk(cfg, s', j, s'.cache[j])
  {
    hide RefOf, GuardOf, HasFresh, Fetching, LegalVictim, EntryOk;
    var s' := InsertStep(cfg, s, t, pruneAt, insertAt, victim);
    var k, doc := s.tasks[t].key, s.tasks[t].pc.reply.doc;
    assert ReplyOf(s.tasks[t].pc) == Some(Ok(doc));
    forall j | j in s'.cache
      ensures EntryOk(cfg, s', j, s'.cache[j])
    {
      if j != k { assert s'.cache[j] == s.cache[j]; }
      EntryStays(cfg, s, s', j, s'.cache[j], k, doc);
    }
  }

  lemma InsertKeepsStored(cfg: Config, s: State, t: nat, pruneAt: nat, insertAt: nat, victim: Key)
    requires Inv(cfg, s) && Enabled(cfg, s, Insert(t, pruneAt, insertAt, victim))
    ensures StoredInv(cfg, InsertStep(cfg, s, t, pruneAt, insertAt, victim))
  {
    var s' := InsertStep(cfg, s, t, pruneAt, insertAt, victim);
    var k := s.tasks[t].key;
    var room := MakeRoom(s.cache, cfg.cap, pruneAt, victim);
    forall j | j in s'.stored && j !in s'.evicted
      ensures (j in s'.cache && s'.cache[j] == EntryFor(cfg, s'.stored[j])) || EntryFor(cfg, s'.stored[j]).expiresAt <= s'.now
    {
      if j != k && j in s.cache && s.cache[j] == EntryFor(cfg, s.stored[j]) && s.cache[j].expiresAt > s'.now {
        assert j in room;
      }
    }
  }

  lemma SettledKeeps(lock: LockId, reply: Reply)
    ensures RefOf(Settled(lock, reply)) == RefOf(Answered(lock, reply))
    ensures GuardOf(Settled(lock, reply)) == GuardOf(Answered(lock, reply))
  {
  }

  lemma InsertKeepsInv(cfg: Config, s: State, t: nat, pruneAt: nat, insertAt: nat, victim: Key)
    requires Inv(cfg, s) && Enabled(cfg, s, Insert(t, pruneAt, insertAt, victim))
    ensures Inv(cfg, InsertStep(cfg, s, t, pruneAt, insertAt, victim))
  {
    hide RefOf, GuardOf, Fetching, ReplyOf, HasFresh, FetchInv, CacheInv, StoredInv;
    var s', pc := InsertStep(cfg, s, t, pruneAt, insertAt, victim), s.tasks[t].pc;
    assert RefOf(Settled(pc.lock, pc.reply)) == RefOf(pc) && GuardOf(Settled(pc.lock, pc.reply)) == GuardOf(pc) by {
      SettledKeeps(pc.lock, pc.reply);
    }
    InsertKeepsFetch(cfg, s, t, pruneAt, insertAt, victim);
    InsertKeepsCache(cfg, s, t, pruneAt, insertAt, victim);
    InsertKeepsStored(cfg, s, t, pruneAt, insertAt, victim);
    assert SlotsInv(s');
    assert GuardsInv(s');
  }

  lemma ReadKeepsInv(cfg: Config, s: State, t: nat, recheck: bool)
    requires Inv(cfg, s) && t in s.tasks && (if recheck then s.tasks[t].pc.Locked? else s.tasks[t].pc.Begin?)
    ensures Inv(cfg, Next(cfg, s, if recheck then Recheck(t) else Peek(t)))
  {
    var k, pc := s.tasks[t].key, s.tasks[t].pc;
    if HasFresh(s, k) {
      assert EntryOk(cfg, s, k, s.cache[k]);
      SetPcKeepsInv(cfg, s, t, if recheck then Settled(pc.lock, Ok(s.cache[k].value)) else Returned(Ok(s.cache[k].value)));
    } else {
      SetPcKeepsInv(cfg, s, t, if recheck then Calling(pc.lock) else Missed);
    }
  }

  lemma NextKeepsInv(cfg: Config, s: State, e: Event)
    requires Inv(cfg, s) && Enabled(cfg, s, e)
    ensures Inv(cfg, Next(cfg, s, e))
  {
    hide Inv, LockFree, JoinStep, InsertStep, ReleaseStep, LegalVictim;
    match e
    case Tick(to) => TickKeepsInv(cfg, s, to);
    case Spawn(t, key) => SpawnKeepsInv(cfg, s, t, key);
    case Peek(t) => ReadKeepsInv(cfg, s, t, false);
    case Join(t) => JoinKeepsInv(cfg, s, t);
    case Lock(t) => MoveKeepsInv(cfg, s, e);
    case Recheck(t) => ReadKeepsInv(cfg, s, t, true);
    case Answer(t, reply) => AnswerKeepsInv(cfg, s, t, reply);
    case Insert(t, p, i, victim) => InsertKeepsInv(cfg, s, t, p, i, victim);
    case Release(t) => ReleaseKeepsInv(cfg, s, t);
    case _ => MoveKeepsInv(cfg, s, e);
  }

  lemma MoveKeepsInv(cfg: Config, s: State, e: Event)
    requires Inv(cfg, s) && Enabled(cfg, s, e) && (e.Lock? || e.SkipInsert? || e.DropGuard? || e.DropRef? || e.Cancel?)
    ensures Inv(cfg, Next(cfg, s, e))
  {
    hide SlotsInv, GuardsInv, FetchInv, CacheInv, StoredInv, HasFresh, LockFree;
    if ReplyOf(s.tasks[e.task].pc).Some? { ReplyIsAnswer(cfg, s, e.task); }
    SetPcKeepsInv(cfg, s, e.task, Next(cfg, s, e).tasks[e.task].pc);
  }

  // ------------------------------------------------------------ whole runs

  predicate Possible(cfg: Config, s: State, es: seq<Event>)
    decreases |es|
  {
    es == [] || (Enabled(cfg, s, es[0]) && Possible(cfg, Next(cfg, s, es[0]), es[1..]))
  }

  function Run(cfg: Config, s: State, es: seq<Event>): State
    requires Possible(cfg, s, es)
    decreases |es|
  {
    if es == [] then s else Run(cfg, Next(cfg, s, es[0]), es[1..])
  }

  lemma {:induction false} RunKeepsInv(cfg: Config, s: State, es: seq<Event>)
    requires Inv(cfg, s) && Possible(cfg, s, es)
    ensures Inv(cfg, Run(cfg, s, es))
    decreases |es|
  {
    hide Inv, Enabled, Next;
    if es != [] {
      NextKeepsInv(cfg, s, es[0]);
      RunKeepsInv(cfg, Next(cfg, s, es[0]), es[1..]);
    }
  }

  lemma InitialInv(cfg: Config, now: nat)
    ensures Inv(cfg, Initial(now))
  {
  }

  lemma OneFetchPerKey(cfg: Config, s: State, t: nat, u: nat)
    requires Inv(cfg, s) && t in s.tasks && u in s.tasks && s.tasks[t].key == s.tasks[u].key
    requires Fetching(s.tasks[t].pc) && Fetching(s.tasks[u].pc)
    ensures t == u
  {
    assert RefOf(s.tasks[t].pc) == GuardOf(s.tasks[t].pc) && RefOf(s.tasks[u].pc) == GuardOf(s.tasks[u].pc);
  }

  /**
   * In every run from an empty cache: lookups holding a reference for a key hold the lock
   * in the map, and at most one backend call per key is running.
   */
  lemma SingleFlightSafety(cfg: Config, now: nat, es: seq<Event>, t: nat, u: nat)
    requires Possible(cfg, Initial(now), es)
    requires var s := Run(cfg, Initial(now), es); t in s.tasks && u in s.tasks && s.tasks[t].key == s.tasks[u].key
    ensures var s := Run(cfg, Initial(now), es);
            && (RefOf(s.tasks[t].pc).Some? && RefOf(s.tasks[u].pc).Some? ==> RefOf(s.tasks[t].pc) == RefOf(s.tasks[u].pc))
            && (s.tasks[t].pc.Calling? && s.tasks[u].pc.Calling? ==> t == u)
  {
    hide Possible, Run, Initial;
    InitialInv(cfg, now);
    RunKeepsInv(cfg, Initial(now), es);
    var s := Run(cfg, Initial(now), es);
    if s.tasks[t].pc.Calling? && s.tasks[u].pc.Calling? { OneFetchPerKey(cfg, s, t, u); }
  }

  // ------------------------------------------------------------ the cache against the events

  /** The clock, the answers and the stores of a run, read off its events alone. */
  datatype Ledger = Ledger(
    now: nat, keys: map<nat, Key>, replies: map<nat, Reply>, answers: set<(Key, Reply)>, stored: map<Key, Kept>)

  function Post(l: Ledger, e: Event): Ledger {
    match e
    case Tick(to) => l.(now := to)
    case Spawn(t, k) => l.(keys := l.keys[t := k])
    case Answer(t, reply) =>
      if t in l.keys then l.(replies := l.replies[t := reply], answers := l.answers + {(l.keys[t], reply)}) else l
    case Insert(t, _, at, _) =>
      if t in l.keys && t in l.replies && l.replies[t].Ok?
      then l.(now := at, stored := l.stored[l.keys[t] := Kept(l.replies[t].doc, at)]) else l
    case _ => l
  }

  function Books(l: Ledger, es: seq<Event>): Ledger
    decreases |es|
  {
    if es == [] then l else Books(Post(l, es[0]), es[1..])
  }

  function Blank(now: nat): Ledger {
    Ledger(now, map[], map[], {}, map[])
  }

  predicate LedgerAgrees(s: State, l: Ledger) {
    && l.now == s.now && l.answers == s.answers && l.stored == s.stored
    && (forall t :: t in s.tasks ==> t in l.keys && l.keys[t] == s.tasks[t].key)
    && (forall t :: t in s.tasks && s.tasks[t].pc.Answered? ==> t in l.replies && l.replies[t] == s.tasks[t].pc.reply)
  }

  lemma NextKeepsLedger(cfg: Config, s: State, e: Event, l: Ledger)
    requires LedgerAgrees(s, l) && Enabled(cfg, s, e)
    ensures LedgerAgrees(Next(cfg, s, e), Post(l, e))
  {
    hide LegalVictim, LockFree, Referenced, MakeRoom;
  }

  lemma {:induction false} RunKeepsLedger(cfg: Config, s: State, es: seq<Event>, l: Ledger)
    requires LedgerAgrees(s, l) && Possible(cfg, s, es)
    ensures LedgerAgrees(Run(cfg, s, es), Books(l, es))
    decreases |es|
  {
    hide LedgerAgrees, Enabled, Next, Post;
    if es != [] {
      NextKeepsLedger(cfg, s, es[0], l);
      RunKeepsLedger(cfg, Next(cfg, s, es[0]), es[1..], Post(l, es[0]));
    }
  }

  lemma RunAgrees(cfg: Config, now: nat, es: seq<Event>)
    requires Possible(cfg, Initial(now), es)
    ensures Inv(cfg, Run(cfg, Initial(now), es)) && LedgerAgrees(Run(cfg, Initial(now), es), Books(Blank(now), es))
  {
    hide Possible, Run, Inv, Books;
    InitialInv(cfg, now);
    RunKeepsInv(cfg, Initial(now), es);
    RunKeepsLedger(cfg, Initial(now), es, Blank(now));
  }

  /** Stored less than its lifetime ago: one lifetime for documents, one for the news that there is none. */
  predicate Young(cfg: Config, kept: Kept, now: nat) {
    now < kept.at + if kept.doc.Some? then cfg.ttl else cfg.negativeTtl
  }

  /**
   * In every run: when a backend call starts, nothing fresh is cached under the key, so an
   * earlier successful fetch of that key is past its lifetime or was evicted.
   */
  lemma CallsNeedExpiryOrEviction(cfg: Config, now: nat, es: seq<Event>, t: nat)
    requires Possible(cfg, Initial(now), es)
    requires var s := Run(cfg, Initial(now), es);
             Enabled(cfg, s, Recheck(t)) && Next(cfg, s, Recheck(t)).tasks[t].pc.Calling?
    ensures var s, l := Run(cfg, Initial(now), es), Books(Blank(now), es);
            var k := s.tasks[t].key;
            !HasFresh(s, k) && (k in l.stored ==> !Young(cfg, l.stored[k], l.now) || k in s.evicted)
  {
    hide Possible, Run, Initial, Books;
    RunAgrees(cfg, now, es);
    var s := Run(cfg, Initial(now), es);
    assert StoredInv(cfg, s);
  }

  /**
   * In every run: a cached hit is the last stored backend answer of its key, younger than its
   * lifetime; an answer that is and was not evicted is a hit; every returned reply is a
   * backend answer for that key; and the map respects its cap.
   */
  lemma CacheContents(cfg: Config, now: nat, es: seq<Event>, k: Key, t: nat)
    requires Possible(cfg, Initial(now), es)
    ensures var s, l := Run(cfg, Initial(now), es), Books(Blank(now), es);
            && (HasFresh(s, k) ==>
                  && k in l.stored && s.cache[k].value == l.stored[k].doc && (k, Ok(l.stored[k].doc)) in l.answers
                  && l.stored[k].at <= l.now && Young(cfg, l.stored[k], l.now))
            && (k in l.stored && Young(cfg, l.stored[k], l.now) && k !in s.evicted ==> HasFresh(s, k))
            && (t in s.tasks && s.tasks[t].pc.Returned? ==> t in l.keys && (l.keys[t], s.tasks[t].pc.reply) in l.answers)
            && (cfg.cap >= 1 ==> |s.cache| <= cfg.cap)
  {
    hide Possible, Run, Initial, Books;
    RunAgrees(cfg, now, es);
    var s := Run(cfg, Initial(now), es);
    if HasFresh(s, k) { assert EntryOk(cfg, s, k, s.cache[k]); }
    if t in s.tasks && s.tasks[t].pc.Returned? { assert ReplyOf(s.tasks[t].pc).Some?; }
    assert StoredInv(cfg, s);
  }

  // ------------------------------------------------------------ nothing is evicted while there is room

  /** Every key seen so far is one of `keys`. */
  predicate Among(s: State, keys: set<Key>) {
    s.cache.Keys <= keys && forall t :: t in s.tasks ==> s.tasks[t].key in keys
  }

  lemma InsertEvictsNothing(cfg: Config, s: State, t: nat, pruneAt: nat, insertAt: nat, victim: Key, keys: set<Key>)
    requires Inv(cfg, s) && Enabled(cfg, s, Insert(t, pruneAt, insertAt, victim)) && Among(s, keys) && |keys| <= cfg.cap
    ensures InsertStep(cfg, s, t, pruneAt, insertAt, victim).evicted <= s.evicted
  {
    hide SlotsInv, GuardsInv, CacheInv, StoredInv, RefOf, GuardOf, ReplyOf, Soonest;
    var k, room, live := s.tasks[t].key, MakeRoom(s.cache, cfg.cap, pruneAt, victim), Fresh(s.cache, pruneAt);
    assert Fetching(s.tasks[t].pc) && !HasFresh(s, k);
    assert live.Keys <= keys - {k};
    SmallerSet(live.Keys, keys - {k});
    assert |live| < |keys|;
    forall j | j in s.cache && j !in room
      ensures s.cache[j].expiresAt <= pruneAt
    {
      EvictsOnlyWhenFull(s.cache, cfg.cap, pruneAt, victim, j);
    }
  }

  lemma NextEvictsNothing(cfg: Config, s: State, e: Event, keys: set<Key>)
    requires Inv(cfg, s) && Enabled(cfg, s, e) && Among(s, keys) && |keys| <= cfg.cap && (e.Spawn? ==> e.key in keys)
    ensures Among(Next(cfg, s, e), keys) && Next(cfg, s, e).evicted <= s.evicted
  {
    hide Inv, LegalVictim, LockFree, Referenced;
    if e.Insert? {
      InsertEvictsNothing(cfg, s, e.task, e.pruneAt, e.insertAt, e.victim, keys);
    }
  }

  lemma {:induction false} RunEvictsNothing(cfg: Config, s: State, es: seq<Event>, keys: set<Key>)
    requires Inv(cfg, s) && Possible(cfg, s, es) && Among(s, keys) && |keys| <= cfg.cap
    requires forall i :: 0 <= i < |es| && es[i].Spawn? ==> es[i].key in keys
    ensures Run(cfg, s, es).evicted <= s.evicted
    decreases |es|
  {
    hide Inv, Enabled, Next, Among;
    if es != [] {
      NextEvictsNothing(cfg, s, es[0], keys);
      NextKeepsInv(cfg, s, es[0]);
      RunEvictsNothing(cfg, Next(cfg, s, es[0]), es[1..], keys);
    }
  }

  /**
   * A run that looks up no more keys than the cache holds evicts nothing: every stored answer
   * is a hit as long as it is younger than its lifetime.
   */
  lemma RoomForAll(cfg: Config, now: nat, es: seq<Event>, keys: set<Key>, k: Key)
    requires Possible(cfg, Initial(now), es) && |keys| <= cfg.cap
    requires forall i :: 0 <= i < |es| && es[i].Spawn? ==> es[i].key in keys
    ensures var s, l := Run(cfg, Initial(now), es), Books(Blank(now), es);
            HasFresh(s, k) <==> k in l.stored && Young(cfg, l.stored[k], l.now)
  {
    hide Possible, Run, Books, HasFresh, Young, Inv;
    InitialInv(cfg, now);
    RunEvictsNothing(cfg, Initial(now), es, keys);
    CacheContents(cfg, now, es, k, 0);
  }

  // ------------------------------------------------------------ no slot is left behind

  /** The lookup still has to give back a reference or look at the slot. */
  predicate Busy(pc: Pc) {
    RefOf(pc).Some? || pc.Dropped?
  }

  predicate Needed(s: State, k: Key) {
    exists t :: t in s.tasks && s.tasks[t].key == k && Busy(s.tasks[t].pc)
  }

  predicate Tidy(s: State) {
    && (forall k :: k in s.slots ==> Needed(s, k))
    && (forall t :: t in s.tasks ==> !s.tasks[t].pc.Aborted?)
  }

  /** The task at hand stays busy, so every slot keeps its reason. */
  lemma StillNeeded(s: State, s': State, k: Key, t: nat)
    requires Needed(s, k) && t in s.tasks
    requires forall u :: u in s.tasks && u != t ==> u in s'.tasks && s'.tasks[u] == s.tasks[u]
    requires t in s'.tasks && s'.tasks[t].key == s.tasks[t].key && (Busy(s.tasks[t].pc) ==> Busy(s'.tasks[t].pc))
    ensures Needed(s', k)
  {
    hide Busy;
    var u :| u in s.tasks && s.tasks[u].key == k && Busy(s.tasks[u].pc);
    assert u in s'.tasks && s'.tasks[u].key == k && Busy(s'.tasks[u].pc);
  }

  lemma ReleaseKeepsTidy(cfg: Config, s: State, t: nat)
    requires Inv(cfg, s) && Tidy(s) && t in s.tasks && s.tasks[t].pc.Dropped?
    ensures Tidy(ReleaseStep(s, t))
  {
    var s', k := ReleaseStep(s, t), s.tasks[t].key;
    forall j | j in s'.slots
      ensures Needed(s', j)
    {
      if j == k {
        var u :| u in s.tasks && RefOf(s.tasks[u].pc) == Some(s.slots[k]);
        assert s.tasks[u].key == k && u != t;
        assert s'.tasks[u] == s.tasks[u] && Busy(s'.tasks[u].pc);
      } else {
        var u :| u in s.tasks && s.tasks[u].key == j && Busy(s.tasks[u].pc);
        assert s'.tasks[u] == s.tasks[u];
      }
    }
  }

  lemma JoinKeepsTidy(s: State, t: nat)
    requires Tidy(s) && t in s.tasks && s.tasks[t].pc.Missed?
    ensures Tidy(JoinStep(s, t))
  {
    var s', k := JoinStep(s, t), s.tasks[t].key;
    forall j | j in s'.slots
      ensures Needed(s', j)
    {
      if j == k {
        assert s'.tasks[t].key == k && Busy(s'.tasks[t].pc);
      } else {
        StillNeeded(s, s', j, t);
      }
    }
  }

  lemma SpawnKeepsTidy(s: State, t: nat, key: Key)
    requires Tidy(s) && t !in s.tasks
    ensures Tidy(s.(tasks := s.tasks[t := Task(key, Begin)]))
  {
    var s' := s.(tasks := s.tasks[t := Task(key, Begin)]);
    forall j | j in s'.slots
      ensures Needed(s', j)
    {
      var u :| u in s.tasks && s.tasks[u].key == j && Busy(s.tasks[u].pc);
      assert s'.tasks[u] == s.tasks[u];
    }
  }

  lemma MoveKeepsTidy(s: State, s': State, t: nat)
    requires Tidy(s) && t in s.tasks && t in s'.tasks && s'.slots == s.slots
    requires s'.tasks == s.tasks[t := s'.tasks[t]] && s'.tasks[t].key == s.tasks[t].key
    requires (Busy(s.tasks[t].pc) ==> Busy(s'.tasks[t].pc)) && !s'.tasks[t].pc.Aborted?
    ensures Tidy(s')
  {
    hide Busy, Needed;
    forall j | j in s'.slots
      ensures Needed(s', j)
    {
      StillNeeded(s, s', j, t);
    }
  }

  lemma NextKeepsTidy(cfg: Config, s: State, e: Event)
    requires Inv(cfg, s) && Tidy(s) && Enabled(cfg, s, e) && !e.Cancel?
    ensures Tidy(Next(cfg, s, e))
  {
    hide Inv, Needed, LockFree, LegalVictim, MakeRoom, HasFresh;
    if e.Tick? {
      TickKeepsNeeded(s, e.to);
    } else if e.Spawn? {
      SpawnKeepsTidy(s, e.task, e.key);
    } else if e.Join? {
      JoinKeepsTidy(s, e.task);
    } else if e.Release? {
      ReleaseKeepsTidy(cfg, s, e.task);
    } else {
      MoveKeepsTidy(s, Next(cfg, s, e), e.task);
    }
  }

  lemma TickKeepsNeeded(s: State, to: nat)
    ensures forall k :: Needed(s, k) ==> Needed(s.(now := to), k)
  {
  }

  lemma {:induction false} RunKeepsTidy(cfg: Config, s: State, es: seq<Event>)
    requires Inv(cfg, s) && Tidy(s) && Possible(cfg, s, es)
    requires forall i :: 0 <= i < |es| ==> !es[i].Cancel?
    ensures Tidy(Run(cfg, s, es))
    decreases |es|
  {
    hide Inv, Enabled, Next, Tidy;
    if es != [] {
      NextKeepsInv(cfg, s, es[0]);
      NextKeepsTidy(cfg, s, es[0]);
      RunKeepsTidy(cfg, Next(cfg, s, es[0]), es[1..]);
    }
  }

  /** Without cancellation, when every lookup has returned no flight slot is left. */
  lemma NoSlotLeft(cfg: Config, now: nat, es: seq<Event>)
    requires Possible(cfg, Initial(now), es) && forall i :: 0 <= i < |es| ==> !es[i].Cancel?
    requires var s := Run(cfg, Initial(now), es); forall t :: t in s.tasks ==> s.tasks[t].pc.Returned?
    ensures Run(cfg, Initial(now), es).slots == map[]
  {
    hide Possible, Run;
    InitialInv(cfg, now);
    RunKeepsTidy(cfg, Initial(now), es);
    var s := Run(cfg, Initial(now), es);
    assert forall k :: !Needed(s, k);
  }

  // ------------------------------------------------------------ every lookup can return

  lemma {:induction false} RunConcat(cfg: Config, s: State, es: seq<Event>, more: seq<Event>)
    requires Possible(cfg, s, es) && Possible(cfg, Run(cfg, s, es), more)
    ensures Possible(cfg, s, es + more) && Run(cfg, s, es + more) == Run(cfg, Run(cfg, s, es), more)
    decreases |es|
  {
    hide Enabled, Next;
    if es == [] {
      assert es + more == more;
    } else {
      RunConcat(cfg, Next(cfg, s, es[0]), es[1..], more);
      assert (es + more)[1..] == es[1..] + more;
    }
  }

  lemma RunOneMore(cfg: Config, s: State, e: Event, es: seq<Event>)
    requires Enabled(cfg, s, e) && Possible(cfg, Next(cfg, s, e), es)
    ensures Possible(cfg, s, [e] + es) && Run(cfg, s, [e] + es) == Run(cfg, Next(cfg, s, e), es)
  {
    hide Enabled, Next;
    assert ([e] + es)[1..] == es;
  }

  lemma NoRun(cfg: Config, s: State)
    ensures Possible(cfg, s, []) && Run(cfg, s, []) == s
  {
  }

  /** Past the lock, and not cancelled: nothing left to wait for but the backend. */
  predicate PastLock(pc: Pc) {
    pc.Locked? || pc.Calling? || pc.Answered? || pc.Settled? || pc.Unlocked? || pc.Dropped? || pc.Returned?
  }

  function Distance(pc: Pc): nat {
    match pc
    case Locked(_) => 6 case Calling(_) => 5 case Answered(_, _) => 4 case Settled(_, _) => 3 case Unlocked(_, _) => 2
    case Dropped(_) => 1 case _ => 0
  }

  /** The step such a lookup takes next, the backend saying `reply`. */
  lemma OneCloser(cfg: Config, s: State, t: nat, reply: Reply) returns (e: Event)
    requires t in s.tasks && PastLock(s.tasks[t].pc) && !s.tasks[t].pc.Returned?
    ensures Enabled(cfg, s, e) && !e.Cancel? && !e.Tick? && !e.Spawn?
    ensures var s' := Next(cfg, s, e);
            && t in s'.tasks && s'.tasks == s.tasks[t := s'.tasks[t]] && s'.tasks[t].key == s.tasks[t].key
            && PastLock(s'.tasks[t].pc) && Distance(s'.tasks[t].pc) < Distance(s.tasks[t].pc)
            && (s.tasks[t].pc.Calling? ==> ReplyOf(s'.tasks[t].pc) == Some(reply))
            && (ReplyOf(s.tasks[t].pc).Some? ==> ReplyOf(s'.tasks[t].pc) == ReplyOf(s.tasks[t].pc))
  {
    hide LegalVictim, HasFresh, Referenced, MakeRoom;
    var pc := s.tasks[t].pc;
    if pc.Answered? && pc.reply.Ok? {
      var victim := SomeVictim(s.cache, cfg.cap, s.now);
      e := Insert(t, s.now, s.now, victim);
    } else {
      e := match pc
        case Locked(_) => Recheck(t)
        case Calling(_) => Answer(t, reply)
        case Answered(_, _) => SkipInsert(t)
        case Settled(_, _) => DropGuard(t)
        case Unlocked(_, _) => DropRef(t)
        case _ => Release(t);
    }
  }

  predicate Uninterrupted(es: seq<Event>) {
    forall e :: e in es ==> !e.Cancel? && !e.Tick? && !e.Spawn?
  }

  lemma {:induction false} HolderReturns(cfg: Config, s: State, t: nat, reply: Reply) returns (es: seq<Event>)
    requires t in s.tasks && PastLock(s.tasks[t].pc)
    ensures Possible(cfg, s, es) && Uninterrupted(es)
    ensures var s' := Run(cfg, s, es);
            && t in s'.tasks && s'.tasks == s.tasks[t := s'.tasks[t]] && s'.tasks[t].key == s.tasks[t].key
            && s'.tasks[t].pc.Returned?
            && (s.tasks[t].pc.Calling? ==> s'.tasks[t].pc.reply == reply)
            && (ReplyOf(s.tasks[t].pc).Some? ==> Some(s'.tasks[t].pc.reply) == ReplyOf(s.tasks[t].pc))
    decreases Distance(s.tasks[t].pc)
  {
    hide Enabled, Next, Possible, Run, PastLock;
    if s.tasks[t].pc.Returned? {
      NoRun(cfg, s);
      es := [];
      assert s.tasks[t := s.tasks[t]] == s.tasks;
    } else {
      var e := OneCloser(cfg, s, t, reply);
      hide Distance;
      var rest := HolderReturns(cfg, Next(cfg, s, e), t, reply);
      RunOneMore(cfg, s, e, rest);
      es := [e] + rest;
    }
  }

  /** The only one who can be in the way of a lookup that has joined returns on its own. */
  lemma LockComesFree(cfg: Config, s: State, t: nat, reply: Reply) returns (es: seq<Event>)
    requires GuardsInv(s) && t in s.tasks && s.tasks[t].pc.Joined?
    ensures Possible(cfg, s, es) && Uninterrupted(es)
    ensures var s' := Run(cfg, s, es);
            t in s'.tasks && s'.tasks[t] == s.tasks[t] && LockFree(s', s.tasks[t].pc.lock)
  {
    hide Possible, Run;
    var lock := s.tasks[t].pc.lock;
    if LockFree(s, lock) {
      NoRun(cfg, s);
      es := [];
    } else {
      var u :| u in s.tasks && GuardOf(s.tasks[u].pc) == Some(lock);
      es := HolderReturns(cfg, s, u, reply);
    }
  }

  lemma JoinedReturns(cfg: Config, s: State, t: nat, reply: Reply) returns (es: seq<Event>)
    requires GuardsInv(s) && t in s.tasks && s.tasks[t].pc.Joined?
    ensures Possible(cfg, s, es) && Uninterrupted(es)
    ensures var s' := Run(cfg, s, es); t in s'.tasks && s'.tasks[t].pc.Returned?
  {
    hide Possible, Run, LockFree, GuardsInv;
    var first := LockComesFree(cfg, s, t, reply);
    var free := Run(cfg, s, first);
    var locked := Next(cfg, free, Lock(t));
    var last := HolderReturns(cfg, locked, t, reply);
    RunOneMore(cfg, free, Lock(t), last);
    RunConcat(cfg, s, first, [Lock(t)] + last);
    es := first + ([Lock(t)] + last);
  }

  lemma MissedReturns(cfg: Config, s: State, t: nat, reply: Reply) returns (es: seq<Event>)
    requires Inv(cfg, s) && t in s.tasks && s.tasks[t].pc.Missed?
    ensures Possible(cfg, s, es) && Uninterrupted(es)
    ensures var s' := Run(cfg, s, es); t in s'.tasks && s'.tasks[t].pc.Returned?
  {
    hide Possible, Run, GuardsInv, SlotsInv, FetchInv, CacheInv, StoredInv;
    NextKeepsInv(cfg, s, Join(t));
    var rest := JoinedReturns(cfg, Next(cfg, s, Join(t)), t, reply);
    RunOneMore(cfg, s, Join(t), rest);
    es := [Join(t)] + rest;
  }

  lemma BeginReturns(cfg: Config, s: State, t: nat, reply: Reply) returns (es: seq<Event>)
    requires Inv(cfg, s) && t in s.tasks && s.tasks[t].pc.Begin?
    ensures Possible(cfg, s, es) && Uninterrupted(es)
    ensures var s' := Run(cfg, s, es); t in s'.tasks && s'.tasks[t].pc.Returned?
  {
    hide Possible, Run, Inv, HasFresh;
    NextKeepsInv(cfg, s, Peek(t));
    var s' := Next(cfg, s, Peek(t));
    var rest := [];
    NoRun(cfg, s');
    if s'.tasks[t].pc.Missed? { rest := MissedReturns(cfg, s', t, reply); }
    RunOneMore(cfg, s, Peek(t), rest);
    es := [Peek(t)] + rest;
  }

  /**
   * No lookup is ever stuck: from every reachable state, however many others were cancelled
   * on the way, each lookup not itself cancelled returns after steps of its own and of the
   * one that holds its lock, without any clock tick, new lookup or cancellation.
   */
  lemma LookupCanReturn(cfg: Config, now: nat, es: seq<Event>, t: nat, reply: Reply) returns (more: seq<Event>)
    requires Possible(cfg, Initial(now), es)
    requires var s := Run(cfg, Initial(now), es); t in s.tasks && !s.tasks[t].pc.Aborted? && !s.tasks[t].pc.Gone?
    ensures Possible(cfg, Initial(now), es + more) && Uninterrupted(more)
    ensures var s := Run(cfg, Initial(now), es + more); t in s.tasks && s.tasks[t].pc.Returned?
  {
    InitialInv(cfg, now);
    RunKeepsInv(cfg, Initial(now), es);
    hide Possible, Run, GuardsInv, SlotsInv, FetchInv, CacheInv, StoredInv;
    var s := Run(cfg, Initial(now), es);
    if s.tasks[t].pc.Begin? {
      more := BeginReturns(cfg, s, t, reply);
    } else if s.tasks[t].pc.Missed? {
      more := MissedReturns(cfg, s, t, reply);
    } else if s.tasks[t].pc.Joined? {
      more := JoinedReturns(cfg, s, t, reply);
    } else {
      more := HolderReturns(cfg, s, t, reply);
    }
    RunConcat(cfg, Initial(now), es, more);
  }

  /** A lookup cancelled while it waits leaves nothing locked and no reference behind. */
  lemma CancelLetsGo(cfg: Config, s: State, t: nat) returns (es: seq<Event>)
    requires GuardsInv(s) && t in s.tasks && (RefOf(s.tasks[t].pc).None? || GuardOf(s.tasks[t].pc).Some? || s.tasks[t].pc.Joined?)
    requires !s.tasks[t].pc.Returned? && !s.tasks[t].pc.Gone?
    ensures Possible(cfg, s, es)
    ensures var s' := Run(cfg, s, es);
            && t in s'.tasks && s'.tasks == s.tasks[t := s'.tasks[t]] && s'.tasks[t].pc.Gone?
            && (GuardOf(s.tasks[t].pc).Some? ==> LockFree(s', GuardOf(s.tasks[t].pc).value))
  {
    hide Possible, Run;
    var s' := Next(cfg, s, Cancel(t));
    var rest := [];
    NoRun(cfg, s');
    if s'.tasks[t].pc.Aborted? {
      NoRun(cfg, Next(cfg, s', DropRef(t)));
      RunOneMore(cfg, s', DropRef(t), []);
      rest := [DropRef(t)] + [];
    }
    RunOneMore(cfg, s, Cancel(t), rest);
    es := [Cancel(t)] + rest;
  }
}
