/** How threads find their own SerialArena in a shared arena: by the thread cache, by the arena's hint, by
    walking the arena's list, or by pushing a new one with compare-and-swap.  Any number of threads, any
    interleaving of single steps on shared memory. */
module ArenaProtocol {
  import opened Options

  type Thread = nat
  type Address = nat
  type ArenaId = nat

  /** A SerialArena in memory. */
  datatype Serial = Serial(owner: Thread, next: Option<Address>)

  datatype Arena = Arena(id: nat, recordAllocs: bool, hint: Option<Address>, threads: Option<Address>)

  /** Thread-local.  `lastIdSeen` is -1 until the thread has cached an arena. */
  datatype Cache = Cache(nextId: nat, lastIdSeen: int, lastSerial: Option<Address>)

  // A batch of lifecycle ids spans 512: 256 ids per thread, by steps of two.

  /** Where a thread is inside an allocation from arena `a`. */
  datatype Pc =
    | Idle
    | Fast(a: ArenaId, tagged: bool)
    | AtHint(a: ArenaId)
    | AtList(a: ArenaId)
    | Walking(a: ArenaId, cur: Option<Address>)
    | Linking(a: ArenaId, s: Address, expected: Option<Address>)
    | Trying(a: ArenaId, s: Address, expected: Option<Address>)
    | Caching(a: ArenaId, s: Address)
    | Hinting(a: ArenaId, s: Address)
    | Got(a: ArenaId, s: Address)

  /** `lists` records what was pushed on each arena since it was initialised, newest first, and `issued` the
      lifecycle ids handed out; no step reads either. */
  datatype State = State(
    generator: nat, caches: map<Thread, Cache>, arenas: map<ArenaId, Arena>, serials: map<Address, Serial>,
    pcs: map<Thread, Pc>, lists: map<ArenaId, seq<Address>>, issued: set<nat>)

  function CacheOf(s: State, t: Thread): Cache {
    if t in s.caches then s.caches[t] else Cache(0, -1, None)
  }

  function PcOf(s: State, t: Thread): Pc {
    if t in s.pcs then s.pcs[t] else Idle
  }

  function Goto(s: State, t: Thread, pc: Pc): State {
    s.(pcs := s.pcs[t := pc])
  }

  ghost predicate Quiescent(s: State, a: ArenaId) {
    forall t | t in s.pcs && !s.pcs[t].Idle? :: s.pcs[t].a != a
  }

  // ---------- steps ----------

  datatype Step =
    | Initialize(t: Thread, a: ArenaId, recordAllocs: bool, initial: Option<Address>)
    | Destroy(a: ArenaId)
    | Begin(t: Thread, a: ArenaId, tagged: bool)
    | CheckCache(t: Thread)
    | CheckHint(t: Thread)
    | LoadList(t: Thread)
    | Visit(t: Thread)
    | Allocate(t: Thread, x: Address)
    | SetNext(t: Thread)
    | CompareExchange(t: Thread, spurious: bool)
    | StoreCache(t: Thread)
    | StoreHint(t: Thread)
    | Use(t: Thread)

  function WithoutList(s: State, a: ArenaId): map<Address, Serial> {
    if a in s.lists then map x | x in s.serials && x !in s.lists[a] :: s.serials[x] else s.serials
  }

  /** The id Init takes: the thread's next one, or the start of a new batch. */
  function DrawnId(s: State, t: Thread): nat {
    var next := CacheOf(s, t).nextId;
    if next % 512 == 0 then s.generator * 512 else next
  }

  ghost predicate Enabled(s: State, step: Step) {
    match step
    case Initialize(t, a, _, initial) =>
      Quiescent(s, a) && (initial.Some? ==> initial.value !in WithoutList(s, a))
    case Destroy(a) => a in s.arenas && Quiescent(s, a)
    case Begin(t, a, _) => PcOf(s, t).Idle? && a in s.arenas
    case CheckCache(t) => PcOf(s, t).Fast? && PcOf(s, t).a in s.arenas
    case CheckHint(t) => PcOf(s, t).AtHint? && PcOf(s, t).a in s.arenas
      && (s.arenas[PcOf(s, t).a].hint.Some? ==> s.arenas[PcOf(s, t).a].hint.value in s.serials)
    case LoadList(t) => PcOf(s, t).AtList? && PcOf(s, t).a in s.arenas
    case Visit(t) => PcOf(s, t).Walking? && PcOf(s, t).cur.Some? && PcOf(s, t).cur.value in s.serials
    case Allocate(t, x) => PcOf(s, t).Walking? && PcOf(s, t).cur.None? && PcOf(s, t).a in s.arenas && x !in s.serials
    case SetNext(t) => PcOf(s, t).Linking? && PcOf(s, t).s in s.serials
    case CompareExchange(t, _) => PcOf(s, t).Trying? && PcOf(s, t).a in s.arenas && PcOf(s, t).a in s.lists
    case StoreCache(t) => PcOf(s, t).Caching? && PcOf(s, t).a in s.arenas
    case StoreHint(t) => PcOf(s, t).Hinting? && PcOf(s, t).a in s.arenas
    case Use(t) => PcOf(s, t).Got?
  }

  function Dropped(s: State, a: ArenaId): State {
    s.(arenas := s.arenas - {a}, serials := WithoutList(s, a), lists := s.lists - {a})
  }

  function DoInitialize(s: State, t: Thread, a: ArenaId, recordAllocs: bool, initial: Option<Address>): State {
    var id := DrawnId(s, t);
    var generator := if CacheOf(s, t).nextId % 512 == 0 then s.generator + 1 else s.generator;
    var cache := CacheOf(s, t).(nextId := id + 2);
    var serials := WithoutList(s, a);
    match initial
    case None =>
      State(generator, s.caches[t := cache], s.arenas[a := Arena(id, recordAllocs, None, None)], serials, s.pcs,
        s.lists[a := []], s.issued + {id})
    case Some(x) =>
      State(generator, s.caches[t := cache.(lastIdSeen := id, lastSerial := Some(x))],
        s.arenas[a := Arena(id, recordAllocs, Some(x), Some(x))], serials[x := Serial(t, None)], s.pcs,
        s.lists[a := [x]], s.issued + {id})
  }

  function DoCheckCache(s: State, t: Thread): State
    requires PcOf(s, t).Fast? && PcOf(s, t).a in s.arenas
  {
    var Fast(a, tagged) := PcOf(s, t);
    var arena, cache := s.arenas[a], CacheOf(s, t);
    var asked := if tagged && arena.recordAllocs then arena.id + 1 else arena.id;
    if cache.lastIdSeen == asked && cache.lastSerial.Some? then Goto(s, t, Got(a, cache.lastSerial.value))
    else if tagged && arena.recordAllocs then Goto(s, t, Fast(a, false))
    else Goto(s, t, AtHint(a))
  }

  function DoCompareExchange(s: State, t: Thread, spurious: bool): State
    requires PcOf(s, t).Trying? && PcOf(s, t).a in s.arenas && PcOf(s, t).a in s.lists
  {
    var Trying(a, x, expected) := PcOf(s, t);
    if !spurious && s.arenas[a].threads == expected then
      Goto(s.(arenas := s.arenas[a := s.arenas[a].(threads := Some(x))], lists := s.lists[a := [x] + s.lists[a]]),
        t, Caching(a, x))
    else Goto(s, t, Linking(a, x, s.arenas[a].threads))
  }

  ghost function Do(s: State, step: Step): State
    requires Enabled(s, step)
  {
    match step
    case Initialize(t, a, recordAllocs, initial) => DoInitialize(s, t, a, recordAllocs, initial)
    case Destroy(a) => Dropped(s, a)
    case Begin(t, a, tagged) => Goto(s, t, Fast(a, tagged))
    case CheckCache(t) => DoCheckCache(s, t)
    case CheckHint(t) =>
      var a := PcOf(s, t).a;
      var hint := s.arenas[a].hint;
      if hint.Some? && s.serials[hint.value].owner == t then Goto(s, t, Got(a, hint.value)) else Goto(s, t, AtList(a))
    case LoadList(t) => Goto(s, t, Walking(PcOf(s, t).a, s.arenas[PcOf(s, t).a].threads))
    case Visit(t) =>
      var Walking(a, cur) := PcOf(s, t);
      if s.serials[cur.value].owner == t then Goto(s, t, Caching(a, cur.value))
      else Goto(s, t, Walking(a, s.serials[cur.value].next))
    case Allocate(t, x) =>
      var a := PcOf(s, t).a;
      Goto(s.(serials := s.serials[x := Serial(t, None)]), t, Linking(a, x, s.arenas[a].threads))
    case SetNext(t) =>
      var Linking(a, x, expected) := PcOf(s, t);
      Goto(s.(serials := s.serials[x := s.serials[x].(next := expected)]), t, Trying(a, x, expected))
    case CompareExchange(t, spurious) => DoCompareExchange(s, t, spurious)
    case StoreCache(t) =>
      var Caching(a, x) := PcOf(s, t);
      Goto(s.(caches := s.caches[t := CacheOf(s, t).(lastSerial := Some(x), lastIdSeen := s.arenas[a].id)]), t, Hinting(a, x))
    case StoreHint(t) =>
      var Hinting(a, x) := PcOf(s, t);
      Goto(s.(arenas := s.arenas[a := s.arenas[a].(hint := Some(x))]), t, Got(a, x))
    case Use(t) => Goto(s, t, Idle)
  }

  // ---------- invariants ----------

  /** The pointers from an arena's head spell out its recorded list. */
  ghost predicate Chain(serials: map<Address, Serial>, head: Option<Address>, l: seq<Address>) {
    && head == At(l, 0)
    && (forall i | 0 <= i < |l| :: l[i] in serials && serials[l[i]].next == At(l, i + 1))
  }

  function At(l: seq<Address>, i: nat): Option<Address> {
    if i < |l| then Some(l[i]) else None
  }

  ghost predicate OneEach(serials: map<Address, Serial>, l: seq<Address>) {
    && (forall i | 0 <= i < |l| :: l[i] in serials)
    && (forall i, j | 0 <= i < j < |l| :: serials[l[i]].owner != serials[l[j]].owner)
  }

  ghost predicate ListOk(serials: map<Address, Serial>, arena: Arena, l: seq<Address>) {
    Chain(serials, arena.threads, l) && OneEach(serials, l) && (arena.hint.Some? ==> arena.hint.value in l)
  }

  ghost predicate NoneShared(l: seq<Address>, m: seq<Address>) {
    forall x | x in l :: x !in m
  }

  ghost predicate ListsOk(s: State) {
    && s.lists.Keys == s.arenas.Keys
    && (forall a | a in s.arenas :: ListOk(s.serials, s.arenas[a], s.lists[a]))
    && (forall a, b | a in s.lists && b in s.lists && a != b :: NoneShared(s.lists[a], s.lists[b]))
  }

  /** Every id issued lies in a batch drawn already; a thread inside a batch has not issued its next id or
      any later one of the batch, and shares the batch with no other thread. */
  ghost predicate IdsOk(s: State) {
    && (forall i | i in s.issued :: i % 2 == 0 && i / 512 < s.generator)
    && (forall t | t in s.caches :: MidBatchOk(s, t))
    && (forall t, u | t in s.caches && u in s.caches && t != u :: BatchesApart(s.caches[t].nextId, s.caches[u].nextId))
  }

  ghost predicate MidBatchOk(s: State, t: Thread)
    requires t in s.caches
  {
    var next := s.caches[t].nextId;
    next % 512 != 0 ==>
      && next / 512 < s.generator && next % 2 == 0
      && (forall i | i in s.issued && i / 512 == next / 512 :: i < next)
  }

  predicate BatchesApart(x: nat, y: nat) {
    x % 512 != 0 && y % 512 != 0 ==> x / 512 != y / 512
  }

  ghost predicate ArenaIdsOk(s: State) {
    && (forall a | a in s.arenas :: s.arenas[a].id in s.issued)
    && (forall a, b | a in s.arenas && b in s.arenas && a != b :: s.arenas[a].id != s.arenas[b].id)
    && (forall i | i in s.issued :: i % 2 == 0)
    && (forall t | t in s.caches :: s.caches[t].lastIdSeen == -1 || s.caches[t].lastIdSeen in s.issued)
  }

  /** A cache whose id is that of an arena holds the thread's own SerialArena on that arena's list. */
  ghost predicate CachesOk(s: State) {
    forall t, a | t in s.caches && a in s.arenas :: CacheOk(s, t, a)
  }

  ghost predicate CacheOk(s: State, t: Thread, a: ArenaId)
    requires t in s.caches && a in s.arenas
  {
    s.caches[t].lastIdSeen == s.arenas[a].id ==> s.caches[t].lastSerial.Some? && Owns(s, t, a, s.caches[t].lastSerial.value)
  }

  ghost predicate Owns(s: State, t: Thread, a: ArenaId, x: Address) {
    a in s.arenas && a in s.lists && x in s.lists[a] && x in s.serials && s.serials[x].owner == t
  }

  ghost predicate OwnsNone(s: State, t: Thread, a: ArenaId) {
    a in s.arenas && a in s.lists && forall i | 0 <= i < |s.lists[a]| :: s.lists[a][i] in s.serials && s.serials[s.lists[a][i]].owner != t
  }

  /** A thread that has come to `cur` has passed only SerialArenas of others. */
  ghost predicate Passed(s: State, t: Thread, a: ArenaId, cur: Option<Address>) {
    a in s.arenas && a in s.lists && exists k: nat :: PassedTo(s, t, s.lists[a], cur, k)
  }

  ghost predicate PassedTo(s: State, t: Thread, l: seq<Address>, cur: Option<Address>, k: nat) {
    && k <= |l| && cur == At(l, k)
    && forall i | 0 <= i < k :: l[i] in s.serials && s.serials[l[i]].owner != t
  }

  /** A new SerialArena that is not on any list yet. */
  ghost predicate Private(s: State, t: Thread, x: Address) {
    && x in s.serials && s.serials[x].owner == t
    && forall a | a in s.lists :: x !in s.lists[a]
  }

  ghost predicate PcOk(s: State, t: Thread, pc: Pc) {
    match pc
    case Idle => true
    case Fast(a, _) => a in s.arenas
    case AtHint(a) => a in s.arenas
    case AtList(a) => a in s.arenas
    case Walking(a, cur) => Passed(s, t, a, cur)
    case Linking(a, x, _) => OwnsNone(s, t, a) && Private(s, t, x)
    case Trying(a, x, expected) => OwnsNone(s, t, a) && Private(s, t, x) && s.serials[x].next == expected
    case Caching(a, x) => Owns(s, t, a, x)
    case Hinting(a, x) => Owns(s, t, a, x)
    case Got(a, x) => Owns(s, t, a, x)
  }

  ghost predicate PcsOk(s: State) {
    forall t | t in s.pcs :: PcOk(s, t, s.pcs[t])
  }

  /** What holds of shared and thread-local memory. */
  ghost predicate MemoryOk(s: State) {
    ListsOk(s) && IdsOk(s) && ArenaIdsOk(s) && CachesOk(s)
  }

  ghost predicate Inv(s: State) {
    MemoryOk(s) && PcsOk(s)
  }

  const START := State(0, map[], map[], map[], map[], map[], {})

  // ---------- lifecycle ids ----------

  /** The id drawn lies in a drawn batch, comes after every id issued from its batch, and no other thread is
      in that batch. */
  lemma {:induction false} DrawnIdIsNew(s: State, t: Thread)
    requires IdsOk(s)
    ensures var id := DrawnId(s, t);
      && id % 2 == 0 && id !in s.issued
      && (forall i | i in s.issued && i / 512 == id / 512 :: i < id)
      && (forall u | u in s.caches && u != t && s.caches[u].nextId % 512 != 0 :: s.caches[u].nextId / 512 != id / 512)
      && id / 512 < (if CacheOf(s, t).nextId % 512 == 0 then s.generator + 1 else s.generator)
  {
    var id := DrawnId(s, t);
    if CacheOf(s, t).nextId % 512 == 0 {
      BatchStart(s.generator);
      BatchStartEven(s.generator);
      forall i | i in s.issued ensures i / 512 != id / 512 {}
      forall u | u in s.caches && s.caches[u].nextId % 512 != 0 ensures s.caches[u].nextId / 512 != id / 512 {
        assert MidBatchOk(s, u);
      }
    } else {
      assert MidBatchOk(s, t);
      forall u | u in s.caches && u != t && s.caches[u].nextId % 512 != 0 ensures s.caches[u].nextId / 512 != id / 512 {
        assert BatchesApart(s.caches[t].nextId, s.caches[u].nextId);
      }
    }
  }

  lemma {:induction false} BatchStart(g: nat)
    ensures (g * 512) / 512 == g
  {
  }

  lemma {:induction false} BatchStartEven(g: nat)
    ensures (g * 512) % 2 == 0
  {
  }

  lemma {:induction false} EvenAfter(id: nat)
    requires id % 2 == 0
    ensures (id + 2) % 2 == 0
  {
  }

  lemma {:induction false} SameBatch(id: nat)
    requires id % 2 == 0 && (id + 2) % 512 != 0
    ensures (id + 2) / 512 == id / 512
  {
  }

  /** What Init changes of the id bookkeeping. */
  ghost predicate Drew(s: State, s': State, t: Thread) {
    && s'.issued == s.issued + {DrawnId(s, t)}
    && s'.generator == (if CacheOf(s, t).nextId % 512 == 0 then s.generator + 1 else s.generator)
    && t in s'.caches && s'.caches[t].nextId == DrawnId(s, t) + 2
    && s'.caches.Keys == s.caches.Keys + {t}
    && forall u | u in s.caches && u != t :: s'.caches[u] == s.caches[u]
  }

  lemma {:induction false} OwnBatchKept(s: State, s': State, t: Thread)
    requires IdsOk(s) && Drew(s, s', t)
    ensures MidBatchOk(s', t)
  {
    DrawnIdIsNew(s, t);
    var id, next := DrawnId(s, t), s'.caches[t].nextId;
    if next % 512 != 0 {
      SameBatch(id);
      EvenAfter(id);
      forall i | i in s'.issued && i / 512 == next / 512 ensures i < next {
        assert i in s.issued || i == id;
      }
    }
  }

  lemma {:induction false} OtherBatchKept(s: State, s': State, t: Thread, u: Thread)
    requires IdsOk(s) && Drew(s, s', t) && u in s.caches && u != t
    ensures MidBatchOk(s', u) && BatchesApart(s'.caches[t].nextId, s'.caches[u].nextId)
  {
    DrawnIdIsNew(s, t);
    var id := DrawnId(s, t);
    assert MidBatchOk(s, u);
    if (id + 2) % 512 != 0 { SameBatch(id); }
  }

  lemma {:induction false} DrawKeepsIds(s: State, s': State, t: Thread)
    requires IdsOk(s) && Drew(s, s', t)
    ensures IdsOk(s')
  {
    forall u | u in s'.caches ensures MidBatchOk(s', u) {
      if u == t { OwnBatchKept(s, s', t); } else { OtherBatchKept(s, s', t, u); }
    }
    forall u, v | u in s'.caches && v in s'.caches && u != v
      ensures BatchesApart(s'.caches[u].nextId, s'.caches[v].nextId)
    {
      if u == t { OtherBatchKept(s, s', t, v); }
      else if v == t { OtherBatchKept(s, s', t, u); }
      else { assert BatchesApart(s.caches[u].nextId, s.caches[v].nextId); }
    }
    DrawnIdIsNew(s, t);
  }

  // ---------- steps that only move a program counter ----------

  lemma {:induction false} SameMemory(s: State, s': State, t: Thread, pc: Pc)
    requires PcOk(s, t, pc) && s'.arenas.Keys == s.arenas.Keys && s'.lists == s.lists && s'.serials == s.serials
    ensures PcOk(s', t, pc)
  {
    match pc
    case Walking(a, cur) =>
      var k: nat :| PassedTo(s, t, s.lists[a], cur, k);
      assert PassedTo(s', t, s'.lists[a], cur, k);
    case _ =>
  }

  lemma {:induction false} GotoMemory(s: State, t: Thread, pc: Pc)
    requires MemoryOk(s)
    ensures MemoryOk(Goto(s, t, pc))
  {
    var s' := Goto(s, t, pc);
    forall u, a | u in s'.caches && a in s'.arenas ensures CacheOk(s', u, a) { assert CacheOk(s, u, a); }
    IdsFollow(s, s');
  }

  /** Every other thread is where it may be, and so is this one at its new place. */
  lemma {:induction false} GotoPcs(s: State, t: Thread, pc: Pc)
    requires forall u | u in s.pcs && u != t :: PcOk(s, u, s.pcs[u])
    requires PcOk(s, t, pc)
    ensures PcsOk(Goto(s, t, pc))
  {
    var s' := Goto(s, t, pc);
    forall u | u in s'.pcs ensures PcOk(s', u, s'.pcs[u]) {
      SameMemory(s, s', u, s'.pcs[u]);
    }
  }

  lemma {:induction false} GotoInv(s: State, t: Thread, pc: Pc)
    requires Inv(s) && PcOk(s, t, pc)
    ensures Inv(Goto(s, t, pc))
  {
    GotoMemory(s, t, pc);
    GotoPcs(s, t, pc);
  }

  lemma {:induction false} CheckCacheInv(s: State, t: Thread)
    requires Inv(s) && Enabled(s, CheckCache(t))
    ensures Inv(Do(s, CheckCache(t)))
  {
    var Fast(a, tagged) := PcOf(s, t);
    var cache, arena := CacheOf(s, t), s.arenas[a];
    assert PcOk(s, t, s.pcs[t]);
    NotTagged(s, t, a);
    if cache.lastIdSeen == (if tagged && arena.recordAllocs then arena.id + 1 else arena.id) && cache.lastSerial.Some? {
      assert CacheOk(s, t, a);
      GotoInv(s, t, Got(a, cache.lastSerial.value));
    } else if tagged && arena.recordAllocs {
      GotoInv(s, t, Fast(a, false));
    } else {
      GotoInv(s, t, AtHint(a));
    }
  }

  /** Ids are even, so a cached id never equals one tagged for recording. */
  lemma {:induction false} NotTagged(s: State, t: Thread, a: ArenaId)
    requires ArenaIdsOk(s) && a in s.arenas
    ensures CacheOf(s, t).lastIdSeen != s.arenas[a].id + 1
    ensures CacheOf(s, t).lastIdSeen == s.arenas[a].id ==> t in s.caches
  {
  }

  lemma {:induction false} CheckHintInv(s: State, t: Thread)
    requires Inv(s) && Enabled(s, CheckHint(t))
    ensures Inv(Do(s, CheckHint(t)))
  {
    GotoInv(s, t, PcOf(Do(s, CheckHint(t)), t));
  }

  lemma {:induction false} LoadListInv(s: State, t: Thread)
    requires Inv(s) && Enabled(s, LoadList(t))
    ensures Inv(Do(s, LoadList(t)))
  {
    var a := PcOf(s, t).a;
    assert ListOk(s.serials, s.arenas[a], s.lists[a]);
    assert PassedTo(s, t, s.lists[a], s.arenas[a].threads, 0);
    GotoInv(s, t, Walking(a, s.arenas[a].threads));
  }

  lemma {:induction false} VisitInv(s: State, t: Thread)
    requires Inv(s) && Enabled(s, Visit(t))
    ensures Inv(Do(s, Visit(t)))
  {
    var Walking(a, cur) := PcOf(s, t);
    assert PcOk(s, t, s.pcs[t]);
    var l := s.lists[a];
    var k: nat :| PassedTo(s, t, l, cur, k);
    assert l[k] == cur.value;
    assert ListOk(s.serials, s.arenas[a], l);
    var next := s.serials[cur.value].next;
    NextInChain(s.serials, s.arenas[a].threads, l, k);
    if s.serials[cur.value].owner == t {
      GotoInv(s, t, Caching(a, cur.value));
    } else {
      assert PassedTo(s, t, l, next, k + 1);
      GotoInv(s, t, Walking(a, next));
    }
  }

  lemma {:induction false} NextInChain(serials: map<Address, Serial>, head: Option<Address>, l: seq<Address>, k: nat)
    requires Chain(serials, head, l) && k < |l|
    ensures l[k] in serials && serials[l[k]].next == At(l, k + 1)
  {
  }

  // ---------- a new SerialArena ----------

  /** Listed SerialArenas are as they were. */
  ghost predicate ListedKept(s: State, serials: map<Address, Serial>) {
    forall a, x | a in s.lists && x in s.lists[a] :: x in s.serials && x in serials && serials[x] == s.serials[x]
  }

  lemma {:induction false} OthersChanged(s: State, serials: map<Address, Serial>)
    requires MemoryOk(s) && ListedKept(s, serials)
    ensures MemoryOk(s.(serials := serials))
  {
    var s1 := s.(serials := serials);
    forall b | b in s.arenas ensures ListOk(serials, s1.arenas[b], s1.lists[b]) {
      assert ListOk(s.serials, s.arenas[b], s.lists[b]);
      forall i | 0 <= i < |s.lists[b]| ensures s.lists[b][i] in serials && serials[s.lists[b][i]] == s.serials[s.lists[b][i]] {
        assert s.lists[b][i] in s.lists[b];
      }
    }
    forall u, a | u in s1.caches && a in s1.arenas ensures CacheOk(s1, u, a) { assert CacheOk(s, u, a); }
    IdsFollow(s, s1);
  }

  lemma {:induction false} PcKept(s: State, serials: map<Address, Serial>, u: Thread, pc: Pc)
    requires PcOk(s, u, pc) && ListedKept(s, serials)
    requires pc.Linking? || pc.Trying? ==> pc.s in serials && pc.s in s.serials && serials[pc.s] == s.serials[pc.s]
    ensures PcOk(s.(serials := serials), u, pc)
  {
    var s' := s.(serials := serials);
    match pc
    case Walking(a, cur) =>
      var k: nat :| PassedTo(s, u, s.lists[a], cur, k);
      assert PassedTo(s', u, s'.lists[a], cur, k);
    case _ =>
  }

  /** Memory off the lists changed; this thread goes on. */
  lemma {:induction false} OffListStep(s: State, serials: map<Address, Serial>, t: Thread, pc: Pc)
    requires Inv(s) && ListedKept(s, serials)
    requires forall u | u in s.pcs && u != t && (s.pcs[u].Linking? || s.pcs[u].Trying?) ::
      s.pcs[u].s in serials && s.pcs[u].s in s.serials && serials[s.pcs[u].s] == s.serials[s.pcs[u].s]
    requires PcOk(s.(serials := serials), t, pc)
    ensures Inv(Goto(s.(serials := serials), t, pc))
  {
    var s1 := s.(serials := serials);
    OthersChanged(s, serials);
    forall u | u in s1.pcs && u != t ensures PcOk(s1, u, s1.pcs[u]) {
      assert PcOk(s, u, s.pcs[u]);
      PcKept(s, serials, u, s.pcs[u]);
    }
    GotoMemory(s1, t, pc);
    GotoPcs(s1, t, pc);
  }

  lemma {:induction false} ListedLive(s: State, a: ArenaId, x: Address)
    requires ListsOk(s) && a in s.lists && x in s.lists[a]
    ensures x in s.serials
  {
  }

  lemma {:induction false} AllocateInv(s: State, t: Thread, x: Address)
    requires Inv(s) && Enabled(s, Allocate(t, x))
    ensures Inv(Do(s, Allocate(t, x)))
  {
    var a := PcOf(s, t).a;
    var serials := s.serials[x := Serial(t, None)];
    forall b, y | b in s.lists && y in s.lists[b] ensures y in s.serials { ListedLive(s, b, y); }
    forall u | u in s.pcs && (s.pcs[u].Linking? || s.pcs[u].Trying?) ensures s.pcs[u].s in s.serials {
      assert PcOk(s, u, s.pcs[u]);
    }
    assert PcOk(s, t, s.pcs[t]);
    PcKept(s, serials, t, s.pcs[t]);
    NothingLeft(s.(serials := serials), t, a);
    OffListStep(s, serials, t, Linking(a, x, s.arenas[a].threads));
  }

  /** A thread that reached the end of the list owns nothing on it. */
  lemma {:induction false} NothingLeft(s: State, t: Thread, a: ArenaId)
    requires Passed(s, t, a, None)
    ensures OwnsNone(s, t, a)
  {
  }

  lemma {:induction false} SetNextInv(s: State, t: Thread)
    requires Inv(s) && Enabled(s, SetNext(t))
    ensures Inv(Do(s, SetNext(t)))
  {
    var Linking(a, x, expected) := PcOf(s, t);
    assert PcOk(s, t, s.pcs[t]);
    var serials := s.serials[x := s.serials[x].(next := expected)];
    forall b, y | b in s.lists && y in s.lists[b] ensures y in s.serials && y != x { ListedLive(s, b, y); }
    forall u | u in s.pcs && u != t && (s.pcs[u].Linking? || s.pcs[u].Trying?)
      ensures s.pcs[u].s in s.serials && s.pcs[u].s != x
    {
      assert PcOk(s, u, s.pcs[u]);
    }
    OffListStep(s, serials, t, Trying(a, x, expected));
  }

  // ---------- the push ----------

  /** Nothing the id bookkeeping reads has changed. */
  lemma {:induction false} IdsFollow(s: State, s': State)
    requires IdsOk(s) && s'.generator == s.generator && s'.issued == s.issued
    requires forall u | u in s'.caches :: if u in s.caches then s'.caches[u].nextId == s.caches[u].nextId else s'.caches[u].nextId == 0
    ensures IdsOk(s')
  {
    forall u | u in s'.caches ensures MidBatchOk(s', u) { if u in s.caches { assert MidBatchOk(s, u); } }
    forall u, v | u in s'.caches && v in s'.caches && u != v
      ensures BatchesApart(s'.caches[u].nextId, s'.caches[v].nextId)
    {
      if u in s.caches && v in s.caches { assert BatchesApart(s.caches[u].nextId, s.caches[v].nextId); }
    }
  }

  lemma {:induction false} ArenaIdsFollow(s: State, s': State)
    requires ArenaIdsOk(s) && s'.caches == s.caches && s'.issued == s.issued && s'.arenas.Keys == s.arenas.Keys
    requires forall a | a in s.arenas :: s'.arenas[a].id == s.arenas[a].id
    ensures ArenaIdsOk(s')
  {
  }

  function Pushed(s: State, a: ArenaId, x: Address): State
    requires a in s.arenas && a in s.lists
  {
    s.(arenas := s.arenas[a := s.arenas[a].(threads := Some(x))], lists := s.lists[a := [x] + s.lists[a]])
  }

  lemma {:induction false} PushLists(s: State, t: Thread, a: ArenaId, x: Address)
    requires ListsOk(s) && a in s.arenas && OwnsNone(s, t, a) && Private(s, t, x)
    requires s.serials[x].next == s.arenas[a].threads
    ensures ListsOk(Pushed(s, a, x))
  {
    var s1, l' := Pushed(s, a, x), [x] + s.lists[a];
    assert ListOk(s.serials, s.arenas[a], s.lists[a]);
    PushedChain(s.serials, s.arenas[a].threads, s.lists[a], x);
    PushedOneEach(s, t, a, x);
    assert ListOk(s1.serials, s1.arenas[a], l');
    forall b | b in s.lists && b != a ensures NoneShared(l', s.lists[b]) && NoneShared(s.lists[b], l') {
      assert NoneShared(s.lists[a], s.lists[b]) && NoneShared(s.lists[b], s.lists[a]);
    }
  }

  lemma {:induction false} PushCaches(s: State, a: ArenaId, x: Address)
    requires CachesOk(s) && a in s.arenas && a in s.lists
    ensures CachesOk(Pushed(s, a, x))
  {
  }

  lemma {:induction false} PushIds(s: State, a: ArenaId, x: Address)
    requires IdsOk(s) && ArenaIdsOk(s) && a in s.arenas && a in s.lists
    ensures IdsOk(Pushed(s, a, x)) && ArenaIdsOk(Pushed(s, a, x))
  {
  }

  lemma {:induction false} PushMemory(s: State, t: Thread, a: ArenaId, x: Address)
    requires MemoryOk(s) && a in s.arenas && OwnsNone(s, t, a) && Private(s, t, x)
    requires s.serials[x].next == s.arenas[a].threads
    ensures MemoryOk(Pushed(s, a, x))
  {
    PushLists(s, t, a, x);
    PushCaches(s, a, x);
    PushIds(s, a, x);
  }

  lemma {:induction false} PushedChain(serials: map<Address, Serial>, head: Option<Address>, l: seq<Address>, x: Address)
    requires Chain(serials, head, l) && x in serials && serials[x].next == head
    ensures Chain(serials, Some(x), [x] + l)
  {
  }

  lemma {:induction false} PushedOneEach(s: State, t: Thread, a: ArenaId, x: Address)
    requires OwnsNone(s, t, a) && x in s.serials && s.serials[x].owner == t && OneEach(s.serials, s.lists[a])
    ensures OneEach(s.serials, [x] + s.lists[a])
  {
  }

  lemma {:induction false} PcAfterPush(s: State, s1: State, t: Thread, a: ArenaId, x: Address, u: Thread, pc: Pc)
    requires PcOk(s, u, pc) && u != t && Private(s, t, x) && a in s.arenas && a in s.lists
    requires s1 == Pushed(s, a, x)
    ensures PcOk(s1, u, pc)
  {
    match pc
    case Walking(b, cur) =>
      var k: nat :| PassedTo(s, u, s.lists[b], cur, k);
      if b == a {
        forall i | 0 <= i < k + 1 ensures s1.lists[a][i] in s1.serials && s1.serials[s1.lists[a][i]].owner != u {
          if i > 0 { assert s1.lists[a][i] == s.lists[a][i - 1]; }
        }
        assert PassedTo(s1, u, s1.lists[a], cur, k + 1);
      } else {
        assert PassedTo(s1, u, s1.lists[b], cur, k);
      }
    case _ =>
  }

  lemma {:induction false} CompareExchangeInv(s: State, t: Thread, spurious: bool)
    requires Inv(s) && Enabled(s, CompareExchange(t, spurious))
    ensures Inv(Do(s, CompareExchange(t, spurious)))
  {
    var Trying(a, x, expected) := PcOf(s, t);
    assert PcOk(s, t, s.pcs[t]);
    if !spurious && s.arenas[a].threads == expected {
      var s1 := Pushed(s, a, x);
      PushMemory(s, t, a, x);
      forall u | u in s1.pcs && u != t ensures PcOk(s1, u, s1.pcs[u]) {
        assert PcOk(s, u, s.pcs[u]);
        PcAfterPush(s, s1, t, a, x, u, s.pcs[u]);
      }
      GotoMemory(s1, t, Caching(a, x));
      assert s1.lists[a][0] == x;
      GotoPcs(s1, t, Caching(a, x));
    } else {
      GotoInv(s, t, Linking(a, x, s.arenas[a].threads));
    }
  }

  // ---------- remembering it ----------

  lemma {:induction false} StoreCacheInv(s: State, t: Thread)
    requires Inv(s) && Enabled(s, StoreCache(t))
    ensures Inv(Do(s, StoreCache(t)))
  {
    var Caching(a, x) := PcOf(s, t);
    assert PcOk(s, t, s.pcs[t]);
    var s1 := s.(caches := s.caches[t := CacheOf(s, t).(lastSerial := Some(x), lastIdSeen := s.arenas[a].id)]);
    StoreCacheMemory(s, s1, t, a, x);
    forall u | u in s1.pcs ensures PcOk(s1, u, s1.pcs[u]) {
      assert PcOk(s, u, s.pcs[u]);
      SameMemory(s, s1, u, s.pcs[u]);
    }
    GotoInv(s1, t, Hinting(a, x));
  }

  lemma {:induction false} StoreCacheMemory(s: State, s1: State, t: Thread, a: ArenaId, x: Address)
    requires MemoryOk(s) && Owns(s, t, a, x)
    requires s1 == s.(caches := s.caches[t := CacheOf(s, t).(lastSerial := Some(x), lastIdSeen := s.arenas[a].id)])
    ensures MemoryOk(s1)
  {
    StoreCacheOk(s, s1, t, a, x);
    IdsFollow(s, s1);
    assert ListsOk(s1);
  }

  lemma {:induction false} StoreCacheOk(s: State, s1: State, t: Thread, a: ArenaId, x: Address)
    requires CachesOk(s) && ArenaIdsOk(s) && Owns(s, t, a, x)
    requires s1 == s.(caches := s.caches[t := CacheOf(s, t).(lastSerial := Some(x), lastIdSeen := s.arenas[a].id)])
    ensures CachesOk(s1) && ArenaIdsOk(s1)
  {
    forall u, b | u in s1.caches && b in s1.arenas ensures CacheOk(s1, u, b) {
      if u != t { assert CacheOk(s, u, b); }
    }
  }

  lemma {:induction false} StoreHintMemory(s: State, a: ArenaId, x: Address)
    requires MemoryOk(s) && a in s.arenas && x in s.lists[a]
    ensures MemoryOk(s.(arenas := s.arenas[a := s.arenas[a].(hint := Some(x))]))
  {
    var s1 := s.(arenas := s.arenas[a := s.arenas[a].(hint := Some(x))]);
    assert ListsOk(s1) by { StoreHintLists(s, a, x); }
    assert CachesOk(s1) by { CachesFollow(s, s1); }
    assert IdsOk(s1) by { IdsFollow(s, s1); }
    assert ArenaIdsOk(s1) by { ArenaIdsFollow(s, s1); }
  }

  lemma {:induction false} StoreHintLists(s: State, a: ArenaId, x: Address)
    requires ListsOk(s) && a in s.arenas && x in s.lists[a]
    ensures ListsOk(s.(arenas := s.arenas[a := s.arenas[a].(hint := Some(x))]))
  {
  }

  lemma {:induction false} StoreHintInv(s: State, t: Thread)
    requires Inv(s) && Enabled(s, StoreHint(t))
    ensures Inv(Do(s, StoreHint(t)))
  {
    var Hinting(a, x) := PcOf(s, t);
    assert PcOk(s, t, s.pcs[t]);
    var s1 := s.(arenas := s.arenas[a := s.arenas[a].(hint := Some(x))]);
    StoreHintMemory(s, a, x);
    forall u | u in s1.pcs ensures PcOk(s1, u, s1.pcs[u]) {
      assert PcOk(s, u, s.pcs[u]);
      SameMemory(s, s1, u, s.pcs[u]);
    }
    GotoInv(s1, t, Got(a, x));
  }

  /** The caches stay right when lists only grow and owners stay. */
  lemma {:induction false} CachesFollow(s: State, s': State)
    requires CachesOk(s) && s'.caches == s.caches && s'.serials == s.serials && s'.arenas.Keys == s.arenas.Keys
    requires s'.lists.Keys == s.lists.Keys
    requires forall a | a in s.arenas :: s'.arenas[a].id == s.arenas[a].id
    requires forall a, x | a in s.lists && x in s.lists[a] :: x in s'.lists[a]
    ensures CachesOk(s')
  {
  }

  // ---------- the life of an arena ----------

  /** A thread at work on another arena sees none of it. */
  lemma {:induction false} PcElsewhere(s: State, s': State, u: Thread, pc: Pc)
    requires PcOk(s, u, pc) && !pc.Idle? && pc.a in s'.arenas && pc.a in s'.lists && pc.a in s.lists
    requires s'.lists[pc.a] == s.lists[pc.a]
    requires forall x | x in s.lists[pc.a] :: x in s.serials && x in s'.serials && s'.serials[x] == s.serials[x]
    requires pc.Linking? || pc.Trying? ==> Private(s', u, pc.s) && (pc.s in s.serials ==> s'.serials[pc.s] == s.serials[pc.s])
    ensures PcOk(s', u, pc)
  {
    match pc
    case Walking(a, cur) =>
      var k: nat :| PassedTo(s, u, s.lists[a], cur, k);
      assert PassedTo(s', u, s'.lists[a], cur, k);
    case _ =>
  }

  lemma {:induction false} DroppedLists(s: State, a: ArenaId)
    requires ListsOk(s)
    ensures ListsOk(Dropped(s, a))
    ensures forall b, x | b in s.lists && b != a && x in s.lists[b] ::
      x in s.serials && x in Dropped(s, a).serials && Dropped(s, a).serials[x] == s.serials[x]
  {
    var s1 := Dropped(s, a);
    forall b, x | b in s.lists && b != a && x in s.lists[b] ensures x in s.serials && x in s1.serials {
      ListedLive(s, b, x);
      if a in s.lists { assert NoneShared(s.lists[b], s.lists[a]); }
    }
    forall b | b in s1.arenas ensures ListOk(s1.serials, s1.arenas[b], s1.lists[b]) {
      assert ListOk(s.serials, s.arenas[b], s.lists[b]);
      ListFollows(s.serials, s1.serials, s.arenas[b], s.lists[b]);
    }
  }

  lemma {:induction false} ListFollows(serials: map<Address, Serial>, serials': map<Address, Serial>, arena: Arena, l: seq<Address>)
    requires ListOk(serials, arena, l)
    requires forall x | x in l :: x in serials' && x in serials && serials'[x] == serials[x]
    ensures ListOk(serials', arena, l)
  {
  }

  lemma {:induction false} DroppedCaches(s: State, a: ArenaId)
    requires CachesOk(s) && ListsOk(s)
    ensures CachesOk(Dropped(s, a))
  {
    var s1 := Dropped(s, a);
    DroppedLists(s, a);
    forall u, b | u in s1.caches && b in s1.arenas ensures CacheOk(s1, u, b) { assert CacheOk(s, u, b); }
  }

  lemma {:induction false} DroppedIds(s: State, a: ArenaId)
    requires IdsOk(s) && ArenaIdsOk(s)
    ensures IdsOk(Dropped(s, a)) && ArenaIdsOk(Dropped(s, a))
  {
  }

  lemma {:induction false} DroppedPc(s: State, a: ArenaId, u: Thread)
    requires Inv(s) && Quiescent(s, a) && u in s.pcs
    ensures PcOk(Dropped(s, a), u, s.pcs[u])
  {
    var s1, pc := Dropped(s, a), s.pcs[u];
    assert PcOk(s, u, pc);
    DroppedLists(s, a);
    if !pc.Idle? { PcElsewhere(s, s1, u, pc); }
  }

  /** The destructor of an arena no thread is in. */
  lemma {:induction false} DroppedInv(s: State, a: ArenaId)
    requires Inv(s) && Quiescent(s, a)
    ensures Inv(Dropped(s, a))
  {
    var s1 := Dropped(s, a);
    DroppedLists(s, a);
    DroppedCaches(s, a);
    DroppedIds(s, a);
    forall u | u in s1.pcs ensures PcOk(s1, u, s1.pcs[u]) { DroppedPc(s, a, u); }
  }

  /** Init and SetInitialBlock of an arena that is not there. */
  ghost predicate Fresh(s: State, a: ArenaId, initial: Option<Address>) {
    a !in s.arenas && a !in s.lists && (initial.Some? ==> initial.value !in s.serials)
  }

  lemma {:induction false} FreshKept(s: State, t: Thread, a: ArenaId, r: bool, initial: Option<Address>, b: ArenaId)
    requires ListsOk(s) && Fresh(s, a, initial) && b in s.lists
    ensures var s1 := DoInitialize(s, t, a, r, initial);
      && (forall x | x in s.lists[b] :: x in s.serials && x in s1.serials && s1.serials[x] == s.serials[x])
      && ListOk(s1.serials, s1.arenas[b], s1.lists[b])
      && NoneShared(s1.lists[a], s.lists[b]) && NoneShared(s.lists[b], s1.lists[a])
  {
    var s1 := DoInitialize(s, t, a, r, initial);
    forall x | x in s.lists[b] ensures x in s.serials && x in s1.serials && s1.serials[x] == s.serials[x] {
      ListedLive(s, b, x);
    }
    assert ListOk(s.serials, s.arenas[b], s.lists[b]);
    ListFollows(s.serials, s1.serials, s.arenas[b], s.lists[b]);
  }

  lemma {:induction false} FreshOwn(s: State, t: Thread, a: ArenaId, r: bool, initial: Option<Address>)
    ensures var s1 := DoInitialize(s, t, a, r, initial);
      a in s1.arenas && a in s1.lists && ListOk(s1.serials, s1.arenas[a], s1.lists[a])
  {
  }

  lemma {:induction false} FreshLists(s: State, t: Thread, a: ArenaId, r: bool, initial: Option<Address>)
    requires ListsOk(s) && Fresh(s, a, initial)
    ensures ListsOk(DoInitialize(s, t, a, r, initial))
  {
    var s1 := DoInitialize(s, t, a, r, initial);
    forall b | b in s1.arenas ensures ListOk(s1.serials, s1.arenas[b], s1.lists[b]) {
      if b == a { FreshOwn(s, t, a, r, initial); } else { FreshKept(s, t, a, r, initial, b); }
    }
    forall b, c | b in s1.lists && c in s1.lists && b != c ensures NoneShared(s1.lists[b], s1.lists[c]) {
      FreshNoneShared(s, t, a, r, initial, b, c);
    }
  }

  lemma {:induction false} FreshNoneShared(
    s: State, t: Thread, a: ArenaId, r: bool, initial: Option<Address>, b: ArenaId, c: ArenaId)
    requires ListsOk(s) && Fresh(s, a, initial) && b != c
    requires b in DoInitialize(s, t, a, r, initial).lists && c in DoInitialize(s, t, a, r, initial).lists
    ensures var s1 := DoInitialize(s, t, a, r, initial); NoneShared(s1.lists[b], s1.lists[c])
  {
    if b == a { FreshKept(s, t, a, r, initial, c); }
    else if c == a { FreshKept(s, t, a, r, initial, b); }
    else { assert NoneShared(s.lists[b], s.lists[c]); }
  }

  lemma {:induction false} FreshDraws(s: State, t: Thread, a: ArenaId, r: bool, initial: Option<Address>)
    ensures Drew(s, DoInitialize(s, t, a, r, initial), t)
  {
  }

  lemma {:induction false} FreshArenaIds(s: State, t: Thread, a: ArenaId, r: bool, initial: Option<Address>)
    requires ArenaIdsOk(s) && Fresh(s, a, initial) && DrawnId(s, t) !in s.issued && DrawnId(s, t) % 2 == 0
    ensures ArenaIdsOk(DoInitialize(s, t, a, r, initial))
  {
  }

  lemma {:induction false} FreshIds(s: State, t: Thread, a: ArenaId, r: bool, initial: Option<Address>)
    requires IdsOk(s) && ArenaIdsOk(s) && Fresh(s, a, initial)
    ensures IdsOk(DoInitialize(s, t, a, r, initial)) && ArenaIdsOk(DoInitialize(s, t, a, r, initial))
  {
    DrawnIdIsNew(s, t);
    FreshDraws(s, t, a, r, initial);
    FreshArenaIds(s, t, a, r, initial);
    DrawKeepsIds(s, DoInitialize(s, t, a, r, initial), t);
  }

  lemma {:induction false} FreshCaches(s: State, t: Thread, a: ArenaId, r: bool, initial: Option<Address>)
    requires IdsOk(s) && ArenaIdsOk(s) && CachesOk(s) && Fresh(s, a, initial)
    ensures CachesOk(DoInitialize(s, t, a, r, initial))
  {
    var s1 := DoInitialize(s, t, a, r, initial);
    DrawnIdIsNew(s, t);
    forall u, b | u in s1.caches && b in s1.arenas ensures CacheOk(s1, u, b) {
      if b != a && u in s.caches { assert CacheOk(s, u, b); }
    }
  }

  lemma {:induction false} FreshPc(s: State, t: Thread, a: ArenaId, r: bool, initial: Option<Address>, u: Thread)
    requires ListsOk(s) && PcsOk(s) && Fresh(s, a, initial) && u in s.pcs
    ensures PcOk(DoInitialize(s, t, a, r, initial), u, s.pcs[u])
  {
    var s1, pc := DoInitialize(s, t, a, r, initial), s.pcs[u];
    assert PcOk(s, u, pc);
    forall b, x | b in s.lists && x in s.lists[b] ensures x in s.serials && x in s1.serials && s1.serials[x] == s.serials[x] {
      ListedLive(s, b, x);
    }
    if !pc.Idle? { PcElsewhere(s, s1, u, pc); }
  }

  lemma {:induction false} FreshInv(s: State, t: Thread, a: ArenaId, r: bool, initial: Option<Address>)
    requires Inv(s) && Fresh(s, a, initial)
    ensures Inv(DoInitialize(s, t, a, r, initial))
  {
    var s1 := DoInitialize(s, t, a, r, initial);
    FreshLists(s, t, a, r, initial);
    FreshIds(s, t, a, r, initial);
    FreshCaches(s, t, a, r, initial);
    forall u | u in s1.pcs ensures PcOk(s1, u, s1.pcs[u]) { FreshPc(s, t, a, r, initial, u); }
  }

  /** Resetting an arena is destroying it and making it again. */
  lemma {:induction false} ResetIsDropAndMake(s: State, t: Thread, a: ArenaId, r: bool, initial: Option<Address>)
    ensures WithoutList(Dropped(s, a), a) == WithoutList(s, a)
    ensures DoInitialize(Dropped(s, a), t, a, r, initial) == DoInitialize(s, t, a, r, initial)
  {
    var s1 := Dropped(s, a);
    var arena := DoInitialize(s, t, a, r, initial).arenas[a];
    var l := DoInitialize(s, t, a, r, initial).lists[a];
    assert s1.arenas[a := arena] == s.arenas[a := arena];
    assert s1.lists[a := l] == s.lists[a := l];
  }

  lemma {:induction false} InitializeInv(s: State, t: Thread, a: ArenaId, r: bool, initial: Option<Address>)
    requires Inv(s) && Enabled(s, Initialize(t, a, r, initial))
    ensures Inv(Do(s, Initialize(t, a, r, initial)))
  {
    DroppedInv(s, a);
    ResetIsDropAndMake(s, t, a, r, initial);
    FreshInv(Dropped(s, a), t, a, r, initial);
  }

  // ---------- every run ----------

  /** No step of any thread breaks the invariant. */
  lemma {:induction false} StepInv(s: State, step: Step)
    requires Inv(s) && Enabled(s, step)
    ensures Inv(Do(s, step))
  {
    match step
    case Initialize(t, a, r, initial) => InitializeInv(s, t, a, r, initial);
    case Destroy(a) => DestroyInv(s, a);
    case Begin(t, a, tagged) => BeginInv(s, t, a, tagged);
    case CheckCache(t) => CheckCacheInv(s, t);
    case CheckHint(t) => CheckHintInv(s, t);
    case LoadList(t) => LoadListInv(s, t);
    case Visit(t) => VisitInv(s, t);
    case Allocate(t, x) => AllocateInv(s, t, x);
    case SetNext(t) => SetNextInv(s, t);
    case CompareExchange(t, spurious) => CompareExchangeInv(s, t, spurious);
    case StoreCache(t) => StoreCacheInv(s, t);
    case StoreHint(t) => StoreHintInv(s, t);
    case Use(t) => UseInv(s, t);
  }

  lemma {:induction false} DestroyInv(s: State, a: ArenaId)
    requires Inv(s) && Enabled(s, Destroy(a))
    ensures Inv(Do(s, Destroy(a)))
  {
    DroppedInv(s, a);
  }

  lemma {:induction false} BeginInv(s: State, t: Thread, a: ArenaId, tagged: bool)
    requires Inv(s) && Enabled(s, Begin(t, a, tagged))
    ensures Inv(Do(s, Begin(t, a, tagged)))
  {
    GotoInv(s, t, Fast(a, tagged));
  }

  lemma {:induction false} UseInv(s: State, t: Thread)
    requires Inv(s) && Enabled(s, Use(t))
    ensures Inv(Do(s, Use(t)))
  {
    GotoInv(s, t, Idle);
  }

  /** The steps can be taken one after the other. */
  ghost predicate Possible(s: State, steps: seq<Step>)
    decreases |steps|
  {
    steps == [] || (Enabled(s, steps[0]) && Possible(Do(s, steps[0]), steps[1..]))
  }

  ghost function After(s: State, steps: seq<Step>): State
    requires Possible(s, steps)
    decreases |steps|
  {
    if steps == [] then s else After(Do(s, steps[0]), steps[1..])
  }

  lemma {:induction false} RunInv(s: State, steps: seq<Step>)
    requires Inv(s) && Possible(s, steps)
    ensures Inv(After(s, steps))
    decreases |steps|
  {
    if steps != [] {
      StepInv(s, steps[0]);
      RunInv(Do(s, steps[0]), steps[1..]);
    }
  }

  /** In every interleaving, a thread only comes to allocate from a SerialArena it owns and that is on the
      arena's list; and a thread whose cache names the arena's id holds such a SerialArena in it. */
  lemma {:induction false} ThreadsUseTheirOwn(steps: seq<Step>, t: Thread)
    requires Possible(START, steps)
    ensures var s := After(START, steps);
      && (PcOf(s, t).Got? ==> Owns(s, t, PcOf(s, t).a, PcOf(s, t).s))
      && (forall a | a in s.arenas && t in s.caches && s.caches[t].lastIdSeen == s.arenas[a].id ::
            s.caches[t].lastSerial.Some? && Owns(s, t, a, s.caches[t].lastSerial.value))
  {
    RunInv(START, steps);
    var s := After(START, steps);
    if t in s.pcs { assert PcOk(s, t, s.pcs[t]); }
    forall a | a in s.arenas && t in s.caches && s.caches[t].lastIdSeen == s.arenas[a].id
      ensures s.caches[t].lastSerial.Some? && Owns(s, t, a, s.caches[t].lastSerial.value)
    {
      assert CacheOk(s, t, a);
    }
  }

  /** In every interleaving, following an arena's pointers from its head visits exactly what was pushed on it
      since it was initialised, newest first, and no two of them belong to one thread. */
  lemma {:induction false} NoPushLosesAnother(steps: seq<Step>, a: ArenaId)
    requires Possible(START, steps) && a in After(START, steps).arenas
    ensures var s := After(START, steps);
      && a in s.lists
      && Chain(s.serials, s.arenas[a].threads, s.lists[a])
      && OneEach(s.serials, s.lists[a])
  {
    RunInv(START, steps);
    var s := After(START, steps);
    assert ListOk(s.serials, s.arenas[a], s.lists[a]);
  }

  /** `l` with things pushed in front. */
  predicate Behind(l: seq<Address>, l': seq<Address>) {
    |l| <= |l'| && l == l'[|l'| - |l|..]
  }

  predicate Remakes(step: Step, a: ArenaId) {
    (step.Initialize? && step.a == a) || (step.Destroy? && step.a == a)
  }

  lemma {:induction false} StepOnlyPushes(s: State, step: Step, a: ArenaId)
    requires Enabled(s, step) && !Remakes(step, a) && a in s.lists
    ensures a in Do(s, step).lists && Behind(s.lists[a], Do(s, step).lists[a])
  {
    match step
    case Initialize(_, _, _, _) =>
    case Destroy(_) =>
    case CompareExchange(_, _) =>
    case _ => OtherStepsKeepLists(s, step);
  }

  lemma {:induction false} OtherStepsKeepLists(s: State, step: Step)
    requires Enabled(s, step) && !step.Initialize? && !step.Destroy? && !step.CompareExchange?
    ensures Do(s, step).lists == s.lists
  {
  }

  /** Whatever was pushed stays on the list, in the same order, until the arena is reset or destroyed. */
  lemma {:induction false} RunOnlyPushes(s: State, steps: seq<Step>, a: ArenaId)
    requires Possible(s, steps) && a in s.lists
    requires forall step | step in steps :: !Remakes(step, a)
    ensures a in After(s, steps).lists && Behind(s.lists[a], After(s, steps).lists[a])
    decreases |steps|
  {
    if steps != [] {
      assert steps[0] in steps;
      var s1 := Do(s, steps[0]);
      StepOnlyPushes(s, steps[0], a);
      forall step | step in steps[1..] ensures step in steps {}
      RunOnlyPushes(s1, steps[1..], a);
    }
  }

  /** The ids drawn along a run, in order. */
  ghost function Drawn(s: State, steps: seq<Step>): seq<nat>
    requires Possible(s, steps)
    decreases |steps|
  {
    if steps == [] then []
    else (if steps[0].Initialize? then [DrawnId(s, steps[0].t)] else []) + Drawn(Do(s, steps[0]), steps[1..])
  }

  ghost predicate AllNew(ids: seq<nat>, issued: set<nat>) {
    && (forall i | 0 <= i < |ids| :: ids[i] !in issued)
    && (forall i, j | 0 <= i < j < |ids| :: ids[i] != ids[j])
  }

  lemma {:induction false} OneMoreNew(id: nat, ids: seq<nat>, issued: set<nat>)
    requires id !in issued && AllNew(ids, issued + {id})
    ensures AllNew([id] + ids, issued)
  {
  }

  lemma {:induction false} StepDraws(s: State, step: Step)
    requires Inv(s) && Enabled(s, step)
    ensures Do(s, step).issued == if step.Initialize? then s.issued + {DrawnId(s, step.t)} else s.issued
    ensures step.Initialize? ==> DrawnId(s, step.t) !in s.issued
  {
    if step.Initialize? { DrawnIdIsNew(s, step.t); } else { OthersDrawNothing(s, step); }
  }

  lemma {:induction false} OthersDrawNothing(s: State, step: Step)
    requires Enabled(s, step) && !step.Initialize?
    ensures Do(s, step).issued == s.issued
  {
  }

  lemma {:induction false} DrawnAreNew(s: State, steps: seq<Step>)
    requires Inv(s) && Possible(s, steps)
    ensures AllNew(Drawn(s, steps), s.issued)
    decreases |steps|
  {
    if steps != [] {
      var s1 := Do(s, steps[0]);
      StepInv(s, steps[0]);
      StepDraws(s, steps[0]);
      DrawnAreNew(s1, steps[1..]);
      if steps[0].Initialize? {
        OneMoreNew(DrawnId(s, steps[0].t), Drawn(s1, steps[1..]), s.issued);
      } else {
        assert Drawn(s, steps) == Drawn(s1, steps[1..]);
      }
    }
  }

  /** Over every interleaving the lifecycle ids handed out are pairwise distinct. */
  lemma {:induction false} LifecycleIdsDistinct(steps: seq<Step>, i: nat, j: nat)
    requires Possible(START, steps) && i < j < |Drawn(START, steps)|
    ensures Drawn(START, steps)[i] != Drawn(START, steps)[j]
  {
    DrawnAreNew(START, steps);
  }

  /** No thread ever follows a pointer to a SerialArena that has been freed. */
  lemma {:induction false} OnlyLiveSerialsRead(steps: seq<Step>, t: Thread)
    requires Possible(START, steps)
    ensures var s := After(START, steps);
      match PcOf(s, t)
      case Idle => true
      case Walking(a, cur) => a in s.arenas && a in s.lists &&
          (cur.Some? ==> cur.value in s.serials && cur.value in s.lists[a])
      case AtHint(a) => a in s.arenas && (s.arenas[a].hint.Some? ==> s.arenas[a].hint.value in s.serials)
      case Linking(a, x, _) => a in s.arenas && x in s.serials
      case Trying(a, x, _) => a in s.arenas && x in s.serials
      case Got(a, x) => a in s.arenas && x in s.serials
      case pc => pc.a in s.arenas
  {
    RunInv(START, steps);
    var s := After(START, steps);
    if t in s.pcs {
      assert PcOk(s, t, s.pcs[t]);
      match s.pcs[t]
      case Walking(a, cur) =>
        var k: nat :| PassedTo(s, t, s.lists[a], cur, k);
        if cur.Some? { ListedLive(s, a, cur.value); }
      case AtHint(a) =>
        assert ListOk(s.serials, s.arenas[a], s.lists[a]);
        if s.arenas[a].hint.Some? { ListedLive(s, a, s.arenas[a].hint.value); }
      case _ =>
    }
  }
}
