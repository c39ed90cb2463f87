/** What becomes of a thread that is left alone inside an allocation, and what it remembers for the next one. */
module ArenaProgress {
  import opened Options
  import opened ArenaProtocol

  // ---------- a push that lost a race ----------

  /** In every interleaving: a thread whose compare-and-swap failed, spuriously or because another thread pushed
      first, has pushed when it has set its pointer again and tried again without a step of others between. */
  lemma {:induction false} LostPushIsRetried(steps: seq<Step>, t: Thread, spurious: bool)
    requires Possible(START, steps) && PcOf(After(START, steps), t).Trying?
    requires var s := After(START, steps); var Trying(a, _, expected) := PcOf(s, t);
      a in s.arenas && (spurious || s.arenas[a].threads != expected)
    ensures var s := After(START, steps); var Trying(a, x, _) := PcOf(s, t);
      var retry := [CompareExchange(t, spurious), SetNext(t), CompareExchange(t, false)];
      && Possible(s, retry) && a in s.lists
      && After(s, retry).lists == s.lists[a := [x] + s.lists[a]]
      && PcOf(After(s, retry), t) == Caching(a, x)
  {
    var s := After(START, steps);
    RunInv(START, steps);
    var Trying(a, x, _) := PcOf(s, t);
    TryingCanStep(s, t);
    var first, second, third := CompareExchange(t, spurious), SetNext(t), CompareExchange(t, false);
    var s1 := Do(s, first);
    assert PcOf(s1, t) == Linking(a, x, s.arenas[a].threads) && x in s1.serials;
    var s2 := Do(s1, second);
    ThreeSteps(s, first, second, third);
  }

  lemma {:induction false} TryingCanStep(s: State, t: Thread)
    requires Inv(s) && PcOf(s, t).Trying?
    ensures var Trying(a, x, _) := PcOf(s, t); a in s.arenas && a in s.lists && x in s.serials
  {
    assert PcOk(s, t, s.pcs[t]);
  }

  lemma {:induction false} ThreeSteps(s: State, a: Step, b: Step, c: Step)
    requires Enabled(s, a) && Enabled(Do(s, a), b) && Enabled(Do(Do(s, a), b), c)
    ensures Possible(s, [a, b, c]) && After(s, [a, b, c]) == Do(Do(Do(s, a), b), c)
  {
    FirstThen(s, a, [b, c]);
    FirstThen(Do(s, a), b, [c]);
    FirstThen(Do(Do(s, a), b), c, []);
  }

  lemma {:induction false} FirstThen(s: State, step: Step, rest: seq<Step>)
    requires Enabled(s, step) && Possible(Do(s, step), rest)
    ensures Possible(s, [step] + rest) && After(s, [step] + rest) == After(Do(s, step), rest)
  {
    assert ([step] + rest)[1..] == rest;
  }

  // ---------- a thread that is left alone ----------

  /** The step the thread takes next; `x` is where a new SerialArena would go. */
  function NextStep(s: State, t: Thread, x: Address): Step {
    match PcOf(s, t)
    case Idle => Use(t)
    case Fast(_, _) => CheckCache(t)
    case AtHint(_) => CheckHint(t)
    case AtList(_) => LoadList(t)
    case Walking(_, cur) => if cur.Some? then Visit(t) else Allocate(t, x)
    case Linking(_, _, _) => SetNext(t)
    case Trying(_, _, _) => CompareExchange(t, false)
    case Caching(_, _) => StoreCache(t)
    case Hinting(_, _) => StoreHint(t)
    case Got(_, _) => Use(t)
  }

  predicate StepBy(step: Step, t: Thread) {
    !step.Initialize? && !step.Destroy? && step.t == t
  }

  predicate ByThread(steps: seq<Step>, t: Thread) {
    forall step | step in steps :: StepBy(step, t)
  }

  /** Before a new SerialArena is made. */
  predicate Searching(pc: Pc) {
    pc.Fast? || pc.AtHint? || pc.AtList? || pc.Walking?
  }

  function IndexOf(l: seq<Address>, cur: Option<Address>): nat {
    if l == [] || cur == Some(l[0]) then 0 else 1 + IndexOf(l[1..], cur)
  }

  /** How many steps are left at most, where the arena's list is `l` and starts at `head`. */
  function LeftAt(pc: Pc, head: Option<Address>, l: seq<Address>): nat {
    match pc
    case Fast(_, tagged) => |l| + if tagged then 9 else 8
    case AtHint(_) => |l| + 7
    case AtList(_) => |l| + 6
    case Walking(_, cur) => if IndexOf(l, cur) <= |l| then |l| - IndexOf(l, cur) + 5 else 5
    case Linking(_, _, expected) => if expected == head then 4 else 6
    case Trying(_, _, expected) => if expected == head then 3 else 5
    case Caching(_, _) => 2
    case Hinting(_, _) => 1
    case _ => 0
  }

  ghost function Left(s: State, t: Thread): nat
    requires !PcOf(s, t).Idle? && PcOf(s, t).a in s.arenas && PcOf(s, t).a in s.lists
  {
    LeftAt(PcOf(s, t), s.arenas[PcOf(s, t).a].threads, s.lists[PcOf(s, t).a])
  }

  lemma {:induction false} InsideIsLive(s: State, t: Thread)
    requires Inv(s) && !PcOf(s, t).Idle?
    ensures PcOf(s, t).a in s.arenas && PcOf(s, t).a in s.lists
  {
    assert PcOk(s, t, s.pcs[t]);
  }

  lemma {:induction false} IndexOfAt(l: seq<Address>, k: nat)
    requires k <= |l| && forall i, j | 0 <= i < j < |l| :: l[i] != l[j]
    ensures IndexOf(l, At(l, k)) == k
    decreases k
  {
    if k > 0 {
      assert At(l, k) == At(l[1..], k - 1);
      IndexOfAt(l[1..], k - 1);
    } else if l == [] {
    }
  }

  lemma {:induction false} ListDistinct(s: State, a: ArenaId)
    requires ListsOk(s) && a in s.arenas && a in s.lists
    ensures forall i, j | 0 <= i < j < |s.lists[a]| :: s.lists[a][i] != s.lists[a][j]
    ensures Chain(s.serials, s.arenas[a].threads, s.lists[a]) && OneEach(s.serials, s.lists[a])
  {
    assert ListOk(s.serials, s.arenas[a], s.lists[a]);
  }

  /** Where the walk is, and what it meets. */
  lemma {:induction false} WalkingAt(s: State, t: Thread) returns (k: nat)
    requires Inv(s) && PcOf(s, t).Walking?
    ensures var Walking(a, cur) := PcOf(s, t);
      && a in s.arenas && a in s.lists && k <= |s.lists[a]| && cur == At(s.lists[a], k)
      && IndexOf(s.lists[a], cur) == k
      && (k < |s.lists[a]| ==> s.lists[a][k] in s.serials && s.serials[s.lists[a][k]].next == At(s.lists[a], k + 1))
      && (k < |s.lists[a]| ==> IndexOf(s.lists[a], At(s.lists[a], k + 1)) == k + 1)
  {
    var Walking(a, cur) := PcOf(s, t);
    assert PcOk(s, t, s.pcs[t]);
    k :| PassedTo(s, t, s.lists[a], cur, k);
    ListDistinct(s, a);
    IndexOfAt(s.lists[a], k);
    if k < |s.lists[a]| {
      NextInChain(s.serials, s.arenas[a].threads, s.lists[a], k);
      IndexOfAt(s.lists[a], k + 1);
    }
  }

  lemma {:induction false} CanStep(s: State, t: Thread, x: Address)
    requires Inv(s) && !PcOf(s, t).Idle? && (Searching(PcOf(s, t)) ==> x !in s.serials)
    ensures Enabled(s, NextStep(s, t, x))
  {
    InsideIsLive(s, t);
    assert PcOk(s, t, s.pcs[t]);
    match PcOf(s, t)
    case AtHint(a) =>
      assert ListOk(s.serials, s.arenas[a], s.lists[a]);
      if s.arenas[a].hint.Some? { ListedLive(s, a, s.arenas[a].hint.value); }
    case Walking(a, cur) => var k := WalkingAt(s, t);
    case _ =>
  }

  /** The thread gets nearer, stays in the same arena, and changes the list only by pushing its own. */
  ghost predicate Nearer(s: State, s1: State, t: Thread)
    requires !PcOf(s, t).Idle? && PcOf(s, t).a in s.arenas && PcOf(s, t).a in s.lists
  {
    var pc, pc1 := PcOf(s, t), PcOf(s1, t);
    && !pc1.Idle? && pc1.a == pc.a && pc.a in s1.arenas && pc.a in s1.lists && Left(s1, t) < Left(s, t)
    && (Searching(pc1) ==> Searching(pc) && s1.serials == s.serials)
    && (!Searching(pc) ==> pc1.s == pc.s)
    && (if pc.Trying? && pc1.Caching? then s1.lists == s.lists[pc.a := [pc.s] + s.lists[pc.a]] else s1.lists == s.lists)
  }

  lemma {:induction false} FastGetsNearer(s: State, t: Thread)
    requires Enabled(s, CheckCache(t)) && ArenaIdsOk(s) && PcOf(s, t).a in s.lists
    ensures Nearer(s, Do(s, CheckCache(t)), t)
  {
    NotTagged(s, t, PcOf(s, t).a);
  }

  lemma {:induction false} HintGetsNearer(s: State, t: Thread)
    requires Enabled(s, CheckHint(t)) && PcOf(s, t).a in s.lists
    ensures Nearer(s, Do(s, CheckHint(t)), t)
  {
  }

  lemma {:induction false} ListGetsNearer(s: State, t: Thread)
    requires Enabled(s, LoadList(t)) && ListsOk(s) && PcOf(s, t).a in s.lists
    ensures Nearer(s, Do(s, LoadList(t)), t)
  {
    ListDistinct(s, PcOf(s, t).a);
    IndexOfAt(s.lists[PcOf(s, t).a], 0);
  }

  lemma {:induction false} VisitGetsNearer(s: State, t: Thread, k: nat)
    requires Enabled(s, Visit(t)) && PcOf(s, t).a in s.arenas && PcOf(s, t).a in s.lists
    requires var l, cur := s.lists[PcOf(s, t).a], PcOf(s, t).cur;
      && k < |l| && cur == Some(l[k]) && IndexOf(l, cur) == k && s.serials[l[k]].next == At(l, k + 1)
      && IndexOf(l, At(l, k + 1)) == k + 1
    ensures Nearer(s, Do(s, Visit(t)), t)
  {
  }

  lemma {:induction false} AllocateGetsNearer(s: State, t: Thread, x: Address)
    requires Enabled(s, Allocate(t, x)) && PcOf(s, t).a in s.lists
    ensures Nearer(s, Do(s, Allocate(t, x)), t)
  {
  }

  lemma {:induction false} SetNextGetsNearer(s: State, t: Thread)
    requires Enabled(s, SetNext(t)) && PcOf(s, t).a in s.arenas && PcOf(s, t).a in s.lists
    ensures Nearer(s, Do(s, SetNext(t)), t)
  {
  }

  lemma {:induction false} ExchangeGetsNearer(s: State, t: Thread)
    requires Enabled(s, CompareExchange(t, false))
    ensures Nearer(s, Do(s, CompareExchange(t, false)), t)
  {
  }

  lemma {:induction false} StoreGetsNearer(s: State, t: Thread)
    requires PcOf(s, t).Caching? || PcOf(s, t).Hinting?
    requires PcOf(s, t).a in s.arenas && PcOf(s, t).a in s.lists
    ensures var step := if PcOf(s, t).Caching? then StoreCache(t) else StoreHint(t);
      Enabled(s, step) && Nearer(s, Do(s, step), t)
  {
  }

  lemma {:induction false} GetsNearer(s: State, t: Thread, x: Address)
    requires Inv(s) && !PcOf(s, t).Idle? && !PcOf(s, t).Got? && Enabled(s, NextStep(s, t, x))
    requires PcOf(s, t).a in s.arenas && PcOf(s, t).a in s.lists
    ensures Nearer(s, Do(s, NextStep(s, t, x)), t)
  {
    match PcOf(s, t)
    case Fast(_, _) => FastGetsNearer(s, t);
    case AtHint(_) => HintGetsNearer(s, t);
    case AtList(_) => ListGetsNearer(s, t);
    case Walking(_, cur) =>
      var k := WalkingAt(s, t);
      if cur.Some? { VisitGetsNearer(s, t, k); } else { AllocateGetsNearer(s, t, x); }
    case Linking(_, _, _) => SetNextGetsNearer(s, t);
    case Trying(_, _, _) => ExchangeGetsNearer(s, t);
    case _ => StoreGetsNearer(s, t);
  }

  ghost predicate Outcome(s: State, s1: State, t: Thread)
    requires !PcOf(s, t).Idle? && PcOf(s, t).a in s.lists
  {
    var a, pc := PcOf(s, t).a, PcOf(s1, t);
    && pc.Got? && pc.a == a && Owns(s1, t, a, pc.s)
    && s1.lists == (if OwnsNone(s, t, a) then s.lists[a := [pc.s] + s.lists[a]] else s.lists)
    && (!Searching(PcOf(s, t)) ==> pc.s == PcOf(s, t).s)
  }

  lemma {:induction false} OutcomeLater(s: State, s1: State, s2: State, t: Thread)
    requires Inv(s) && Inv(s1) && !PcOf(s, t).Idle? && PcOf(s, t).a in s.arenas && PcOf(s, t).a in s.lists
    requires Nearer(s, s1, t) && Outcome(s1, s2, t)
    requires s1.lists == s.lists ==> (OwnsNone(s1, t, PcOf(s, t).a) <==> OwnsNone(s, t, PcOf(s, t).a))
    ensures Outcome(s, s2, t)
  {
    assert PcOk(s, t, s.pcs[t]) && PcOk(s1, t, s1.pcs[t]);
  }

  /** Owners of listed SerialArenas do not change. */
  lemma {:induction false} OwnersStay(s: State, t: Thread, x: Address)
    requires ListsOk(s) && !PcOf(s, t).Idle? && Enabled(s, NextStep(s, t, x)) && PcOf(s, t).a in s.arenas && PcOf(s, t).a in s.lists
    requires Do(s, NextStep(s, t, x)).lists == s.lists && PcOf(s, t).a in Do(s, NextStep(s, t, x)).arenas
    ensures OwnsNone(Do(s, NextStep(s, t, x)), t, PcOf(s, t).a) <==> OwnsNone(s, t, PcOf(s, t).a)
  {
    ListDistinct(s, PcOf(s, t).a);
    SerialsStay(s, t, x);
    SameOwners(s, Do(s, NextStep(s, t, x)), t, PcOf(s, t).a);
  }

  lemma {:induction false} SerialsStay(s: State, t: Thread, x: Address)
    requires !PcOf(s, t).Idle? && Enabled(s, NextStep(s, t, x))
    ensures OwnersKept(s.serials, Do(s, NextStep(s, t, x)).serials)
  {
  }

  ghost predicate OwnersKept(serials: map<Address, Serial>, serials': map<Address, Serial>) {
    forall y | y in serials :: y in serials' && serials'[y].owner == serials[y].owner
  }

  lemma {:induction false} SameOwners(s: State, s1: State, t: Thread, a: ArenaId)
    requires a in s.arenas && a in s.lists && a in s1.arenas && s1.lists == s.lists
    requires OneEach(s.serials, s.lists[a]) && OwnersKept(s.serials, s1.serials)
    ensures OwnsNone(s1, t, a) <==> OwnsNone(s, t, a)
  {
  }

  /** In every reachable state: a thread inside an allocation that is left alone comes to its own SerialArena, in a
      number of steps bounded by the list's length; the one it has on the list, if it has one, and then the
      lists stay as they are; and otherwise a new one that it pushes on top. */
  lemma {:induction false} LeftAlone(s: State, t: Thread, x: Address) returns (steps: seq<Step>)
    requires Inv(s) && !PcOf(s, t).Idle? && (Searching(PcOf(s, t)) ==> x !in s.serials)
    ensures PcOf(s, t).a in s.arenas && PcOf(s, t).a in s.lists
    ensures Possible(s, steps) && ByThread(steps, t) && |steps| <= |s.lists[PcOf(s, t).a]| + 9
    ensures Outcome(s, After(s, steps), t)
  {
    InsideIsLive(s, t);
    steps := AloneWithin(s, t, x);
    LeftBound(PcOf(s, t), s.arenas[PcOf(s, t).a].threads, s.lists[PcOf(s, t).a]);
  }

  lemma {:induction false} LeftBound(pc: Pc, head: Option<Address>, l: seq<Address>)
    ensures LeftAt(pc, head, l) <= |l| + 9
  {
  }

  lemma {:induction false} AloneWithin(s: State, t: Thread, x: Address) returns (steps: seq<Step>)
    requires Inv(s) && !PcOf(s, t).Idle? && (Searching(PcOf(s, t)) ==> x !in s.serials)
    requires PcOf(s, t).a in s.arenas && PcOf(s, t).a in s.lists
    ensures Possible(s, steps) && ByThread(steps, t) && |steps| <= Left(s, t)
    ensures Outcome(s, After(s, steps), t)
    decreases Left(s, t)
  {
    if PcOf(s, t).Got? {
      steps := [];
      GotIsOutcome(s, t);
    } else {
      CanStep(s, t, x);
      GetsNearer(s, t, x);
      StepInv(s, NextStep(s, t, x));
      var rest := AloneWithin(Do(s, NextStep(s, t, x)), t, x);
      steps := [NextStep(s, t, x)] + rest;
      OneStepMore(s, t, x, rest);
    }
  }

  lemma {:induction false} OneStepMore(s: State, t: Thread, x: Address, rest: seq<Step>)
    requires Inv(s) && !PcOf(s, t).Idle? && PcOf(s, t).a in s.arenas && PcOf(s, t).a in s.lists
    requires var step := NextStep(s, t, x);
      && Enabled(s, step) && Inv(Do(s, step)) && Nearer(s, Do(s, step), t)
      && Possible(Do(s, step), rest) && ByThread(rest, t) && Outcome(Do(s, step), After(Do(s, step), rest), t)
    ensures var steps := [NextStep(s, t, x)] + rest;
      Possible(s, steps) && ByThread(steps, t) && Outcome(s, After(s, steps), t)
  {
    var step := NextStep(s, t, x);
    FirstThen(s, step, rest);
    NextIsByThread(s, t, x);
    if Do(s, step).lists == s.lists { OwnersStay(s, t, x); }
    OutcomeLater(s, Do(s, step), After(Do(s, step), rest), t);
  }

  lemma {:induction false} NextIsByThread(s: State, t: Thread, x: Address)
    ensures StepBy(NextStep(s, t, x), t)
  {
  }

  lemma {:induction false} GotIsOutcome(s: State, t: Thread)
    requires Inv(s) && PcOf(s, t).Got? && PcOf(s, t).a in s.lists
    ensures Outcome(s, s, t)
  {
    assert PcOk(s, t, s.pcs[t]);
    var a := PcOf(s, t).a;
    ListDistinct(s, a);
    var i :| 0 <= i < |s.lists[a]| && s.lists[a][i] == PcOf(s, t).s;
    assert s.serials[s.lists[a][i]].owner == t;
  }

  /** From the start: any interleaving, then this thread alone. */
  lemma {:induction false} EveryThreadGetsItsOwn(before: seq<Step>, t: Thread, x: Address) returns (steps: seq<Step>)
    requires Possible(START, before) && !PcOf(After(START, before), t).Idle? && x !in After(START, before).serials
    ensures var s := After(START, before);
      && PcOf(s, t).a in s.arenas && PcOf(s, t).a in s.lists
      && Possible(s, steps) && ByThread(steps, t) && |steps| <= |s.lists[PcOf(s, t).a]| + 9
      && Outcome(s, After(s, steps), t)
  {
    RunInv(START, before);
    steps := LeftAlone(After(START, before), t, x);
  }

  // ---------- the next allocation ----------

  /** A thread that has found or pushed its SerialArena stores it in its cache and in the arena's hint, so that its
      next allocation from this arena takes it from the cache; and if the cache has been taken by another arena
      meanwhile, from the hint. */
  lemma {:induction false} Remembered(s: State, t: Thread)
    requires Inv(s) && PcOf(s, t).Caching?
    ensures var Caching(a, x) := PcOf(s, t);
      && Enabled(s, StoreCache(t)) && Enabled(Do(s, StoreCache(t)), StoreHint(t))
      && var s1 := Do(Do(s, StoreCache(t)), StoreHint(t));
      && a in s1.arenas && t in s1.caches
      && s1.caches[t].lastIdSeen == s1.arenas[a].id && s1.caches[t].lastSerial == Some(x)
      && s1.arenas[a].hint == Some(x) && s1.lists == s.lists && s1.serials == s.serials
  {
    assert PcOk(s, t, s.pcs[t]);
  }

  lemma {:induction false} CacheIsTaken(s: State, t: Thread)
    requires PcOf(s, t).Fast? && PcOf(s, t).a in s.arenas && !(PcOf(s, t).tagged && s.arenas[PcOf(s, t).a].recordAllocs)
    ensures Enabled(s, CheckCache(t))
    ensures CacheOf(s, t).lastIdSeen == s.arenas[PcOf(s, t).a].id && CacheOf(s, t).lastSerial.Some? ==>
      PcOf(Do(s, CheckCache(t)), t) == Got(PcOf(s, t).a, CacheOf(s, t).lastSerial.value)
  {
  }

  lemma {:induction false} HintIsTaken(s: State, t: Thread, x: Address)
    requires PcOf(s, t).AtHint? && PcOf(s, t).a in s.arenas && s.arenas[PcOf(s, t).a].hint == Some(x)
    requires x in s.serials && s.serials[x].owner == t
    ensures Enabled(s, CheckHint(t)) && PcOf(Do(s, CheckHint(t)), t) == Got(PcOf(s, t).a, x)
  {
  }

  /** Where allocations are recorded, no tagged request is served before it was recorded: the tag makes the cache
      miss, in every reachable state. */
  lemma {:induction false} RecordedFirst(s: State, t: Thread)
    requires Inv(s) && PcOf(s, t).Fast? && PcOf(s, t).tagged && PcOf(s, t).a in s.arenas && s.arenas[PcOf(s, t).a].recordAllocs
    ensures Enabled(s, CheckCache(t)) && PcOf(Do(s, CheckCache(t)), t) == Fast(PcOf(s, t).a, false)
  {
    NotTagged(s, t, PcOf(s, t).a);
  }

  /** The first SerialArena, in the block an arena starts with, is cached by the thread that made the arena. */
  lemma {:induction false} FirstIsRemembered(s: State, t: Thread, a: ArenaId, recordAllocs: bool, x: Address)
    requires Enabled(s, Initialize(t, a, recordAllocs, Some(x)))
    ensures var s1 := Do(s, Initialize(t, a, recordAllocs, Some(x)));
      && a in s1.arenas && t in s1.caches && x in s1.serials && a in s1.lists
      && s1.caches[t].lastIdSeen == s1.arenas[a].id && s1.caches[t].lastSerial == Some(x)
      && s1.arenas[a].hint == Some(x) && s1.lists[a] == [x] && s1.serials[x] == Serial(t, None)
  {
  }

  /** Ids go up by two; a thread's first one opens a batch of 512 of its own. */
  lemma {:induction false} FirstIds()
    ensures var steps := [Initialize(0, 0, false, None), Initialize(0, 1, true, None), Initialize(1, 2, false, None)];
      Possible(START, steps) && Drawn(START, steps) == [0, 2, 512]
  {
    var a, b, c := Initialize(0, 0, false, None), Initialize(0, 1, true, None), Initialize(1, 2, false, None);
    var s1 := Do(START, a);
    var s2 := Do(s1, b);
    var s3 := Do(s2, c);
    ThreeSteps(START, a, b, c);
    assert DrawnId(START, 0) == 0 && DrawnId(s1, 0) == 2 && DrawnId(s2, 1) == 512;
    assert [a, b, c][1..] == [b, c] && [b, c][1..] == [c] && [c][1..] == [];
    assert Drawn(s3, []) == [];
    assert Drawn(s2, [c]) == [512] + Drawn(s3, []);
    assert Drawn(s1, [b, c]) == [2] + Drawn(s2, [c]);
  }
}
