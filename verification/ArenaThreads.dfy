/** An arena in use: threads join and ask for memory in any order, each from its own SerialArena, until the
    arena is given back. */
module ArenaThreads {
  import opened Sequences
  import opened Arena
  import opened ArenaCleanup
  import opened ArenaRelease

  // ---------- the list of SerialArenas ----------

  predicate Apart(b: Block, c: Block) {
    b.base + b.size <= c.base || c.base + c.size <= b.base
  }

  ghost predicate ListsApart(x: seq<Block>, y: seq<Block>) {
    forall k, m | 0 <= k < |x| && 0 <= m < |y| :: Apart(x[k], y[m])
  }

  ghost predicate ThreadsApart(ss: seq<Serial>) {
    forall i, j | 0 <= i < j < |ss| :: ListsApart(ss[i].blocks, ss[j].blocks)
  }

  ghost predicate SerialOk(a: Serial) {
    BlocksOk(a.blocks) && FrontOk(a) && Accounted(a)
  }

  ghost predicate Sound(ss: seq<Serial>) {
    (forall i | 0 <= i < |ss| :: SerialOk(ss[i])) && ThreadsApart(ss)
  }

  /** The allocator's promise: what it hands out is 8-byte aligned and overlaps no live block of any thread. */
  ghost predicate NewFits(ss: seq<Serial>, size: nat, mem: nat) {
    mem % 8 == 0 && forall i | 0 <= i < |ss| :: FreshBlock(ss[i], size, mem)
  }

  ghost predicate LegalAsk(ss: seq<Serial>, i: nat, policy: Policy, r: Request) {
    && i < |ss| && HasBlock(ss[i]) && WellFormed(r)
    && (!HasSpace(ss[i], Needed(r)) ==> NewFits(ss, BlockSize(policy, ss[i].blocks[0].size, Needed(r)), r.mem))
  }

  function FirstSize(policy: Policy): nat {
    BlockSize(policy, 0, SERIAL_ARENA_SIZE)
  }

  /** A thread without a SerialArena gets one at the head of the list. */
  function Joined(ss: seq<Serial>, policy: Policy, mem: nat): seq<Serial> {
    [New(mem, FirstSize(policy))] + ss
  }

  function Asked(ss: seq<Serial>, i: nat, policy: Policy, r: Request): seq<Serial>
    requires i < |ss| && HasBlock(ss[i])
  {
    ss[i := Serve(ss[i], policy, r).0]
  }

  lemma {:induction false} NewSerialOk(mem: nat, size: nat)
    requires mem % 8 == 0 && size >= BLOCK_HEADER_SIZE + SERIAL_ARENA_SIZE
    ensures SerialOk(New(mem, size))
  {
    NewInv(mem, size);
    var a := New(mem, size);
    assert a.blocks[1..] == [] && TotalSize(a.blocks) == a.blocks[0].size + TotalSize([]);
  }

  lemma {:induction false} JoinSound(ss: seq<Serial>, policy: Policy, mem: nat)
    requires Sound(ss) && NewFits(ss, FirstSize(policy), mem)
    ensures Sound(Joined(ss, policy, mem))
  {
    var all := Joined(ss, policy, mem);
    NewSerialOk(mem, FirstSize(policy));
    forall j | 0 < j < |all| ensures ListsApart(all[0].blocks, all[j].blocks) {
      assert all[j] == ss[j - 1] && FreshBlock(ss[j - 1], FirstSize(policy), mem);
    }
    forall i, j | 0 <= i < j < |all| ensures ListsApart(all[i].blocks, all[j].blocks) {
      if i > 0 { assert all[i] == ss[i - 1] && all[j] == ss[j - 1]; }
    }
  }

  /** Serving changes no block's place or size and may put a new one in front. */
  lemma {:induction false} ServedBlocks(a: Serial, policy: Policy, r: Request)
    requires HasBlock(a)
    ensures var bs := Serve(a, policy, r).0.blocks;
      if HasSpace(a, Needed(r)) then bs == a.blocks
      else bs == [Block(r.mem, BlockSize(policy, a.blocks[0].size, Needed(r)), 0)] + Synced(a)
  {
  }

  lemma {:induction false} ServeApart(a: Serial, other: seq<Block>, policy: Policy, r: Request)
    requires HasBlock(a) && ListsApart(a.blocks, other)
    requires !HasSpace(a, Needed(r)) ==>
      ListsApart([Block(r.mem, BlockSize(policy, a.blocks[0].size, Needed(r)), 0)], other)
    ensures ListsApart(Serve(a, policy, r).0.blocks, other)
  {
    ServedBlocks(a, policy, r);
    if !HasSpace(a, Needed(r)) {
      var front := [Block(r.mem, BlockSize(policy, a.blocks[0].size, Needed(r)), 0)];
      var bs := front + Synced(a);
      forall k, m | 0 <= k < |bs| && 0 <= m < |other| ensures Apart(bs[k], other[m]) {
        if k > 0 { assert Apart(a.blocks[k - 1], other[m]); } else { assert Apart(front[0], other[m]); }
      }
    }
  }

  lemma {:induction false} ServeSerialOk(a: Serial, policy: Policy, r: Request)
    requires SerialOk(a) && Legal(a, policy, r)
    ensures SerialOk(Serve(a, policy, r).0)
  {
    ServeInv(a, [], policy, r);
    ServeAccounts(a, policy, r);
  }

  lemma {:induction false} AskSound(ss: seq<Serial>, i: nat, policy: Policy, r: Request)
    requires Sound(ss) && LegalAsk(ss, i, policy, r)
    ensures Sound(Asked(ss, i, policy, r))
  {
    var all, b := Asked(ss, i, policy, r), Serve(ss[i], policy, r).0;
    ServeSerialOk(ss[i], policy, r);
    forall j | 0 <= j < |ss| && j != i ensures ListsApart(b.blocks, ss[j].blocks) {
      assert ListsApart(ss[i].blocks, ss[j].blocks) by {
        if j < i { ApartSymmetric(ss[j].blocks, ss[i].blocks); }
      }
      assert !HasSpace(ss[i], Needed(r)) ==> FreshBlock(ss[j], BlockSize(policy, ss[i].blocks[0].size, Needed(r)), r.mem);
      ServeApart(ss[i], ss[j].blocks, policy, r);
    }
    forall j, k | 0 <= j < k < |all| ensures ListsApart(all[j].blocks, all[k].blocks) {
      if k == i { ApartSymmetric(b.blocks, ss[j].blocks); }
    }
  }

  lemma {:induction false} ApartSymmetric(x: seq<Block>, y: seq<Block>)
    requires ListsApart(x, y)
    ensures ListsApart(y, x)
  {
    forall k, m | 0 <= k < |y| && 0 <= m < |x| ensures Apart(y[k], x[m]) {
      assert Apart(x[m], y[k]);
    }
  }

  // ---------- blocks apart are different blocks ----------

  lemma {:induction false} NotAmong(bs: seq<Block>, p: nat)
    requires forall k | 0 <= k < |bs| :: bs[k].base != p
    ensures p !in Pointers(Memories(bs))
    decreases |bs|
  {
    if bs != [] {
      assert Memories(bs)[1..] == Memories(bs[1..]);
      NotAmong(bs[1..], p);
    }
  }

  ghost predicate Avoids(bs: seq<Block>, gone: set<nat>) {
    forall k | 0 <= k < |bs| :: bs[k].base !in gone
  }

  lemma {:induction false} ListFresh(bs: seq<Block>, gone: set<nat>)
    requires BlocksApart(bs) && Avoids(bs, gone) && forall k | 0 <= k < |bs| :: bs[k].size > 0
    ensures Fresh(Memories(bs), gone)
    decreases |bs|
  {
    if bs != [] {
      assert Memories(bs)[1..] == Memories(bs[1..]);
      ListFresh(bs[1..], gone + {bs[0].base});
    }
  }

  lemma {:induction false} SoundIsFresh(ss: seq<Serial>, gone: set<nat>)
    requires Sound(ss) && forall i | 0 <= i < |ss| :: Avoids(ss[i].blocks, gone)
    ensures Fresh(AllMemory(ss), gone)
    decreases |ss|
  {
    if ss != [] {
      var bs, rest := ss[0].blocks, ss[1..];
      ListFresh(bs, gone);
      forall i | 0 <= i < |rest| ensures Avoids(rest[i].blocks, gone + Pointers(Memories(bs))) {
        assert rest[i] == ss[i + 1];
        OtherPointers(bs, rest[i].blocks, gone);
      }
      assert Sound(rest) by {
        forall i, j | 0 <= i < j < |rest| ensures ListsApart(rest[i].blocks, rest[j].blocks) {
          assert rest[i] == ss[i + 1] && rest[j] == ss[j + 1];
        }
      }
      SoundIsFresh(rest, gone + Pointers(Memories(bs)));
      FreshAppend(Memories(bs), AllMemory(rest), gone);
    }
  }

  lemma {:induction false} OtherPointers(bs: seq<Block>, other: seq<Block>, gone: set<nat>)
    requires ListsApart(bs, other) && Avoids(other, gone)
    requires forall k | 0 <= k < |bs| :: bs[k].size > 0
    requires forall k | 0 <= k < |other| :: other[k].size > 0
    ensures Avoids(other, gone + Pointers(Memories(bs)))
  {
    forall m | 0 <= m < |other| ensures other[m].base !in Pointers(Memories(bs)) {
      forall k | 0 <= k < |bs| ensures bs[k].base != other[m].base {
        assert Apart(bs[k], other[m]);
      }
      NotAmong(bs, other[m].base);
    }
  }

  /** In a sound list destruction does what it should. */
  lemma {:induction false} SoundIsReleased(ss: seq<Serial>, hasPolicy: bool, userOwned: bool)
    requires Sound(ss) && (hasPolicy || userOwned ==> ss != [])
    ensures var t, kept := ReleaseTrace(ss, hasPolicy, userOwned), Kept(ss, userOwned);
      && Calls(t) == AllCleanups(ss)
      && Deallocs(t) + kept == AllMemory(ss)
      && Orderly(t)
      && TotalOf(Deallocs(t)) + TotalOf(kept) == SpaceAllocated(ss)
  {
    SoundIsFresh(ss, {});
    ReleaseGivesAllBack(ss, hasPolicy, userOwned);
  }

  // ---------- how the list starts ----------

  /** sizeof(AllocationPolicy) rounded up to 8. */
  const POLICY_SIZE: nat := 40
  const MINIMUM_SIZE: nat := BLOCK_HEADER_SIZE + SERIAL_ARENA_SIZE + POLICY_SIZE

  function MinimumInitial(hasPolicy: bool): nat {
    if hasPolicy then MINIMUM_SIZE else BLOCK_HEADER_SIZE + SERIAL_ARENA_SIZE
  }

  /** The user's block is 8-byte aligned and large enough; so is what the allocator hands out. */
  predicate LegalStart(mem: seq<Memory>, hasPolicy: bool, newMem: nat) {
    && newMem % 8 == 0
    && (mem != [] ==> mem[0].ptr % 8 == 0 && mem[0].size >= MinimumInitial(hasPolicy))
  }

  /** The list starts from the block given, or from a new one if there is a policy to store. */
  function InitialList(mem: seq<Memory>, hasPolicy: bool, policy: Policy, newMem: nat): seq<Serial> {
    if mem == [] && !hasPolicy then []
    else
      var s := if mem != [] then New(mem[0].ptr, mem[0].size) else New(newMem, BlockSize(policy, 0, MINIMUM_SIZE));
      [if hasPolicy then s.(ptr := s.ptr + POLICY_SIZE) else s]
  }

  /** Where the policy lives. */
  function PolicyPieces(base: nat, hasPolicy: bool): seq<Piece> {
    var at := base + BLOCK_HEADER_SIZE + SERIAL_ARENA_SIZE;
    if hasPolicy then [Piece(at, at + POLICY_SIZE, base)] else []
  }

  lemma {:induction false} PolicyInv(mem: nat, size: nat)
    requires mem % 8 == 0 && size >= MINIMUM_SIZE
    ensures var s := New(mem, size); Inv(s.(ptr := s.ptr + POLICY_SIZE), FirstPieces(mem) + PolicyPieces(mem, true))
  {
    var s := New(mem, size);
    NewInv(mem, size);
    assert MINIMUM_SIZE % 8 == 0 && size - size % 8 >= MINIMUM_SIZE;
    TakeInv(s, FirstPieces(mem), s.ptr + POLICY_SIZE, s.limit, PolicyPieces(mem, true)[0]);
  }

  /** At the start the SerialArena and the policy are inside the block and apart. */
  lemma {:induction false} StartInv(mem: seq<Memory>, hasPolicy: bool, policy: Policy, newMem: nat)
    requires LegalStart(mem, hasPolicy, newMem)
    ensures var ss := InitialList(mem, hasPolicy, policy, newMem);
      && Sound(ss)
      && (ss != [] ==> Inv(ss[0], FirstPieces(ss[0].blocks[0].base) + PolicyPieces(ss[0].blocks[0].base, hasPolicy)))
  {
    if mem != [] || hasPolicy {
      var base, size := if mem != [] then mem[0].ptr else newMem, if mem != [] then mem[0].size else BlockSize(policy, 0, MINIMUM_SIZE);
      NewSerialOk(base, size);
      if hasPolicy {
        PolicyInv(base, size);
      } else {
        NewInv(base, size);
        assert FirstPieces(base) + [] == FirstPieces(base);
      }
    }
  }

  // ---------- any number of threads, in any order ----------

  /** A thread's SerialArena, what was carved from it, and the cleanups registered with it. */
  datatype Thread = Thread(serial: Serial, log: seq<Piece>, registered: seq<Cleanup>)

  datatype Action = Join(mem: nat) | Ask(thread: nat, request: Request)

  function Serials(us: seq<Thread>): seq<Serial> {
    seq(|us|, i requires 0 <= i < |us| => us[i].serial)
  }

  ghost predicate EachStarted(us: seq<Thread>) {
    forall i | 0 <= i < |us| :: HasBlock(us[i].serial)
  }

  function Start(mem: seq<Memory>, hasPolicy: bool, policy: Policy, newMem: nat): (us: seq<Thread>)
    ensures EachStarted(us)
  {
    var ss := InitialList(mem, hasPolicy, policy, newMem);
    if ss == [] then []
    else
      var base := ss[0].blocks[0].base;
      [Thread(ss[0], FirstPieces(base) + PolicyPieces(base, hasPolicy), [])]
  }

  function Served(u: Thread, policy: Policy, r: Request): Thread
    requires HasBlock(u.serial)
  {
    Thread(Serve(u.serial, policy, r).0, u.log + Pieces(u.serial, policy, r),
      u.registered + FirstRegistration(u.serial, policy, r))
  }

  ghost predicate LegalAction(us: seq<Thread>, policy: Policy, act: Action) {
    match act
    case Join(mem) => NewFits(Serials(us), FirstSize(policy), mem)
    case Ask(i, r) => LegalAsk(Serials(us), i, policy, r)
  }

  function Act(us: seq<Thread>, policy: Policy, act: Action): (after: seq<Thread>)
    requires EachStarted(us)
    ensures EachStarted(after)
  {
    match act
    case Join(mem) => [Thread(New(mem, FirstSize(policy)), FirstPieces(mem), [])] + us
    case Ask(i, r) => if i < |us| then us[i := Served(us[i], policy, r)] else us
  }

  function AfterActions(us: seq<Thread>, policy: Policy, acts: seq<Action>): (after: seq<Thread>)
    requires EachStarted(us)
    ensures EachStarted(after)
    decreases |acts|
  {
    if acts == [] then us else AfterActions(Act(us, policy, acts[0]), policy, acts[1..])
  }

  ghost predicate LegalActions(us: seq<Thread>, policy: Policy, acts: seq<Action>)
    requires EachStarted(us)
    decreases |acts|
  {
    acts == [] || (LegalAction(us, policy, acts[0]) && LegalActions(Act(us, policy, acts[0]), policy, acts[1..]))
  }

  ghost predicate RegisteredIn(a: Serial, cs: seq<Cleanup>) {
    exists lists :: NodesHeld(a, lists) && Registered(lists) == cs
  }

  ghost predicate ThreadOk(u: Thread) {
    Inv(u.serial, u.log) && RegisteredIn(u.serial, u.registered)
  }

  ghost predicate InUse(us: seq<Thread>) {
    EachStarted(us) && Sound(Serials(us)) && forall i | 0 <= i < |us| :: ThreadOk(us[i])
  }

  lemma {:induction false} NothingRegistered(a: Serial)
    requires |a.blocks| == 1 && a.limit == TopOf(a, 0) && a.blocks[0].base + BLOCK_HEADER_SIZE <= a.limit
    ensures RegisteredIn(a, [])
  {
    var lists: seq<seq<Cleanup>> := [[]];
    assert Holds(a, 0, lists[0]) && NodesHeld(a, lists);
    assert lists[1..] == [] && Registered(lists) == [];
  }

  lemma {:induction false} ServedOk(u: Thread, policy: Policy, r: Request)
    requires ThreadOk(u) && Legal(u.serial, policy, r)
    ensures ThreadOk(Served(u, policy, r))
  {
    ServeInv(u.serial, u.log, policy, r);
    var lists :| NodesHeld(u.serial, lists) && Registered(lists) == u.registered;
    ServeHolds(u.serial, u.log, lists, policy, r);
    RegisteredExtended(u.serial, lists, policy, r);
  }

  lemma {:induction false} ActInUse(us: seq<Thread>, policy: Policy, act: Action)
    requires InUse(us) && LegalAction(us, policy, act)
    ensures InUse(Act(us, policy, act))
  {
    var after := Act(us, policy, act);
    match act {
      case Join(mem) =>
        JoinSound(Serials(us), policy, mem);
        assert Serials(after) == Joined(Serials(us), policy, mem);
        NewInv(mem, FirstSize(policy));
        NothingRegistered(after[0].serial);
      case Ask(i, r) =>
        AskSound(Serials(us), i, policy, r);
        assert Serials(after) == Asked(Serials(us), i, policy, r);
        ServedOk(us[i], policy, r);
    }
  }

  lemma {:induction false} ActionsInUse(us: seq<Thread>, policy: Policy, acts: seq<Action>)
    requires InUse(us) && LegalActions(us, policy, acts)
    ensures InUse(AfterActions(us, policy, acts))
    decreases |acts|
  {
    if acts != [] {
      ActInUse(us, policy, acts[0]);
      ActionsInUse(Act(us, policy, acts[0]), policy, acts[1..]);
    }
  }

  lemma {:induction false} StartInUse(mem: seq<Memory>, hasPolicy: bool, policy: Policy, newMem: nat)
    requires LegalStart(mem, hasPolicy, newMem)
    ensures InUse(Start(mem, hasPolicy, policy, newMem))
  {
    var us, ss := Start(mem, hasPolicy, policy, newMem), InitialList(mem, hasPolicy, policy, newMem);
    StartInv(mem, hasPolicy, policy, newMem);
    assert Serials(us) == ss;
    if ss != [] { NothingRegistered(ss[0]); }
  }

  // ---------- what holds of every arena in use ----------

  /** Two pieces carved anywhere in the arena. */
  ghost predicate PiecesApart(us: seq<Thread>) {
    forall i, j | 0 <= i < j < |us| :: LogsApart(us[i].log, us[j].log)
  }

  ghost predicate LogsApart(x: seq<Piece>, y: seq<Piece>) {
    forall k, m | 0 <= k < |x| && 0 <= m < |y| :: Disjoint(x[k], y[m])
  }

  /** Headers, SerialArenas, users' regions and cleanup nodes of all threads are pairwise apart, in every arena
      that threads joined and used in any order. */
  lemma {:induction false} ThreadsNeverOverlap(
    mem: seq<Memory>, hasPolicy: bool, policy: Policy, newMem: nat, acts: seq<Action>)
    requires LegalStart(mem, hasPolicy, newMem)
    requires LegalActions(Start(mem, hasPolicy, policy, newMem), policy, acts)
    ensures var us := AfterActions(Start(mem, hasPolicy, policy, newMem), policy, acts);
      PiecesApart(us) && forall i | 0 <= i < |us| :: AllApart(us[i].log)
  {
    StartInUse(mem, hasPolicy, policy, newMem);
    ActionsInUse(Start(mem, hasPolicy, policy, newMem), policy, acts);
    var us := AfterActions(Start(mem, hasPolicy, policy, newMem), policy, acts);
    forall i, j | 0 <= i < j < |us| ensures LogsApart(us[i].log, us[j].log) {
      assert ThreadOk(us[i]) && ThreadOk(us[j]);
      assert Serials(us)[i] == us[i].serial && Serials(us)[j] == us[j].serial;
      assert ListsApart(us[i].serial.blocks, us[j].serial.blocks);
      TwoLogs(us[i], us[j]);
    }
  }

  lemma {:induction false} TwoLogs(u: Thread, v: Thread)
    requires Inv(u.serial, u.log) && Inv(v.serial, v.log) && ListsApart(u.serial.blocks, v.serial.blocks)
    ensures LogsApart(u.log, v.log)
  {
    forall k, m | 0 <= k < |u.log| && 0 <= m < |v.log| ensures Disjoint(u.log[k], v.log[m]) {
      var p, q := u.log[k], v.log[m];
      var x :| 0 <= x < |u.serial.blocks| && InBlock(u.serial, x, p);
      var y :| 0 <= y < |v.serial.blocks| && InBlock(v.serial, y, q);
      assert Apart(u.serial.blocks[x], v.serial.blocks[y]);
    }
  }

  /** Each thread's cleanups, last registered first. */
  function AllReversed(us: seq<Thread>): seq<Cleanup> {
    if us == [] then [] else Reverse(us[0].registered) + AllReversed(us[1..])
  }

  lemma {:induction false} ThreadCalls(a: Serial, cs: seq<Cleanup>)
    requires HasBlock(a) && RegisteredIn(a, cs)
    ensures |ArenaCleanup.CleanupList(a)| <= |Reverse(cs)|
    ensures if NoneLost(a) then ArenaCleanup.CleanupList(a) == Reverse(cs) else |ArenaCleanup.CleanupList(a)| < |Reverse(cs)|
  {
    var lists :| NodesHeld(a, lists) && Registered(lists) == cs;
    TailRuns(a, lists, 0);
    assert Synced(a)[0..] == Synced(a) && lists[0..] == lists;
    ReverseLength(cs);
  }

  ghost predicate NoneLostAnywhere(ss: seq<Serial>) {
    forall i | 0 <= i < |ss| :: NoneLost(ss[i])
  }

  lemma {:induction false} AllCalls(us: seq<Thread>)
    requires EachStarted(us) && EachHasBlock(Serials(us))
    requires forall i | 0 <= i < |us| :: RegisteredIn(us[i].serial, us[i].registered)
    ensures |AllCleanups(Serials(us))| <= |AllReversed(us)|
    ensures if NoneLostAnywhere(Serials(us)) then AllCleanups(Serials(us)) == AllReversed(us)
      else |AllCleanups(Serials(us))| < |AllReversed(us)|
    decreases |us|
  {
    if us != [] {
      var ss := Serials(us);
      assert ss[1..] == Serials(us[1..]);
      AllCalls(us[1..]);
      ThreadCalls(us[0].serial, us[0].registered);
      assert NoneLostAnywhere(ss) <==> NoneLost(ss[0]) && NoneLostAnywhere(ss[1..]) by {
        assert forall i | 0 <= i < |ss[1..]| :: ss[1..][i] == ss[i + 1];
        assert forall i | 0 < i < |ss| :: ss[i] == ss[1..][i - 1];
      }
    }
  }

  lemma {:induction false} ReversedIffNoneLost(us: seq<Thread>)
    requires InUse(us)
    ensures EachHasBlock(Serials(us))
    ensures AllCleanups(Serials(us)) == AllReversed(us) <==> NoneLostAnywhere(Serials(us))
  {
    AllCalls(us);
  }

  /** What destruction, and Reset first, do to an arena: all blocks of all threads go back exactly once, except
      the first if the user owns it, and are not used any more; no cleanup runs after the first block went;
      the sizes add up to SpaceAllocated; and the calls are each thread's registrations in reverse exactly when
      no block lost its only node. */
  ghost predicate GivenBack(us: seq<Thread>, hasPolicy: bool, userOwned: bool)
    requires EachStarted(us) && (hasPolicy || userOwned ==> us != [])
  {
    var ss := Serials(us);
    var t, kept := ReleaseTrace(ss, hasPolicy, userOwned), Kept(ss, userOwned);
    && Orderly(t)
    && Deallocs(t) + kept == AllMemory(ss)
    && TotalOf(Deallocs(t)) + TotalOf(kept) == SpaceAllocated(ss)
    && (Calls(t) == AllReversed(us) <==> NoneLostAnywhere(ss))
  }

  lemma {:induction false} InUseGivenBack(us: seq<Thread>, hasPolicy: bool, userOwned: bool)
    requires InUse(us) && (hasPolicy || userOwned ==> us != [])
    ensures GivenBack(us, hasPolicy, userOwned)
  {
    ReversedIffNoneLost(us);
    SoundIsReleased(Serials(us), hasPolicy, userOwned);
  }

  /** However threads joined an arena and whatever they asked of it, it is given back as it should be, and the
      user keeps the very block that was passed in. */
  lemma {:induction false} ArenaIsGivenBack(
    mem: seq<Memory>, hasPolicy: bool, policy: Policy, newMem: nat, acts: seq<Action>)
    requires LegalStart(mem, hasPolicy, newMem)
    requires LegalActions(Start(mem, hasPolicy, policy, newMem), policy, acts)
    ensures var us := AfterActions(Start(mem, hasPolicy, policy, newMem), policy, acts);
      && (hasPolicy || mem != [] ==> us != [])
      && GivenBack(us, hasPolicy, mem != [])
      && (mem != [] ==> FirstBlock(us) == mem[0])
  {
    Reached(mem, hasPolicy, policy, newMem, acts);
    InUseGivenBack(AfterActions(Start(mem, hasPolicy, policy, newMem), policy, acts), hasPolicy, mem != []);
  }

  lemma {:induction false} Reached(mem: seq<Memory>, hasPolicy: bool, policy: Policy, newMem: nat, acts: seq<Action>)
    requires LegalStart(mem, hasPolicy, newMem)
    requires LegalActions(Start(mem, hasPolicy, policy, newMem), policy, acts)
    ensures var us := AfterActions(Start(mem, hasPolicy, policy, newMem), policy, acts);
      InUse(us) && (hasPolicy || mem != [] ==> us != []) && (mem != [] ==> FirstBlock(us) == mem[0])
  {
    var start := Start(mem, hasPolicy, policy, newMem);
    StartInUse(mem, hasPolicy, policy, newMem);
    ActionsInUse(start, policy, acts);
    if start != [] { ActionsKeepFirst(start, policy, acts); }
  }

  function FirstBlock(us: seq<Thread>): Memory
    requires EachStarted(us) && us != []
  {
    Home(us[|us| - 1].serial)
  }

  /** The oldest thread stays the last of the list, with the block it started in. */
  lemma {:induction false} ActionsKeepFirst(us: seq<Thread>, policy: Policy, acts: seq<Action>)
    requires EachStarted(us) && us != []
    ensures var after := AfterActions(us, policy, acts);
      after != [] && FirstBlock(after) == FirstBlock(us)
    decreases |acts|
  {
    if acts != [] {
      ActKeepsFirst(us, policy, acts[0]);
      ActionsKeepFirst(Act(us, policy, acts[0]), policy, acts[1..]);
    }
  }

  lemma {:induction false} ActKeepsFirst(us: seq<Thread>, policy: Policy, act: Action)
    requires EachStarted(us) && us != []
    ensures var after := Act(us, policy, act);
      after != [] && FirstBlock(after) == FirstBlock(us)
  {
    if act.Ask? && act.thread < |us| {
      ServeKeepsHome(us[act.thread].serial, policy, act.request);
    }
  }

  lemma {:induction false} ServeKeepsHome(a: Serial, policy: Policy, r: Request)
    requires HasBlock(a)
    ensures Home(Serve(a, policy, r).0) == Home(a)
  {
    ServedBlocks(a, policy, r);
  }

  // ---------- concretely ----------

  /** In a block of 256 bytes at 0 the header takes 24 bytes, the SerialArena 56 and the policy 40; a cleanup node
      takes the last 16. */
  lemma {:induction false} FirstAddresses(policy: Policy, mem: nat)
    ensures Serve(New(0, 256), policy, Request.Plain(24, 8, mem)).1 == 80
    ensures var r := Serve(New(0, 256), policy, Destructible(24, 8, 7, mem));
      r.1 == 80 && r.0.ptr == 104 && r.0.limit == 240 && r.0.nodes == map[240 := Cleanup(80, 7)]
    ensures Serve(InitialList([Memory(0, 256)], true, policy, mem)[0], policy, Request.Plain(8, 8, mem)).1 == 120
    ensures InitialList([], true, Policy(64, 64), mem)[0].blocks == [Block(mem, 144, 0)]
    ensures Joined([], Policy(64, 64), mem)[0].blocks == [Block(mem, 80, 0)]
  {
    assert AlignUpTo8(24) == 24 && AlignUpTo8(8) == 8;
    var a := New(0, 256);
    assert a.ptr == 80 && a.limit == 256;
    assert HasSpace(a, Needed(Request.Plain(24, 8, mem))) && HasSpace(a, Needed(Destructible(24, 8, 7, mem)));
  }

  /** Everything that happens when an arena of one thread with two blocks, one cleanup and a policy is destroyed. */
  lemma {:induction false} SmallRelease()
    ensures var ss := [Serial([Block(1000, 64, 0), Block(0, 256, 256)], 1024, 1048, 0, 320, map[1048 := Cleanup(5, 6)])];
      && EachHasBlock(ss)
      && ReleaseTrace(ss, true, false) ==
        [Use(0), Use(1000), Use(1000), Call(Cleanup(5, 6)), Use(1000), Use(0), Use(0), Use(0)]
        + [Use(0)] + [Use(0), Use(1000), Use(1000), Use(1000), Dealloc(Memory(1000, 64)), Use(0), Use(0), Use(0)]
        + [Use(0), Use(0), Dealloc(Memory(0, 256))]
  {
    var b, c := Block(1000, 64, 1048), Block(0, 256, 256);
    var a := Serial([Block(1000, 64, 0), c], 1024, 1048, 0, 320, map[1048 := Cleanup(5, 6)]);
    assert [a][1..] == [] && [b, c][1..] == [c] && [c][1..] == [] && a.blocks[1..] == [c];
    assert Synced(a) == [b, c];
    assert RunNodes(a.nodes, 1048, 1064) == [Cleanup(5, 6)] + RunNodes(a.nodes, 1064, 1064);
    assert CleanBlock(a.nodes, b) == [Cleanup(5, 6)] && CleanBlock(a.nodes, c) == [];
    assert [Cleanup(5, 6)][1..] == [] && CallAll([Cleanup(5, 6)]) == [Call(Cleanup(5, 6))];
    assert CleanTrace(a.nodes, [c]) == [Use(0), Use(0)];
    assert CleanTrace(a.nodes, [b, c]) == [Use(1000), Call(Cleanup(5, 6)), Use(1000), Use(0), Use(0)];
    assert CleanupTrace([a]) == [Use(0), Use(1000), Use(1000), Call(Cleanup(5, 6)), Use(1000), Use(0), Use(0), Use(0)];
    assert FreeBlocks([c]) == [Use(0)];
    assert FreeBlocks(a.blocks) == [Use(1000), Use(1000), Dealloc(Memory(1000, 64)), Use(0), Use(0)];
    assert FreeTrace([], [Memory(0, 256)]) == [];
    assert FreeTrace([a], []) ==
      [Use(0), Use(1000), Use(1000), Use(1000), Dealloc(Memory(1000, 64)), Use(0), Use(0), Use(0)];
  }

  /** An arena that was never used gives back a null, unless the user owns its block or a policy lives in one. */
  lemma {:induction false} EmptyRelease()
    ensures ReleaseTrace([], false, false) == [DeallocNull]
  {
  }
}
