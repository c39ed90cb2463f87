/** The arena shared by threads: the list of per-thread arenas, how it starts and grows, how it is given back,
    and what Reset leaves. */
module ThreadSafeArena {
  import opened Sequences
  import opened Arena
  import opened ArenaCleanup
  import opened ArenaRelease
  import opened ArenaThreads
  import S = SerialArena

  /** The arena list Reset leaves: the user's block again, or a new block that holds the policy, or none. */
  function AfterReset(ss: seq<Serial>, hasPolicy: bool, userOwned: bool, policy: Policy, newMem: nat): seq<Serial>
    requires EachHasBlock(ss) && (userOwned ==> ss != [])
  {
    InitialList(Kept(ss, userOwned), hasPolicy, policy, newMem)
  }

  /** After Reset nothing is in use, whatever was before; the policy is not counted. */
  lemma {:induction false} ResetUsesNothing(ss: seq<Serial>, hasPolicy: bool, userOwned: bool, policy: Policy, newMem: nat)
    requires EachHasBlock(ss) && (userOwned ==> ss != [])
    ensures TotalUsed(AfterReset(ss, hasPolicy, userOwned, policy, newMem)) - (if hasPolicy then POLICY_SIZE else 0) == 0
  {
  }

  /** A sound list whose first block can take the policy again if the user owns it. */
  ghost predicate Standing(ss: seq<Serial>, hasPolicy: bool, userOwned: bool) {
    && Sound(ss) && (hasPolicy || userOwned ==> ss != [])
    && (userOwned ==> LegalStart([First(ss)], hasPolicy, 0))
  }

  lemma {:induction false} StandsAfterJoin(ss: seq<Serial>, hasPolicy: bool, userOwned: bool, policy: Policy, mem: nat)
    requires Standing(ss, hasPolicy, userOwned) && NewFits(ss, FirstSize(policy), mem)
    ensures Standing(Joined(ss, policy, mem), hasPolicy, userOwned)
  {
    JoinSound(ss, policy, mem);
  }

  lemma {:induction false} StandsAfterAsk(ss: seq<Serial>, hasPolicy: bool, userOwned: bool, i: nat, policy: Policy, r: Request)
    requires Standing(ss, hasPolicy, userOwned) && LegalAsk(ss, i, policy, r)
    ensures Standing(Asked(ss, i, policy, r), hasPolicy, userOwned)
  {
    AskSound(ss, i, policy, r);
    ServeKeepsHome(ss[i], policy, r);
  }

  lemma {:induction false} StandsAtStart(mem: seq<Memory>, hasPolicy: bool, policy: Policy, newMem: nat)
    requires LegalStart(mem, hasPolicy, newMem)
    ensures var ss := InitialList(mem, hasPolicy, policy, newMem);
      Standing(ss, hasPolicy, mem != []) && (mem != [] ==> First(ss) == mem[0])
  {
    StartInv(mem, hasPolicy, policy, newMem);
  }

  /** The SerialArena ends, and the policy with it if there is one, before the first free byte, and the block
      was made large enough for both. */
  ghost predicate RoomFor(s: Serial, hasPolicy: bool) {
    && HasBlock(s) && |s.blocks| == 1
    && s.ptr == s.blocks[0].base + MinimumInitial(hasPolicy)
    && s.ptr <= s.limit <= s.blocks[0].base + s.blocks[0].size
  }

  lemma {:induction false} InitialRoom(mem: seq<Memory>, hasPolicy: bool, policy: Policy, newMem: nat)
    requires LegalStart(mem, hasPolicy, newMem)
    ensures var ss := InitialList(mem, hasPolicy, policy, newMem);
      && (mem != [] ==> ss != [] && Home(ss[0]) == mem[0])
      && (mem == [] && hasPolicy ==> ss != [] && Home(ss[0]).ptr == newMem && Home(ss[0]).size >= MINIMUM_SIZE)
      && (mem == [] && !hasPolicy ==> ss == [])
      && (ss != [] ==> |ss| == 1 && RoomFor(ss[0], hasPolicy))
  {
    StartInv(mem, hasPolicy, policy, newMem);
  }

  // ---------- CleanupList leaves what Free does ----------

  function SyncedOne(a: Serial): Serial
    requires HasBlock(a)
  {
    a.(blocks := Synced(a))
  }

  function SyncedAll(ss: seq<Serial>): seq<Serial>
    requires EachHasBlock(ss)
  {
    if ss == [] then [] else [SyncedOne(ss[0])] + SyncedAll(ss[1..])
  }

  lemma {:induction false} FreeBlocksOf(bs: seq<Block>, cs: seq<Block>)
    requires bs != [] && |bs| == |cs| && forall k | 0 <= k < |bs| :: MemoryOf(bs[k]) == MemoryOf(cs[k])
    ensures FreeBlocks(bs) == FreeBlocks(cs)
    decreases |bs|
  {
    if |bs| > 1 { FreeBlocksOf(bs[1..], cs[1..]); }
  }

  lemma {:induction false} SyncedTurn(a: Serial, mem: seq<Memory>)
    requires HasBlock(a)
    ensures FreeTurn(SyncedOne(a), mem) == FreeTurn(a, mem) && Home(SyncedOne(a)) == Home(a)
  {
    FreeBlocksOf(a.blocks, Synced(a));
  }

  lemma {:induction false} SyncedIsFreedAlike(ss: seq<Serial>, mem: seq<Memory>)
    requires EachHasBlock(ss)
    ensures EachHasBlock(SyncedAll(ss)) && |SyncedAll(ss)| == |ss|
    ensures FreeTrace(SyncedAll(ss), mem) == FreeTrace(ss, mem)
    decreases |ss|
  {
    if ss != [] {
      SyncedTurn(ss[0], mem);
      SyncedIsFreedAlike(ss[1..], [Home(ss[0])]);
    }
  }

  function SyncedUpTo(ss: seq<Serial>, n: nat): seq<Serial>
    requires EachHasBlock(ss) && n <= |ss|
  {
    seq(|ss|, i requires 0 <= i < |ss| => if i < n then SyncedOne(ss[i]) else ss[i])
  }

  lemma {:induction false} SyncedToTheEnd(ss: seq<Serial>)
    requires EachHasBlock(ss)
    ensures SyncedUpTo(ss, |ss|) == SyncedAll(ss)
  {
    SyncedIsFreedAlike(ss, []);
    forall k | 0 <= k < |ss| ensures SyncedUpTo(ss, |ss|)[k] == SyncedAll(ss)[k] { SyncedAllAt(ss, k); }
  }

  lemma {:induction false} SyncedAllAt(ss: seq<Serial>, i: nat)
    requires EachHasBlock(ss) && i < |ss|
    ensures |SyncedAll(ss)| == |ss| && SyncedAll(ss)[i] == SyncedOne(ss[i])
    decreases i
  {
    SyncedIsFreedAlike(ss, []);
    if i > 0 { SyncedAllAt(ss[1..], i - 1); }
  }

  lemma {:induction false} SyncedFirst(ss: seq<Serial>)
    requires EachHasBlock(ss) && ss != []
    ensures EachHasBlock(SyncedAll(ss)) && |SyncedAll(ss)| == |ss|
    ensures First(SyncedAll(ss)) == First(ss)
  {
    SyncedIsFreedAlike(ss, []);
    SyncedAllAt(ss, |ss| - 1);
    SyncedTurn(ss[|ss| - 1], []);
  }

  lemma {:induction false} SyncedIsReleasedAlike(ss: seq<Serial>, hasPolicy: bool, userOwned: bool)
    requires EachHasBlock(ss) && (hasPolicy || userOwned ==> ss != [])
    ensures EachHasBlock(SyncedAll(ss)) && |SyncedAll(ss)| == |ss|
    ensures CleanupTrace(ss) + AfterCleanup(SyncedAll(ss), hasPolicy, userOwned) == ReleaseTrace(ss, hasPolicy, userOwned)
    ensures Kept(SyncedAll(ss), userOwned) == Kept(ss, userOwned)
  {
    SyncedIsFreedAlike(ss, []);
    if ss != [] { SyncedFirst(ss); }
  }

  // ---------- the class ----------

  class ThreadSafeArena {
    var threads: seq<S.SerialArena>
    var hasPolicy: bool
    var policy: Policy
    var userOwnedInitialBlock: bool

    ghost function States(): (ss: seq<Serial>)
      reads this, threads
      ensures |ss| == |threads| && forall i | 0 <= i < |threads| :: ss[i] == threads[i].State()
    {
      seq(|threads|, i requires 0 <= i < |threads| reads this, threads => threads[i].State())
    }

    ghost predicate AllDifferent()
      reads this
    {
      forall i, j | 0 <= i < j < |threads| :: threads[i] != threads[j]
    }

    ghost predicate Valid()
      reads this, threads
    {
      AllDifferent() && Standing(States(), hasPolicy, userOwnedInitialBlock)
    }

    constructor ()
      ensures Valid() && threads == [] && !hasPolicy && !userOwnedInitialBlock
    {
      threads, hasPolicy, policy, userOwnedInitialBlock := [], false, DEFAULT_POLICY, false;
    }

    /** With a block of the user's (`mem` is 0 if there is none), which is ignored when too small. */
    constructor InitializeFrom(mem: nat, size: nat, me: nat)
      requires mem % 8 == 0
      ensures Valid() && !hasPolicy && policy == DEFAULT_POLICY && fresh(threads)
      ensures userOwnedInitialBlock <==> mem != 0 && size >= BLOCK_HEADER_SIZE + SERIAL_ARENA_SIZE
      ensures States() == if userOwnedInitialBlock then [New(mem, size)] else []
    {
      var owned := mem != 0 && size >= BLOCK_HEADER_SIZE + SERIAL_ARENA_SIZE;
      hasPolicy, policy, userOwnedInitialBlock, threads := false, DEFAULT_POLICY, owned, [];
      new;
      if owned {
        SetInitialBlock(mem, size, me);
      }
      var given := if owned then [Memory(mem, size)] else [];
      StandsAtStart(given, false, policy, 0);
      assert States() == InitialList(given, false, policy, 0);
    }

    /** With an allocation policy too, which is stored in the first block: the user's if it has room for it,
        else a new one at `newMem`. */
    constructor InitializeWithPolicy(mem: nat, size: nat, policy: Policy, newMem: nat, me: nat)
      requires mem % 8 == 0 && newMem % 8 == 0
      ensures Valid() && hasPolicy && this.policy == policy && fresh(threads)
      ensures userOwnedInitialBlock <==> mem != 0 && size >= MINIMUM_SIZE
      ensures States() == InitialList(if userOwnedInitialBlock then [Memory(mem, size)] else [], true, policy, newMem)
      ensures threads != [] && RoomFor(States()[0], true)
    {
      hasPolicy, this.policy, userOwnedInitialBlock, threads := true, policy, mem != 0 && size >= MINIMUM_SIZE, [];
      new;
      Initialize(if userOwnedInitialBlock then [Memory(mem, size)] else [], newMem, me);
    }

    method SetInitialBlock(mem: nat, size: nat, me: nat)
      modifies this`threads
      ensures |threads| == 1 && fresh(threads[0]) && threads[0].State() == New(mem, size) && threads[0].owner == me
    {
      var serial := new S.SerialArena.New(mem, size, me);
      threads := [serial];
    }

    /** InitializeFrom, InitializeWithPolicy or Init, when everything was given back but `mem`: the arena is valid
        again and has one SerialArena of the calling thread, in the block given, or else in a new one if a policy
        needs a place, or else none; the policy, if there is one, has room behind the SerialArena. */
    method Initialize(mem: seq<Memory>, newMem: nat, me: nat)
      requires LegalStart(mem, hasPolicy, newMem) && (userOwnedInitialBlock <==> mem != [])
      modifies this`threads
      ensures Valid() && fresh(threads) && |threads| <= 1
      ensures mem != [] ==> threads != [] && Home(States()[0]) == mem[0]
      ensures mem == [] && hasPolicy ==>
        threads != [] && Home(States()[0]).ptr == newMem && Home(States()[0]).size >= MINIMUM_SIZE
      ensures mem == [] && !hasPolicy ==> threads == []
      ensures threads != [] ==> RoomFor(States()[0], hasPolicy) && threads[0].owner == me
      ensures States() == InitialList(mem, hasPolicy, policy, newMem)
    {
      StandsAtStart(mem, hasPolicy, policy, newMem);
      InitialRoom(mem, hasPolicy, policy, newMem);
      threads := [];
      if mem != [] {
        SetInitialBlock(mem[0].ptr, mem[0].size, me);
      } else if hasPolicy {
        SetInitialBlock(newMem, BlockSize(policy, 0, MINIMUM_SIZE), me);
      }
      if hasPolicy {
        // The policy itself lives at the start of the first block.
        var ok, p := threads[0].MaybeAllocateAligned(POLICY_SIZE);
        assert ok;
      }
      assert States() == InitialList(mem, hasPolicy, policy, newMem);
    }

    /** The thread's own SerialArena, which is made and put at the head of the list when it has none yet. */
    method GetSerialArenaFallback(me: nat, newMem: nat) returns (serial: S.SerialArena)
      requires Valid()
      requires (forall i | 0 <= i < |threads| :: threads[i].owner != me) ==> NewFits(States(), FirstSize(policy), newMem)
      modifies this`threads
      ensures Valid() && serial in threads && serial.owner == me
      ensures (exists i | 0 <= i < |old(threads)| :: old(threads)[i].owner == me) ==> threads == old(threads)
      ensures (forall i | 0 <= i < |old(threads)| :: old(threads)[i].owner != me) ==>
        threads == [serial] + old(threads) && fresh(serial) && States() == Joined(old(States()), policy, newMem)
    {
      var i := IndexOf(me);
      if i < |threads| {
        serial := threads[i];
      } else {
        serial := Push(me, newMem);
      }
    }

    /** The position of the thread's SerialArena in the list, or the list's length. */
    method IndexOf(me: nat) returns (i: nat)
      ensures i <= |threads| && (i < |threads| ==> threads[i].owner == me)
      ensures i == |threads| ==> forall k | 0 <= k < |threads| :: threads[k].owner != me
    {
      i := 0;
      while i < |threads| && threads[i].owner != me
        invariant i <= |threads| && forall k | 0 <= k < i :: threads[k].owner != me
      {
        i := i + 1;
      }
    }

    method Push(me: nat, newMem: nat) returns (serial: S.SerialArena)
      requires Valid() && NewFits(States(), FirstSize(policy), newMem)
      modifies this`threads
      ensures Valid() && serial.owner == me
      ensures threads == [serial] + old(threads) && fresh(serial) && States() == Joined(old(States()), policy, newMem)
    {
      ghost var ss := States();
      StandsAfterJoin(ss, hasPolicy, userOwnedInitialBlock, policy, newMem);
      serial := new S.SerialArena.New(newMem, FirstSize(policy), me);
      threads := [serial] + threads;
      assert States() == Joined(ss, policy, newMem);
    }

    /** A request served from one thread's SerialArena: nothing changes for the other threads. */
    method Ask(i: nat, r: Request) returns (ret: int)
      requires Valid() && LegalAsk(States(), i, policy, r)
      modifies threads
      ensures Valid() && threads == old(threads)
      ensures States() == Asked(old(States()), i, policy, r)
      ensures !r.OnlyCleanup? ==> ret == Serve(old(States())[i], policy, r).1
    {
      ghost var ss := States();
      StandsAfterAsk(ss, hasPolicy, userOwnedInitialBlock, i, policy, r);
      ret := AskSerial(threads[i], r);
      assert States() == Asked(ss, i, policy, r);
    }

    method AskSerial(serial: S.SerialArena, r: Request) returns (ret: int)
      requires HasBlock(serial.State()) && WellFormed(r)
      modifies serial
      ensures serial.State() == Serve(old(serial.State()), policy, r).0
      ensures !r.OnlyCleanup? ==> ret == Serve(old(serial.State()), policy, r).1
    {
      match r
      case Plain(size, align, mem) => ret := serial.AllocateAlignedWithHook(size, align, policy, mem);
      case Destructible(size, align, destructor, mem) =>
        ret := serial.AllocateInternal(size, align, destructor, policy, mem);
      case OnlyCleanup(elem, fn, mem) =>
        ret := 0;
        serial.AddCleanup(elem, fn, policy, mem);
    }

    /** The first pass of destruction: every SerialArena's cleanups.  `ss` is what the list is before. */
    method CleanupList(ghost ss: seq<Serial>, heap: S.Heap)
      requires AllDifferent() && States() == ss && EachHasBlock(ss) && heap.Valid()
      modifies heap, threads
      ensures threads == old(threads) && States() == SyncedAll(ss)
      ensures heap.Valid() && heap.trace == old(heap.trace) + CleanupTrace(ss)
    {
      ghost var whole := heap.trace + CleanupTrace(ss);
      assert ss[0..] == ss && SyncedUpTo(ss, 0) == ss;
      for i := 0 to |threads|
        invariant heap.Valid() && States() == SyncedUpTo(ss, i)
        invariant whole == heap.trace + CleanupTrace(ss[i..])
      {
        ghost var before := heap.trace;
        CleanThread(ss, i, heap);
        CleanupStep(ss, i, before);
      }
      SyncedToTheEnd(ss);
    }

    method CleanThread(ghost ss: seq<Serial>, i: nat, heap: S.Heap)
      requires AllDifferent() && i < |threads| && EachHasBlock(ss) && heap.Valid()
      requires |ss| == |threads| && States() == SyncedUpTo(ss, i)
      modifies heap, threads
      ensures States() == SyncedUpTo(ss, i + 1)
      ensures heap.Valid() && heap.trace == old(heap.trace) + CleanTurn(ss[i])
    {
      CleanSerialArena(threads[i], heap);
      assert States()[i] == SyncedUpTo(ss, i + 1)[i];
    }

    method CleanSerialArena(serial: S.SerialArena, heap: S.Heap)
      requires HasBlock(serial.State()) && heap.Valid()
      modifies heap, serial
      ensures heap.Valid() && heap.trace == old(heap.trace) + CleanTurn(old(serial.State()))
      ensures serial.State() == SyncedOne(old(serial.State()))
    {
      var ran := serial.CleanupList(heap);
      Associative(old(heap.trace), CleanSerial(old(serial.State())), [Use(Home(serial.State()).ptr)]);
      heap.Note(Use(Home(serial.State()).ptr));
    }

    /** Frees all blocks but the oldest of the last SerialArena, which it returns. */
    method Free(ghost ss: seq<Serial>, heap: S.Heap) returns (mem: seq<Memory>)
      requires States() == ss && EachHasBlock(ss) && heap.Valid()
      modifies heap
      ensures heap.Valid() && heap.trace == old(heap.trace) + FreeTrace(ss, [])
      ensures mem == LastHome(ss, [])
    {
      ghost var start := heap.trace;
      mem := [];
      assert ss[0..] == ss;
      for i := 0 to |threads|
        invariant heap.Valid() && |mem| <= 1 && LastHome(ss[i..], mem) == LastHome(ss, [])
        invariant start + FreeTrace(ss, []) == heap.trace + FreeTrace(ss[i..], mem)
      {
        ghost var before, kept := heap.trace, mem;
        mem := FreeOne(threads[i], mem, heap);
        FreeStep(ss, i, before, kept);
      }
    }

    /** The block kept so far goes back; then this SerialArena's blocks but one; then the list is followed. */
    method FreeOne(serial: S.SerialArena, mem: seq<Memory>, heap: S.Heap) returns (mem': seq<Memory>)
      requires HasBlock(serial.State()) && |mem| <= 1 && heap.Valid()
      modifies heap
      ensures heap.Valid() && heap.trace == old(heap.trace) + FreeTurn(serial.State(), mem)
      ensures mem' == [Home(serial.State())]
    {
      if mem != [] {
        heap.Deallocate(mem[0]);
      }
      assert DeallocAll(mem) == if mem == [] then [] else [Dealloc(mem[0])];
      FourParts(old(heap.trace), DeallocAll(mem), FreeSerial(serial.State()), [Use(Home(serial.State()).ptr)]);
      var home := serial.Free(heap);
      heap.Note(Use(Home(serial.State()).ptr));
      mem' := [home];
    }

    /** The policy is read where it lives. */
    method ReadPolicy(ghost ss: seq<Serial>, heap: S.Heap)
      requires States() == ss && EachHasBlock(ss) && (hasPolicy ==> ss != []) && heap.Valid()
      modifies heap
      ensures heap.Valid() && heap.trace == old(heap.trace) + ArenaRelease.ReadPolicy(ss, hasPolicy)
    {
      if hasPolicy {
        heap.Note(Use(Home(threads[|threads| - 1].State()).ptr));
      }
    }

    /** What destruction does, and Reset first: the cleanups run, then everything goes back except a block the
        user owns, which is returned; the space counted is what was allocated. */
    method Release() returns (mem: seq<Memory>, spaceAllocated: nat, heap: S.Heap)
      requires Valid()
      modifies threads
      ensures fresh(heap) && heap.trace == ReleaseTrace(old(States()), hasPolicy, userOwnedInitialBlock)
      ensures mem == Kept(old(States()), userOwnedInitialBlock)
      ensures spaceAllocated == SpaceAllocated(old(States()))
    {
      ghost var ss := States();
      heap := new S.Heap();
      mem := ReleaseInto(ss, heap);
      ReleasedAsPlanned(ss, hasPolicy, userOwnedInitialBlock);
      spaceAllocated := heap.returned + if mem == [] then 0 else mem[0].size;
    }

    method ReleaseInto(ghost ss: seq<Serial>, heap: S.Heap) returns (mem: seq<Memory>)
      requires AllDifferent() && States() == ss && EachHasBlock(ss) && heap.Valid()
      requires hasPolicy || userOwnedInitialBlock ==> ss != []
      modifies heap, threads
      ensures EachHasBlock(SyncedAll(ss)) && |SyncedAll(ss)| == |ss|
      ensures heap.Valid()
      ensures heap.trace == old(heap.trace) + CleanupTrace(ss) + AfterCleanup(SyncedAll(ss), hasPolicy, userOwnedInitialBlock)
      ensures mem == Kept(SyncedAll(ss), userOwnedInitialBlock)
    {
      SyncedIsFreedAlike(ss, []);
      CleanupList(ss, heap);
      mem := FreeAll(SyncedAll(ss), heap);
    }

    /** The blocks go back, when the cleanups have run. */
    method FreeAll(ghost ss: seq<Serial>, heap: S.Heap) returns (mem: seq<Memory>)
      requires States() == ss && EachHasBlock(ss) && heap.Valid()
      requires hasPolicy || userOwnedInitialBlock ==> ss != []
      modifies heap
      ensures heap.Valid() && heap.trace == old(heap.trace) + AfterCleanup(ss, hasPolicy, userOwnedInitialBlock)
      ensures mem == Kept(ss, userOwnedInitialBlock)
    {
      ghost var start := heap.trace;
      ReadPolicy(ss, heap);
      mem := Free(ss, heap);
      mem := Last(ss, mem, heap);
      PartsOfAfterCleanup(start, ss, hasPolicy, userOwnedInitialBlock);
    }

    /** The block Free returned goes back unless the user owns it. */
    method Last(ghost ss: seq<Serial>, mem: seq<Memory>, heap: S.Heap) returns (kept: seq<Memory>)
      requires States() == ss && EachHasBlock(ss) && mem == LastHome(ss, []) && heap.Valid()
      requires hasPolicy || userOwnedInitialBlock ==> ss != []
      modifies heap
      ensures heap.Valid() && heap.trace == old(heap.trace) + LastTrace(ss, hasPolicy, userOwnedInitialBlock)
      ensures kept == Kept(ss, userOwnedInitialBlock)
    {
      ghost var start, read := heap.trace, ArenaRelease.ReadPolicy(ss, hasPolicy);
      ReadPolicy(ss, heap);
      if userOwnedInitialBlock {
        assert read + [] == read;
        kept := mem;
      } else {
        ReadPolicy(ss, heap);
        FourParts(start, read, read, LastCall(ss));
        if mem == [] {
          heap.Note(DeallocNull);
        } else {
          heap.Deallocate(mem[0]);
        }
        kept := [];
      }
    }

    /** Gives everything back and starts over with the same policy and the same user's block; returns the space
        that was allocated. */
    method Reset(newMem: nat, me: nat) returns (spaceAllocated: nat, heap: S.Heap)
      requires Valid() && newMem % 8 == 0
      modifies this`threads, threads
      ensures Valid() && fresh(threads)
      ensures spaceAllocated == SpaceAllocated(old(States()))
      ensures fresh(heap) && heap.trace == ReleaseTrace(old(States()), hasPolicy, userOwnedInitialBlock)
      ensures States() == AfterReset(old(States()), hasPolicy, userOwnedInitialBlock, policy, newMem)
    {
      var mem: seq<Memory>;
      mem, spaceAllocated, heap := Release();
      Initialize(mem, newMem, me);
    }

    method SpaceAllocatedNow() returns (res: nat)
      ensures res == SpaceAllocated(States())
    {
      res := 0;
      ghost var ss := States();
      assert ss[0..] == ss;
      for i := 0 to |threads|
        invariant SpaceAllocated(ss) == res + SpaceAllocated(ss[i..])
      {
        assert ss[i..][1..] == ss[i + 1..];
        res := res + threads[i].spaceAllocated;
      }
    }
  }

  lemma {:induction false} FourParts(a: seq<Event>, b: seq<Event>, c: seq<Event>, d: seq<Event>)
    ensures a + b + c + d == a + (b + (c + d))
    ensures a + b + c + d == a + (b + c + d)
  {
    Associative(a + b, c, d);
    Associative(a, b, c + d);
    Associative(b, c, d);
  }

  lemma {:induction false} NothingBefore(t: seq<Event>)
    ensures [] + t == t
  {
  }

  lemma {:induction false} PartsOfAfterCleanup(start: seq<Event>, ss: seq<Serial>, hasPolicy: bool, userOwned: bool)
    requires EachHasBlock(ss) && (hasPolicy || userOwned ==> ss != [])
    ensures start + ReadPolicy(ss, hasPolicy) + FreeTrace(ss, []) + LastTrace(ss, hasPolicy, userOwned) ==
      start + AfterCleanup(ss, hasPolicy, userOwned)
  {
    FourParts(start, ReadPolicy(ss, hasPolicy), FreeTrace(ss, []), LastTrace(ss, hasPolicy, userOwned));
  }

  lemma {:induction false} CleanupStep(ss: seq<Serial>, i: nat, before: seq<Event>)
    requires EachHasBlock(ss) && i < |ss|
    ensures before + CleanupTrace(ss[i..]) == before + CleanTurn(ss[i]) + CleanupTrace(ss[i + 1..])
  {
    assert ss[i..][1..] == ss[i + 1..];
    Associative(before, CleanTurn(ss[i]), CleanupTrace(ss[i + 1..]));
  }

  lemma {:induction false} FreeStep(ss: seq<Serial>, i: nat, before: seq<Event>, mem: seq<Memory>)
    requires EachHasBlock(ss) && i < |ss|
    ensures before + FreeTrace(ss[i..], mem) == before + FreeTurn(ss[i], mem) + FreeTrace(ss[i + 1..], [Home(ss[i])])
    ensures LastHome(ss[i..], mem) == LastHome(ss[i + 1..], [Home(ss[i])])
  {
    assert ss[i..][1..] == ss[i + 1..];
    Associative(before, FreeTurn(ss[i], mem), FreeTrace(ss[i + 1..], [Home(ss[i])]));
  }

  lemma {:induction false} ReleasedAsPlanned(ss: seq<Serial>, hasPolicy: bool, userOwned: bool)
    requires Sound(ss) && (hasPolicy || userOwned ==> ss != [])
    ensures EachHasBlock(ss) && EachHasBlock(SyncedAll(ss)) && |SyncedAll(ss)| == |ss|
    ensures [] + CleanupTrace(ss) + AfterCleanup(SyncedAll(ss), hasPolicy, userOwned) == ReleaseTrace(ss, hasPolicy, userOwned)
    ensures Kept(SyncedAll(ss), userOwned) == Kept(ss, userOwned)
    ensures TotalOf(Deallocs(ReleaseTrace(ss, hasPolicy, userOwned))) +
      (if Kept(ss, userOwned) == [] then 0 else Kept(ss, userOwned)[0].size) == SpaceAllocated(ss)
  {
    SyncedIsReleasedAlike(ss, hasPolicy, userOwned);
    NothingBefore(CleanupTrace(ss));
    ReleaseTotal(ss, hasPolicy, userOwned);
  }

  lemma {:induction false} ReleaseTotal(ss: seq<Serial>, hasPolicy: bool, userOwned: bool)
    requires Sound(ss) && (hasPolicy || userOwned ==> ss != [])
    ensures EachHasBlock(ss)
    ensures TotalOf(Deallocs(ReleaseTrace(ss, hasPolicy, userOwned))) + (if userOwned then First(ss).size else 0) ==
      SpaceAllocated(ss)
  {
    SoundIsReleased(ss, hasPolicy, userOwned);
    if userOwned {
      assert [First(ss)][1..] == [] && TotalOf([First(ss)]) == First(ss).size + TotalOf([]);
    }
  }
}
