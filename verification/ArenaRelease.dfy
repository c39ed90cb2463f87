/** Giving an arena back: what destruction and Reset do to the blocks of all threads, use by use and call by
    call. */
module ArenaRelease {
  import opened Sequences
  import opened Arena
  import opened ArenaCleanup

  datatype Memory = Memory(ptr: nat, size: nat)

  /** A block's header is read or written, or what lies in it: a SerialArena or the policy; a cleanup node is
      read and its function called; memory goes back to the block allocator; so does a null. */
  datatype Event = Use(base: nat) | Call(cleanup: Cleanup) | Dealloc(mem: Memory) | DeallocNull

  function MemoryOf(b: Block): Memory {
    Memory(b.base, b.size)
  }

  function Memories(bs: seq<Block>): seq<Memory> {
    if bs == [] then [] else [MemoryOf(bs[0])] + Memories(bs[1..])
  }

  ghost predicate EachHasBlock(ss: seq<Serial>) {
    forall i | 0 <= i < |ss| :: HasBlock(ss[i])
  }

  /** Every block, in the order of the lists: newest thread first, newest block first. */
  function AllMemory(ss: seq<Serial>): seq<Memory> {
    if ss == [] then [] else Memories(ss[0].blocks) + AllMemory(ss[1..])
  }

  /** The block a SerialArena lives in. */
  function Home(s: Serial): Memory
    requires HasBlock(s)
  {
    MemoryOf(s.blocks[|s.blocks| - 1])
  }

  /** The block the user may own, and the policy may live in. */
  function First(ss: seq<Serial>): Memory
    requires EachHasBlock(ss) && ss != []
  {
    Home(ss[|ss| - 1])
  }

  // ---------- what happens ----------

  function DeallocAll(ms: seq<Memory>): seq<Event> {
    if ms == [] then [] else [Dealloc(ms[0])] + DeallocAll(ms[1..])
  }

  function CallAll(cs: seq<Cleanup>): seq<Event> {
    if cs == [] then [] else [Call(cs[0])] + CallAll(cs[1..])
  }

  /** SerialArena::Free from a block on whose size is known: `next` is tested and followed before the block goes,
      then the size of the block behind it is read. */
  function FreeBlocks(bs: seq<Block>): seq<Event>
    requires bs != []
  {
    var at := Use(bs[0].base);
    if |bs| == 1 then [at] else [at, at, Dealloc(MemoryOf(bs[0])), Use(bs[1].base)] + FreeBlocks(bs[1..])
  }

  function FreeSerial(a: Serial): seq<Event>
    requires HasBlock(a)
  {
    [Use(Home(a).ptr), Use(a.blocks[0].base)] + FreeBlocks(a.blocks)
  }

  /** One thread's turn: the block kept from the thread before goes back, then this thread's blocks but the
      oldest, then the list is followed. */
  function FreeTurn(a: Serial, mem: seq<Memory>): seq<Event>
    requires HasBlock(a)
  {
    DeallocAll(mem) + FreeSerial(a) + [Use(Home(a).ptr)]
  }

  /** ThreadSafeArena::Free, `mem` being the block kept so far. */
  function FreeTrace(ss: seq<Serial>, mem: seq<Memory>): seq<Event>
    requires EachHasBlock(ss)
  {
    if ss == [] then [] else FreeTurn(ss[0], mem) + FreeTrace(ss[1..], [Home(ss[0])])
  }

  function CleanOne(b: Block, ran: seq<Cleanup>): seq<Event> {
    [Use(b.base)] + CallAll(ran) + [Use(b.base)]
  }

  function CleanTrace(nodes: map<int, Cleanup>, bs: seq<Block>): seq<Event> {
    if bs == [] then [] else CleanOne(bs[0], CleanBlock(nodes, bs[0])) + CleanTrace(nodes, bs[1..])
  }

  /** SerialArena::CleanupList. */
  function CleanSerial(a: Serial): seq<Event>
    requires HasBlock(a)
  {
    [Use(Home(a).ptr), Use(a.blocks[0].base)] + CleanTrace(a.nodes, Synced(a))
  }

  function CleanTurn(a: Serial): seq<Event>
    requires HasBlock(a)
  {
    CleanSerial(a) + [Use(Home(a).ptr)]
  }

  /** ThreadSafeArena::CleanupList. */
  function CleanupTrace(ss: seq<Serial>): seq<Event>
    requires EachHasBlock(ss)
  {
    if ss == [] then [] else CleanTurn(ss[0]) + CleanupTrace(ss[1..])
  }

  /** Reading the policy, which lives in the first block. */
  function ReadPolicy(ss: seq<Serial>, hasPolicy: bool): seq<Event>
    requires EachHasBlock(ss) && (hasPolicy ==> ss != [])
  {
    if hasPolicy then [Use(First(ss).ptr)] else []
  }

  /** What happens to the block Free returned; the policy is copied or its collector read before. */
  function LastTrace(ss: seq<Serial>, hasPolicy: bool, userOwned: bool): seq<Event>
    requires EachHasBlock(ss) && (hasPolicy || userOwned ==> ss != [])
  {
    ReadPolicy(ss, hasPolicy) + if userOwned then [] else ReadPolicy(ss, hasPolicy) + LastCall(ss)
  }

  function LastCall(ss: seq<Serial>): seq<Event>
    requires EachHasBlock(ss)
  {
    if ss == [] then [DeallocNull] else [Dealloc(First(ss))]
  }

  /** What the destructor does, and Reset first. */
  function ReleaseTrace(ss: seq<Serial>, hasPolicy: bool, userOwned: bool): seq<Event>
    requires EachHasBlock(ss) && (hasPolicy || userOwned ==> ss != [])
  {
    CleanupTrace(ss) + AfterCleanup(ss, hasPolicy, userOwned)
  }

  function AfterCleanup(ss: seq<Serial>, hasPolicy: bool, userOwned: bool): seq<Event>
    requires EachHasBlock(ss) && (hasPolicy || userOwned ==> ss != [])
  {
    ReadPolicy(ss, hasPolicy) + (FreeTrace(ss, []) + LastTrace(ss, hasPolicy, userOwned))
  }

  // ---------- what may happen ----------

  /** `gone` was given back before: none of it is used or given back again, and no cleanup runs any more. */
  ghost predicate Obeys(t: seq<Event>, gone: set<nat>) {
    t == [] ||
    match t[0]
    case Use(base) => base !in gone && Obeys(t[1..], gone)
    case Call(_) => gone == {} && Obeys(t[1..], gone)
    case Dealloc(mem) => mem.ptr !in gone && Obeys(t[1..], gone + {mem.ptr})
    case DeallocNull => Obeys(t[1..], gone)
  }

  ghost predicate Orderly(t: seq<Event>) {
    forall p, q | 0 <= p < q < |t| && t[p].Dealloc? :: LeavesAlone(t[q], t[p].mem.ptr)
  }

  /** The event may follow the return of the block at `base`. */
  predicate LeavesAlone(e: Event, base: nat) {
    match e
    case Use(at) => at != base
    case Call(_) => false
    case Dealloc(mem) => mem.ptr != base
    case DeallocNull => true
  }

  lemma {:induction false} ObeysLater(t: seq<Event>, gone: set<nat>, q: nat, base: nat)
    requires Obeys(t, gone) && q < |t| && base in gone
    ensures LeavesAlone(t[q], base)
    decreases |t|
  {
    if q > 0 {
      var gone' := if t[0].Dealloc? then gone + {t[0].mem.ptr} else gone;
      ObeysLater(t[1..], gone', q - 1, base);
    }
  }

  lemma {:induction false} ObeysIsOrderly(t: seq<Event>, gone: set<nat>)
    requires Obeys(t, gone)
    ensures Orderly(t)
    decreases |t|
  {
    if t != [] {
      var gone' := if t[0].Dealloc? then gone + {t[0].mem.ptr} else gone;
      ObeysIsOrderly(t[1..], gone');
      forall p, q | 0 <= p < q < |t| && t[p].Dealloc? ensures LeavesAlone(t[q], t[p].mem.ptr) {
        if p == 0 {
          ObeysLater(t[1..], gone', q - 1, t[0].mem.ptr);
        } else {
          assert t[1..][p - 1] == t[p] && t[1..][q - 1] == t[q];
        }
      }
    }
  }

  function Deallocs(t: seq<Event>): seq<Memory> {
    if t == [] then [] else (if t[0].Dealloc? then [t[0].mem] else []) + Deallocs(t[1..])
  }

  function Calls(t: seq<Event>): seq<Cleanup> {
    if t == [] then [] else (if t[0].Call? then [t[0].cleanup] else []) + Calls(t[1..])
  }

  ghost function Pointers(ms: seq<Memory>): set<nat> {
    if ms == [] then {} else {ms[0].ptr} + Pointers(ms[1..])
  }

  lemma {:induction false} TraceAppend(a: seq<Event>, b: seq<Event>, gone: set<nat>)
    ensures Deallocs(a + b) == Deallocs(a) + Deallocs(b)
    ensures Calls(a + b) == Calls(a) + Calls(b)
    ensures Obeys(a + b, gone) <==> Obeys(a, gone) && Obeys(b, gone + Pointers(Deallocs(a)))
    decreases |a|
  {
    if a == [] {
      assert a + b == b && gone + {} == gone;
    } else {
      assert (a + b)[0] == a[0] && (a + b)[1..] == a[1..] + b;
      var gone' := if a[0].Dealloc? then gone + {a[0].mem.ptr} else gone;
      TraceAppend(a[1..], b, gone');
      AppendDeallocs(a, b);
      AppendCalls(a, b);
      HeadPointers(a);
      assert gone + Pointers(Deallocs(a)) == gone' + Pointers(Deallocs(a[1..]));
    }
  }

  lemma {:induction false} AppendDeallocs(a: seq<Event>, b: seq<Event>)
    requires a != [] && (a + b)[1..] == a[1..] + b && Deallocs(a[1..] + b) == Deallocs(a[1..]) + Deallocs(b)
    ensures Deallocs(a + b) == Deallocs(a) + Deallocs(b)
  {
    Associative(if a[0].Dealloc? then [a[0].mem] else [], Deallocs(a[1..]), Deallocs(b));
  }

  lemma {:induction false} AppendCalls(a: seq<Event>, b: seq<Event>)
    requires a != [] && (a + b)[1..] == a[1..] + b && Calls(a[1..] + b) == Calls(a[1..]) + Calls(b)
    ensures Calls(a + b) == Calls(a) + Calls(b)
  {
    Associative(if a[0].Call? then [a[0].cleanup] else [], Calls(a[1..]), Calls(b));
  }

  lemma {:induction false} HeadPointers(a: seq<Event>)
    requires a != []
    ensures Pointers(Deallocs(a)) == (if a[0].Dealloc? then {a[0].mem.ptr} else {}) + Pointers(Deallocs(a[1..]))
  {
    if a[0].Dealloc? {
      assert Deallocs(a)[0] == a[0].mem && Deallocs(a)[1..] == Deallocs(a[1..]);
    } else {
      assert Deallocs(a) == Deallocs(a[1..]);
    }
  }

  /** Behind a trace that gives nothing back. */
  lemma {:induction false} QuietAppend(a: seq<Event>, b: seq<Event>, gone: set<nat>)
    requires Deallocs(a) == []
    ensures Deallocs(a + b) == Deallocs(b) && Calls(a + b) == Calls(a) + Calls(b)
    ensures Obeys(a + b, gone) <==> Obeys(a, gone) && Obeys(b, gone)
  {
    TraceAppend(a, b, gone);
    assert [] + Deallocs(b) == Deallocs(b) && gone + Pointers([]) == gone;
  }

  // ---------- blocks that are all different ----------

  /** Pairwise different blocks, none of them in `gone`. */
  ghost predicate Fresh(ms: seq<Memory>, gone: set<nat>) {
    ms == [] || (ms[0].ptr !in gone && Fresh(ms[1..], gone + {ms[0].ptr}))
  }

  lemma {:induction false} FreshAppend(a: seq<Memory>, b: seq<Memory>, gone: set<nat>)
    ensures Fresh(a + b, gone) <==> Fresh(a, gone) && Fresh(b, gone + Pointers(a))
    decreases |a|
  {
    if a == [] {
      assert a + b == b && gone + {} == gone;
    } else {
      assert (a + b)[0] == a[0] && (a + b)[1..] == a[1..] + b;
      FreshAppend(a[1..], b, gone + {a[0].ptr});
      assert gone + {a[0].ptr} + Pointers(a[1..]) == gone + Pointers(a);
    }
  }

  lemma {:induction false} DeallocAllObeys(ms: seq<Memory>, gone: set<nat>)
    ensures Deallocs(DeallocAll(ms)) == ms && Calls(DeallocAll(ms)) == []
    ensures Fresh(ms, gone) ==> Obeys(DeallocAll(ms), gone)
    decreases |ms|
  {
    if ms != [] {
      DeallocAllObeys(ms[1..], gone + {ms[0].ptr});
      assert DeallocAll(ms)[1..] == DeallocAll(ms[1..]);
    }
  }

  lemma {:induction false} OneUse(base: nat, gone: set<nat>)
    ensures Deallocs([Use(base)]) == [] && Calls([Use(base)]) == []
    ensures Obeys([Use(base)], gone) <==> base !in gone
  {
    assert [Use(base)][1..] == [];
  }

  lemma {:induction false} UseFirst(base: nat, t: seq<Event>, gone: set<nat>)
    ensures Deallocs([Use(base)] + t) == Deallocs(t) && Calls([Use(base)] + t) == Calls(t)
    ensures Obeys([Use(base)] + t, gone) <==> base !in gone && Obeys(t, gone)
  {
    assert ([Use(base)] + t)[1..] == t;
  }

  lemma {:induction false} DeallocFirst(mem: Memory, t: seq<Event>, gone: set<nat>)
    ensures Deallocs([Dealloc(mem)] + t) == [mem] + Deallocs(t) && Calls([Dealloc(mem)] + t) == Calls(t)
    ensures Obeys([Dealloc(mem)] + t, gone) <==> mem.ptr !in gone && Obeys(t, gone + {mem.ptr})
  {
    assert ([Dealloc(mem)] + t)[1..] == t;
  }

  // ---------- Free ----------

  function Newer(bs: seq<Block>): seq<Block>
    requires bs != []
  {
    bs[..|bs| - 1]
  }

  /** All blocks but the oldest go back, each after its last use. */
  lemma {:induction false} FreeBlocksObeys(bs: seq<Block>, gone: set<nat>)
    requires bs != []
    ensures var t := FreeBlocks(bs);
      && Deallocs(t) == Memories(Newer(bs)) && Calls(t) == []
      && (Fresh(Memories(bs), gone) ==> Obeys(t, gone))
    decreases |bs|
  {
    if |bs| == 1 {
      OneUse(bs[0].base, gone);
    } else {
      var base, rest := bs[0].base, FreeBlocks(bs[1..]);
      var back := gone + {base};
      FreeBlocksObeys(bs[1..], back);
      NewerOfMore(bs);
      UseFirst(bs[1].base, rest, back);
      var behind := [Use(bs[1].base)] + rest;
      DeallocFirst(MemoryOf(bs[0]), behind, gone);
      var from := [Dealloc(MemoryOf(bs[0]))] + behind;
      UseFirst(base, from, gone);
      UseFirst(base, [Use(base)] + from, gone);
      assert FreeBlocks(bs) == [Use(base)] + ([Use(base)] + from);
      assert Memories(bs)[1..] == Memories(bs[1..]) && Memories(bs)[0].ptr == base;
      assert Fresh(Memories(bs[1..]), back) ==> bs[1].base !in back;
    }
  }

  lemma {:induction false} NewerOfMore(bs: seq<Block>)
    requires |bs| > 1
    ensures Memories(Newer(bs)) == [MemoryOf(bs[0])] + Memories(Newer(bs[1..]))
  {
    assert Newer(bs)[1..] == Newer(bs[1..]) && Newer(bs)[0] == bs[0];
  }

  lemma {:induction false} MemoriesAppend(a: seq<Block>, b: seq<Block>)
    ensures Memories(a + b) == Memories(a) + Memories(b)
    decreases |a|
  {
    if a == [] {
      assert a + b == b;
    } else {
      assert (a + b)[0] == a[0] && (a + b)[1..] == a[1..] + b;
      MemoriesAppend(a[1..], b);
    }
  }

  lemma {:induction false} NewerAndHome(a: Serial)
    requires HasBlock(a)
    ensures Memories(a.blocks) == Memories(Newer(a.blocks)) + [Home(a)]
  {
    var bs := a.blocks;
    var oldest := [bs[|bs| - 1]];
    assert bs == Newer(bs) + oldest;
    MemoriesAppend(Newer(bs), oldest);
    assert oldest[1..] == [];
  }

  lemma {:induction false} FreeSerialObeys(a: Serial, gone: set<nat>)
    requires HasBlock(a)
    ensures var t := FreeSerial(a);
      && Deallocs(t) == Memories(Newer(a.blocks)) && Calls(t) == []
      && (Fresh(Memories(a.blocks), gone) ==> Obeys(t, gone))
  {
    var at, home, free := a.blocks[0].base, Home(a).ptr, FreeBlocks(a.blocks);
    FreeBlocksObeys(a.blocks, gone);
    UseFirst(at, free, gone);
    UseFirst(home, [Use(at)] + free, gone);
    assert FreeSerial(a) == [Use(home)] + ([Use(at)] + free);
    if Fresh(Memories(a.blocks), gone) { FreshTurn(a, gone); }
  }

  /** One turn uses no block given back, if the blocks are all different. */
  lemma {:induction false} FreeTurnObeys(a: Serial, mem: seq<Memory>, gone: set<nat>)
    requires HasBlock(a)
    ensures var t := FreeTurn(a, mem);
      && Deallocs(t) == mem + Memories(Newer(a.blocks)) && Calls(t) == []
      && (Fresh(mem + Memories(a.blocks), gone) ==> Obeys(t, gone))
  {
    var home, newer, first := Home(a).ptr, Memories(Newer(a.blocks)), DeallocAll(mem) + FreeSerial(a);
    var back := gone + Pointers(mem);
    DeallocAllObeys(mem, gone);
    FreeSerialObeys(a, back);
    TraceAppend(DeallocAll(mem), FreeSerial(a), gone);
    TraceAppend(first, [Use(home)], gone);
    OneUse(home, gone + Pointers(mem + newer));
    assert mem + newer + [] == mem + newer;
    FreshAppend(mem, Memories(a.blocks), gone);
    PointersAppend(mem, newer);
    assert gone + Pointers(mem + newer) == back + Pointers(newer);
    if Fresh(Memories(a.blocks), back) { FreshTurn(a, back); }
  }

  lemma {:induction false} PointersAppend(a: seq<Memory>, b: seq<Memory>)
    ensures Pointers(a + b) == Pointers(a) + Pointers(b)
    decreases |a|
  {
    if a == [] {
      assert a + b == b;
    } else {
      assert (a + b)[0] == a[0] && (a + b)[1..] == a[1..] + b;
      PointersAppend(a[1..], b);
    }
  }

  lemma {:induction false} FreshTurn(a: Serial, gone: set<nat>)
    requires HasBlock(a) && Fresh(Memories(a.blocks), gone)
    ensures a.blocks[0].base !in gone && Home(a).ptr !in gone
    ensures Home(a).ptr !in gone + Pointers(Memories(Newer(a.blocks)))
  {
    NewerAndHome(a);
    FreshAppend(Memories(Newer(a.blocks)), [Home(a)], gone);
  }

  /** The block Free returns, if any. */
  function LastHome(ss: seq<Serial>, mem: seq<Memory>): seq<Memory>
    requires EachHasBlock(ss)
  {
    if ss == [] then mem else [First(ss)]
  }

  lemma {:induction false} FreeReturns(ss: seq<Serial>, mem: seq<Memory>)
    requires EachHasBlock(ss)
    ensures Deallocs(FreeTrace(ss, mem)) + LastHome(ss, mem) == mem + AllMemory(ss)
    ensures Calls(FreeTrace(ss, mem)) == []
    decreases |ss|
  {
    if ss == [] {
      assert mem + [] == [] + mem;
    } else {
      var turn, rest := FreeTurn(ss[0], mem), FreeTrace(ss[1..], [Home(ss[0])]);
      FreeReturns(ss[1..], [Home(ss[0])]);
      FreeTurnObeys(ss[0], mem, {});
      TraceAppend(turn, rest, {});
      Associative(Deallocs(turn), Deallocs(rest), LastHome(ss, mem));
      AllSplit(ss, mem);
    }
  }

  lemma {:induction false} FreeObeys(ss: seq<Serial>, mem: seq<Memory>, gone: set<nat>)
    requires EachHasBlock(ss) && Fresh(mem + AllMemory(ss), gone)
    ensures Obeys(FreeTrace(ss, mem), gone)
    decreases |ss|
  {
    if ss != [] {
      FreshRest(ss, mem, gone);
      FreeTurnObeys(ss[0], mem, gone);
      FreeObeys(ss[1..], [Home(ss[0])], gone + Pointers(mem + Memories(Newer(ss[0].blocks))));
      TraceAppend(FreeTurn(ss[0], mem), FreeTrace(ss[1..], [Home(ss[0])]), gone);
    }
  }

  /** The blocks given back, followed by the one Free returns, are all blocks of the lists in order, and none is
      used once it was given back. */
  lemma {:induction false} FreeGivesBack(ss: seq<Serial>, mem: seq<Memory>, gone: set<nat>)
    requires EachHasBlock(ss)
    ensures var t := FreeTrace(ss, mem);
      && Deallocs(t) + LastHome(ss, mem) == mem + AllMemory(ss) && Calls(t) == []
      && (Fresh(mem + AllMemory(ss), gone) ==> Obeys(t, gone))
  {
    FreeReturns(ss, mem);
    if Fresh(mem + AllMemory(ss), gone) { FreeObeys(ss, mem, gone); }
  }

  lemma {:induction false} FreshRest(ss: seq<Serial>, mem: seq<Memory>, gone: set<nat>)
    requires EachHasBlock(ss) && ss != [] && Fresh(mem + AllMemory(ss), gone)
    ensures var a, rest := ss[0], AllMemory(ss[1..]);
      && Fresh(mem + Memories(a.blocks), gone)
      && Fresh([Home(a)] + rest, gone + Pointers(mem + Memories(Newer(a.blocks))))
  {
    var a, rest := ss[0], AllMemory(ss[1..]);
    AllSplit(ss, mem);
    FreshAppend(mem + Memories(Newer(a.blocks)), [Home(a)] + rest, gone);
    FreshAppend(mem + Memories(a.blocks), rest, gone);
  }

  lemma {:induction false} AllSplit(ss: seq<Serial>, mem: seq<Memory>)
    requires EachHasBlock(ss) && ss != []
    ensures var a, rest := ss[0], AllMemory(ss[1..]);
      && mem + AllMemory(ss) == mem + Memories(Newer(a.blocks)) + ([Home(a)] + rest)
      && mem + AllMemory(ss) == mem + Memories(a.blocks) + rest
  {
    var a, rest := ss[0], AllMemory(ss[1..]);
    NewerAndHome(a);
    Associative(mem, Memories(a.blocks), rest);
    Associative(mem, Memories(Newer(a.blocks)), [Home(a)]);
    Associative(mem + Memories(Newer(a.blocks)), [Home(a)], rest);
  }

  // ---------- the cleanups ----------

  function AllCleanups(ss: seq<Serial>): seq<Cleanup>
    requires EachHasBlock(ss)
  {
    if ss == [] then [] else ArenaCleanup.CleanupList(ss[0]) + AllCleanups(ss[1..])
  }

  lemma {:induction false} CallAllObeys(cs: seq<Cleanup>)
    ensures var t := CallAll(cs); Calls(t) == cs && Deallocs(t) == [] && Obeys(t, {})
    decreases |cs|
  {
    if cs != [] {
      CallAllObeys(cs[1..]);
      assert CallAll(cs)[1..] == CallAll(cs[1..]);
    }
  }

  lemma {:induction false} CleanOneObeys(b: Block, ran: seq<Cleanup>)
    ensures var t := CleanOne(b, ran); Calls(t) == ran && Deallocs(t) == [] && Obeys(t, {})
  {
    CallAllObeys(ran);
    UseFirst(b.base, CallAll(ran), {});
    OneUse(b.base, {});
    QuietAppend([Use(b.base)] + CallAll(ran), [Use(b.base)], {});
    assert ran + [] == ran;
  }

  lemma {:induction false} CleanTraceObeys(nodes: map<int, Cleanup>, bs: seq<Block>)
    ensures var t := CleanTrace(nodes, bs); Calls(t) == CleanBlocks(nodes, bs) && Deallocs(t) == [] && Obeys(t, {})
    decreases |bs|
  {
    if bs != [] {
      var ran := CleanBlock(nodes, bs[0]);
      CleanOneObeys(bs[0], ran);
      CleanTraceObeys(nodes, bs[1..]);
      QuietAppend(CleanOne(bs[0], ran), CleanTrace(nodes, bs[1..]), {});
    }
  }

  lemma {:induction false} CleanSerialObeys(a: Serial)
    requires HasBlock(a)
    ensures var t := CleanSerial(a); Calls(t) == ArenaCleanup.CleanupList(a) && Deallocs(t) == [] && Obeys(t, {})
  {
    var t, at := CleanTrace(a.nodes, Synced(a)), a.blocks[0].base;
    CleanTraceObeys(a.nodes, Synced(a));
    UseFirst(at, t, {});
    UseFirst(Home(a).ptr, [Use(at)] + t, {});
    assert CleanSerial(a) == [Use(Home(a).ptr)] + ([Use(at)] + t);
  }

  /** The pass calls every thread's cleanups and gives nothing back. */
  lemma {:induction false} CleanupObeys(ss: seq<Serial>)
    requires EachHasBlock(ss)
    ensures var t := CleanupTrace(ss); Calls(t) == AllCleanups(ss) && Deallocs(t) == [] && Obeys(t, {})
    decreases |ss|
  {
    if ss != [] {
      var a := ss[0];
      CleanSerialObeys(a);
      OneUse(Home(a).ptr, {});
      QuietAppend(CleanSerial(a), [Use(Home(a).ptr)], {});
      CleanupObeys(ss[1..]);
      QuietAppend(CleanTurn(a), CleanupTrace(ss[1..]), {});
      assert ArenaCleanup.CleanupList(a) + [] == ArenaCleanup.CleanupList(a);
    }
  }

  // ---------- destruction and Reset ----------

  /** The memory the user keeps. */
  function Kept(ss: seq<Serial>, userOwned: bool): seq<Memory>
    requires EachHasBlock(ss) && (userOwned ==> ss != [])
  {
    if userOwned then [First(ss)] else []
  }

  lemma {:induction false} ReadPolicyObeys(ss: seq<Serial>, hasPolicy: bool, gone: set<nat>)
    requires EachHasBlock(ss) && (hasPolicy ==> ss != [])
    ensures var t := ReadPolicy(ss, hasPolicy);
      Deallocs(t) == [] && Calls(t) == [] && ((hasPolicy ==> First(ss).ptr !in gone) ==> Obeys(t, gone))
  {
    if hasPolicy { OneUse(First(ss).ptr, gone); }
  }

  lemma {:induction false} LastCallObeys(ss: seq<Serial>, gone: set<nat>)
    requires EachHasBlock(ss)
    ensures var t := LastCall(ss);
      Deallocs(t) == LastHome(ss, []) && Calls(t) == [] && ((ss != [] ==> First(ss).ptr !in gone) ==> Obeys(t, gone))
  {
    assert LastCall(ss)[1..] == [];
  }

  lemma {:induction false} LastObeys(ss: seq<Serial>, hasPolicy: bool, userOwned: bool, gone: set<nat>)
    requires EachHasBlock(ss) && (hasPolicy || userOwned ==> ss != [])
    ensures var t := LastTrace(ss, hasPolicy, userOwned);
      && Deallocs(t) + Kept(ss, userOwned) == LastHome(ss, []) && Calls(t) == []
      && ((ss != [] ==> First(ss).ptr !in gone) ==> Obeys(t, gone))
  {
    var read := ReadPolicy(ss, hasPolicy);
    ReadPolicyObeys(ss, hasPolicy, gone);
    LastCallObeys(ss, gone);
    QuietAppend(read, LastCall(ss), gone);
    QuietAppend(read, if userOwned then [] else read + LastCall(ss), gone);
  }

  /** Destruction and Reset first run every cleanup of every thread, thread by thread; then they give every block
      back exactly once, in list order, except a block the user owns; once a block was given back neither it nor
      what lives in it is used again, and no cleanup runs; and what was given back and kept adds up to
      SpaceAllocated. */
  lemma {:induction false} ReleaseGivesAllBack(ss: seq<Serial>, hasPolicy: bool, userOwned: bool)
    requires EachHasBlock(ss) && (hasPolicy || userOwned ==> ss != [])
    requires Fresh(AllMemory(ss), {}) && forall i | 0 <= i < |ss| :: Accounted(ss[i])
    ensures var t, kept := ReleaseTrace(ss, hasPolicy, userOwned), Kept(ss, userOwned);
      && Calls(t) == AllCleanups(ss)
      && Deallocs(t) + kept == AllMemory(ss)
      && Orderly(t)
      && TotalOf(Deallocs(t)) + TotalOf(kept) == SpaceAllocated(ss)
  {
    var t, kept := ReleaseTrace(ss, hasPolicy, userOwned), Kept(ss, userOwned);
    ReleaseObeys(ss, hasPolicy, userOwned);
    ObeysIsOrderly(t, {});
    TotalAppend(Deallocs(t), kept);
    SpaceIsTotal(ss);
  }

  lemma {:induction false} ReleaseObeys(ss: seq<Serial>, hasPolicy: bool, userOwned: bool)
    requires EachHasBlock(ss) && (hasPolicy || userOwned ==> ss != [])
    ensures var t := ReleaseTrace(ss, hasPolicy, userOwned);
      && Calls(t) == AllCleanups(ss)
      && Deallocs(t) + Kept(ss, userOwned) == AllMemory(ss)
      && (Fresh(AllMemory(ss), {}) ==> Obeys(t, {}))
  {
    var read, rest := ReadPolicy(ss, hasPolicy), FreeTrace(ss, []) + LastTrace(ss, hasPolicy, userOwned);
    FreeThenLast(ss, hasPolicy, userOwned);
    ReadPolicyObeys(ss, hasPolicy, {});
    QuietAppend(read, rest, {});
    CleanupObeys(ss);
    QuietAppend(CleanupTrace(ss), read + rest, {});
    assert AllCleanups(ss) + [] == AllCleanups(ss);
  }

  lemma {:induction false} FreeThenLast(ss: seq<Serial>, hasPolicy: bool, userOwned: bool)
    requires EachHasBlock(ss) && (hasPolicy || userOwned ==> ss != [])
    ensures var t := FreeTrace(ss, []) + LastTrace(ss, hasPolicy, userOwned);
      && Calls(t) == [] && Deallocs(t) + Kept(ss, userOwned) == AllMemory(ss)
      && (Fresh(AllMemory(ss), {}) ==> Obeys(t, {}))
  {
    var free, last := FreeTrace(ss, []), LastTrace(ss, hasPolicy, userOwned);
    var given := Deallocs(free);
    FreeGivesBack(ss, [], {});
    assert [] + AllMemory(ss) == AllMemory(ss) && {} + Pointers(given) == Pointers(given);
    TraceAppend(free, last, {});
    LastObeys(ss, hasPolicy, userOwned, Pointers(given));
    Associative(given, Deallocs(last), Kept(ss, userOwned));
    FreshAppend(given, LastHome(ss, []), {});
  }

  // ---------- sizes ----------

  function TotalOf(ms: seq<Memory>): nat {
    if ms == [] then 0 else ms[0].size + TotalOf(ms[1..])
  }

  function SpaceAllocated(ss: seq<Serial>): nat {
    if ss == [] then 0 else ss[0].spaceAllocated + SpaceAllocated(ss[1..])
  }

  lemma {:induction false} TotalAppend(a: seq<Memory>, b: seq<Memory>)
    ensures TotalOf(a + b) == TotalOf(a) + TotalOf(b)
    decreases |a|
  {
    if a == [] {
      assert a + b == b;
    } else {
      assert (a + b)[0] == a[0] && (a + b)[1..] == a[1..] + b;
      TotalAppend(a[1..], b);
    }
  }

  lemma {:induction false} TotalOfMemories(bs: seq<Block>)
    ensures TotalOf(Memories(bs)) == TotalSize(bs)
    decreases |bs|
  {
    if bs != [] {
      TotalOfMemories(bs[1..]);
      assert Memories(bs)[1..] == Memories(bs[1..]);
    }
  }

  lemma {:induction false} SpaceIsTotal(ss: seq<Serial>)
    requires forall i | 0 <= i < |ss| :: Accounted(ss[i])
    ensures SpaceAllocated(ss) == TotalOf(AllMemory(ss))
    decreases |ss|
  {
    if ss != [] {
      SpaceIsTotal(ss[1..]);
      TotalOfMemories(ss[0].blocks);
      TotalAppend(Memories(ss[0].blocks), AllMemory(ss[1..]));
    }
  }

  function TotalUsed(ss: seq<Serial>): int
    requires EachHasBlock(ss)
  {
    if ss == [] then 0 else SpaceUsed(ss[0]) + TotalUsed(ss[1..])
  }
}
