/** The mutable arena of one thread. */
module SerialArena {
  import opened Sequences
  import opened Arena
  import opened ArenaCleanup
  import opened ArenaRelease

  /** Where blocks go back to, with a record of everything done to them meanwhile. */
  class Heap {
    var trace: seq<Event>
    /** What the deallocator adds up. */
    var returned: nat

    ghost predicate Valid()
      reads this
    {
      returned == TotalOf(Deallocs(trace))
    }

    constructor ()
      ensures Valid() && trace == []
    {
      trace, returned := [], 0;
    }

    method Note(e: Event)
      requires Valid() && !e.Dealloc?
      modifies this
      ensures Valid() && trace == old(trace) + [e]
    {
      NoteTotal(trace, e);
      trace := trace + [e];
    }

    method Deallocate(mem: Memory)
      requires Valid()
      modifies this
      ensures Valid() && trace == old(trace) + [Dealloc(mem)]
    {
      DeallocTotal(trace, mem);
      trace := trace + [Dealloc(mem)];
      returned := returned + mem.size;
    }
  }

  lemma {:induction false} NoteTotal(t: seq<Event>, e: Event)
    requires !e.Dealloc?
    ensures Deallocs(t + [e]) == Deallocs(t)
  {
    TraceAppend(t, [e], {});
    assert [e][1..] == [] && Deallocs(t) + [] == Deallocs(t);
  }

  lemma {:induction false} DeallocTotal(t: seq<Event>, mem: Memory)
    ensures TotalOf(Deallocs(t + [Dealloc(mem)])) == TotalOf(Deallocs(t)) + mem.size
  {
    TraceAppend(t, [Dealloc(mem)], {});
    assert [Dealloc(mem)][1..] == [] && Deallocs([Dealloc(mem)]) == [mem];
    TotalAppend(Deallocs(t), [mem]);
    assert [mem][1..] == [] && TotalOf([mem]) == mem.size + TotalOf([]);
  }

  lemma {:induction false} CallOneMore(cs: seq<Cleanup>, c: Cleanup)
    ensures CallAll(cs + [c]) == CallAll(cs) + [Call(c)]
    decreases |cs|
  {
    if cs == [] {
      assert [c][1..] == [] && CallAll([c]) == [Call(c)];
    } else {
      assert (cs + [c])[0] == cs[0] && (cs + [c])[1..] == cs[1..] + [c];
      CallOneMore(cs[1..], c);
    }
  }

  class SerialArena {
    /** The thread's cache. */
    const owner: nat
    var blocks: seq<Block>
    var spaceUsed: int
    var spaceAllocated: nat
    var ptr: int
    var limit: int
    var nodes: map<int, Cleanup>

    function State(): Serial
      reads this
    {
      Serial(blocks, ptr, limit, spaceUsed, spaceAllocated, nodes)
    }

    constructor New(mem: nat, size: nat, owner: nat)
      ensures State() == Arena.New(mem, size) && this.owner == owner
    {
      this.owner := owner;
      blocks := [Block(mem, size, 0)];
      spaceUsed, spaceAllocated, nodes := 0, size, map[];
      ptr := mem + BLOCK_HEADER_SIZE + SERIAL_ARENA_SIZE;
      limit := mem + size - size % 8;
    }

    method AllocateNewBlock(n: nat, policy: Policy, mem: nat)
      requires blocks != []
      modifies this
      ensures State() == Arena.AllocateNewBlock(old(State()), n, policy, mem)
    {
      blocks := blocks[0 := blocks[0].(start := limit)];
      spaceUsed := spaceUsed + (ptr - (blocks[0].base + BLOCK_HEADER_SIZE));
      var size := BlockSize(policy, blocks[0].size, n);
      spaceAllocated := spaceAllocated + size;
      blocks := [Block(mem, size, 0)] + blocks;
      ptr := mem + BLOCK_HEADER_SIZE;
      limit := mem + size;
    }

    /** At most one new block is made: after it there is space. */
    method AllocateAligned(n: nat, policy: Policy, mem: nat) returns (ret: int)
      requires blocks != []
      modifies this
      ensures (State(), ret) == Arena.AllocateAligned(old(State()), n, policy, mem)
      decreases if HasSpace(State(), n) then 0 else 2
    {
      if !HasSpace(State(), n) {
        ret := AllocateAlignedFallback(n, policy, mem);
        return;
      }
      ret := ptr;
      ptr := ptr + n;
    }

    method AllocateAlignedFallback(n: nat, policy: Policy, mem: nat) returns (ret: int)
      requires blocks != [] && !HasSpace(State(), n)
      modifies this
      ensures (State(), ret) == Arena.AllocateAligned(old(State()), n, policy, mem)
      decreases 1
    {
      OneGrowthSuffices(State(), n, policy, mem);
      AllocateNewBlock(n, policy, mem);
      ret := AllocateAligned(n, policy, mem);
    }

    /** Allocates only when the newest block has room. */
    method MaybeAllocateAligned(n: nat) returns (ok: bool, ret: int)
      requires blocks != []
      modifies this`ptr
      ensures ok <==> HasSpace(old(State()), n)
      ensures ok ==> ret == old(ptr) && ptr == old(ptr) + n
      ensures ok ==> forall policy, mem :: (State(), ret) == Arena.AllocateAligned(old(State()), n, policy, mem)
      ensures !ok ==> State() == old(State())
    {
      if !HasSpace(State(), n) {
        return false, 0;
      }
      ret := ptr;
      ptr := ptr + n;
      ok := true;
    }

    method AllocateAlignedWithCleanup(n: nat, policy: Policy, mem: nat) returns (ret: int, node: int)
      requires blocks != []
      modifies this
      ensures (State(), ret, node) == Arena.AllocateAlignedWithCleanup(old(State()), n, policy, mem)
      decreases if HasSpace(State(), n + CLEANUP_SIZE) then 0 else 2
    {
      if !HasSpace(State(), n + CLEANUP_SIZE) {
        ret, node := AllocateAlignedWithCleanupFallback(n, policy, mem);
        return;
      }
      ret := ptr;
      ptr := ptr + n;
      limit := limit - CLEANUP_SIZE;
      node := limit;
    }

    method AllocateAlignedWithCleanupFallback(n: nat, policy: Policy, mem: nat) returns (ret: int, node: int)
      requires blocks != [] && !HasSpace(State(), n + CLEANUP_SIZE)
      modifies this
      ensures (State(), ret, node) == Arena.AllocateAlignedWithCleanup(old(State()), n, policy, mem)
      decreases 1
    {
      OneGrowthSuffices(State(), n + CLEANUP_SIZE, policy, mem);
      AllocateNewBlock(n + CLEANUP_SIZE, policy, mem);
      ret, node := AllocateAlignedWithCleanup(n, policy, mem);
    }

    method AddCleanup(elem: int, fn: int, policy: Policy, mem: nat)
      requires blocks != []
      modifies this
      ensures State() == Serve(old(State()), policy, OnlyCleanup(elem, fn, mem)).0
      ensures limit in nodes && nodes[limit] == Cleanup(elem, fn)
    {
      var ret, node := AllocateAlignedWithCleanup(0, policy, mem);
      nodes := nodes[node := Cleanup(elem, fn)];
    }

    /** Arena::AllocateInternal: with a destructor, the node is filled with the address given to the user. */
    method AllocateInternal(size: nat, align: nat, destructor: int, policy: Policy, mem: nat) returns (ret: int)
      requires blocks != [] && align > 0
      modifies this
      ensures (State(), ret) == Serve(old(State()), policy, Destructible(size, align, destructor, mem))
      ensures limit in nodes && nodes[limit] == Cleanup(ret, destructor)
    {
      if align <= 8 {
        var res, node := AllocateAlignedWithCleanup(AlignUpTo8(size), policy, mem);
        nodes := nodes[node := Cleanup(res, destructor)];
        ret := res;
      } else {
        var res, node := AllocateAlignedWithCleanup(size + (align - 8), policy, mem);
        ret := AlignTo(res, align);
        nodes := nodes[node := Cleanup(ret, destructor)];
      }
    }

    /** Without a destructor. */
    method AllocateAlignedWithHook(size: nat, align: nat, policy: Policy, mem: nat) returns (ret: int)
      requires blocks != [] && align > 0
      modifies this
      ensures (State(), ret) == Serve(old(State()), policy, Plain(size, align, mem))
    {
      if align <= 8 {
        ret := AllocateAligned(AlignUpTo8(size), policy, mem);
      } else {
        var res := AllocateAligned(size + (align - 8), policy, mem);
        ret := AlignTo(res, align);
      }
    }

    method SpaceUsed() returns (used: int)
      requires blocks != []
      ensures used == Arena.SpaceUsed(State())
    {
      used := ptr - (blocks[0].base + BLOCK_HEADER_SIZE);
      used := used + spaceUsed;
      used := used - SERIAL_ARENA_SIZE;
    }

    /** Runs the cleanup nodes of every block, newest block first; `ran` is what was called. */
    method CleanupList(heap: Heap) returns (ran: seq<Cleanup>)
      requires blocks != [] && heap.Valid()
      modifies this`blocks, heap
      ensures heap.Valid() && heap.trace == old(heap.trace) + CleanSerial(old(State()))
      ensures State() == old(State()).(blocks := Synced(old(State())))
      ensures ran == ArenaCleanup.CleanupList(old(State()))
    {
      CleanStart(heap.trace, State());
      heap.Note(Use(Home(State()).ptr));
      heap.Note(Use(blocks[0].base));
      blocks := blocks[0 := blocks[0].(start := limit)];
      assert blocks == Synced(old(State()));
      ran := RunBlocks(heap);
    }

    method RunBlocks(heap: Heap) returns (ran: seq<Cleanup>)
      requires heap.Valid()
      modifies heap
      ensures heap.Valid() && heap.trace == old(heap.trace) + CleanTrace(nodes, blocks)
      ensures ran == CleanBlocks(nodes, blocks)
    {
      ghost var whole := old(heap.trace) + CleanTrace(nodes, blocks);
      ran := [];
      assert blocks[0..] == blocks;
      var i := 0;
      while i < |blocks|
        invariant i <= |blocks| && heap.Valid()
        invariant CleanBlocks(nodes, blocks) == ran + CleanBlocks(nodes, blocks[i..])
        invariant whole == heap.trace + CleanTrace(nodes, blocks[i..])
      {
        ghost var before, done := heap.trace, ran;
        var some := RunBlock(blocks[i], heap);
        ran := ran + some;
        OneBlockRun(nodes, blocks, i, before, done);
        i := i + 1;
      }
    }

    /** One block's nodes, from its start to its end rounded down. */
    method RunBlock(b: Block, heap: Heap) returns (ran: seq<Cleanup>)
      requires heap.Valid()
      modifies heap
      ensures heap.Valid() && heap.trace == old(heap.trace) + CleanOne(b, ran)
      ensures ran == CleanBlock(nodes, b)
    {
      heap.Note(Use(b.base));
      var end := b.base + b.size - b.size % 8;
      var num := NodeDifference(end, b.start);
      ran := [];
      if num > 0 {
        ran := CallNodes(b.start, end, heap);
      }
      heap.Note(Use(b.base));
    }

    method CallNodes(start: int, end: int, heap: Heap) returns (ran: seq<Cleanup>)
      requires heap.Valid()
      modifies heap
      ensures heap.Valid() && heap.trace == old(heap.trace) + CallAll(ran)
      ensures ran == RunNodes(nodes, start, end)
    {
      var it := start;
      ran := [];
      while it < end
        invariant RunNodes(nodes, start, end) == ran + RunNodes(nodes, it, end)
        invariant heap.Valid() && heap.trace == old(heap.trace) + CallAll(ran)
      {
        var node := Read(nodes, it);
        heap.Note(Call(node));
        CallOneMore(ran, node);
        Associative(old(heap.trace), CallAll(ran), [Call(node)]);
        Associative(ran, [node], RunNodes(nodes, it + CLEANUP_SIZE, end));
        ran := ran + [node];
        it := it + CLEANUP_SIZE;
      }
    }

    /** Hands every block but the oldest to the deallocator, newest first, and returns the oldest. */
    method Free(heap: Heap) returns (mem: Memory)
      requires blocks != [] && heap.Valid()
      modifies heap
      ensures heap.Valid() && heap.trace == old(heap.trace) + FreeSerial(State())
      ensures mem == Home(State())
    {
      heap.Note(Use(Home(State()).ptr));
      var i := 0;
      mem := MemoryOf(blocks[0]);
      heap.Note(Use(blocks[0].base));
      heap.Note(Use(blocks[0].base));
      ghost var whole := old(heap.trace) + FreeSerial(State());
      FreeStart(old(heap.trace), State());
      while i + 1 < |blocks|
        invariant 0 <= i < |blocks| && mem == MemoryOf(blocks[i]) && heap.Valid()
        invariant whole == heap.trace + Behind(blocks, i)
      {
        ghost var before := heap.trace;
        BehindOneMore(blocks, i);
        Advance(i, mem, heap);
        i := i + 1;
        mem := MemoryOf(blocks[i]);
        Associative(before, OneTurn(blocks, i - 1), Behind(blocks, i));
      }
    }

    /** The block's successor is followed before the block goes; then the size of that one is read, and whether
        another one follows. */
    method Advance(i: nat, mem: Memory, heap: Heap)
      requires i + 1 < |blocks| && mem == MemoryOf(blocks[i]) && heap.Valid()
      modifies heap
      ensures heap.Valid() && heap.trace == old(heap.trace) + OneTurn(blocks, i)
    {
      heap.Note(Use(blocks[i].base));
      heap.Deallocate(mem);
      heap.Note(Use(blocks[i + 1].base));
      heap.Note(Use(blocks[i + 1].base));
    }
  }

  lemma {:induction false} CleanStart(t: seq<Event>, a: Serial)
    requires HasBlock(a)
    ensures t + CleanSerial(a) == t + [Use(Home(a).ptr)] + [Use(a.blocks[0].base)] + CleanTrace(a.nodes, Synced(a))
  {
  }

  lemma {:induction false} OneBlockRun(nodes: map<int, Cleanup>, bs: seq<Block>, i: nat, t: seq<Event>, ran: seq<Cleanup>)
    requires i < |bs|
    ensures var some := CleanBlock(nodes, bs[i]);
      && ran + CleanBlocks(nodes, bs[i..]) == ran + some + CleanBlocks(nodes, bs[i + 1..])
      && t + CleanTrace(nodes, bs[i..]) == t + CleanOne(bs[i], some) + CleanTrace(nodes, bs[i + 1..])
  {
    var some := CleanBlock(nodes, bs[i]);
    assert bs[i..][1..] == bs[i + 1..];
    Associative(ran, some, CleanBlocks(nodes, bs[i + 1..]));
    Associative(t, CleanOne(bs[i], some), CleanTrace(nodes, bs[i + 1..]));
  }

  function OneTurn(bs: seq<Block>, i: nat): seq<Event>
    requires i + 1 < |bs|
  {
    [Use(bs[i].base), Dealloc(MemoryOf(bs[i])), Use(bs[i + 1].base), Use(bs[i + 1].base)]
  }

  /** What is still to be done when the i-th block's successor has been tested. */
  function Behind(bs: seq<Block>, i: nat): seq<Event>
    requires i < |bs|
  {
    FreeBlocks(bs[i..])[1..]
  }

  lemma {:induction false} BehindOneMore(bs: seq<Block>, i: nat)
    requires i + 1 < |bs|
    ensures Behind(bs, i) == OneTurn(bs, i) + Behind(bs, i + 1)
  {
    assert bs[i..][1..] == bs[i + 1..];
  }

  lemma {:induction false} FreeStart(t: seq<Event>, a: Serial)
    requires HasBlock(a)
    ensures var at := Use(a.blocks[0].base);
      t + FreeSerial(a) == t + [Use(Home(a).ptr)] + [at] + [at] + Behind(a.blocks, 0)
  {
    assert a.blocks[0..] == a.blocks;
    assert FreeBlocks(a.blocks) == [Use(a.blocks[0].base)] + Behind(a.blocks, 0);
  }
}
