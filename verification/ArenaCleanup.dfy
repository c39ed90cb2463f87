/** CleanupList: which of the registered cleanups run, and in which order. */
module ArenaCleanup {
  import opened Sequences
  import opened Arena

  // ---------- the walk over the blocks ----------

  function Read(nodes: map<int, Cleanup>, at: int): Cleanup {
    if at in nodes then nodes[at] else Uninitialized
  }

  function RunNodes(nodes: map<int, Cleanup>, it: int, end: int): seq<Cleanup>
    decreases end - it
  {
    if it < end then [Read(nodes, it)] + RunNodes(nodes, it + CLEANUP_SIZE, end) else []
  }

  /** The difference of two node pointers, which truncates towards zero. */
  function NodeDifference(limit: int, it: int): int {
    if limit >= it then (limit - it) / CLEANUP_SIZE else -((it - limit) / CLEANUP_SIZE)
  }

  /** The limit is taken from the block size rounded down to 8. */
  function CleanBlock(nodes: map<int, Cleanup>, b: Block): seq<Cleanup> {
    var limit := b.base + b.size - b.size % 8;
    if NodeDifference(limit, b.start) > 0 then RunNodes(nodes, b.start, limit) else []
  }

  function CleanBlocks(nodes: map<int, Cleanup>, bs: seq<Block>): seq<Cleanup> {
    if bs == [] then [] else CleanBlock(nodes, bs[0]) + CleanBlocks(nodes, bs[1..])
  }

  /** The cleanups run, in order. */
  function CleanupList(a: Serial): seq<Cleanup>
    requires HasBlock(a)
  {
    CleanBlocks(a.nodes, [a.blocks[0].(start := a.limit)] + a.blocks[1..])
  }

  // ---------- where the nodes are ----------

  function StartOf(a: Serial, i: nat): int
    requires i < |a.blocks|
  {
    if i == 0 then a.limit else a.blocks[i].start
  }

  /** Where a block's first node ended: only the oldest block rounds its size down. */
  function TopOf(a: Serial, i: nat): int
    requires i < |a.blocks|
  {
    var b := a.blocks[i];
    b.base + b.size - if i == |a.blocks| - 1 then b.size % 8 else 0
  }

  /** The block holds these nodes, first registered at the top, and nothing else past its start. */
  ghost predicate Holds(a: Serial, i: nat, l: seq<Cleanup>)
    requires i < |a.blocks|
  {
    && StartOf(a, i) == TopOf(a, i) - CLEANUP_SIZE * |l|
    && a.blocks[i].base + BLOCK_HEADER_SIZE <= StartOf(a, i)
    && forall j | 0 <= j < |l| :: Read(a.nodes, TopOf(a, i) - CLEANUP_SIZE * (j + 1)) == l[j]
  }

  /** `lists` says what each block holds, newest block first. */
  ghost predicate NodesHeld(a: Serial, lists: seq<seq<Cleanup>>) {
    |lists| == |a.blocks| && forall i | 0 <= i < |lists| :: Holds(a, i, lists[i])
  }

  /** In order of registration: the oldest block's nodes first. */
  function Registered(lists: seq<seq<Cleanup>>): seq<Cleanup> {
    if lists == [] then [] else Registered(lists[1..]) + lists[0]
  }

  function Reverse<T>(s: seq<T>): seq<T> {
    if s == [] then [] else [s[|s| - 1]] + Reverse(s[..|s| - 1])
  }

  /** A block that is not the oldest, whose size is no multiple of 8, and which holds exactly one node. */
  predicate Loses(a: Serial, i: nat)
    requires i < |a.blocks|
  {
    i < |a.blocks| - 1 && a.blocks[i].size % 8 != 0 && TopOf(a, i) - StartOf(a, i) == CLEANUP_SIZE
  }

  predicate NoneLost(a: Serial) {
    forall i | 0 <= i < |a.blocks| :: !Loses(a, i)
  }

  // ---------- one block ----------

  lemma {:induction false} RunNodesReads(nodes: map<int, Cleanup>, top: int, end: int, l: seq<Cleanup>)
    requires top - CLEANUP_SIZE < end <= top
    requires forall j | 0 <= j < |l| :: Read(nodes, top - CLEANUP_SIZE * (j + 1)) == l[j]
    ensures RunNodes(nodes, top - CLEANUP_SIZE * |l|, end) == Reverse(l)
    decreases |l|
  {
    if l != [] {
      var n := |l| - 1;
      var it := top - CLEANUP_SIZE * |l|;
      assert Read(nodes, it) == l[n];
      assert it + CLEANUP_SIZE == top - CLEANUP_SIZE * |l[..n]|;
      RunNodesReads(nodes, top, end, l[..n]);
      assert RunNodes(nodes, it, end) == [Read(nodes, it)] + RunNodes(nodes, it + CLEANUP_SIZE, end);
    }
  }

  lemma {:induction false} BlockRuns(a: Serial, i: nat, l: seq<Cleanup>)
    requires i < |a.blocks| && Holds(a, i, l)
    ensures CleanBlock(a.nodes, a.blocks[i].(start := StartOf(a, i))) == if Loses(a, i) then [] else Reverse(l)
    ensures Loses(a, i) ==> |l| == 1
  {
    var b := a.blocks[i];
    var limit := b.base + b.size - b.size % 8;
    var top := TopOf(a, i);
    assert limit <= top < limit + 8;
    if |l| > 0 && !Loses(a, i) {
      RunNodesReads(a.nodes, top, limit, l);
    }
  }

  // ---------- all blocks ----------

  lemma {:induction false} ReverseAppend<T>(s: seq<T>, t: seq<T>)
    ensures Reverse(s + t) == Reverse(t) + Reverse(s)
    decreases |t|
  {
    if t == [] {
      assert s + t == s;
    } else {
      var n := |t| - 1;
      assert (s + t)[..|s + t| - 1] == s + t[..n];
      ReverseAppend(s, t[..n]);
    }
  }

  lemma {:induction false} ReverseLength<T>(s: seq<T>)
    ensures |Reverse(s)| == |s|
  {
    if s != [] { ReverseLength(s[..|s| - 1]); }
  }

  function Synced(a: Serial): seq<Block>
    requires HasBlock(a)
  {
    [a.blocks[0].(start := a.limit)] + a.blocks[1..]
  }

  /** One block's share of the walk and of the registrations. */
  lemma {:induction false} TailUnfolds(a: Serial, lists: seq<seq<Cleanup>>, i: nat)
    requires HasBlock(a) && NodesHeld(a, lists) && i < |a.blocks|
    ensures CleanBlocks(a.nodes, Synced(a)[i..]) ==
      (if Loses(a, i) then [] else Reverse(lists[i])) + CleanBlocks(a.nodes, Synced(a)[i + 1..])
    ensures Registered(lists[i..]) == Registered(lists[i + 1..]) + lists[i]
    ensures Loses(a, i) ==> |lists[i]| == 1
  {
    BlockRuns(a, i, lists[i]);
    assert Synced(a)[i] == a.blocks[i].(start := StartOf(a, i));
    assert Synced(a)[i..][1..] == Synced(a)[i + 1..];
    assert lists[i..][1..] == lists[i + 1..];
  }

  /** From block `i` on: all nodes run in reverse order of registration, or too few run. */
  lemma {:induction false} TailRuns(a: Serial, lists: seq<seq<Cleanup>>, i: nat)
    requires HasBlock(a) && NodesHeld(a, lists) && i <= |a.blocks|
    ensures var run, all := CleanBlocks(a.nodes, Synced(a)[i..]), Registered(lists[i..]);
      && |run| <= |all|
      && (if forall k | i <= k < |a.blocks| :: !Loses(a, k) then run == Reverse(all) else |run| < |all|)
    decreases |a.blocks| - i
  {
    if i < |a.blocks| {
      TailRuns(a, lists, i + 1);
      TailUnfolds(a, lists, i);
      ReverseLength(lists[i]);
      ReverseAppend(Registered(lists[i + 1..]), lists[i]);
      assert (forall k | i <= k < |a.blocks| :: !Loses(a, k)) <==>
        !Loses(a, i) && forall k | i + 1 <= k < |a.blocks| :: !Loses(a, k);
    }
  }

  /** CleanupList runs every registered cleanup exactly once, in reverse order of registration, exactly when
      no block loses its only node. */
  lemma {:induction false} CleanupRunsAllIffNoneLost(a: Serial, lists: seq<seq<Cleanup>>)
    requires HasBlock(a) && NodesHeld(a, lists)
    ensures CleanupList(a) == Reverse(Registered(lists)) <==> NoneLost(a)
  {
    TailRuns(a, lists, 0);
    assert Synced(a)[0..] == Synced(a) && lists[0..] == lists;
    ReverseLength(Registered(lists));
  }

  // ---------- what serving does to the nodes ----------

  lemma {:induction false} ReadyHolds(a: Serial, log: seq<Piece>, lists: seq<seq<Cleanup>>, policy: Policy, r: Request)
    requires Inv(a, log) && Legal(a, policy, r) && NodesHeld(a, lists)
    ensures NodesHeld(Ready(a, Needed(r), policy, r.mem), if HasSpace(a, Needed(r)) then lists else [[]] + lists)
  {
    var b := Ready(a, Needed(r), policy, r.mem);
    if !HasSpace(a, Needed(r)) {
      var lists' := [[]] + lists;
      forall i | 0 <= i < |lists'| ensures Holds(b, i, lists'[i]) {
        if i > 0 {
          assert Holds(a, i - 1, lists[i - 1]);
          assert lists'[i] == lists[i - 1];
          assert b.blocks[i] == a.blocks[i - 1].(start := StartOf(a, i - 1));
          assert TopOf(b, i) == TopOf(a, i - 1);
        }
      }
    }
  }

  /** Filling the node below the limit disturbs no other node. */
  lemma {:induction false} NodeAdded(a: Serial, lists: seq<seq<Cleanup>>, c: Cleanup, ptr: int)
    requires BlocksOk(a.blocks) && FrontOk(a) && NodesHeld(a, lists)
    requires ptr <= a.limit - CLEANUP_SIZE && a.ptr <= ptr
    ensures var at := a.limit - CLEANUP_SIZE;
      NodesHeld(SetNode(a.(ptr := ptr, limit := at), at, c), [lists[0] + [c]] + lists[1..])
  {
    var at := a.limit - CLEANUP_SIZE;
    var b := SetNode(a.(ptr := ptr, limit := at), at, c);
    var lists' := [lists[0] + [c]] + lists[1..];
    forall i | 0 <= i < |lists'| ensures Holds(b, i, lists'[i]) {
      assert Holds(a, i, lists[i]);
      forall j | 0 <= j < |lists'[i]| ensures Read(b.nodes, TopOf(b, i) - CLEANUP_SIZE * (j + 1)) == lists'[i][j] {
        if j < |lists[i]| {
          OtherNodeKept(a, i, lists[i], j);
          assert Read(a.nodes, TopOf(a, i) - CLEANUP_SIZE * (j + 1)) == lists[i][j];
        }
      }
    }
  }

  lemma {:induction false} OtherNodeKept(a: Serial, i: nat, l: seq<Cleanup>, j: nat)
    requires BlocksOk(a.blocks) && FrontOk(a) && i < |a.blocks| && Holds(a, i, l) && j < |l|
    requires a.ptr <= a.limit - CLEANUP_SIZE
    ensures TopOf(a, i) - CLEANUP_SIZE * (j + 1) != a.limit - CLEANUP_SIZE
  {
  }

  /** The lists after a request. */
  function Extended(a: Serial, lists: seq<seq<Cleanup>>, policy: Policy, r: Request): seq<seq<Cleanup>>
    requires HasBlock(a)
  {
    var ready := if HasSpace(a, Needed(r)) then lists else [[]] + lists;
    if r.Plain? || ready == [] then ready
    else [ready[0] + [NodeFor(r, Ready(a, Needed(r), policy, r.mem).ptr)]] + ready[1..]
  }

  lemma {:induction false} ServeHolds(a: Serial, log: seq<Piece>, lists: seq<seq<Cleanup>>, policy: Policy, r: Request)
    requires Inv(a, log) && Legal(a, policy, r) && NodesHeld(a, lists)
    ensures NodesHeld(Serve(a, policy, r).0, Extended(a, lists, policy, r))
  {
    ReadyHolds(a, log, lists, policy, r);
    ReadyInv(a, log, policy, r);
    var b, at := ServeShape(a, policy, r);
    var ready := if HasSpace(a, Needed(r)) then lists else [[]] + lists;
    var c := if r.Plain? then Uninitialized else NodeFor(r, b.ptr);
    ServedHolds(b, ready, b.ptr + Carved(r), r.Plain?, c, Serve(a, policy, r).0, Extended(a, lists, policy, r));
  }

  lemma {:induction false} ServedHolds(
    b: Serial, ready: seq<seq<Cleanup>>, ptr: int, plain: bool, c: Cleanup, served: Serial, extended: seq<seq<Cleanup>>)
    requires BlocksOk(b.blocks) && FrontOk(b) && NodesHeld(b, ready)
    requires b.ptr <= ptr <= b.limit - if plain then 0 else CLEANUP_SIZE
    requires served == if plain then b.(ptr := ptr)
      else SetNode(b.(ptr := ptr, limit := b.limit - CLEANUP_SIZE), b.limit - CLEANUP_SIZE, c)
    requires extended == if plain then ready else [ready[0] + [c]] + ready[1..]
    ensures NodesHeld(served, extended)
  {
    if plain { PtrMoved(b, ready, ptr); } else { NodeAdded(b, ready, c, ptr); }
  }

  lemma {:induction false} PtrMoved(a: Serial, lists: seq<seq<Cleanup>>, ptr: int)
    requires NodesHeld(a, lists)
    ensures NodesHeld(a.(ptr := ptr), lists)
  {
  }

  // ---------- runs ----------

  /** The cleanups registered by a run, in order. */
  function Registrations(a: Serial, policy: Policy, rs: seq<Request>): seq<Cleanup>
    requires HasBlock(a)
    decreases |rs|
  {
    if rs == [] then []
    else FirstRegistration(a, policy, rs[0]) + Registrations(Serve(a, policy, rs[0]).0, policy, rs[1..])
  }

  /** With a destructor: the very address the user gets, and the destructor; otherwise what the user passed in. */
  function FirstRegistration(a: Serial, policy: Policy, r: Request): seq<Cleanup>
    requires HasBlock(a)
  {
    match r
    case Plain(_, _, _) => []
    case Destructible(_, _, destructor, _) => [Cleanup(Serve(a, policy, r).1, destructor)]
    case OnlyCleanup(elem, fn, _) => [Cleanup(elem, fn)]
  }

  /** The node is taken from the top of the block, and that is what it holds. */
  lemma {:induction false} NodeHoldsRegistration(a: Serial, policy: Policy, r: Request)
    requires HasBlock(a) && !r.Plain?
    ensures var b := Serve(a, policy, r).0;
      && b.limit == Ready(a, Needed(r), policy, r.mem).limit - 16 && b.limit in b.nodes
      && FirstRegistration(a, policy, r) == [b.nodes[b.limit]]
  {
  }

  lemma {:induction false} RegisteredExtended(a: Serial, lists: seq<seq<Cleanup>>, policy: Policy, r: Request)
    requires HasBlock(a) && lists != []
    ensures Registered(Extended(a, lists, policy, r)) == Registered(lists) + FirstRegistration(a, policy, r)
  {
  }

  lemma {:induction false} RunHolds(a: Serial, log: seq<Piece>, lists: seq<seq<Cleanup>>, policy: Policy, rs: seq<Request>)
    returns (lists': seq<seq<Cleanup>>)
    requires Inv(a, log) && LegalRun(a, policy, rs) && NodesHeld(a, lists)
    ensures NodesHeld(Run(a, policy, rs), lists')
    ensures Registered(lists') == Registered(lists) + Registrations(a, policy, rs)
    decreases |rs|
  {
    if rs == [] {
      lists' := lists;
      assert Registered(lists) + [] == Registered(lists);
    } else {
      ServeInv(a, log, policy, rs[0]);
      ServeHolds(a, log, lists, policy, rs[0]);
      RegisteredExtended(a, lists, policy, rs[0]);
      var next := Serve(a, policy, rs[0]).0;
      lists' := RunHolds(next, log + Pieces(a, policy, rs[0]), Extended(a, lists, policy, rs[0]), policy, rs[1..]);
      Associative(Registered(lists), FirstRegistration(a, policy, rs[0]), Registrations(next, policy, rs[1..]));
    }
  }

  /** After any run from a fresh arena, CleanupList runs exactly the registered cleanups, last registered first,
      if and only if no block added later has a size that is not a multiple of 8 and holds a single node. */
  lemma {:induction false} CleanupsRunInReverse(mem: nat, size: nat, policy: Policy, rs: seq<Request>)
    requires mem % 8 == 0 && size >= BLOCK_HEADER_SIZE + SERIAL_ARENA_SIZE
    requires LegalRun(New(mem, size), policy, rs)
    ensures var a := Run(New(mem, size), policy, rs);
      CleanupList(a) == Reverse(Registrations(New(mem, size), policy, rs)) <==> NoneLost(a)
  {
    NewInv(mem, size);
    assert Holds(New(mem, size), 0, []);
    var lists := RunHolds(New(mem, size), FirstPieces(mem), [[]], policy, rs);
    assert Registered(lists) == Registrations(New(mem, size), policy, rs);
    CleanupRunsAllIffNoneLost(Run(New(mem, size), policy, rs), lists);
  }

  // ---------- sizes that lose nothing ----------

  ghost predicate EvenBlocks(bs: seq<Block>) {
    && bs != [] && bs[0].size > 0 && bs[0].size % 4 == 0
    && forall i | 0 <= i < |bs| - 1 :: bs[i].size % 8 == 0
  }

  ghost predicate EvenSizes(a: Serial) {
    EvenBlocks(a.blocks)
  }

  lemma {:induction false} BlockSizeEven(policy: Policy, last: nat, n: nat)
    requires last > 0 && last % 4 == 0 && n % 8 == 0 && policy.maxBlockSize % 8 == 0
    ensures BlockSize(policy, last, n) % 8 == 0 && BlockSize(policy, last, n) > 0
  {
  }

  lemma {:induction false} GrownEvenSizes(a: Serial, n: nat, policy: Policy, mem: nat)
    requires EvenSizes(a) && n % 8 == 0 && policy.maxBlockSize % 8 == 0
    ensures EvenSizes(AllocateNewBlock(a, n, policy, mem))
  {
    BlockSizeEven(policy, a.blocks[0].size, n);
    EvenInFront(a.blocks, AllocateNewBlock(a, n, policy, mem).blocks[0], a.blocks[0].(start := a.limit));
  }

  lemma {:induction false} DivisibleByFour(n: nat)
    requires n % 8 == 0
    ensures n % 4 == 0
  {
  }

  lemma {:induction false} EvenInFront(bs: seq<Block>, b: Block, head: Block)
    requires EvenBlocks(bs) && b.size > 0 && b.size % 8 == 0 && head.size == bs[0].size
    ensures EvenBlocks([b, head] + bs[1..])
  {
    var bs' := [b, head] + bs[1..];
    DivisibleByFour(b.size);
    forall i | 0 <= i < |bs'| - 1 ensures bs'[i].size % 8 == 0 {
      if i > 0 { assert bs'[i].size == bs[i - 1].size; }
    }
  }

  lemma {:induction false} ServeEvenSizes(a: Serial, policy: Policy, r: Request)
    requires EvenSizes(a) && WellFormed(r) && policy.maxBlockSize % 8 == 0
    ensures EvenSizes(Serve(a, policy, r).0)
  {
    CarvedIsEven(r);
    if !HasSpace(a, Needed(r)) {
      GrownEvenSizes(a, Needed(r), policy, r.mem);
    }
    var b, at := ServeShape(a, policy, r);
  }

  lemma {:induction false} RunEvenSizes(a: Serial, policy: Policy, rs: seq<Request>)
    requires EvenSizes(a) && LegalRun(a, policy, rs) && policy.maxBlockSize % 8 == 0
    ensures EvenSizes(Run(a, policy, rs))
    decreases |rs|
  {
    if rs != [] {
      ServeEvenSizes(a, policy, rs[0]);
      RunEvenSizes(Serve(a, policy, rs[0]).0, policy, rs[1..]);
    }
  }

  /** With a maximal block size divisible by 8 and a first block size divisible by 4, no cleanup is ever lost. */
  lemma {:induction false} EvenSizesLoseNothing(mem: nat, size: nat, policy: Policy, rs: seq<Request>)
    requires mem % 8 == 0 && size >= BLOCK_HEADER_SIZE + SERIAL_ARENA_SIZE
    requires LegalRun(New(mem, size), policy, rs)
    requires size % 4 == 0 && policy.maxBlockSize % 8 == 0
    ensures CleanupList(Run(New(mem, size), policy, rs)) == Reverse(Registrations(New(mem, size), policy, rs))
  {
    RunEvenSizes(New(mem, size), policy, rs);
    CleanupsRunInReverse(mem, size, policy, rs);
  }

  /** A first block of 86 bytes is followed by one of 172, whose single cleanup never runs. */
  lemma {:induction false} LostCleanupWitness()
    ensures var a, r := New(0, 86), OnlyCleanup(1, 2, 1000);
      && LegalRun(a, DEFAULT_POLICY, [r])
      && Registrations(a, DEFAULT_POLICY, [r]) == [Cleanup(1, 2)]
      && CleanupList(Run(a, DEFAULT_POLICY, [r])) == []
  {
    var a, r := New(0, 86), OnlyCleanup(1, 2, 1000);
    var b := Serve(a, DEFAULT_POLICY, r).0;
    assert b.blocks[0] == Block(1000, 172, 0) && b.limit == 1156;
    assert Synced(b)[0].start == 1156 && CleanBlock(b.nodes, Synced(b)[0]) == [];
    assert Synced(b)[1..] == [Block(0, 86, 80)];
    assert CleanBlock(b.nodes, Block(0, 86, 80)) == [];
    assert CleanBlocks(b.nodes, [Block(0, 86, 80)]) == [];
    assert Run(a, DEFAULT_POLICY, [r]) == b;
  }
}
