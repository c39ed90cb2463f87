/** One thread's arena: objects are carved upward from `ptr` and cleanup nodes downward from `limit`,
    inside the newest of a list of blocks. */
module Arena {

  /** sizeof(Block), sizeof(CleanupNode) and sizeof(SerialArena), rounded up to 8, on a 64-bit target. */
  const BLOCK_HEADER_SIZE: nat := 24
  const CLEANUP_SIZE: nat := 16
  const SERIAL_ARENA_SIZE: nat := 56

  datatype Policy = Policy(startBlockSize: nat, maxBlockSize: nat)

  const DEFAULT_POLICY := Policy(256, 8192)

  /** `start` is where the block's cleanup nodes begin; it is set when the block stops being the newest. */
  datatype Block = Block(base: nat, size: nat, start: int)

  datatype Cleanup = Cleanup(elem: int, fn: int) | Uninitialized

  /** Newest block first.  `nodes` is the memory of the cleanup nodes, by address. */
  datatype Serial = Serial(
    blocks: seq<Block>, ptr: int, limit: int, spaceUsed: int, spaceAllocated: nat, nodes: map<int, Cleanup>)

  /** The least multiple of 8 that is not below `n`; AlignMask shows that the code's mask computes it. */
  function AlignUpTo8(n: nat): (r: nat)
    ensures n <= r < n + 8 && r % 8 == 0
  {
    if n == 0 then 0 else if n <= 8 then 8 else 8 + AlignUpTo8(n - 8)
  }

  /** The least multiple of `align` that is not below `p`; AlignMask shows that the code's mask computes it. */
  function AlignTo(p: int, align: nat): (r: int)
    requires align > 0
    ensures p > 0 ==> p <= r < p + align
    decreases p
  {
    if p <= 0 then 0 else align + AlignTo(p - align, align)
  }

  function Min(a: nat, b: nat): nat { if a < b then a else b }

  function Max(a: nat, b: nat): nat { if a < b then b else a }

  /** The block size AllocateMemory asks for. */
  function BlockSize(policy: Policy, lastSize: nat, minBytes: nat): nat {
    Max(if lastSize != 0 then Min(2 * lastSize, policy.maxBlockSize) else policy.startBlockSize,
        BLOCK_HEADER_SIZE + minBytes)
  }

  predicate HasBlock(a: Serial) {
    a.blocks != []
  }

  function New(mem: nat, size: nat): Serial {
    Serial([Block(mem, size, 0)], mem + BLOCK_HEADER_SIZE + SERIAL_ARENA_SIZE, mem + size - size % 8, 0, size, map[])
  }

  predicate HasSpace(a: Serial, n: nat) {
    n <= a.limit - a.ptr
  }

  /** A new block at `mem`, large enough for `n` bytes. */
  function AllocateNewBlock(a: Serial, n: nat, policy: Policy, mem: nat): Serial
    requires HasBlock(a)
  {
    var head := a.blocks[0];
    var size := BlockSize(policy, head.size, n);
    Serial([Block(mem, size, 0), head.(start := a.limit)] + a.blocks[1..],
      mem + BLOCK_HEADER_SIZE, mem + size,
      a.spaceUsed + (a.ptr - (head.base + BLOCK_HEADER_SIZE)), a.spaceAllocated + size, a.nodes)
  }

  function Ready(a: Serial, n: nat, policy: Policy, mem: nat): Serial
    requires HasBlock(a)
  {
    if HasSpace(a, n) then a else AllocateNewBlock(a, n, policy, mem)
  }

  /** The arena after the allocation, and the address returned. */
  function AllocateAligned(a: Serial, n: nat, policy: Policy, mem: nat): (Serial, int)
    requires HasBlock(a)
  {
    var b := Ready(a, n, policy, mem);
    (b.(ptr := b.ptr + n), b.ptr)
  }

  /** Also returns the address of the cleanup node, not yet filled in. */
  function AllocateAlignedWithCleanup(a: Serial, n: nat, policy: Policy, mem: nat): (Serial, int, int)
    requires HasBlock(a)
  {
    var b := Ready(a, n + CLEANUP_SIZE, policy, mem);
    (b.(ptr := b.ptr + n, limit := b.limit - CLEANUP_SIZE), b.ptr, b.limit - CLEANUP_SIZE)
  }

  function SetNode(a: Serial, node: int, c: Cleanup): Serial {
    a.(nodes := a.nodes[node := c])
  }

  function SpaceUsed(a: Serial): int
    requires HasBlock(a)
  {
    a.ptr - (a.blocks[0].base + BLOCK_HEADER_SIZE) + a.spaceUsed - SERIAL_ARENA_SIZE
  }

  // ---------- requests ----------

  /** What users ask of an arena; `mem` is where the block allocator would put a new block. */
  datatype Request =
    | Plain(size: nat, align: nat, mem: nat)
    | Destructible(size: nat, align: nat, destructor: int, mem: nat)
    | OnlyCleanup(elem: int, fn: int, mem: nat)

  predicate PowerOfTwo(n: nat) {
    n == 1 || (n > 1 && n % 2 == 0 && PowerOfTwo(n / 2))
  }

  /** An over-aligned request has a power-of-two alignment and, as the assertions in the arena demand, a size
      that keeps the bump pointer 8-byte aligned. */
  predicate WellFormed(r: Request) {
    !r.OnlyCleanup? ==> r.align > 0 && (r.align > 8 ==> PowerOfTwo(r.align) && r.size % 8 == 0)
  }

  /** The bytes taken from the bump pointer: over-aligned requests take align - 8 extra. */
  function Carved(r: Request): nat {
    if r.OnlyCleanup? then 0
    else if r.align <= 8 then AlignUpTo8(r.size) else r.size + (r.align - 8)
  }

  function Needed(r: Request): nat {
    Carved(r) + if r.Plain? then 0 else CLEANUP_SIZE
  }

  /** The address the user gets, from the address carved. */
  function Placed(r: Request, address: int): int {
    if r.OnlyCleanup? || r.align <= 8 then address else AlignTo(address, r.align)
  }

  function NodeFor(r: Request, address: int): Cleanup
    requires !r.Plain?
  {
    match r
    case Destructible(_, _, destructor, _) => Cleanup(Placed(r, address), destructor)
    case OnlyCleanup(elem, fn, _) => Cleanup(elem, fn)
  }

  /** Serving a request: AllocateInternal, AllocateAligned and AddCleanup. */
  function Serve(a: Serial, policy: Policy, r: Request): (Serial, int)
    requires HasBlock(a)
  {
    if r.Plain? then
      var (b, address) := AllocateAligned(a, Carved(r), policy, r.mem);
      (b, Placed(r, address))
    else
      var (b, address, node) := AllocateAlignedWithCleanup(a, Carved(r), policy, r.mem);
      (SetNode(b, node, NodeFor(r, address)), Placed(r, address))
  }

  // ---------- what is carved, and where ----------

  /** A stretch of memory in use, in the block that starts at `block`. */
  datatype Piece = Piece(lo: int, hi: int, block: nat)

  predicate Disjoint(p: Piece, q: Piece) {
    p.hi <= q.lo || q.hi <= p.lo
  }

  function Header(b: Block): Piece {
    Piece(b.base, b.base + BLOCK_HEADER_SIZE, b.base)
  }

  function UserSize(r: Request): nat {
    if r.OnlyCleanup? then 0 else if r.align <= 8 then AlignUpTo8(r.size) else r.size
  }

  /** The pieces a request adds: a header if a block was needed, the user's region, the cleanup node. */
  function Pieces(a: Serial, policy: Policy, r: Request): seq<Piece>
    requires HasBlock(a)
  {
    var b := Ready(a, Needed(r), policy, r.mem);
    var base := b.blocks[0].base;
    var at := Placed(r, b.ptr);
    NewHeader(a, policy, r)
    + [Piece(at, at + UserSize(r), base)]
    + (if r.Plain? then [] else [Piece(b.limit - CLEANUP_SIZE, b.limit, base)])
  }

  function NewHeader(a: Serial, policy: Policy, r: Request): seq<Piece>
    requires HasBlock(a)
  {
    if HasSpace(a, Needed(r)) then [] else [Header(Ready(a, Needed(r), policy, r.mem).blocks[0])]
  }

  /** A fresh block overlaps none of the arena's blocks and is 8-byte aligned. */
  predicate FreshBlock(a: Serial, size: nat, mem: nat) {
    mem % 8 == 0 &&
    forall i | 0 <= i < |a.blocks| :: a.blocks[i].base + a.blocks[i].size <= mem || mem + size <= a.blocks[i].base
  }

  predicate Legal(a: Serial, policy: Policy, r: Request)
    requires HasBlock(a)
  {
    WellFormed(r) &&
    (!HasSpace(a, Needed(r)) ==> FreshBlock(a, BlockSize(policy, a.blocks[0].size, Needed(r)), r.mem))
  }

  ghost predicate BlocksApart(bs: seq<Block>) {
    forall i, j | 0 <= i < j < |bs| :: bs[i].base + bs[i].size <= bs[j].base || bs[j].base + bs[j].size <= bs[i].base
  }

  ghost predicate BlocksOk(bs: seq<Block>) {
    && bs != [] && BlocksApart(bs)
    && forall i | 0 <= i < |bs| :: bs[i].size >= BLOCK_HEADER_SIZE && bs[i].base % 8 == 0
  }

  ghost predicate FrontOk(a: Serial)
    requires HasBlock(a)
  {
    var head := a.blocks[0];
    head.base + BLOCK_HEADER_SIZE <= a.ptr <= a.limit <= head.base + head.size && a.ptr % 8 == 0
  }

  /** In one of the blocks; in the newest one, outside the free middle. */
  ghost predicate Inside(a: Serial, p: Piece) {
    exists i | 0 <= i < |a.blocks| :: InBlock(a, i, p)
  }

  ghost predicate InBlock(a: Serial, i: nat, p: Piece)
    requires i < |a.blocks|
  {
    && p.block == a.blocks[i].base
    && p.block <= p.lo <= p.hi <= p.block + a.blocks[i].size
    && (i == 0 ==> p.hi <= a.ptr || p.lo >= a.limit)
  }

  ghost predicate AllApart(log: seq<Piece>) {
    forall i, j | 0 <= i < j < |log| :: Disjoint(log[i], log[j])
  }

  ghost predicate Inv(a: Serial, log: seq<Piece>) {
    && BlocksOk(a.blocks) && FrontOk(a)
    && (forall i | 0 <= i < |log| :: Inside(a, log[i]))
    && AllApart(log)
  }

  function FirstPieces(mem: nat): seq<Piece> {
    [Piece(mem, mem + BLOCK_HEADER_SIZE, mem),
     Piece(mem + BLOCK_HEADER_SIZE, mem + BLOCK_HEADER_SIZE + SERIAL_ARENA_SIZE, mem)]
  }

  lemma {:induction false} NewInv(mem: nat, size: nat)
    requires mem % 8 == 0 && size >= BLOCK_HEADER_SIZE + SERIAL_ARENA_SIZE
    ensures Inv(New(mem, size), FirstPieces(mem))
  {
    var a := New(mem, size);
    forall p | p in FirstPieces(mem) ensures Inside(a, p) { assert InBlock(a, 0, p); }
  }

  /** A block made for `n` bytes has room for them, so no request grows the arena twice. */
  lemma {:induction false} OneGrowthSuffices(a: Serial, n: nat, policy: Policy, mem: nat)
    requires HasBlock(a)
    ensures HasSpace(AllocateNewBlock(a, n, policy, mem), n)
    ensures HasSpace(Ready(a, n, policy, mem), n)
  {
  }

  /** A new block is twice as large as the last one, up to the policy's maximum, and larger only if the request
      needs it; the first is as large as the policy says. */
  lemma {:induction false} NewBlockSize(a: Serial, n: nat, policy: Policy, mem: nat)
    requires HasBlock(a)
    ensures var last, size := a.blocks[0].size, AllocateNewBlock(a, n, policy, mem).blocks[0].size;
      && (last > 0 && 24 + n <= 2 * last <= policy.maxBlockSize ==> size == 2 * last)
      && (last > 0 && 24 + n <= policy.maxBlockSize <= 2 * last ==> size == policy.maxBlockSize)
      && (last > 0 && (24 + n > 2 * last || 24 + n > policy.maxBlockSize) ==> size == 24 + n)
      && (last == 0 ==> size == if 24 + n <= policy.startBlockSize then policy.startBlockSize else 24 + n)
  {
  }

  /** Without a policy: 256 bytes first, then doubling up to 8192. */
  lemma {:induction false} DefaultSizes(n: nat)
    ensures n <= 232 ==> BlockSize(DEFAULT_POLICY, 0, n) == 256 && BlockSize(DEFAULT_POLICY, 256, n) == 512
    ensures n <= 232 ==> BlockSize(DEFAULT_POLICY, 4096, n) == 8192 && BlockSize(DEFAULT_POLICY, 8192, n) == 8192
    ensures n > 8168 ==> BlockSize(DEFAULT_POLICY, 8192, n) == 24 + n
  {
  }

  /** No less could be taken: some addresses need all of it. */
  lemma {:induction false} CarvedIsTight(r: Request)
    requires WellFormed(r) && !r.OnlyCleanup?
    ensures exists address: nat :: address % 8 == 0 && Placed(r, address) + UserSize(r) == address + Carved(r)
    ensures r.align <= 8 ==> r.size <= UserSize(r) < r.size + 8
    ensures r.align > 8 ==> UserSize(r) == r.size
  {
    if r.align > 8 {
      assert AlignTo(8, r.align) == r.align;
      assert Placed(r, 8) + UserSize(r) == 8 + Carved(r);
    } else {
      assert Placed(r, 0) + UserSize(r) == 0 + Carved(r);
    }
  }

  /** What is apart from everything in the arena stays so when a piece inside is added. */
  lemma {:induction false} AddPiece(a: Serial, log: seq<Piece>, b: Serial, p: Piece)
    requires Inv(a, log) && BlocksOk(b.blocks) && FrontOk(b) && Inside(b, p)
    requires forall i | 0 <= i < |log| :: Inside(b, log[i]) && Disjoint(log[i], p)
    ensures Inv(b, log + [p])
  {
  }

  lemma {:induction false} GrownBlocks(a: Serial, n: nat, policy: Policy, mem: nat)
    requires BlocksOk(a.blocks) && FreshBlock(a, BlockSize(policy, a.blocks[0].size, n), mem)
    ensures BlocksOk(AllocateNewBlock(a, n, policy, mem).blocks)
  {
    var b := AllocateNewBlock(a, n, policy, mem);
    forall i | 0 <= i < |a.blocks| ensures b.blocks[i + 1].base == a.blocks[i].base && b.blocks[i + 1].size == a.blocks[i].size {}
    forall i, j | 0 <= i < j < |b.blocks|
      ensures b.blocks[i].base + b.blocks[i].size <= b.blocks[j].base || b.blocks[j].base + b.blocks[j].size <= b.blocks[i].base
    {
      if i > 0 { assert b.blocks[i].base == a.blocks[i - 1].base; }
      assert b.blocks[j].base == a.blocks[j - 1].base;
    }
  }

  lemma {:induction false} GrownFront(a: Serial, n: nat, policy: Policy, mem: nat)
    requires HasBlock(a) && mem % 8 == 0
    ensures FrontOk(AllocateNewBlock(a, n, policy, mem))
  {
    assert (mem + BLOCK_HEADER_SIZE) % 8 == 0;
  }

  /** What is in the arena stays in its block, which is apart from the new one. */
  lemma {:induction false} GrownInside(a: Serial, n: nat, policy: Policy, mem: nat, p: Piece)
    requires HasBlock(a) && Inside(a, p) && FreshBlock(a, BlockSize(policy, a.blocks[0].size, n), mem)
    ensures var b := AllocateNewBlock(a, n, policy, mem); Inside(b, p) && Disjoint(p, Header(b.blocks[0]))
  {
    var b := AllocateNewBlock(a, n, policy, mem);
    var k :| 0 <= k < |a.blocks| && InBlock(a, k, p);
    assert InBlock(b, k + 1, p);
  }

  lemma {:induction false} GrowInv(a: Serial, log: seq<Piece>, n: nat, policy: Policy, mem: nat)
    requires Inv(a, log) && FreshBlock(a, BlockSize(policy, a.blocks[0].size, n), mem)
    ensures var b := AllocateNewBlock(a, n, policy, mem); Inv(b, log + [Header(b.blocks[0])])
  {
    var b := AllocateNewBlock(a, n, policy, mem);
    var p := Header(b.blocks[0]);
    GrownBlocks(a, n, policy, mem);
    GrownFront(a, n, policy, mem);
    forall i | 0 <= i < |log| ensures Inside(b, log[i]) && Disjoint(log[i], p) {
      GrownInside(a, n, policy, mem, log[i]);
    }
    assert InBlock(b, 0, p);
    AddPiece(a, log, b, p);
  }

  /** Two different blocks' pieces never meet. */
  lemma {:induction false} OtherBlock(a: Serial, i: nat, j: nat, p: Piece, q: Piece)
    requires BlocksOk(a.blocks) && i < |a.blocks| && j < |a.blocks| && i != j
    requires InBlock(a, i, p) && InBlock(a, j, q)
    ensures Disjoint(p, q)
  {
  }

  /** A stretch of the free middle may be taken from either end. */
  lemma {:induction false} TakeInv(a: Serial, log: seq<Piece>, ptr: int, limit: int, p: Piece)
    requires Inv(a, log)
    requires a.ptr <= ptr <= limit <= a.limit && ptr % 8 == 0
    requires p.block == a.blocks[0].base && p.lo <= p.hi
    requires (a.ptr <= p.lo && p.hi <= ptr) || (limit <= p.lo && p.hi <= a.limit)
    ensures Inv(a.(ptr := ptr, limit := limit), log + [p])
  {
    var b := a.(ptr := ptr, limit := limit);
    assert InBlock(b, 0, p);
    forall i | 0 <= i < |log| ensures Inside(b, log[i]) && Disjoint(log[i], p) {
      var k :| 0 <= k < |a.blocks| && InBlock(a, k, log[i]);
      assert InBlock(b, k, log[i]);
      if k != 0 { OtherBlock(b, k, 0, log[i], p); }
    }
    AddPiece(a, log, b, p);
  }

  // ---------- alignment ----------

  /** Subtracting a divisor does not change the remainder. */
  lemma {:induction false} RemainderShift(x: int, n: nat)
    requires n > 0
    ensures (x + n) % n == x % n
  {
    var d, m := x / n, x % n;
    assert x + n == (d + 1) * n + m;
    QuotientUnique(x + n, n, d + 1, m);
  }

  lemma {:induction false} QuotientUnique(x: int, n: nat, d: int, m: int)
    requires n > 0 && 0 <= m < n && x == d * n + m
    ensures x % n == m
  {
    var k := d - x / n;
    assert k * n == x % n - m;
    MultipleBounds(k, n);
  }

  lemma {:induction false} MultipleBounds(k: int, n: int)
    requires n >= 0
    ensures k >= 1 ==> k * n >= n
    ensures k <= -1 ==> k * n <= -n
  {
  }

  lemma {:induction false} BigPowersOfTwo(n: nat)
    requires PowerOfTwo(n) && n > 8
    ensures n % 8 == 0
  {
    assert PowerOfTwo(n / 2) && PowerOfTwo(n / 2 / 2);
  }

  lemma {:induction false} AlignToIsMultiple(p: int, align: nat)
    requires align > 0
    ensures AlignTo(p, align) % align == 0
    decreases p
  {
    if p > 0 {
      AlignToIsMultiple(p - align, align);
      RemainderShift(AlignTo(p - align, align), align);
    }
  }

  lemma {:induction false} AlignToInEights(i: nat, j: nat) returns (m: nat)
    requires j > 0
    ensures AlignTo(8 * i, 8 * j) == 8 * m && i <= m <= i + j - 1
    decreases i
  {
    if i == 0 {
      m := 0;
    } else if i <= j {
      assert AlignTo(8 * i - 8 * j, 8 * j) == 0;
      m := j;
    } else {
      m := AlignToInEights(i - j, j);
      assert 8 * (i - j) == 8 * i - 8 * j;
      m := m + j;
    }
  }

  /** Rounding an 8-byte aligned address up costs at most align - 8 bytes. */
  lemma {:induction false} AlignToFits(p: nat, align: nat)
    requires p % 8 == 0 && align % 8 == 0 && align > 0
    ensures p <= AlignTo(p, align) <= p + align - 8 && AlignTo(p, align) % 8 == 0
  {
    var i, j := p / 8, align / 8;
    Eights(p);
    Eights(align);
    var m := AlignToInEights(i, j);
    InEights(m);
  }

  lemma {:induction false} Eights(n: nat)
    requires n % 8 == 0
    ensures n == 8 * (n / 8)
  {
  }

  lemma {:induction false} InEights(m: nat)
    ensures 8 * m % 8 == 0
  {
  }

  lemma {:induction false} CarvedIsEven(r: Request)
    requires WellFormed(r)
    ensures Carved(r) % 8 == 0 && Needed(r) % 8 == 0
  {
    if !r.OnlyCleanup? && r.align > 8 {
      BigPowersOfTwo(r.align);
      EvenSum(r.size, r.align - 8);
    }
    EvenSum(Carved(r), if r.Plain? then 0 else CLEANUP_SIZE);
  }

  lemma {:induction false} EvenSum(x: nat, y: nat)
    requires x % 8 == 0 && (y % 8 == 0 || (y + 8) % 8 == 0)
    ensures (x + y) % 8 == 0
  {
  }

  /** The user's region fits into the bytes carved for it. */
  lemma {:induction false} PlacedFits(r: Request, address: nat)
    requires WellFormed(r) && address % 8 == 0
    ensures address <= Placed(r, address) && Placed(r, address) + UserSize(r) <= address + Carved(r)
  {
    if !r.OnlyCleanup? && r.align > 8 {
      BigPowersOfTwo(r.align);
      AlignToFits(address, r.align);
    }
  }

  /** It starts where its alignment demands. */
  lemma {:induction false} PlacedAligned(r: Request, address: nat)
    requires WellFormed(r) && address % 8 == 0 && !r.OnlyCleanup?
    ensures Placed(r, address) % (if r.align <= 8 then 8 else r.align) == 0
  {
    if r.align > 8 {
      AlignToIsMultiple(address, r.align);
    }
  }

  // ---------- one request ----------

  lemma {:induction false} ReadyInv(a: Serial, log: seq<Piece>, policy: Policy, r: Request)
    requires Inv(a, log) && Legal(a, policy, r)
    ensures Inv(Ready(a, Needed(r), policy, r.mem), log + NewHeader(a, policy, r))
    ensures HasSpace(Ready(a, Needed(r), policy, r.mem), Needed(r))
  {
    if HasSpace(a, Needed(r)) { assert log + [] == log; } else { GrowInv(a, log, Needed(r), policy, r.mem); }
  }

  /** Carving a user region, and then a cleanup node from the other end. */
  lemma {:induction false} CarveInv(b: Serial, log: seq<Piece>, n: nat, at: int, size: nat)
    requires Inv(b, log) && n % 8 == 0 && b.ptr <= at && at + size <= b.ptr + n <= b.limit
    ensures var base, c := b.blocks[0].base, b.(ptr := b.ptr + n);
      && Inv(c, log + [Piece(at, at + size, base)])
      && (b.ptr + n <= b.limit - CLEANUP_SIZE ==>
          Inv(c.(limit := b.limit - CLEANUP_SIZE),
            log + [Piece(at, at + size, base)] + [Piece(b.limit - CLEANUP_SIZE, b.limit, base)]))
  {
    var base, c := b.blocks[0].base, b.(ptr := b.ptr + n);
    var user, node := Piece(at, at + size, base), Piece(b.limit - CLEANUP_SIZE, b.limit, base);
    TakeInv(b, log, c.ptr, c.limit, user);
    if b.ptr + n <= b.limit - CLEANUP_SIZE {
      TakeInv(c, log + [user], c.ptr, b.limit - CLEANUP_SIZE, node);
    }
  }

  /** Serving a request keeps everything in use apart and inside its block. */
  lemma {:induction false} ServeInv(a: Serial, log: seq<Piece>, policy: Policy, r: Request)
    requires Inv(a, log) && Legal(a, policy, r)
    ensures Inv(Serve(a, policy, r).0, log + Pieces(a, policy, r))
  {
    ReadyInv(a, log, policy, r);
    var b, at := ServeShape(a, policy, r);
    CarvedIsEven(r);
    PlacedFits(r, b.ptr);
    ServedInv(b, log, NewHeader(a, policy, r), Carved(r), at, UserSize(r), r, Serve(a, policy, r).0, Pieces(a, policy, r));
  }

  lemma {:induction false} ServedInv(b: Serial, log: seq<Piece>, grown: seq<Piece>, n: nat, at: int, size: nat, r: Request,
      served: Serial, pieces: seq<Piece>)
    requires Inv(b, log + grown) && n % 8 == 0 && b.ptr <= at && at + size <= b.ptr + n
    requires HasSpace(b, n + if r.Plain? then 0 else CLEANUP_SIZE)
    requires served == if r.Plain? then b.(ptr := b.ptr + n)
      else SetNode(b.(ptr := b.ptr + n, limit := b.limit - CLEANUP_SIZE), b.limit - CLEANUP_SIZE, NodeFor(r, b.ptr))
    requires pieces == grown + [Piece(at, at + size, b.blocks[0].base)]
      + (if r.Plain? then [] else [Piece(b.limit - CLEANUP_SIZE, b.limit, b.blocks[0].base)])
    ensures Inv(served, log + pieces)
  {
    var user, node := Piece(at, at + size, b.blocks[0].base), Piece(b.limit - CLEANUP_SIZE, b.limit, b.blocks[0].base);
    CarveInv(b, log + grown, n, at, size);
    Regroup(log, grown, user, node);
    SameShape(if r.Plain? then b.(ptr := b.ptr + n) else b.(ptr := b.ptr + n, limit := b.limit - CLEANUP_SIZE),
      served, log + pieces);
  }

  /** Serving only moves `ptr` and `limit` and fills the node. */
  lemma {:induction false} ServeShape(a: Serial, policy: Policy, r: Request) returns (b: Serial, at: int)
    requires HasBlock(a)
    ensures b == Ready(a, Needed(r), policy, r.mem) && at == Placed(r, b.ptr)
    ensures Serve(a, policy, r).0 == (if r.Plain? then b.(ptr := b.ptr + Carved(r))
      else SetNode(b.(ptr := b.ptr + Carved(r), limit := b.limit - CLEANUP_SIZE), b.limit - CLEANUP_SIZE, NodeFor(r, b.ptr)))
    ensures Pieces(a, policy, r) == NewHeader(a, policy, r) + [Piece(at, at + UserSize(r), b.blocks[0].base)]
      + (if r.Plain? then [] else [Piece(b.limit - CLEANUP_SIZE, b.limit, b.blocks[0].base)])
  {
    b := Ready(a, Needed(r), policy, r.mem);
    at := Placed(r, b.ptr);
  }

  lemma {:induction false} Regroup<T>(a: seq<T>, b: seq<T>, x: T, y: T)
    ensures a + (b + [x] + []) == a + b + [x]
    ensures a + (b + [x] + [y]) == a + b + [x] + [y]
  {
  }

  lemma {:induction false} SameShape(a: Serial, b: Serial, log: seq<Piece>)
    requires Inv(a, log) && b.blocks == a.blocks && b.ptr == a.ptr && b.limit == a.limit
    ensures Inv(b, log)
  {
    forall i | 0 <= i < |log| ensures Inside(b, log[i]) {
      var k :| 0 <= k < |a.blocks| && InBlock(a, k, log[i]);
      assert InBlock(b, k, log[i]);
    }
  }

  // ---------- runs ----------

  function Run(a: Serial, policy: Policy, rs: seq<Request>): (b: Serial)
    requires HasBlock(a)
    ensures HasBlock(b)
    decreases |rs|
  {
    if rs == [] then a else Run(Serve(a, policy, rs[0]).0, policy, rs[1..])
  }

  function Log(a: Serial, policy: Policy, rs: seq<Request>): seq<Piece>
    requires HasBlock(a)
    decreases |rs|
  {
    if rs == [] then [] else Pieces(a, policy, rs[0]) + Log(Serve(a, policy, rs[0]).0, policy, rs[1..])
  }

  predicate LegalRun(a: Serial, policy: Policy, rs: seq<Request>)
    requires HasBlock(a)
    decreases |rs|
  {
    rs == [] || (Legal(a, policy, rs[0]) && LegalRun(Serve(a, policy, rs[0]).0, policy, rs[1..]))
  }

  lemma {:induction false} RunInv(a: Serial, log: seq<Piece>, policy: Policy, rs: seq<Request>)
    requires Inv(a, log) && LegalRun(a, policy, rs)
    ensures Inv(Run(a, policy, rs), log + Log(a, policy, rs))
    decreases |rs|
  {
    if rs == [] {
      assert log + [] == log;
    } else {
      ServeInv(a, log, policy, rs[0]);
      var rest := Log(Serve(a, policy, rs[0]).0, policy, rs[1..]);
      assert (log + Pieces(a, policy, rs[0])) + rest == log + (Pieces(a, policy, rs[0]) + rest);
      RunInv(Serve(a, policy, rs[0]).0, log + Pieces(a, policy, rs[0]), policy, rs[1..]);
    }
  }

  ghost predicate WithinItsBlock(bs: seq<Block>, p: Piece) {
    exists k | 0 <= k < |bs| :: p.block == bs[k].base && bs[k].base <= p.lo <= p.hi <= bs[k].base + bs[k].size
  }

  /** From a fresh arena, after any requests: block headers, the arena object, the users' regions and the
      cleanup nodes are pairwise apart, and each lies in the block it was carved from. */
  lemma {:induction false} NothingOverlaps(mem: nat, size: nat, policy: Policy, rs: seq<Request>)
    requires mem % 8 == 0 && size >= BLOCK_HEADER_SIZE + SERIAL_ARENA_SIZE
    requires LegalRun(New(mem, size), policy, rs)
    ensures var a, log := Run(New(mem, size), policy, rs), FirstPieces(mem) + Log(New(mem, size), policy, rs);
      && AllApart(log)
      && (forall i | 0 <= i < |log| :: WithinItsBlock(a.blocks, log[i]))
  {
    NewInv(mem, size);
    RunInv(New(mem, size), FirstPieces(mem), policy, rs);
    var a, log := Run(New(mem, size), policy, rs), FirstPieces(mem) + Log(New(mem, size), policy, rs);
    forall i | 0 <= i < |log| ensures WithinItsBlock(a.blocks, log[i]) {
      assert Inside(a, log[i]);
      var k :| 0 <= k < |a.blocks| && InBlock(a, k, log[i]);
    }
  }

  /** In any state reached, a request's region is as large as asked, starts at a multiple of its
      alignment, and needs at most one new block. */
  lemma {:induction false} RegionAsAsked(a: Serial, log: seq<Piece>, policy: Policy, r: Request)
    requires Inv(a, log) && Legal(a, policy, r) && !r.OnlyCleanup?
    ensures var (b, address) := Serve(a, policy, r);
      && address % (if r.align <= 8 then 8 else r.align) == 0
      && UserSize(r) >= r.size
      && Piece(address, address + UserSize(r), b.blocks[0].base) in Pieces(a, policy, r)
      && (|b.blocks| == |a.blocks| || |b.blocks| == |a.blocks| + 1)
  {
    ReadyInv(a, log, policy, r);
    var b, at := ServeShape(a, policy, r);
    PlacedAligned(r, b.ptr);
    var p := Pieces(a, policy, r);
    assert p[if HasSpace(a, Needed(r)) then 0 else 1] == Piece(at, at + UserSize(r), b.blocks[0].base);
  }

  // ---------- accounting ----------

  function TotalCarved(rs: seq<Request>): nat {
    if rs == [] then 0 else Carved(rs[0]) + TotalCarved(rs[1..])
  }

  function TotalSize(bs: seq<Block>): nat {
    if bs == [] then 0 else bs[0].size + TotalSize(bs[1..])
  }

  ghost predicate Accounted(a: Serial) {
    a.spaceAllocated == TotalSize(a.blocks)
  }

  lemma {:induction false} ServeAccounts(a: Serial, policy: Policy, r: Request)
    requires HasBlock(a) && Accounted(a)
    ensures var b := Serve(a, policy, r).0; Accounted(b) && SpaceUsed(b) == SpaceUsed(a) + Carved(r)
  {
  }

  /** SpaceUsed is the sum of the sizes carved for users, cleanup nodes and headers not counted;
      SpaceAllocated is the sum of the block sizes. */
  lemma {:induction false} RunAccounts(a: Serial, policy: Policy, rs: seq<Request>)
    requires HasBlock(a) && Accounted(a)
    ensures var b := Run(a, policy, rs); Accounted(b) && SpaceUsed(b) == SpaceUsed(a) + TotalCarved(rs)
    decreases |rs|
  {
    if rs != [] {
      ServeAccounts(a, policy, rs[0]);
      RunAccounts(Serve(a, policy, rs[0]).0, policy, rs[1..]);
    }
  }
}
