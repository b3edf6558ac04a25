/** The slab-backed buffer pool and the string copies made through it. */
module BufferPools {
  import opened Arithmetic
  import opened Entries

  /** One vector of `slabs_`: carved into blocks, or made for a single oversize request. */
  datatype Slab = Slab(size: nat, oversize: bool)

  /** A `char*` handed out by the pool: the index-th block of a slab. */
  datatype Block = Block(slab: nat, index: nat)

  datatype Pool = Pool(blockSize: nat, slabs: seq<Slab>, free: seq<Block>, held: set<Block>)

  const SLAB_BLOCKS := 64

  predicate HasBlock(blockSize: nat, s: Slab, index: nat)
    requires blockSize > 0
  {
    index < if s.oversize then 1 else s.size / blockSize
  }

  predicate IsBlock(p: Pool, b: Block)
    requires p.blockSize > 0
  {
    b.slab < |p.slabs| && HasBlock(p.blockSize, p.slabs[b.slab], b.index)
  }

  /** Where a block's memory starts in its slab, and how long it is. */
  function Offset(p: Pool, b: Block): nat {
    b.index * p.blockSize
  }

  function Extent(p: Pool, b: Block): nat
    requires b.slab < |p.slabs|
  {
    if p.slabs[b.slab].oversize then p.slabs[b.slab].size else p.blockSize
  }

  function Carve(slab: nat, n: nat): (r: seq<Block>)
    ensures |r| == n && forall i :: 0 <= i < n ==> r[i] == Block(slab, i)
  {
    seq(n, (i: nat) => Block(slab, i))
  }

  function New(blockSize: nat, initialBlocks: nat): Pool {
    Pool(blockSize, [Slab(initialBlocks * blockSize, false)], Carve(0, initialBlocks), {})
  }

  function Refilled(p: Pool): Pool {
    if p.free != [] then p
    else p.(slabs := p.slabs + [Slab(p.blockSize * SLAB_BLOCKS, false)], free := Carve(|p.slabs|, SLAB_BLOCKS))
  }

  function Acquired(p: Pool, minSize: nat): (Pool, Block) {
    if minSize > p.blockSize then
      var b := Block(|p.slabs|, 0);
      (p.(slabs := p.slabs + [Slab(minSize, true)], held := p.held + {b}), b)
    else
      var r := Refilled(p);
      var b := r.free[|r.free| - 1];
      (r.(free := r.free[..|r.free| - 1], held := r.held + {b}), b)
  }

  function Released(p: Pool, b: Block): Pool {
    p.(free := p.free + [b], held := p.held - {b})
  }

  // ----- Accounting -----

  /** `allocated_blocks` */
  function Allocated(blockSize: nat, slabs: seq<Slab>): nat
    requires blockSize > 0
  {
    if slabs == [] then 0 else Allocated(blockSize, slabs[..|slabs| - 1]) + slabs[|slabs| - 1].size / blockSize
  }

  /** How many blocks oversize slabs count for beyond the one each of them is. */
  function Overcount(blockSize: nat, slabs: seq<Slab>): nat
    requires blockSize > 0
  {
    if slabs == [] then 0
    else
      var s := slabs[|slabs| - 1];
      Overcount(blockSize, slabs[..|slabs| - 1]) +
      if s.oversize && s.size >= blockSize then s.size / blockSize - 1 else 0
  }

  ghost predicate GoodSlab(blockSize: nat, s: Slab)
    requires blockSize > 0
  {
    if s.oversize then s.size > blockSize else s.size % blockSize == 0
  }

  /** Free and held blocks are different blocks, together all blocks, and counted exactly. */
  ghost predicate Inv(p: Pool) {
    && p.blockSize > 0
    && (forall i :: 0 <= i < |p.slabs| ==> GoodSlab(p.blockSize, p.slabs[i]))
    && (forall i, j :: 0 <= i < j < |p.free| ==> p.free[i] != p.free[j])
    && (forall b :: b in p.free ==> b !in p.held)
    && (forall b :: IsBlock(p, b) <==> b in p.free || b in p.held)
    && |p.free| + |p.held| + Overcount(p.blockSize, p.slabs) == Allocated(p.blockSize, p.slabs)
  }

  lemma NewInv(blockSize: nat, initialBlocks: nat)
    requires blockSize > 0
    ensures Inv(New(blockSize, initialBlocks))
  {
    MulDiv(initialBlocks, blockSize);
    var p := New(blockSize, initialBlocks);
    assert p.slabs[..0] == [];
    forall b ensures IsBlock(p, b) <==> b in p.free {
      if IsBlock(p, b) { assert p.free[b.index] == b; }
    }
  }

  lemma RefilledInv(p: Pool)
    requires Inv(p)
    ensures Inv(Refilled(p)) && Refilled(p).free != [] && Refilled(p).held == p.held
  {
    if p.free == [] {
      var r := Refilled(p);
      MulDiv(SLAB_BLOCKS, p.blockSize);
      assert r.slabs[..|p.slabs|] == p.slabs;
      forall b ensures IsBlock(r, b) <==> b in r.free || b in r.held {
        if b.slab == |p.slabs| && b.index < SLAB_BLOCKS { assert r.free[b.index] == b; }
        assert b.slab < |p.slabs| ==> (IsBlock(r, b) <==> IsBlock(p, b));
      }
    }
  }

  lemma OversizeInv(p: Pool, minSize: nat)
    requires Inv(p) && minSize > p.blockSize
    ensures Inv(Acquired(p, minSize).0) && Acquired(p, minSize).1 !in p.held
  {
    var (r, b) := Acquired(p, minSize);
    assert r.slabs[..|p.slabs|] == p.slabs;
    assert !IsBlock(p, b);
    forall x ensures IsBlock(r, x) <==> x in r.free || x in r.held {
      assert x.slab < |p.slabs| ==> (IsBlock(r, x) <==> IsBlock(p, x));
    }
  }

  lemma LastRemoved(s: seq<Block>)
    requires s != [] && forall i, j :: 0 <= i < j < |s| ==> s[i] != s[j]
    ensures var r := s[..|s| - 1]; forall x :: x in r <==> x in s && x != s[|s| - 1]
  {
    assert s == s[..|s| - 1] + [s[|s| - 1]];
  }

  lemma PopFreeInv(p: Pool)
    requires Inv(p) && p.free != []
    ensures var b := p.free[|p.free| - 1]; b !in p.held && Inv(p.(free := p.free[..|p.free| - 1], held := p.held + {b}))
  {
    var b := p.free[|p.free| - 1];
    var r := p.(free := p.free[..|p.free| - 1], held := p.held + {b});
    assert b in p.free && b !in p.held;
    LastRemoved(p.free);
    forall x ensures IsBlock(r, x) <==> x in r.free || x in r.held {
      assert IsBlock(r, x) <==> IsBlock(p, x);
    }
  }

  lemma AcquiredInv(p: Pool, minSize: nat)
    requires Inv(p)
    ensures var (r, b) := Acquired(p, minSize);
            && Inv(r) && b in r.held && b !in p.held && IsBlock(r, b)
            && Extent(r, b) >= minSize && Extent(r, b) >= r.blockSize
  {
    var (r, b) := Acquired(p, minSize);
    if minSize > p.blockSize {
      OversizeInv(p, minSize);
    } else {
      RefilledInv(p);
      PopFreeInv(Refilled(p));
    }
    HeldExtent(r, b);
  }

  /**
   * The block given out last is taken first; a pool without free blocks carves 64 new ones; an oversize
   * request gets a slab of its own and takes no free block.
   */
  lemma AcquiredFrom(p: Pool, minSize: nat)
    requires p.blockSize > 0
    ensures var (r, b) := Acquired(p, minSize);
            && r.held == p.held + {b}
            && (minSize <= p.blockSize && p.free != [] ==> r.slabs == p.slabs && r.free + [b] == p.free)
            && (minSize <= p.blockSize && p.free == [] ==>
                  r.slabs == p.slabs + [Slab(64 * p.blockSize, false)] && r.free + [b] == Carve(|p.slabs|, 64))
            && (minSize > p.blockSize ==>
                  r.slabs == p.slabs + [Slab(minSize, true)] && r.free == p.free && b == Block(|p.slabs|, 0))
  {
    var free := Refilled(p).free;
    assert free == free[..|free| - 1] + [free[|free| - 1]];
  }

  lemma HeldExtent(p: Pool, b: Block)
    requires Inv(p) && b in p.held
    ensures IsBlock(p, b) && Extent(p, b) >= p.blockSize
  {
    assert IsBlock(p, b);
    assert GoodSlab(p.blockSize, p.slabs[b.slab]);
  }

  /** Acquiring moves no block that is already held. */
  lemma AcquiredKeeps(p: Pool, minSize: nat, b: Block)
    requires Inv(p) && b in p.held
    ensures var r := Acquired(p, minSize).0;
            && IsBlock(p, b) && IsBlock(r, b) && b in r.held
            && Offset(r, b) == Offset(p, b) && Extent(r, b) == Extent(p, b)
  {
    assert IsBlock(p, b);
  }

  lemma HeldAreBlocks(p: Pool)
    requires Inv(p)
    ensures forall b :: b in p.held ==> IsBlock(p, b)
  {
  }

  /** Giving a block straight back restores a pool that had free blocks. */
  lemma AcquireRelease(p: Pool, n: nat)
    requires Inv(p) && n <= p.blockSize
    ensures var (r, b) := Acquired(p, n);
            && b in r.held && b !in p.held && IsBlock(r, b) && Extent(r, b) >= n
            && Released(r, b).held == p.held && (p.free != [] ==> Released(r, b) == p)
  {
    AcquiredInv(p, n);
  }

  lemma ReleasedInv(p: Pool, b: Block)
    requires Inv(p) && b in p.held
    ensures Inv(Released(p, b))
  {
    assert b !in p.free;
  }

  /** Different blocks occupy disjoint stretches, inside their slabs. */
  lemma BlocksApart(p: Pool, a: Block, b: Block)
    requires Inv(p) && IsBlock(p, a) && IsBlock(p, b) && a != b
    ensures Offset(p, a) + Extent(p, a) <= p.slabs[a.slab].size
    ensures a.slab == b.slab ==>
              Offset(p, a) + Extent(p, a) <= Offset(p, b) || Offset(p, b) + Extent(p, b) <= Offset(p, a)
  {
    BlockInside(p, a);
    if a.slab == b.slab {
      if a.index < b.index {
        IndexApart(a.index, b.index, p.blockSize);
      } else {
        IndexApart(b.index, a.index, p.blockSize);
      }
    }
  }

  lemma IndexApart(i: nat, j: nat, n: nat)
    requires i < j
    ensures i * n + n <= j * n
  {
    assert (i + 1) * n <= j * n;
  }

  lemma BlockInside(p: Pool, a: Block)
    requires Inv(p) && IsBlock(p, a)
    ensures Offset(p, a) + Extent(p, a) <= p.slabs[a.slab].size
  {
    var s := p.slabs[a.slab];
    assert GoodSlab(p.blockSize, s);
    if !s.oversize {
      IndexApart(a.index, s.size / p.blockSize, p.blockSize);
    }
  }

  // ----- Every run -----

  datatype Op = Acquire(minSize: nat) | Release(block: Block)

  function Step(p: Pool, op: Op): Pool {
    match op
    case Acquire(n) => Acquired(p, n).0
    case Release(b) => Released(p, b)
  }

  /** Clients release only what they hold. */
  predicate Disciplined(p: Pool, ops: seq<Op>)
    decreases |ops|
  {
    ops != [] ==> (ops[0].Release? ==> ops[0].block in p.held) && Disciplined(Step(p, ops[0]), ops[1..])
  }

  function Run(p: Pool, ops: seq<Op>): Pool
    decreases |ops|
  {
    if ops == [] then p else Run(Step(p, ops[0]), ops[1..])
  }

  lemma StepInv(p: Pool, op: Op)
    requires Inv(p) && (op.Release? ==> op.block in p.held)
    ensures var r := Step(p, op);
            && Inv(r) && r.blockSize == p.blockSize
            && (Overcount(r.blockSize, r.slabs) == 0 <==>
                Overcount(p.blockSize, p.slabs) == 0 && (op.Acquire? ==> op.minSize < 2 * p.blockSize))
  {
    match op
    case Acquire(n) =>
      AcquiredInv(p, n);
      var r := Step(p, op);
      if n > p.blockSize {
        assert r.slabs[..|p.slabs|] == p.slabs;
        QuotientIsOne(n, p.blockSize);
      } else {
        assert p.free == [] ==> r.slabs[..|p.slabs|] == p.slabs;
      }
    case Release(b) => ReleasedInv(p, b);
  }

  lemma QuotientIsOne(n: nat, m: nat)
    requires 0 < m <= n
    ensures n / m >= 1 && (n / m == 1 <==> n < 2 * m)
  {
    assert n == m * (n / m) + n % m;
    assert n / m <= 1 ==> m * (n / m) <= m;
    assert n / m >= 2 ==> m * (n / m) >= 2 * m;
  }

  lemma {:induction false} PoolAccounts(p: Pool, ops: seq<Op>)
    requires Inv(p) && Disciplined(p, ops)
    ensures var r := Run(p, ops);
            && Inv(r)
            && |r.free| + |r.held| <= Allocated(r.blockSize, r.slabs)
            && (Overcount(p.blockSize, p.slabs) == 0 ==>
                  (|r.free| + |r.held| == Allocated(r.blockSize, r.slabs) <==>
                   forall i :: 0 <= i < |ops| && ops[i].Acquire? ==> ops[i].minSize < 2 * p.blockSize))
            && (Overcount(p.blockSize, p.slabs) > 0 ==> Overcount(r.blockSize, r.slabs) > 0)
    decreases |ops|
  {
    if ops != [] {
      StepInv(p, ops[0]);
      PoolAccounts(Step(p, ops[0]), ops[1..]);
      assert forall i :: 0 < i < |ops| ==> ops[i] == ops[1..][i - 1];
    }
  }

  /**
   * Over every disciplined run of a new pool: free and held blocks are exactly the blocks of the slabs,
   * no block is both, and `allocated_blocks` is at least their number, and equal to it exactly when
   * every request was for less than two blocks.
   */
  lemma EveryRunAccounts(blockSize: nat, initialBlocks: nat, ops: seq<Op>)
    requires blockSize > 0 && Disciplined(New(blockSize, initialBlocks), ops)
    ensures var r := Run(New(blockSize, initialBlocks), ops);
            && Inv(r)
            && |r.free| + |r.held| <= Allocated(r.blockSize, r.slabs)
            && (|r.free| + |r.held| == Allocated(r.blockSize, r.slabs) <==>
                forall i :: 0 <= i < |ops| && ops[i].Acquire? ==> ops[i].minSize < 2 * blockSize)
  {
    var p := New(blockSize, initialBlocks);
    NewInv(blockSize, initialBlocks);
    assert p.slabs[..0] == [] && Overcount(blockSize, p.slabs[..0]) == 0;
    assert Overcount(p.blockSize, p.slabs) == 0;
    PoolAccounts(p, ops);
  }

  /** Over every disciplined run any two blocks, free or held, are disjoint stretches inside their slabs. */
  lemma EveryRunKeepsApart(blockSize: nat, initialBlocks: nat, ops: seq<Op>, a: Block, b: Block)
    requires blockSize > 0 && Disciplined(New(blockSize, initialBlocks), ops) && a != b
    requires var r := Run(New(blockSize, initialBlocks), ops); {a, b} <= r.held + set x | x in r.free
    ensures var r := Run(New(blockSize, initialBlocks), ops);
            && a.slab < |r.slabs| && b.slab < |r.slabs|
            && Offset(r, a) + Extent(r, a) <= r.slabs[a.slab].size
            && (a.slab == b.slab ==>
                  Offset(r, a) + Extent(r, a) <= Offset(r, b) || Offset(r, b) + Extent(r, b) <= Offset(r, a))
  {
    NewInv(blockSize, initialBlocks);
    PoolAccounts(New(blockSize, initialBlocks), ops);
    var r := Run(New(blockSize, initialBlocks), ops);
    assert a in {a, b} && b in {a, b};
    assert IsBlock(r, a) && IsBlock(r, b);
    BlocksApart(r, a, b);
  }

  // ----- The classes -----

  class BufferPool {
    const blockSize: nat
    var freeList: seq<Block>
    var slabs: seq<array<char>>
    ghost var kinds: seq<Slab>
    ghost var held: set<Block>

    ghost function View(): Pool
      reads this
    {
      Pool(blockSize, kinds, freeList, held)
    }

    /** Each slab of the pool is an array of its own. */
    ghost predicate Backed()
      reads this
    {
      && |kinds| == |slabs|
      && (forall i :: 0 <= i < |slabs| ==> slabs[i].Length == kinds[i].size)
      && (forall i, j :: 0 <= i < j < |slabs| ==> slabs[i] != slabs[j])
    }

    ghost predicate Valid()
      reads this
    {
      Inv(View()) && Backed()
    }

    /** The slabs of the old state are still there; any others are new. */
    twostate predicate OnlyAddsSlabs()
      reads this
    {
      && |old(slabs)| <= |slabs| && slabs[..|old(slabs)|] == old(slabs)
      && forall i :: |old(slabs)| <= i < |slabs| ==> fresh(slabs[i])
    }

    constructor (blockSize: nat, initialBlocks: nat)
      requires blockSize > 0
      ensures Valid() && View() == New(blockSize, initialBlocks)
    {
      this.blockSize := blockSize;
      var slab := new char[initialBlocks * blockSize];
      var list: seq<Block> := [];
      for i := 0 to initialBlocks
        invariant list == Carve(0, i)
      {
        list := list + [Block(0, i)];
      }
      slabs, freeList := [slab], list;
      kinds, held := [Slab(initialBlocks * blockSize, false)], {};
      new;
      NewInv(blockSize, initialBlocks);
    }

    method Acquire(minSize: nat) returns (block: Block)
      requires Valid()
      modifies this
      ensures Valid() && OnlyAddsSlabs()
      ensures (View(), block) == Acquired(old(View()), minSize)
    {
      AcquiredInv(View(), minSize);
      block := Take(minSize);
    }

    method Take(minSize: nat) returns (block: Block)
      requires Backed()
      modifies this
      ensures Backed() && OnlyAddsSlabs()
      ensures (View(), block) == Acquired(old(View()), minSize)
    {
      if minSize > blockSize {
        AddSlab(minSize, true);
        block := Block(|slabs| - 1, 0);
      } else {
        Refill();
        block := freeList[|freeList| - 1];
        freeList := freeList[..|freeList| - 1];
      }
      held := held + {block};
    }

    method Refill()
      requires Backed()
      modifies this
      ensures Backed() && OnlyAddsSlabs() && View() == Refilled(old(View()))
    {
      if freeList == [] {
        AddSlab(blockSize * SLAB_BLOCKS, false);
        var list: seq<Block> := [];
        for i := 0 to SLAB_BLOCKS
          invariant list == Carve(|slabs| - 1, i)
        {
          list := list + [Block(|slabs| - 1, i)];
        }
        freeList := list;
      }
    }

    /** `slabs_.emplace_back(size)` */
    method AddSlab(size: nat, oversize: bool)
      requires Backed()
      modifies `slabs, `kinds
      ensures Backed() && OnlyAddsSlabs()
      ensures |slabs| == |old(slabs)| + 1 && kinds == old(kinds) + [Slab(size, oversize)]
    {
      var slab := new char[size];
      slabs := slabs + [slab];
      kinds := kinds + [Slab(size, oversize)];
    }

    method Release(block: Option<Block>)
      requires Valid() && (block.Some? ==> block.value in held)
      modifies this
      ensures Valid() && slabs == old(slabs)
      ensures freeList == old(freeList) + if block == None then [] else [block.value]
      ensures held == old(held) - if block == None then {} else {block.value}
      ensures View() == if block == None then old(View()) else Released(old(View()), block.value)
      ensures forall b :: b in held ==> IsBlock(View(), b) && IsBlock(old(View()), b) && Bytes(b) == old(Bytes(b))
    {
      HeldAreBlocks(View());
      if block.Some? {
        ReleasedInv(View(), block.value);
        freeList := freeList + [block.value];
        held := held - {block.value};
      }
    }

    ghost function Bytes(b: Block): seq<char>
      requires Valid() && IsBlock(View(), b)
      reads this, slabs
    {
      BlockInside(View(), b);
      slabs[b.slab][Offset(View(), b)..Offset(View(), b) + Extent(View(), b)]
    }

    /** Fills a block with `source` and reads it back; the memory of every other block is as it was. */
    method RoundTrip(block: Block, source: string) returns (result: string)
      requires Valid() && IsBlock(View(), block) && |source| <= Extent(View(), block)
      modifies slabs[block.slab]
      ensures result == source
      ensures forall b :: IsBlock(View(), b) && b != block ==> Bytes(b) == old(Bytes(b))
    {
      BlockInside(View(), block);
      var slab, at := slabs[block.slab], block.index * blockSize;
      Memcpy(slab, at, source);
      result := slab[at..at + |source|];
      forall b | IsBlock(View(), b) && b != block ensures Bytes(b) == old(Bytes(b)) {
        BlocksApart(View(), b, block);
      }
    }

    method AllocatedBlocks() returns (total: nat)
      requires Valid()
      ensures total == Allocated(blockSize, kinds)
      ensures |freeList| + |held| <= total
    {
      total := SumOfSlabs();
    }

    method SumOfSlabs() returns (total: nat)
      requires Backed() && blockSize > 0
      ensures total == Allocated(blockSize, kinds)
    {
      total := 0;
      for i := 0 to |slabs|
        invariant total == Allocated(blockSize, kinds[..i])
      {
        assert kinds[..i + 1][..i] == kinds[..i];
        total := total + slabs[i].Length / blockSize;
      }
      assert kinds[..|slabs|] == kinds;
    }
  }

  class StringPool {
    const pool: BufferPool
    var copies: nat

    constructor (pool: BufferPool)
      ensures this.pool == pool && copies == 0
    {
      this.pool := pool;
      copies := 0;
    }

    /** The result is the source; blocks held elsewhere stay held and keep their bytes. */
    method Copy(source: string) returns (result: string)
      requires pool.Valid()
      modifies this, pool, pool.slabs
      ensures result == source && copies == old(copies) + 1
      ensures pool.Valid() && pool.held == old(pool.held)
      ensures old(pool.freeList) != [] || |source| > pool.blockSize ==> pool.View() == old(pool.View())
      ensures forall b :: b in pool.held ==> IsBlock(pool.View(), b) && pool.Bytes(b) == old(pool.Bytes(b))
    {
      copies := copies + 1;
      if |source| <= pool.blockSize {
        result := CopyThroughBlock(source);
      } else {
        result := source;
        HeldAreBlocks(pool.View());
      }
    }

    method CopyThroughBlock(source: string) returns (result: string)
      requires pool.Valid() && |source| <= pool.blockSize
      modifies pool, pool.slabs
      ensures result == source
      ensures pool.Valid() && pool.held == old(pool.held)
      ensures old(pool.freeList) != [] ==> pool.View() == old(pool.View())
      ensures forall b :: b in pool.held ==> IsBlock(pool.View(), b) && pool.Bytes(b) == old(pool.Bytes(b))
    {
      AcquireRelease(pool.View(), |source|);
      var block := AcquireKeeping(|source|);
      result := pool.RoundTrip(block, source);
      pool.Release(Some(block));
    }

    method AcquireKeeping(n: nat) returns (block: Block)
      requires pool.Valid()
      modifies pool
      ensures pool.Valid() && pool.OnlyAddsSlabs() && (pool.View(), block) == Acquired(old(pool.View()), n)
      ensures forall b :: b in old(pool.held) ==> IsBlock(pool.View(), b) && pool.Bytes(b) == old(pool.Bytes(b))
    {
      ghost var p := pool.View();
      HeldAreBlocks(p);
      block := pool.Acquire(n);
      forall b | b in p.held ensures IsBlock(pool.View(), b) && pool.Bytes(b) == old(pool.Bytes(b)) {
        AcquiredKeeps(p, n, b);
      }
    }
  }

  method Memcpy(a: array<char>, at: nat, source: string)
    requires at + |source| <= a.Length
    modifies a
    ensures a[at..at + |source|] == source
    ensures forall i :: 0 <= i < a.Length && !(at <= i < at + |source|) ==> a[i] == old(a[i])
  {
    for i := 0 to |source|
      invariant forall j :: 0 <= j < i ==> a[at + j] == source[j]
      invariant forall j :: 0 <= j < a.Length && !(at <= j < at + i) ==> a[j] == old(a[j])
    {
      a[at + i] := source[i];
    }
  }
}
