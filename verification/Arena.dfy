/** The bump allocator of src/memory/arena_allocator.cpp, with its mask arithmetic on 64-bit words. */
module Arena {
  import opened Arithmetic

  function Pow2(k: nat): (r: nat)
    ensures r > 0
  {
    if k == 0 then 1 else 2 * Pow2(k - 1)
  }

  /** Bitwise and of the low `w` bits. */
  function BitAnd(w: nat, x: nat, y: nat): nat {
    if w == 0 then 0 else (if x % 2 == 1 && y % 2 == 1 then 1 else 0) + 2 * BitAnd(w - 1, x / 2, y / 2)
  }

  /** Complement of a `w`-bit word. */
  function BitNot(w: nat, x: nat): nat
    requires x < Pow2(w)
  {
    Pow2(w) - 1 - x
  }

  /** `(offset + alignment - 1) & ~(alignment - 1)` on `w`-bit words. */
  function AlignUp(w: nat, offset: nat, alignment: nat): nat
    requires 0 < alignment <= Pow2(w)
  {
    BitAnd(w, (offset + alignment - 1) % Pow2(w), BitNot(w, alignment - 1))
  }

  lemma {:induction false} Pow2Monotone(k: nat, w: nat)
    requires k <= w
    ensures Pow2(k) <= Pow2(w)
  {
    if k < w {
      Pow2Monotone(k, w - 1);
    }
  }

  lemma {:induction false} AndOnes(w: nat, x: nat)
    requires x < Pow2(w)
    ensures BitAnd(w, x, Pow2(w) - 1) == x
  {
    if w > 0 {
      var y := Pow2(w) - 1;
      assert y == 2 * (Pow2(w - 1) - 1) + 1;
      assert y % 2 == 1 && y / 2 == Pow2(w - 1) - 1;
      AndOnes(w - 1, x / 2);
      assert BitAnd(w, x, y) == x % 2 + 2 * (x / 2);
    }
  }

  lemma AndEven(w: nat, x: nat, z: nat)
    requires w > 0
    ensures BitAnd(w, x, 2 * z) == 2 * BitAnd(w - 1, x / 2, z)
  {
    assert (2 * z) % 2 == 0 && (2 * z) / 2 == z;
  }

  /** Masking with the complement of 2^k - 1 clears the remainder modulo 2^k. */
  lemma {:induction false} MaskClears(w: nat, k: nat, x: nat)
    requires k <= w && x < Pow2(w)
    ensures Pow2(k) <= Pow2(w) && BitAnd(w, x, Pow2(w) - Pow2(k)) == x - x % Pow2(k)
    decreases w, 1
  {
    Pow2Monotone(k, w);
    if k == 0 {
      AndOnes(w, x);
      assert Pow2(k) == 1 && x % 1 == 0;
    } else {
      MaskHalf(w, k, x, x / 2, Pow2(w - 1), Pow2(k - 1));
    }
  }

  lemma {:induction false} MaskHalf(w: nat, k: nat, x: nat, half: nat, p: nat, m: nat)
    requires 0 < k <= w && x < Pow2(w) && half == x / 2 && p == Pow2(w - 1) && m == Pow2(k - 1)
    ensures m <= p && BitAnd(w, x, 2 * p - 2 * m) == x - x % (2 * m)
    decreases w, 0
  {
    MaskClears(w - 1, k - 1, half);
    AndEven(w, x, p - m);
    HalfMod(x, m);
    Cleared(x, m);
  }

  lemma Cleared(x: nat, m: nat)
    requires m > 0 && x % (2 * m) == 2 * ((x / 2) % m) + x % 2
    ensures 2 * (x / 2 - (x / 2) % m) == x - x % (2 * m)
  {
  }

  lemma HalfMod(x: nat, m: nat)
    requires m > 0
    ensures x % (2 * m) == 2 * ((x / 2) % m) + x % 2
  {
    var h := x / 2;
    assert x == (2 * m) * (h / m) + (2 * (h % m) + x % 2) by {
      assert h == m * (h / m) + h % m;
      assert (2 * m) * (h / m) == 2 * (m * (h / m));
    }
    DivModUnique(x, 2 * m, h / m, 2 * (h % m) + x % 2);
  }

  lemma AlignUpRounds(w: nat, offset: nat, k: nat)
    requires k <= w && offset + Pow2(k) - 1 < Pow2(w)
    ensures Pow2(k) <= Pow2(w)
    ensures var x := offset + Pow2(k) - 1; AlignUp(w, offset, Pow2(k)) == x - x % Pow2(k)
  {
    Pow2Monotone(k, w);
    var x := offset + Pow2(k) - 1;
    DivModUnique(x, Pow2(w), 0, x);
    MaskClears(w, k, x);
  }

  /** Without overflow the mask formula gives the least multiple of the alignment not below the offset. */
  lemma AlignUpIsLeast(w: nat, offset: nat, k: nat, multiple: nat)
    requires k <= w && offset + Pow2(k) - 1 < Pow2(w)
    ensures Pow2(k) <= Pow2(w)
    ensures var r := AlignUp(w, offset, Pow2(k));
            && r % Pow2(k) == 0 && offset <= r < offset + Pow2(k)
            && (multiple % Pow2(k) == 0 && offset <= multiple ==> r <= multiple)
  {
    AlignUpRounds(w, offset, k);
    RoundedIsLeast(offset, Pow2(k), multiple, AlignUp(w, offset, Pow2(k)));
  }

  lemma RoundedIsLeast(offset: nat, a: nat, multiple: nat, r: nat)
    requires a > 0 && r == (offset + a - 1) - (offset + a - 1) % a
    ensures r % a == 0 && offset <= r < offset + a
    ensures multiple % a == 0 && offset <= multiple ==> r <= multiple
  {
    DivModUnique(r, a, (offset + a - 1) / a, 0);
    if multiple % a == 0 && multiple < r {
      MultiplesApart(multiple, r, a);
    }
  }

  lemma MultiplesApart(m: nat, r: nat, a: nat)
    requires a > 0 && m % a == 0 && r % a == 0 && m < r
    ensures m + a <= r
  {
    assert m == a * (m / a) && r == a * (r / a);
    assert r / a > m / a;
    assert a * (m / a + 1) <= a * (r / a);
  }

  // ----- The allocator -----

  datatype Block = Block(size: nat, offset: nat)

  /** What one `allocate` handed out. */
  datatype Region = Region(block: nat, start: nat, size: nat, alignment: nat)

  function TotalSize(rs: seq<Region>): nat {
    if rs == [] then 0 else TotalSize(rs[..|rs| - 1]) + rs[|rs| - 1].size
  }

  predicate Apart(a: Region, b: Region) {
    a.block != b.block || a.start + a.size <= b.start || b.start + b.size <= a.start
  }

  predicate IsAlignment(w: nat, alignment: nat, k: nat) {
    k < w && alignment == Pow2(k) <= Pow2(w)
  }

  class ArenaAllocator {
    const wordBits: nat  // width of size_t
    const blockSize: nat
    var blocks: seq<Block>
    var bytesAllocated: nat
    ghost var regions: seq<Region>  // handed out since the last reset

    ghost predicate Valid()
      reads this
    {
      && (forall i :: 0 <= i < |blocks| ==> blocks[i].offset <= blocks[i].size)
      && (forall i :: 0 <= i < |regions| ==> InBounds(regions[i]))
      && (forall i, j :: 0 <= i < j < |regions| ==> Apart(regions[i], regions[j]))
      && bytesAllocated == TotalSize(regions)
    }

    /** Inside the used part of its block, and aligned relative to the block. */
    ghost predicate InBounds(r: Region)
      reads this
    {
      && r.block < |blocks| && r.start + r.size <= blocks[r.block].offset
      && r.alignment > 0 && r.start % r.alignment == 0
    }

    predicate Fits(size: nat, alignment: nat)
      requires 0 < alignment <= Pow2(wordBits)
      reads this
    {
      blocks != [] && AlignUp(wordBits, blocks[|blocks| - 1].offset, alignment) + size <= blocks[|blocks| - 1].size
    }

    constructor (blockSize: nat)
      ensures Valid() && regions == [] && blocks == [Block(blockSize, 0)] && wordBits == 64
    {
      wordBits := 64;
      this.blockSize := blockSize;
      blocks, bytesAllocated, regions := [Block(blockSize, 0)], 0, [];
    }

    method Allocate(size: nat, alignment: nat, ghost k: nat) returns (r: Region)
      requires Valid() && IsAlignment(wordBits, alignment, k)
      requires (if blocks == [] then 0 else blocks[|blocks| - 1].offset) + alignment + size <= Pow2(wordBits)
      modifies this
      ensures Valid() && regions == old(regions) + [r]
      ensures r.size == size && r.alignment == alignment && r.block == |blocks| - 1
      ensures bytesAllocated == old(bytesAllocated) + size
      ensures old(Fits(size, alignment)) ==>
                var last := |old(blocks)| - 1;
                && r.start == AlignUp(wordBits, old(blocks)[last].offset, alignment)
                && blocks == old(blocks)[last := Block(old(blocks)[last].size, r.start + size)]
      ensures old(blocks) != [] && !old(Fits(size, alignment)) ==>
                r.start == 0 && blocks == old(blocks) + [Block(if blockSize < size then size else blockSize, size)]
      ensures old(blocks) == [] ==>
                && r.start == 0
                && blocks == if size <= blockSize then [Block(blockSize, size)]
                             else [Block(blockSize, 0), Block(size, size)]
    {
      if blocks == [] {
        blocks := blocks + [Block(blockSize, 0)];
        AlignUpIsLeast(wordBits, 0, k, 0);
      }
      r := AllocateLast(size, alignment, k);
    }

    /** `allocate` on an arena with blocks. */
    method AllocateLast(size: nat, alignment: nat, ghost k: nat) returns (r: Region)
      requires Valid() && IsAlignment(wordBits, alignment, k) && blocks != []
      requires blocks[|blocks| - 1].offset + alignment + size <= Pow2(wordBits)
      modifies this
      ensures Valid() && regions == old(regions) + [r]
      ensures r.size == size && r.alignment == alignment && r.block == |blocks| - 1
      ensures bytesAllocated == old(bytesAllocated) + size
      ensures old(Fits(size, alignment)) ==>
                var last := |old(blocks)| - 1;
                && r.start == AlignUp(wordBits, old(blocks)[last].offset, alignment)
                && blocks == old(blocks)[last := Block(old(blocks)[last].size, r.start + size)]
      ensures !old(Fits(size, alignment)) ==>
                r.start == 0 && blocks == old(blocks) + [Block(if blockSize < size then size else blockSize, size)]
      decreases if Fits(size, alignment) then 0 else 1
    {
      var last := |blocks| - 1;
      AlignUpIsLeast(wordBits, blocks[last].offset, k, 0);
      var aligned := AlignUp(wordBits, blocks[last].offset, alignment);
      if aligned + size > blocks[last].size {
        blocks := blocks + [Block(if blockSize < size then size else blockSize, 0)];
        AlignUpIsLeast(wordBits, 0, k, 0);
        r := AllocateLast(size, alignment, k);
        return;
      }
      r := Bump(last, aligned, size, alignment);
    }

    /** Hands out the stretch that starts at `aligned` in the last block. */
    method Bump(last: nat, aligned: nat, size: nat, alignment: nat) returns (r: Region)
      requires Valid() && last + 1 == |blocks| && blocks[last].offset <= aligned && aligned + size <= blocks[last].size
      requires alignment > 0 && aligned % alignment == 0
      modifies this
      ensures Valid() && regions == old(regions) + [r] && r == Region(last, aligned, size, alignment)
      ensures bytesAllocated == old(bytesAllocated) + size
      ensures blocks == old(blocks)[last := Block(old(blocks)[last].size, aligned + size)]
    {
      r := Region(last, aligned, size, alignment);
      blocks := blocks[last := Block(blocks[last].size, aligned + size)];
      bytesAllocated := bytesAllocated + size;
      regions := regions + [r];
    }

    method Reset()
      requires Valid()
      modifies this
      ensures Valid() && regions == [] && bytesAllocated == 0
      ensures |blocks| == |old(blocks)|
      ensures forall i :: 0 <= i < |blocks| ==> blocks[i] == Block(old(blocks)[i].size, 0)
    {
      for i := 0 to |blocks|
        invariant |blocks| == |old(blocks)|
        invariant forall j :: 0 <= j < i ==> blocks[j] == Block(old(blocks)[j].size, 0)
        invariant forall j :: i <= j < |blocks| ==> blocks[j] == old(blocks)[j]
        modifies `blocks
      {
        blocks := blocks[i := Block(blocks[i].size, 0)];
      }
      bytesAllocated, regions := 0, [];
    }
  }
}
