/** A bump allocator over large blocks: src/common/memory/arena.hpp and arena.cpp. Addresses are numbers; what malloc
    returns is a parameter, bound by malloc's own promise. */
module Arena {
  import opened Common
  import opened PowersOfTwo
  import opened Words

  const MAX_ALIGN: nat := 16
  /** sizeof(Block): two words, padded to the largest alignment. */
  const HEADER: nat := 16

  datatype Block = Block(address: nat, size: nat) {
    function Data(): nat {
      address + HEADER
    }

    function End(): nat {
      address + size
    }
  }

  /** A part of a block's data that was handed out. */
  datatype Region = Region(address: nat, size: nat, align: nat, block: Block) {
    function End(): nat {
      address + size
    }
  }

  datatype Error = BadAlloc

  // ----- sizes and alignment

  /** Rounds up to a multiple of the minimum block size, unless that overflows. */
  function RoundBlockSize(size: nat, minBlockSize: nat): Option<nat>
    requires minBlockSize > 0 && size > 0
  {
    var result := (1 + (size - 1) / minBlockSize) * minBlockSize;
    if result < U64_LIMIT then Some(result) else None
  }

  /** The rounded size is the least multiple that holds the size; rounding fails exactly when none is representable. */
  lemma RoundingIsLeast(size: nat, minBlockSize: nat, k: nat)
    requires minBlockSize > 0 && size > 0
    ensures var r := RoundBlockSize(size, minBlockSize);
      && (r.Some? ==> size <= r.value < size + minBlockSize && r.value % minBlockSize == 0)
      && (r.Some? && size <= k * minBlockSize ==> r.value <= k * minBlockSize)
      && (r.None? && size <= k * minBlockSize ==> U64_LIMIT <= k * minBlockSize)
  {
    var m := minBlockSize;
    var q, rest := (size - 1) / m, (size - 1) % m;
    assert size - 1 == q * m + rest;
    assert (1 + q) * m == q * m + m;
    MultipleModulo(1 + q, m);
    if size <= k * m && k < 1 + q {
      Products(k, q, m);
    } else if 1 + q <= k {
      Products(1 + q, k, m);
    }
  }

  lemma Products(a: nat, b: nat, m: nat)
    requires a <= b
    ensures a * m <= b * m
  {
    assert (b - a) * m >= 0;
  }

  lemma MultipleModulo(k: nat, m: nat)
    requires m > 0
    ensures (k * m) % m == 0
  {
    var q, r := (k * m) / m, (k * m) % m;
    assert k * m == q * m + r;
    assert (q + 1) * m == q * m + m;
    if q < k {
      Products(q + 1, k, m);
    } else if k < q {
      Products(k, q, m);
    }
  }

  lemma SmallPowers(a: nat)
    requires IsPow2(a) && a <= MAX_ALIGN
    ensures a == 1 || a == 2 || a == 4 || a == 8 || a == 16
  {
    var n :| a == Pow2(n);
    assert Pow2(5) == 32;
    if n > 4 {
      Pow2Monotonic(5, n);
    }
    assert Pow2(0) == 1 && Pow2(1) == 2 && Pow2(2) == 4 && Pow2(3) == 8 && Pow2(4) == 16;
  }

  /** The distance to the next aligned address. */
  function Padding(address: nat, align: nat): nat
    requires align > 0
  {
    if address % align == 0 then 0 else align - address % align
  }

  /** Padding reaches the next aligned address. */
  lemma PaddingAligns(address: nat, align: nat)
    requires align > 0
    ensures (address + Padding(address, align)) % align == 0 && Padding(address, align) < align
  {
    var q, r := address / align, address % align;
    if r != 0 {
      assert address + (align - r) == (q + 1) * align by {
        assert address == q * align + r;
        assert (q + 1) * align == q * align + align;
      }
      MultipleModulo(q + 1, align);
    }
  }

  /** An address aligned for every type is aligned for a smaller alignment. */
  lemma MaxAlignedIsAligned(address: nat, align: nat)
    requires address % MAX_ALIGN == 0 && IsPow2(align) && align <= MAX_ALIGN
    ensures address % align == 0
  {
    SmallPowers(align);
    match align {
      case 1 =>
      case 2 => assert address % 2 == 0;
      case 4 => assert address % 4 == 0;
      case 8 => assert address % 8 == 0;
      case _ =>
    }
  }

  // ----- disjoint blocks fit the address space

  ghost predicate Apart(a: Block, b: Block) {
    a.End() <= b.address || b.End() <= a.address
  }

  ghost predicate Disjoint(blocks: seq<Block>) {
    forall i, j :: 0 <= i < j < |blocks| ==> Apart(blocks[i], blocks[j])
  }

  lemma ApartFromRest(block: Block, rest: seq<Block>)
    requires Disjoint([block] + rest)
    ensures Disjoint(rest) && forall b :: b in rest ==> Apart(block, b)
  {
    var all := [block] + rest;
    assert forall i :: 0 <= i < |rest| ==> rest[i] == all[i + 1];
    forall b | b in rest
      ensures Apart(block, b)
    {
      var j :| 0 <= j < |rest| && rest[j] == b;
      assert Apart(all[0], all[j + 1]);
    }
  }

  function TotalSize(blocks: seq<Block>): nat {
    if blocks == [] then 0 else blocks[0].size + TotalSize(blocks[1..])
  }

  function Requested(regions: seq<Region>): nat {
    if regions == [] then 0 else regions[0].size + Requested(regions[1..])
  }

  ghost function Span(lo: nat, hi: nat): set<nat> {
    if lo < hi then Span(lo, hi - 1) + {hi - 1} else {}
  }

  lemma {:induction false} SpanSize(lo: nat, hi: nat)
    requires lo <= hi
    ensures |Span(lo, hi)| == hi - lo
    ensures forall a :: a in Span(lo, hi) <==> lo <= a < hi
  {
    if lo < hi {
      SpanSize(lo, hi - 1);
    }
  }

  ghost function Cells(blocks: seq<Block>): set<nat> {
    if blocks == [] then {} else Span(blocks[0].address, blocks[0].End()) + Cells(blocks[1..])
  }

  lemma {:induction false} CellsSize(blocks: seq<Block>, limit: nat)
    requires Disjoint(blocks) && forall b :: b in blocks ==> b.End() <= limit
    ensures |Cells(blocks)| == TotalSize(blocks)
    ensures forall a :: a in Cells(blocks) ==> a < limit && exists b :: b in blocks && b.address <= a < b.End()
  {
    if blocks != [] {
      var first, rest := blocks[0], blocks[1..];
      assert blocks == [first] + rest;
      CellsSize(rest, limit);
      ApartFromRest(first, rest);
      SpanSize(first.address, first.End());
      assert Span(first.address, first.End()) !! Cells(rest);
      forall a | a in Cells(blocks)
        ensures a < limit && exists b :: b in blocks && b.address <= a < b.End()
      {
        if a in Span(first.address, first.End()) {
          assert first in blocks;
        }
      }
    }
  }

  /** Pairwise disjoint blocks in an address space are together no larger than it. */
  lemma DisjointBlocksFit(blocks: seq<Block>, limit: nat)
    requires Disjoint(blocks) && forall b :: b in blocks ==> b.End() <= limit
    ensures TotalSize(blocks) <= limit
  {
    CellsSize(blocks, limit);
    SpanSize(0, limit);
    SubsetSize(Cells(blocks), Span(0, limit));
  }

  /** Live blocks are disjoint, aligned, larger than their header, and multiples of the minimum block size. */
  ghost predicate Live(blocks: seq<Block>, minBlockSize: nat) {
    Disjoint(blocks) && forall b :: b in blocks ==> Sound(b, minBlockSize)
  }

  ghost predicate Sound(b: Block, minBlockSize: nat) {
    && minBlockSize > 0
    && 0 < b.address
    && b.address % MAX_ALIGN == 0
    && HEADER < b.size
    && b.size % minBlockSize == 0
    && b.End() < U64_LIMIT
  }

  // ----- what was handed out

  /** Regions are aligned, lie in the data of a live block, below the position in the newest one, and are disjoint. */
  ghost predicate Served(regions: seq<Region>, blocks: seq<Block>, current: nat) {
    && (forall r :: r in regions ==> r.block in blocks && r.block.Data() <= r.address && 0 < r.size && r.End() <= r.block.End())
    && (forall r :: r in regions && r.block == blocks[0] ==> r.End() <= current)
    && (forall r :: r in regions ==> r.align > 0 && r.address % r.align == 0)
    && (forall i, j :: 0 <= i < j < |regions| ==> Separate(regions[i], regions[j]))
  }

  ghost predicate Separate(a: Region, b: Region) {
    a.End() <= b.address || b.End() <= a.address
  }

  /** Handing out a part of the newest block at or above the position. */
  lemma Bump(regions: seq<Region>, blocks: seq<Block>, current: nat, region: Region)
    requires blocks != [] && Disjoint(blocks) && Served(regions, blocks, current)
    requires region.block == blocks[0] && blocks[0].Data() <= region.address && current <= region.address
    requires region.size > 0 && region.End() <= blocks[0].End()
    requires region.align > 0 && region.address % region.align == 0
    ensures Served([region] + regions, blocks, region.End())
    ensures Requested([region] + regions) == region.size + Requested(regions)
  {
    var all := [region] + regions;
    assert all[1..] == regions;
    assert blocks == [blocks[0]] + blocks[1..];
    ApartFromRest(blocks[0], blocks[1..]);
    forall r | r in regions
      ensures Separate(region, r)
    {
      assert r.block == blocks[0] || r.block in blocks[1..];
    }
  }

  /** Linking a new block makes it the newest one; a region at its start is the first one there. */
  lemma Link(regions: seq<Region>, blocks: seq<Block>, current: nat, block: Block, region: Region)
    requires Disjoint([block] + blocks) && HEADER < block.size && Served(regions, blocks, current)
    requires region.block == block && region.address == block.Data() && block.address % MAX_ALIGN == 0
    requires region.size > 0 && region.End() <= block.End() && IsPow2(region.align) && region.align <= MAX_ALIGN
    ensures Served([region] + regions, [block] + blocks, region.End())
    ensures Requested([region] + regions) == region.size + Requested(regions)
  {
    ApartFromRest(block, blocks);
    MaxAlignedIsAligned(block.Data(), region.align);
    Bump(regions, [block] + blocks, block.Data(), region);
  }

  // ----- the arena

  class Arena {
    const minBlockSize: nat
    /** The linked list of blocks, newest first. */
    var blocks: seq<Block>
    var used: nat
    var total: nat
    var current: nat
    var remaining: nat
    /** Everything handed out since the last deallocation, newest first. */
    ghost var regions: seq<Region>

    /** The space that is left is the end of the newest block. */
    ghost predicate CurrentValid()
      reads this
    {
      if blocks == [] then current == 0 && remaining == 0
      else blocks[0].Data() <= current && current + remaining == blocks[0].End()
    }

    ghost predicate Valid()
      reads this
    {
      && IsPow2(minBlockSize)
      && HEADER <= minBlockSize
      && Live(blocks, minBlockSize)
      && CurrentValid()
      && Served(regions, blocks, current)
      && used == Requested(regions)
      && total == TotalSize(blocks) < U64_LIMIT
      && used + remaining + HEADER * |blocks| <= total
    }

    constructor (minBlockSize: nat)
      requires IsPow2(minBlockSize) && HEADER <= minBlockSize
      ensures Valid() && this.minBlockSize == minBlockSize && regions == [] && blocks == []
    {
      this.minBlockSize := minBlockSize;
      blocks, used, total, current, remaining, regions := [], 0, 0, 0, 0, [];
    }

    /** The size of the block that a request needs, if it is representable. */
    function BlockSizeFor(size: nat): Option<nat>
      requires minBlockSize > 0
    {
      if size + HEADER < U64_LIMIT then RoundBlockSize(size + HEADER, minBlockSize) else None
    }

    /** What malloc promises: a non-null address, aligned for every type, of storage apart from all live blocks. */
    ghost predicate MallocPromise(size: nat, storage: Option<nat>)
      requires minBlockSize > 0
      reads this
    {
      var needed := BlockSizeFor(size);
      storage.Some? && needed.Some? ==>
        && 0 < storage.value
        && storage.value % MAX_ALIGN == 0
        && storage.value + needed.value < U64_LIMIT
        && forall b :: b in blocks ==> Apart(Block(storage.value, needed.value), b)
    }

    /** The request fits what is left of the newest block. */
    predicate Fits(size: nat, align: nat)
      requires align > 0
      reads this
    {
      Padding(current, align) + size <= remaining
    }

    /** Fails exactly when a new block is needed, and its size overflows or malloc fails. */
    method Allocate(size: nat, align: nat, storage: Option<nat>) returns (r: Result<nat, Error>)
      requires Valid() && 0 < size < U64_LIMIT && IsPow2(align) && align <= MAX_ALIGN
      requires MallocPromise(size, storage)
      modifies this
      ensures Valid()
      ensures r.Failure? <==> !old(Fits(size, align)) && (BlockSizeFor(size).None? || storage.None?)
      ensures r.Failure? ==> unchanged(this)
      ensures r.Success? ==> blocks != [] && regions == [Region(r.value, size, align, blocks[0])] + old(regions)
      ensures r.Success? ==> used == old(used) + size && current == r.value + size
      ensures r.Success? && old(Fits(size, align)) ==> r.value == old(current) + Padding(old(current), align)
      ensures r.Success? && old(Fits(size, align)) ==> blocks == old(blocks)
      ensures r.Success? && !old(Fits(size, align)) ==>
        blocks == [Block(storage.value, BlockSizeFor(size).value)] + old(blocks) && r.value == blocks[0].Data()
    {
      PaddingAligns(current, align);
      if Padding(current, align) + size <= remaining {
        // std::align moves the position and the space past the padding.
        var pad := Padding(current, align);
        var result := current + pad;
        remaining := remaining - pad;
        if used + size >= U64_LIMIT {
          assert false;
        }
        used := used + size;
        Bump(regions, blocks, current, Region(result, size, align, blocks[0]));
        regions := [Region(result, size, align, blocks[0])] + regions;
        current := result + size;
        remaining := remaining - size;
        return Success(result);
      }
      r := AllocateSlowPath(size, align, storage);
    }

    /** Links a new block, and serves the request from its start. */
    method AllocateSlowPath(size: nat, align: nat, storage: Option<nat>) returns (r: Result<nat, Error>)
      requires Valid() && 0 < size < U64_LIMIT && IsPow2(align) && align <= MAX_ALIGN
      requires MallocPromise(size, storage)
      modifies this
      ensures Valid()
      ensures r.Failure? <==> BlockSizeFor(size).None? || storage.None?
      ensures r.Failure? ==> unchanged(this)
      ensures r.Success? ==>
        && blocks == [Block(storage.value, BlockSizeFor(size).value)] + old(blocks)
        && r.value == blocks[0].Data()
        && regions == [Region(r.value, size, align, blocks[0])] + old(regions)
        && used == old(used) + size && current == r.value + size
    {
      var block :- AllocateBlock(size, storage);
      Link(regions, blocks, current, block, Region(block.Data(), size, align, block));
      blocks := [block] + blocks;
      current := block.Data();
      remaining := block.size - HEADER;
      if used + size >= U64_LIMIT {
        assert false;
      }
      used := used + size;
      var result := current;
      regions := [Region(result, size, align, block)] + regions;
      current := current + size;
      remaining := remaining - size;
      return Success(result);
    }

    /** Asks malloc for a block with room for that much data. */
    method AllocateBlock(minDataSize: nat, storage: Option<nat>) returns (r: Result<Block, Error>)
      requires Valid() && 0 < minDataSize && MallocPromise(minDataSize, storage)
      modifies this`total
      ensures r.Failure? <==> BlockSizeFor(minDataSize).None? || storage.None?
      ensures r.Failure? ==> total == old(total)
      ensures r.Success? ==>
        && r.value == Block(storage.value, BlockSizeFor(minDataSize).value)
        && minDataSize + HEADER <= r.value.size < minDataSize + HEADER + minBlockSize
        && r.value.size % minBlockSize == 0
        && Live([r.value] + blocks, minBlockSize)
        && total == TotalSize([r.value] + blocks) == old(total) + r.value.size < U64_LIMIT
    {
      if minDataSize + HEADER >= U64_LIMIT {
        return Failure(BadAlloc);
      }
      var allocSize := RoundBlockSize(minDataSize + HEADER, minBlockSize);
      if allocSize.None? || storage.None? {
        return Failure(BadAlloc);
      }
      RoundingIsLeast(minDataSize + HEADER, minBlockSize, 0);
      var block := Block(storage.value, allocSize.value);
      assert ([block] + blocks)[1..] == blocks;
      DisjointBlocksFit([block] + blocks, U64_LIMIT - 1);
      // The sum is taken modulo the word size.
      total := (total + allocSize.value) % U64_LIMIT;
      return Success(block);
    }

    method Deallocate()
      requires Valid()
      modifies this
      ensures Valid() && blocks == [] && regions == []
    {
      while blocks != []
      {
        blocks := blocks[1..];
      }
      used, total, current, remaining := 0, 0, 0, 0;
      regions := [];
    }

    /** The move constructor. */
    constructor Take(other: Arena)
      requires other.Valid()
      modifies other
      ensures Valid() && minBlockSize == other.minBlockSize
      ensures blocks == old(other.blocks) && regions == old(other.regions)
      ensures other.Valid() && other.blocks == [] && other.regions == []
    {
      minBlockSize := other.minBlockSize;
      blocks, used, total := other.blocks, other.used, other.total;
      current, remaining, regions := other.current, other.remaining, other.regions;
      new;
      other.blocks, other.used, other.total := [], 0, 0;
      other.current, other.remaining, other.regions := 0, 0, [];
    }
  }
}
