/** Bit sets over blocks of machine words, refined to sequences of booleans: src/common/adt/bitset.hpp. */
module Bitset {
  import opened Common
  import opened Words

  // ----- blocks laid end to end

  /** The position of the first bit of block k. */
  function Base(k: nat, w: nat): nat {
    if k == 0 then 0 else Base(k - 1, w) + w
  }

  lemma {:induction false} BaseIsProduct(k: nat, w: nat)
    ensures Base(k, w) == k * w
  {
    if k > 0 {
      BaseIsProduct(k - 1, w);
    }
  }

  lemma {:induction false} BaseMonotonic(a: nat, b: nat, w: nat)
    requires a <= b
    ensures Base(a, w) <= Base(b, w)
    ensures a < b ==> Base(a, w) + w <= Base(b, w)
  {
    if a < b {
      BaseMonotonic(a, b - 1, w);
    }
  }

  /** A position is a block and an offset in it. */
  lemma Split(i: nat, w: nat)
    requires w > 0
    ensures i == Base(i / w, w) + i % w && i % w < w
  {
    BaseIsProduct(i / w, w);
  }

  ghost predicate Uniform(bs: seq<Word>, w: nat) {
    forall k :: 0 <= k < |bs| ==> |bs[k]| == w
  }

  /** The first n blocks, end to end. */
  ghost function FlatUpTo(bs: seq<Word>, n: nat): seq<bool>
    requires n <= |bs|
  {
    if n == 0 then [] else FlatUpTo(bs, n - 1) + bs[n - 1]
  }

  ghost function Flat(bs: seq<Word>): seq<bool> {
    FlatUpTo(bs, |bs|)
  }

  lemma {:induction false} FlatLength(bs: seq<Word>, w: nat, n: nat)
    requires Uniform(bs, w) && n <= |bs|
    ensures |FlatUpTo(bs, n)| == Base(n, w)
  {
    if n > 0 {
      FlatLength(bs, w, n - 1);
    }
  }

  /** Block k is the part of the flat sequence that starts at its base. */
  lemma {:induction false} FlatBlock(bs: seq<Word>, w: nat, k: nat, n: nat)
    requires Uniform(bs, w) && k < n <= |bs|
    ensures Base(k, w) + w <= |FlatUpTo(bs, n)| == Base(n, w)
    ensures FlatUpTo(bs, n)[Base(k, w)..Base(k, w) + w] == bs[k]
  {
    FlatLength(bs, w, n);
    FlatLength(bs, w, n - 1);
    if k < n - 1 {
      FlatBlock(bs, w, k, n - 1);
      assert FlatUpTo(bs, n)[Base(k, w)..Base(k, w) + w] == FlatUpTo(bs, n - 1)[Base(k, w)..Base(k, w) + w];
    }
  }

  lemma FlatAt(bs: seq<Word>, w: nat, k: nat, j: nat)
    requires Uniform(bs, w) && k < |bs| && j < w
    ensures Base(k, w) + j < |Flat(bs)| && Flat(bs)[Base(k, w) + j] == bs[k][j]
  {
    FlatBlock(bs, w, k, |bs|);
    assert Flat(bs)[Base(k, w) + j] == Flat(bs)[Base(k, w)..Base(k, w) + w][j];
  }

  // ----- counting

  /** The number of set positions in [lo, hi). */
  ghost function CountRange(s: seq<bool>, lo: nat, hi: nat): nat
    requires lo <= hi <= |s|
  {
    if lo == hi then 0 else CountRange(s, lo, hi - 1) + if s[hi - 1] then 1 else 0
  }

  lemma {:induction false} CountSplit(s: seq<bool>, lo: nat, mid: nat, hi: nat)
    requires lo <= mid <= hi <= |s|
    ensures CountRange(s, lo, hi) == CountRange(s, lo, mid) + CountRange(s, mid, hi)
  {
    if mid < hi {
      CountSplit(s, lo, mid, hi - 1);
    }
  }

  /** Counting up to the middle of a block goes on with a part of that block. */
  lemma {:induction false} CountIntoBlock(bs: seq<Word>, w: nat, lo: nat, k: nat, a: nat, b: nat)
    requires Uniform(bs, w) && k < |bs| && a <= b <= w && lo <= Base(k, w) + a
    ensures Base(k, w) + w <= |Flat(bs)|
    ensures CountRange(Flat(bs), lo, Base(k, w) + b) == CountRange(Flat(bs), lo, Base(k, w) + a) + Count(bs[k][a..b])
  {
    FlatBlock(bs, w, k, |bs|);
    if a < b {
      CountIntoBlock(bs, w, lo, k, a, b - 1);
      FlatAt(bs, w, k, b - 1);
      assert bs[k][a..b] == bs[k][a..b - 1] + [bs[k][b - 1]];
      CountAppend(bs[k][a..b - 1], [bs[k][b - 1]]);
      assert [bs[k][b - 1]][1..] == [];
    }
  }

  /** Keeps the bits from `index` on. */
  function MaskFront(block: Word, index: nat): Word {
    ShiftLeft(ShiftRight(block, index), index)
  }

  /** Keeps the first `index` bits. */
  function MaskBack(block: Word, index: nat): Word
    requires index <= |block|
  {
    ShiftRight(ShiftLeft(block, |block| - index), |block| - index)
  }

  lemma CountWhole(bs: seq<Word>, w: nat, lo: nat, k: nat)
    requires Uniform(bs, w) && k < |bs| && lo <= Base(k, w)
    ensures Base(k + 1, w) == Base(k, w) + w <= |Flat(bs)|
    ensures CountRange(Flat(bs), lo, Base(k + 1, w)) == CountRange(Flat(bs), lo, Base(k, w)) + Count(bs[k])
  {
    CountIntoBlock(bs, w, lo, k, 0, w);
    assert bs[k][0..w] == bs[k];
  }

  lemma CountFront(bs: seq<Word>, w: nat, k: nat, i: nat)
    requires Uniform(bs, w) && k < |bs| && i <= w
    ensures Base(k + 1, w) == Base(k, w) + w <= |Flat(bs)|
    ensures CountRange(Flat(bs), Base(k, w) + i, Base(k + 1, w)) == Count(MaskFront(bs[k], i))
  {
    CountIntoBlock(bs, w, Base(k, w) + i, k, i, w);
    MaskFrontCount(bs[k], i);
    assert bs[k][i..w] == bs[k][i..];
  }

  lemma CountBack(bs: seq<Word>, w: nat, lo: nat, k: nat, j: nat)
    requires Uniform(bs, w) && k < |bs| && j <= w && lo <= Base(k, w)
    ensures Base(k, w) + w <= |Flat(bs)|
    ensures CountRange(Flat(bs), lo, Base(k, w) + j) == CountRange(Flat(bs), lo, Base(k, w)) + Count(MaskBack(bs[k], j))
  {
    CountIntoBlock(bs, w, lo, k, 0, j);
    MaskBackCount(bs[k], j);
    assert bs[k][0..j] == bs[k][..j];
  }

  lemma MaskFrontCount(block: Word, index: nat)
    requires index <= |block|
    ensures MaskFront(block, index) == Zeros(index) + block[index..]
    ensures Count(MaskFront(block, index)) == Count(block[index..])
  {
    CountZeros(index);
    CountAppend(Zeros(index), block[index..]);
  }

  lemma MaskBothCount(block: Word, i: nat, j: nat, front: Word)
    requires i <= j <= |block| && front == Zeros(i) + block[i..]
    ensures Count(MaskBack(front, j)) == Count(block[i..j])
  {
    MaskBackCount(front, j);
    assert front[..j] == Zeros(i) + block[i..j];
    CountZeros(i);
    CountAppend(Zeros(i), block[i..j]);
  }

  lemma MaskBackCount(block: Word, index: nat)
    requires index <= |block|
    ensures Count(MaskBack(block, index)) == Count(block[..index])
  {
    assert MaskBack(block, index) == block[..index] + Zeros(|block| - index);
    CountZeros(|block| - index);
    CountAppend(block[..index], Zeros(|block| - index));
  }

  // ----- searching

  /** r is the least position in [lo, hi) that holds `value`. */
  ghost predicate Least(s: seq<bool>, lo: nat, hi: nat, value: bool, r: Option<nat>)
    requires lo <= hi <= |s|
  {
    match r
    case None => forall i :: lo <= i < hi ==> s[i] != value
    case Some(p) => lo <= p < hi && s[p] == value && forall i :: lo <= i < p ==> s[i] != value
  }

  /** What a search in one block, from offset j on, says about the flat sequence. */
  lemma SearchBlock(bs: seq<Word>, w: nat, lo: nat, hi: nat, value: bool, k: nat, j: nat, s: nat)
    requires Uniform(bs, w) && k < |bs| && j <= w && s <= w - j
    requires lo <= Base(k, w) + j && Base(k, w) + w <= hi <= |Flat(bs)|
    requires Least(Flat(bs), lo, Base(k, w) + j, value, None)
    requires s > 0 ==> bs[k][j + s - 1] == value && forall i :: j <= i < j + s - 1 ==> bs[k][i] != value
    requires s == 0 ==> forall i :: j <= i < w ==> bs[k][i] != value
    ensures s > 0 ==> Least(Flat(bs), lo, hi, value, Some(Base(k, w) + j + s - 1))
    ensures s == 0 ==> Least(Flat(bs), lo, Base(k, w) + w, value, None)
  {
    forall i | 0 <= i < w
      ensures Flat(bs)[Base(k, w) + i] == bs[k][i]
    {
      FlatAt(bs, w, k, i);
    }
    var top := Base(k, w) + if s > 0 then j + s - 1 else w;
    forall p | lo <= p < top
      ensures Flat(bs)[p] != value
    {
      if p >= Base(k, w) + j {
        assert Flat(bs)[Base(k, w) + (p - Base(k, w))] == bs[k][p - Base(k, w)];
      }
    }
  }

  /** The block as it is, or inverted to look for an unset bit. */
  function Sought(block: Word, value: bool): (r: Word)
    ensures |r| == |block| && forall k :: 0 <= k < |block| ==> r[k] == (block[k] == value)
  {
    if value then block else Not(block)
  }

  /** Searching the shifted block is searching the block from an offset on. */
  method FirstSought(block: Word, i: nat, value: bool) returns (s: nat)
    requires i <= |block|
    ensures s <= |block| - i
    ensures s > 0 ==> block[i + s - 1] == value && forall j :: i <= j < i + s - 1 ==> block[j] != value
    ensures s == 0 ==> forall j :: i <= j < |block| ==> block[j] != value
  {
    var r := ShiftRight(Sought(block, value), i);
    s := FirstSet(r);
    assert forall j :: i <= j < |block| ==> (block[j] == value) == r[j - i];
  }

  // ----- updating

  /** Replacing block k replaces the values of its positions. */
  ghost predicate Replaced(s: seq<bool>, r: seq<bool>, at: nat, v: Word) {
    && |r| == |s|
    && at + |v| <= |s|
    && (forall j :: 0 <= j < |v| ==> r[at + j] == v[j])
    && (forall p :: 0 <= p < |s| && !(at <= p < at + |v|) ==> r[p] == s[p])
  }

  lemma {:induction false} FlatReplaced(bs: seq<Word>, w: nat, k: nat, v: Word, n: nat)
    requires Uniform(bs, w) && k < n <= |bs| && |v| == w
    ensures Replaced(FlatUpTo(bs, n), FlatUpTo(bs[k := v], n), Base(k, w), v)
  {
    FlatLength(bs, w, n - 1);
    if k < n - 1 {
      FlatReplaced(bs, w, k, v, n - 1);
    } else {
      FlatSame(bs, bs[k := v], n - 1);
    }
  }

  lemma {:induction false} FlatSame(cs: seq<Word>, bs: seq<Word>, n: nat)
    requires n <= |cs| == |bs| && forall k :: 0 <= k < n ==> cs[k] == bs[k]
    ensures FlatUpTo(cs, n) == FlatUpTo(bs, n)
  {
    if n > 0 {
      FlatSame(cs, bs, n - 1);
    }
  }

  /** What replacing a block does to every position of the flat sequence. */
  lemma Replacing(bs: seq<Word>, w: nat, k: nat, v: Word)
    requires Uniform(bs, w) && k < |bs| && |v| == w
    ensures Replaced(Flat(bs), Flat(bs[k := v]), Base(k, w), v)
    ensures forall j :: 0 <= j < w ==> Flat(bs)[Base(k, w) + j] == bs[k][j]
  {
    FlatReplaced(bs, w, k, v, |bs|);
    forall j | 0 <= j < w
      ensures Flat(bs)[Base(k, w) + j] == bs[k][j]
    {
      FlatAt(bs, w, k, j);
    }
  }

  /** The positions from lo to hi are reset, all others are as before. */
  ghost predicate Cleared(was: seq<bool>, now: seq<bool>, lo: nat, hi: nat) {
    && |now| == |was|
    && hi <= |was|
    && forall p :: 0 <= p < |was| ==> now[p] == (was[p] && !(lo <= p < hi))
  }

  /** The positions up to hi are inverted, all others are as before. */
  ghost predicate Flipped(was: seq<bool>, now: seq<bool>, hi: nat) {
    && |now| == |was|
    && hi <= |was|
    && forall p :: 0 <= p < |was| ==> now[p] == (was[p] != (p < hi))
  }

  /** Clearing a part of one block, after everything from lo up to that part. */
  lemma ClearInBlock(was: seq<bool>, bs: seq<Word>, w: nat, lo: nat, k: nat, a: nat, b: nat, v: Word)
    requires Uniform(bs, w) && k < |bs| && a <= b <= w && |v| == w && lo <= Base(k, w) + a
    requires Cleared(was, Flat(bs), lo, Base(k, w) + a)
    requires forall j :: 0 <= j < w ==> v[j] == (bs[k][j] && !(a <= j < b))
    ensures Cleared(was, Flat(bs[k := v]), lo, Base(k, w) + b)
    ensures Base(k + 1, w) == Base(k, w) + w <= |was|
  {
    Replacing(bs, w, k, v);
    var s, r := Flat(bs), Flat(bs[k := v]);
    forall p | 0 <= p < |was|
      ensures r[p] == (was[p] && !(lo <= p < Base(k, w) + b))
    {
      if Base(k, w) <= p < Base(k, w) + w {
        var j := p - Base(k, w);
        assert s[Base(k, w) + j] == bs[k][j] && r[Base(k, w) + j] == v[j];
      }
    }
  }

  lemma FlipBlock(was: seq<bool>, bs: seq<Word>, w: nat, k: nat)
    requires Uniform(bs, w) && k < |bs|
    requires Flipped(was, Flat(bs), Base(k, w))
    ensures Flipped(was, Flat(bs[k := Not(bs[k])]), Base(k + 1, w))
  {
    var v := Not(bs[k]);
    Replacing(bs, w, k, v);
    var s, r := Flat(bs), Flat(bs[k := v]);
    forall p | 0 <= p < |was|
      ensures r[p] == (was[p] != (p < Base(k + 1, w)))
    {
      if Base(k, w) <= p < Base(k, w) + w {
        var j := p - Base(k, w);
        assert s[Base(k, w) + j] == bs[k][j] && r[Base(k, w) + j] == v[j];
      }
    }
  }

  lemma PutInBlock(bs: seq<Word>, w: nat, k: nat, j: nat, v: Word, value: bool)
    requires Uniform(bs, w) && k < |bs| && j < w && v == bs[k][j := value]
    ensures Base(k, w) + j < |Flat(bs)|
    ensures Flat(bs[k := v]) == Flat(bs)[Base(k, w) + j := value]
  {
    Replacing(bs, w, k, v);
    var s, r := Flat(bs), Flat(bs[k := v]);
    var at := Base(k, w);
    forall p | 0 <= p < |s|
      ensures r[p] == if p == at + j then value else s[p]
    {
      if at <= p < at + w {
        assert s[at + (p - at)] == bs[k][p - at] && r[at + (p - at)] == v[p - at];
      }
    }
    assert r == s[at + j := value];
  }

  /** Masking a block with a single one bit leaves something exactly when that bit is set. */
  lemma MaskedBit(block: Word, j: nat)
    requires j < |block|
    ensures And(block, Zeros(|block|)[j := true]) != Zeros(|block|) <==> block[j]
  {
    var masked := And(block, Zeros(|block|)[j := true]);
    assert masked[j] == block[j];
    if !block[j] {
      assert masked == Zeros(|block|);
    }
  }

  method CountMasked(block: Word, i: nat, j: nat) returns (c: nat)
    requires i <= j <= |block|
    ensures c == Count(block[i..j])
  {
    var front := MaskFront(block, i);
    MaskFrontCount(block, i);
    MaskBothCount(block, i, j, front);
    c := Count(MaskBack(front, j));
  }

  // ----- the view

  class BitsetView {
    const blocks: array<Word>
    const bits: nat
    /** bits_per_block, a power of two: indexes are split by shifting and masking. */
    const width: nat

    ghost predicate Valid()
      reads this, blocks
    {
      width > 0 && Uniform(blocks[..], width) && bits <= Base(blocks.Length, width)
    }

    /** All bits of the span; the set is the first `bits` of them. */
    ghost function Raw(): seq<bool>
      reads this, blocks
    {
      Flat(blocks[..])
    }

    /** The end of the last block that holds a part of the set. */
    ghost function Limit(): nat
      requires width > 0
    {
      Base(BlockCount(), width)
    }

    /** No bit beyond the size is set, in the blocks that are used. */
    ghost predicate NoStray()
      requires Valid()
      reads this, blocks
    {
      LimitBounds();
      forall i :: bits <= i < Limit() ==> !Raw()[i]
    }

    constructor (blocks: array<Word>, bits: nat, width: nat)
      requires width > 0 && Uniform(blocks[..], width) && bits <= Base(blocks.Length, width)
      ensures Valid() && this.blocks == blocks && this.bits == bits && this.width == width
    {
      this.blocks, this.bits, this.width := blocks, bits, width;
    }

    function BlockIndex(i: nat): nat
      requires width > 0
    {
      i / width
    }

    function BlockOffset(i: nat): nat
      requires width > 0
    {
      i % width
    }

    function BlockCount(): nat
      requires width > 0
    {
      BlockIndex(bits) + if BlockOffset(bits) != 0 then 1 else 0
    }

    lemma LimitBounds()
      requires Valid()
      ensures BlockCount() <= blocks.Length
      ensures bits <= Limit() < bits + width && Limit() <= |Raw()| == Base(blocks.Length, width)
      ensures bits % width == 0 ==> Limit() == bits
    {
      Split(bits, width);
      FlatLength(blocks[..], width, blocks.Length);
      var q := bits / width;
      if q >= blocks.Length {
        BaseMonotonic(blocks.Length, q, width);
      }
      BaseMonotonic(BlockCount(), blocks.Length, width);
    }

    /** Where an index of the set, or its end, lies. */
    lemma Locate(i: nat)
      requires Valid() && i <= bits
      ensures i == Base(BlockIndex(i), width) + BlockOffset(i) && BlockOffset(i) < width
      ensures BlockIndex(i) <= BlockCount() <= blocks.Length
      ensures i < bits || BlockOffset(i) != 0 ==> BlockIndex(i) < BlockCount()
      ensures Base(BlockIndex(i), width) <= Limit() <= |Raw()|
    {
      Split(i, width);
      LimitBounds();
      if BlockIndex(i) > BlockCount() {
        BaseMonotonic(BlockCount() + 1, BlockIndex(i), width);
      } else if BlockIndex(i) == BlockCount() {
      } else {
        BaseMonotonic(BlockIndex(i), BlockCount(), width);
      }
    }

    lemma InOrder(i: nat, j: nat)
      requires Valid() && i <= j
      ensures BlockIndex(i) <= BlockIndex(j)
      ensures BlockIndex(i) == BlockIndex(j) ==> BlockOffset(i) <= BlockOffset(j)
      ensures i < j && BlockOffset(i) != 0 && BlockIndex(i) == BlockIndex(j) ==> BlockOffset(j) != 0
    {
      Split(i, width);
      Split(j, width);
      if BlockIndex(j) < BlockIndex(i) {
        BaseMonotonic(BlockIndex(j), BlockIndex(i), width);
      }
    }

    method CountBits(begin: nat, n: nat) returns (result: nat)
      requires Valid() && begin + n <= bits
      ensures begin + n <= |Raw()| && result == CountRange(Raw(), begin, begin + n)
    {
      LimitBounds();
      if begin >= bits || n == 0 {
        return 0;
      }
      var end := begin + n;
      var current, last := BlockIndex(begin), BlockIndex(end);
      Locate(begin);
      Locate(end);
      InOrder(begin, end);
      result := 0;
      var i := BlockOffset(begin);
      if i != 0 {
        if last == current {
          var j := BlockOffset(end);
          result := CountWithin(current, i, j);
          return;
        }
        result := CountFirst(current, i);
        current := current + 1;
      }
      var rest := CountRest(current, end);
      CountSplit(Raw(), begin, Base(current, width), end);
      result := result + rest;
    }

    /** popcount of a block, masked on both sides. */
    method CountWithin(k: nat, i: nat, j: nat) returns (c: nat)
      requires Valid() && k < blocks.Length && i <= j <= width
      ensures Base(k, width) + j <= |Raw()| && c == CountRange(Raw(), Base(k, width) + i, Base(k, width) + j)
    {
      c := CountMasked(blocks[k], i, j);
      CountIntoBlock(blocks[..], width, Base(k, width) + i, k, i, j);
    }

    /** popcount of a block, masked at the front. */
    method CountFirst(k: nat, i: nat) returns (c: nat)
      requires Valid() && k < blocks.Length && i <= width
      ensures Base(k, width) + i <= Base(k + 1, width) <= |Raw()|
      ensures c == CountRange(Raw(), Base(k, width) + i, Base(k + 1, width))
    {
      CountFront(blocks[..], width, k, i);
      c := Count(MaskFront(blocks[k], i));
    }

    /** popcount of a block, masked at the back. */
    method CountLast(k: nat, j: nat) returns (c: nat)
      requires Valid() && k < blocks.Length && j <= width
      ensures Base(k, width) + j <= |Raw()| && c == CountRange(Raw(), Base(k, width), Base(k, width) + j)
    {
      CountBack(blocks[..], width, Base(k, width), k, j);
      c := Count(MaskBack(blocks[k], j));
    }

    /** Blockwise popcount until the last block, and the remainder of the last block. */
    method CountRest(first: nat, end: nat) returns (result: nat)
      requires Valid() && end <= bits && first <= BlockIndex(end)
      ensures Base(first, width) <= end <= |Raw()| && result == CountRange(Raw(), Base(first, width), end)
    {
      Locate(end);
      var current, last := first, BlockIndex(end);
      BaseMonotonic(first, last, width);
      ghost var bs := blocks[..];
      result := 0;
      while current < last
        invariant first <= current <= last
        invariant Base(first, width) <= Base(current, width) <= |Flat(bs)|
        invariant result == CountRange(Flat(bs), Base(first, width), Base(current, width))
      {
        CountWhole(bs, width, Base(first, width), current);
        result := result + Count(blocks[current]);
        current := current + 1;
      }
      var j := BlockOffset(end);
      if j != 0 {
        var remainder := CountLast(current, j);
        CountSplit(Flat(bs), Base(first, width), Base(current, width), end);
        result := result + remainder;
      }
    }

    /** The search stops at the end of the last used block, not at the size. */
    method FindSet(begin: nat) returns (r: Option<nat>)
      requires Valid() && begin <= bits
      ensures bits <= Limit() <= |Raw()|
      ensures if begin < bits then Least(Raw(), begin, Limit(), true, r) else r == None
      ensures NoStray() ==> Least(Raw(), begin, bits, true, r)
    {
      LimitBounds();
      if begin >= bits {
        return None;
      }
      r := Search(begin, true);
    }

    /** The last few bits beyond the size are dropped from the result. */
    method FindUnset(begin: nat) returns (r: Option<nat>)
      requires Valid() && begin <= bits
      ensures bits <= |Raw()| && Least(Raw(), begin, bits, false, r)
    {
      LimitBounds();
      if begin >= bits {
        return None;
      }
      r := Search(begin, false);
      if r.Some? && r.value >= bits {
        r := None;
      }
    }

    /** The search in one block, from an offset on: one plus the distance to the index found, or zero. */
    method SearchIn(ghost lo: nat, k: nat, i: nat, value: bool) returns (s: nat)
      requires Valid() && k < BlockCount() && i <= width
      requires lo <= Base(k, width) + i <= Base(k, width) + width <= Limit() <= |Raw()|
      requires Least(Raw(), lo, Base(k, width) + i, value, None)
      ensures s > 0 ==> Least(Raw(), lo, Limit(), value, Some(Base(k, width) + i + s - 1))
      ensures s == 0 ==> Least(Raw(), lo, Base(k + 1, width), value, None)
    {
      LimitBounds();
      s := FirstSought(blocks[k], i, value);
      SearchBlock(blocks[..], width, lo, Limit(), value, k, i, s);
    }

    /** The shared part of both searches: the rest of the first block, then block by block. */
    method Search(begin: nat, value: bool) returns (r: Option<nat>)
      requires Valid() && begin < bits
      ensures begin <= Limit() <= |Raw()| && Least(Raw(), begin, Limit(), value, r)
    {
      LimitBounds();
      var current := BlockIndex(begin);
      Locate(begin);
      BaseMonotonic(current, BlockCount(), width);
      var i := BlockOffset(begin);
      if i != 0 {
        var s := SearchIn(begin, current, i, value);
        if s != 0 {
          return Some(begin + s - 1);
        }
        current := current + 1;
      }
      r := SearchBlocks(begin, current, value);
    }

    method SearchBlocks(ghost lo: nat, first: nat, value: bool) returns (r: Option<nat>)
      requires Valid() && first <= BlockCount() && lo <= Base(first, width) <= Limit() <= |Raw()|
      requires Least(Raw(), lo, Base(first, width), value, None)
      ensures Least(Raw(), lo, Limit(), value, r)
    {
      LimitBounds();
      var current, total := first, BlockCount();
      while current < total
        invariant current <= total && lo <= Base(current, width) <= Limit()
        invariant Least(Raw(), lo, Base(current, width), value, None)
      {
        BaseMonotonic(current, total, width);
        var s := SearchIn(lo, current, 0, value);
        if s != 0 {
          BaseIsProduct(current, width);
          return Some(current * width + s - 1);
        }
        current := current + 1;
      }
      return None;
    }

    /** Writes one block. */
    method Store(k: nat, v: Word)
      requires Valid() && k < blocks.Length && |v| == width
      modifies blocks
      ensures Valid() && blocks[..] == old(blocks[..])[k := v]
    {
      blocks[k] := v;
      assert blocks[..] == old(blocks[..])[k := v];
    }

    method Test(index: nat) returns (b: bool)
      requires Valid() && index < bits
      ensures index < |Raw()| && b == Raw()[index]
    {
      Locate(index);
      var k, j := BlockIndex(index), BlockOffset(index);
      FlatAt(blocks[..], width, k, j);
      MaskedBit(blocks[k], j);
      b := And(blocks[k], Zeros(width)[j := true]) != Zeros(width);
    }

    method SetBit(index: nat)
      requires Valid() && index < bits
      modifies blocks
      ensures Valid() && index < |old(Raw())| && Raw() == old(Raw())[index := true]
      ensures NoStray() <==> old(NoStray())
    {
      Put(index, true);
    }

    method ClearBit(index: nat)
      requires Valid() && index < bits
      modifies blocks
      ensures Valid() && index < |old(Raw())| && Raw() == old(Raw())[index := false]
      ensures NoStray() <==> old(NoStray())
    {
      Put(index, false);
    }

    /** The block is joined with a single one bit, or masked with its complement. */
    method Put(index: nat, value: bool)
      requires Valid() && index < bits
      modifies blocks
      ensures Valid() && index < |old(Raw())| && Raw() == old(Raw())[index := value]
      ensures NoStray() <==> old(NoStray())
    {
      Locate(index);
      var k, j := BlockIndex(index), BlockOffset(index);
      var one := Zeros(width)[j := true];
      var v := if value then Or(blocks[k], one) else And(blocks[k], Not(one));
      assert v == blocks[k][j := value];
      PutInBlock(blocks[..], width, k, j, v, value);
      Store(k, v);
      assert forall p :: bits <= p < Limit() ==> Raw()[p] == old(Raw())[p];
    }

    method SetTo(index: nat, value: bool)
      requires Valid() && index < bits
      modifies blocks
      ensures Valid() && index < |old(Raw())| && Raw() == old(Raw())[index := value]
      ensures NoStray() <==> old(NoStray())
    {
      if value {
        SetBit(index);
      } else {
        ClearBit(index);
      }
    }

    method FlipBit(index: nat)
      requires Valid() && index < bits
      modifies blocks
      ensures Valid() && index < |old(Raw())| && Raw() == old(Raw())[index := !old(Raw())[index]]
      ensures NoStray() <==> old(NoStray())
    {
      var b := Test(index);
      SetTo(index, !b);
    }

    /** Clears n bits from `begin` on, in part of the first block, whole blocks and part of the last. */
    method ClearRange(begin: nat, n: nat)
      requires Valid() && begin + n <= bits
      modifies blocks
      ensures Valid() && Cleared(old(Raw()), Raw(), begin, begin + n)
      ensures NoStray() <==> old(NoStray())
    {
      LimitBounds();
      ghost var was := Raw();
      if begin >= bits || n == 0 {
        return;
      }
      var end := begin + n;
      var current, last := BlockIndex(begin), BlockIndex(end);
      Locate(begin);
      Locate(end);
      InOrder(begin, end);
      var i, j := BlockOffset(begin), BlockOffset(end);
      if i != 0 {
        if current == last {
          ClearPart(was, begin, current, i, j, Or(LowMask(i, width), Not(LowMask(j, width))));
          return;
        }
        ClearPart(was, begin, current, i, width, LowMask(i, width));
        current := current + 1;
      }
      ClearRest(was, begin, current, last, j);
    }

    /** The blocks from the first one on, and the start of the last one. */
    method ClearRest(ghost was: seq<bool>, ghost lo: nat, first: nat, last: nat, j: nat)
      requires Valid() && first <= last <= blocks.Length && (j != 0 ==> last < blocks.Length) && j <= width
      requires lo <= Base(first, width) && Cleared(was, Raw(), lo, Base(first, width))
      modifies blocks
      ensures Valid() && Cleared(was, Raw(), lo, Base(last, width) + j)
    {
      ClearBlocks(was, lo, first, last);
      if j != 0 {
        ClearPart(was, lo, last, 0, j, Not(LowMask(j, width)));
      }
    }

    /** Sets whole blocks to zero. */
    method ClearBlocks(ghost was: seq<bool>, ghost lo: nat, first: nat, last: nat)
      requires Valid() && first <= last <= blocks.Length && lo <= Base(first, width)
      requires Cleared(was, Raw(), lo, Base(first, width))
      modifies blocks
      ensures Valid() && lo <= Base(last, width) && Cleared(was, Raw(), lo, Base(last, width))
    {
      for k := first to last
        invariant Valid() && lo <= Base(k, width) && Cleared(was, Raw(), lo, Base(k, width))
      {
        ClearInBlock(was, blocks[..], width, lo, k, 0, width, Zeros(width));
        Store(k, Zeros(width));
      }
    }

    /** blocks_[k] &= mask, where the mask has zero bits at the offsets from a to b only. */
    method ClearPart(ghost was: seq<bool>, ghost lo: nat, k: nat, ghost a: nat, ghost b: nat, mask: Word)
      requires Valid() && k < blocks.Length && a <= b <= width && lo <= Base(k, width) + a
      requires |mask| == width && forall x :: 0 <= x < width ==> mask[x] == !(a <= x < b)
      requires Cleared(was, Raw(), lo, Base(k, width) + a)
      modifies blocks
      ensures Valid() && Cleared(was, Raw(), lo, Base(k, width) + b)
      ensures Base(k + 1, width) == Base(k, width) + width
    {
      var v := And(blocks[k], mask);
      ClearInBlock(was, blocks[..], width, lo, k, a, b, v);
      Store(k, v);
    }

    /** Zeroes every used block. */
    method ClearAll()
      requires Valid()
      modifies blocks
      ensures Valid() && Cleared(old(Raw()), Raw(), 0, Limit())
      ensures NoStray()
    {
      LimitBounds();
      ClearBlocks(Raw(), 0, 0, BlockCount());
    }

    /** Inverts all bits of all used blocks, those beyond the size included. */
    method FlipAll()
      requires Valid()
      modifies blocks
      ensures Valid() && Flipped(old(Raw()), Raw(), Limit())
    {
      LimitBounds();
      ghost var was := Raw();
      for k := 0 to BlockCount()
        invariant Valid() && Flipped(was, Raw(), Base(k, width))
      {
        FlipBlock(was, blocks[..], width, k);
        Store(k, Not(blocks[k]));
      }
    }
  }

  // ----- bits beyond the size

  /** No position from lo to hi is set. */
  ghost predicate Unset(s: seq<bool>, lo: nat, hi: nat)
    requires hi <= |s|
  {
    forall i :: lo <= i < hi ==> !s[i]
  }

  /** A search up to the end of the blocks finds the least set index of the set exactly when there is one, or no
      stray bit is set. */
  lemma SearchIsRightExactly(s: seq<bool>, begin: nat, size: nat, limit: nat, r: Option<nat>)
    requires begin <= size <= limit <= |s| && Least(s, begin, limit, true, r)
    ensures Least(s, begin, size, true, r) <==> !Unset(s, begin, size) || Unset(s, size, limit)
  {
    if !Unset(s, begin, size) {
      var p :| begin <= p < size && s[p];
      assert r.Some? && r.value <= p;
    }
  }

  /** Inverting everything leaves no stray bit exactly when all bits beyond the size were set: from a set without
      stray bits, exactly when the size fills its blocks. */
  lemma FlipLeavesStray(was: seq<bool>, now: seq<bool>, size: nat, limit: nat)
    requires size <= limit <= |was| && Flipped(was, now, limit)
    ensures Unset(now, size, limit) <==> forall i :: size <= i < limit ==> was[i]
    ensures Unset(was, size, limit) ==> (Unset(now, size, limit) <==> size == limit)
  {
    assert Unset(now, size, limit) ==> forall i :: size <= i < limit ==> was[i] == !now[i];
    if size < limit {
      assert was[size] == !now[size];
    }
  }

  /** The last block is filled exactly when the size is a multiple of the width. */
  lemma LimitIsSizeExactly(v: BitsetView)
    requires v.Valid()
    ensures v.Limit() == v.bits <==> v.bits % v.width == 0
  {
    v.LimitBounds();
    Split(v.bits, v.width);
  }

  /** One bit in a block of 64: after inverting the set and clearing its only index, the search finds index 1. */
  method FlippedSetFindsBeyondItsSize() returns (r: Option<nat>)
    ensures r == Some(1)
  {
    var blocks := new Word[1](_ => Zeros(64));
    assert Base(1, 64) == Base(0, 64) + 64;
    var v := new BitsetView(blocks, 1, 64);
    v.LimitBounds();
    FlatAt(blocks[..], 64, 0, 0);
    FlatAt(blocks[..], 64, 0, 1);
    v.FlipAll();
    v.ClearBit(0);
    assert !v.Raw()[0] && v.Raw()[1];
    r := v.FindSet(0);
  }

  // ----- a set that owns its blocks

  const BITS_PER_U64: nat := 64

  /** Rounding the number of blocks up is what counting the used blocks of a view gives. */
  lemma CeilDivCounts(bits: nat, w: nat)
    requires w > 0
    ensures (bits + w - 1) / w == bits / w + if bits % w != 0 then 1 else 0
    ensures bits <= Base((bits + w - 1) / w, w)
  {
    var q, r := bits / w, bits % w;
    Split(bits, w);
    BaseIsProduct(q, w);
    var up := bits + w - 1;
    Split(up, w);
    if up / w < q {
      BaseMonotonic(up / w, q, w);
    } else if r == 0 && up / w > q {
      BaseMonotonic(q + 1, up / w, w);
    } else if up / w > q + 1 {
      BaseMonotonic(q + 2, up / w, w);
    }
  }

  /** A bit of the new blocks is the old bit of its position, where there was one. */
  lemma ResizedBits(was: seq<Word>, now: seq<Word>, w: nat)
    requires w > 0 && Uniform(was, w) && Uniform(now, w)
    requires forall k :: 0 <= k < |now| ==> now[k] == if k < |was| then was[k] else Zeros(w)
    ensures |Flat(now)| == Base(|now|, w)
    ensures forall i :: 0 <= i < |Flat(now)| ==> Flat(now)[i] == (i < |Flat(was)| && Flat(was)[i])
  {
    FlatLength(was, w, |was|);
    FlatLength(now, w, |now|);
    forall i | 0 <= i < |Flat(now)|
      ensures Flat(now)[i] == (i < |Flat(was)| && Flat(was)[i])
    {
      ResizedBit(was, now, w, i, i / w);
    }
  }

  lemma ResizedBit(was: seq<Word>, now: seq<Word>, w: nat, i: nat, k: nat)
    requires w > 0 && Uniform(was, w) && Uniform(now, w) && i < |Flat(now)| && k == i / w
    requires forall k :: 0 <= k < |now| ==> now[k] == if k < |was| then was[k] else Zeros(w)
    ensures Flat(now)[i] == (i < |Flat(was)| && Flat(was)[i])
  {
    FlatLength(was, w, |was|);
    FlatLength(now, w, |now|);
    Split(i, w);
    if k >= |now| {
      BaseMonotonic(|now|, k, w);
    }
    FlatAt(now, w, k, i % w);
    if k < |was| {
      FlatAt(was, w, k, i % w);
    } else {
      BaseMonotonic(|was|, k, w);
    }
  }

  /** From a set without stray bits, resizing leaves none exactly when no bit is set from the new size to the end of
      its last block: growing never leaves any, shrinking may. */
  lemma ResizeLeavesStray(was: seq<bool>, now: seq<bool>, oldSize: nat, size: nat)
    requires oldSize <= |was| && Unset(was, oldSize, |was|) && size <= |now|
    requires forall i :: 0 <= i < |now| ==> now[i] == (i < |was| && was[i])
    ensures Unset(now, size, |now|) <==> forall i :: size <= i < |now| && i < oldSize ==> !was[i]
    ensures oldSize <= size ==> Unset(now, size, |now|)
  {
    if forall i :: size <= i < |now| && i < oldSize ==> !was[i] {
      assert Unset(now, size, |now|);
    } else {
      var i :| size <= i < |now| && i < oldSize && was[i];
      assert now[i];
    }
  }

  class DynamicBitset {
    var blocks: array<Word>
    var bits: nat

    ghost predicate Valid()
      reads this, blocks
    {
      && Uniform(blocks[..], BITS_PER_U64)
      && blocks.Length == CeilDiv(bits, BITS_PER_U64)
    }

    ghost function Raw(): seq<bool>
      reads this, blocks
    {
      Flat(blocks[..])
    }

    static function CeilDiv(a: nat, b: nat): nat
      requires b > 0
    {
      (a + b - 1) / b
    }

    constructor (size: nat)
      ensures Valid() && fresh(blocks) && bits == size
      ensures |Raw()| == Base(blocks.Length, BITS_PER_U64) && Unset(Raw(), 0, |Raw()|)
    {
      blocks := new Word[0];
      bits := size;
      new;
      Resize(size);
    }

    /** Keeps the blocks that are still needed and adds zero blocks; no bit of a kept block is touched. */
    method Resize(newSize: nat)
      requires Uniform(blocks[..], BITS_PER_U64)
      modifies this
      ensures Valid() && fresh(blocks) && bits == newSize
      ensures |Raw()| == Base(blocks.Length, BITS_PER_U64)
      ensures forall i :: 0 <= i < |Raw()| ==> Raw()[i] == (i < |old(Raw())| && old(Raw())[i])
    {
      ghost var was := Raw();
      var count := CeilDiv(newSize, BITS_PER_U64);
      var from := blocks;
      var to := new Word[count](k requires 0 <= k < count reads from => if k < from.Length then from[k] else Zeros(BITS_PER_U64));
      assert forall k :: 0 <= k < count ==> to[..][k] == if k < from.Length then from[..][k] else Zeros(BITS_PER_U64);
      ResizedBits(from[..], to[..], BITS_PER_U64);
      blocks := to;
      bits := newSize;
    }

    method View() returns (v: BitsetView)
      requires Valid()
      ensures fresh(v) && v.Valid() && v.blocks == blocks && v.bits == bits && v.width == BITS_PER_U64
      ensures v.BlockCount() == blocks.Length
    {
      CeilDivCounts(bits, BITS_PER_U64);
      v := new BitsetView(blocks, bits, BITS_PER_U64);
    }
  }

  /** Two bits, the last one set: after shrinking to one bit, the search finds index 1. */
  method ShrunkSetFindsBeyondItsSize() returns (r: Option<nat>)
    ensures r == Some(1)
  {
    var flags := new DynamicBitset(2);
    assert Base(1, BITS_PER_U64) == Base(0, BITS_PER_U64) + BITS_PER_U64;
    var v := flags.View();
    v.SetBit(1);
    ghost var was := flags.Raw();
    flags.Resize(1);
    assert flags.Raw()[1] && !flags.Raw()[0];
    v := flags.View();
    v.LimitBounds();
    r := v.FindSet(0);
  }
}
