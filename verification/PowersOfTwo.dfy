/** Logarithms and rounding to powers of two, for every word width: src/common/math.hpp:37-95. */
module PowersOfTwo {
  import opened Common
  import opened Words

  /** The base-2 logarithm, by shifting. */
  method Log2(v: nat) returns (log: nat)
    requires v != 0
    ensures Pow2(log) <= v < Pow2(log + 1)
  {
    log := 0;
    var x := v / 2;
    ghost var scale := 2;
    while x != 0
      invariant scale == Pow2(log + 1) == 2 * Pow2(log)
      invariant Pow2(log) <= v && x * scale <= v < x * scale + scale
      decreases x
    {
      Halving(x, scale, v);
      log := log + 1;
      scale := 2 * scale;
      x := x / 2;
    }
  }

  lemma Halving(x: nat, scale: nat, v: nat)
    requires x > 0 && x * scale <= v < x * scale + scale
    ensures scale <= v && (x / 2) * (2 * scale) <= v < (x / 2) * (2 * scale) + 2 * scale
  {
    var h := x / 2;
    assert x == 2 * h || x == 2 * h + 1;
    assert h * (2 * scale) == (2 * h) * scale;
    assert x * scale == (x - 1) * scale + scale;
    assert (x - 1) * scale >= 0;
  }

  /** The variant that counts leading zeroes. */
  function Log2Fast(v: nat, width: nat): (log: int)
  {
    width - LeadingZeros(ToWord(v, width)) - 1
  }

  lemma LeadingZerosBracket(v: nat, width: nat)
    requires 0 < v < Pow2(width)
    ensures LeadingZeros(ToWord(v, width)) < width
    ensures var log := Log2Fast(v, width); Pow2(log) <= v < Pow2(log + 1)
  {
    var w := ToWord(v, width);
    ValOfWord(v, width);
    ValZero(w);
    var n := width - LeadingZeros(w);
    assert n > 0 && w[n - 1];
    ValBelow(w, n);
    ValBelow(w, n - 1);
  }

  /** Only one exponent brackets a number. */
  lemma BracketIsUnique(v: nat, a: nat, b: nat)
    requires Pow2(a) <= v < Pow2(a + 1) && Pow2(b) <= v < Pow2(b + 1)
    ensures a == b
  {
    if a < b {
      Pow2Monotonic(a + 1, b);
    } else if b < a {
      Pow2Monotonic(b + 1, a);
    }
  }

  /** log2 and log2_fast agree. */
  lemma LogarithmsAgree(v: nat, width: nat, log: nat)
    requires 0 < v < Pow2(width) && Pow2(log) <= v < Pow2(log + 1)
    ensures Log2Fast(v, width) == log
  {
    LeadingZerosBracket(v, width);
    BracketIsUnique(v, Log2Fast(v, width), log);
  }

  ghost predicate IsPow2(p: nat) {
    exists n: nat :: p == Pow2(n)
  }

  ghost predicate LeastPow2AtLeast(v: nat, p: nat) {
    IsPow2(p) && v <= p && forall q :: IsPow2(q) && v <= q ==> p <= q
  }

  /** Unsigned decrement and increment wrap around at the word's limit. */
  function Decrement(v: nat, limit: nat): nat
    requires v < limit
  {
    if v == 0 then limit - 1 else v - 1
  }

  function Increment(v: nat, limit: nat): nat {
    if v + 1 == limit then 0 else v + 1
  }

  /** Bit k is set when one of the `reach` bits from k upwards was set. */
  ghost predicate Smeared(w: Word, from: Word, reach: nat) {
    && |w| == |from|
    && forall k :: 0 <= k < |w| ==> (w[k] <==> exists j :: k <= j < k + reach && j < |from| && from[j])
  }

  lemma SmearDoubles(w: Word, from: Word, reach: nat)
    requires Smeared(w, from, reach) && reach > 0
    ensures Smeared(Or(w, ShiftRight(w, reach)), from, 2 * reach)
  {
    var r := Or(w, ShiftRight(w, reach));
    forall k | 0 <= k < |w|
      ensures r[k] <==> exists j :: k <= j < k + 2 * reach && j < |from| && from[j]
    {
      assert ShiftRight(w, reach)[k] <==> k + reach < |w| && w[k + reach];
    }
  }

  /** Sets every bit below the highest one bit, doubling the distance in each round. */
  method SmearDown(from: Word) returns (w: Word)
    ensures Val(w) == Pow2(|from| - LeadingZeros(from)) - 1
  {
    w := from;
    var i := 1;
    while i < |from|
      invariant 0 < i && Smeared(w, from, i)
      decreases |from| - i
    {
      SmearDoubles(w, from, i);
      w := Or(w, ShiftRight(w, i));
      i := i * 2;
    }
    SmearedValue(w, from, i);
  }

  /** Rounds up to the next power of two, keeping 0. */
  method CeilPow2(v: nat, width: nat) returns (p: nat)
    requires width > 0 && v <= Pow2(width - 1)
    ensures v == 0 ==> p == 0
    ensures v > 0 ==> LeastPow2AtLeast(v, p)
  {
    Pow2Monotonic(width - 1, width);
    var w := SmearDown(ToWord(Decrement(v, Pow2(width)), width));
    p := Increment(Val(w), Pow2(width));
    SmearedResult(v, width);
  }

  /** The decrement and the increment wrap around, which makes 0 round to 0. */
  lemma SmearedResult(v: nat, width: nat)
    requires width > 0 && v <= Pow2(width - 1) < Pow2(width)
    ensures var n := width - LeadingZeros(ToWord(Decrement(v, Pow2(width)), width));
            var p := Increment(Pow2(n) - 1, Pow2(width));
            (v == 0 ==> p == 0) && (v > 0 ==> LeastPow2AtLeast(v, p))
  {
    if v == 0 {
      var top := Pow2(width) - 1;
      LeadingZerosBracket(top, width);
      BracketIsUnique(top, Log2Fast(top, width), width - 1);
    } else {
      RoundUp(v, width);
    }
  }

  /** After smearing, exactly the bits up to the highest one bit are set. */
  lemma SmearedValue(w: Word, from: Word, reach: nat)
    requires Smeared(w, from, reach) && reach >= |from|
    ensures Val(w) == Pow2(|from| - LeadingZeros(from)) - 1
  {
    var n := |from| - LeadingZeros(from);
    forall k | 0 <= k < |w| ensures w[k] <==> k < n {
      if k < n {
        assert k <= n - 1 < k + reach && from[n - 1];
      }
    }
    assert w == LowMask(n, |from|);
    LowMaskValue(n, |from|);
  }

  /** The variant that counts leading zeroes. */
  function CeilPow2Fast(v: nat, width: nat): nat {
    if v < 2 then v else Pow2(width - LeadingZeros(ToWord(v - 1, width)))
  }

  lemma RoundUp(v: nat, width: nat)
    requires width > 0 && 0 < v <= Pow2(width - 1)
    ensures var p := Pow2(width - LeadingZeros(ToWord(v - 1, width)));
            LeastPow2AtLeast(v, p) && p < Pow2(width)
  {
    var n: nat := width - LeadingZeros(ToWord(v - 1, width));
    assert v <= Pow2(n) && (n > 0 ==> Pow2(n - 1) < v) by {
      PredecessorBracket(v, width);
    }
    BracketIsLeast(v, n);
    assert Pow2(n) < Pow2(width) by {
      NotBelow(v, n, width - 1);
      Pow2Monotonic(width - 1, width);
    }
  }

  lemma PredecessorBracket(v: nat, width: nat)
    requires width > 0 && 0 < v <= Pow2(width - 1)
    ensures var n: nat := width - LeadingZeros(ToWord(v - 1, width));
            v <= Pow2(n) && (n > 0 ==> Pow2(n - 1) < v)
  {
    var u: nat := v - 1;
    Pow2Monotonic(width - 1, width);
    if u == 0 {
      ValOfWord(u, width);
      NoBits(ToWord(u, width));
    } else {
      LeadingZerosBracket(u, width);
    }
  }

  lemma NoBits(w: Word)
    requires Val(w) == 0
    ensures LeadingZeros(w) == |w|
  {
    ValZero(w);
  }

  lemma BracketIsLeast(v: nat, n: nat)
    requires v <= Pow2(n) && (n > 0 ==> Pow2(n - 1) < v)
    ensures LeastPow2AtLeast(v, Pow2(n))
  {
    forall q | IsPow2(q) && v <= q ensures Pow2(n) <= q {
      var e: nat :| q == Pow2(e);
      NotBelow(v, n, e);
    }
  }

  lemma NotBelow(v: nat, n: nat, e: nat)
    requires v <= Pow2(e) && (n > 0 ==> Pow2(n - 1) < v)
    ensures Pow2(n) <= Pow2(e)
  {
    if e < n {
      Pow2Monotonic(e, n - 1);
    } else {
      Pow2Monotonic(n, e);
    }
  }

  /** Both ways of rounding give the least power of two that is not smaller. */
  lemma CeilPow2FastIsLeast(v: nat, width: nat)
    requires width > 0 && 0 < v <= Pow2(width - 1)
    ensures LeastPow2AtLeast(v, CeilPow2Fast(v, width))
    ensures forall p :: LeastPow2AtLeast(v, p) ==> p == CeilPow2Fast(v, width)
  {
    RoundUp(v, width);
    if v == 1 {
      assert Pow2(0) == 1;
    }
  }
}
