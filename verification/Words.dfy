/** Unsigned machine words as bit sequences, least significant bit first: src/common/bitops.hpp. */
module Words {
  import opened Common

  type Word = seq<bool>

  function Zeros(n: nat): (w: Word)
    ensures |w| == n && forall k :: 0 <= k < n ==> !w[k]
  {
    seq(n, _ => false)
  }

  function Ones(n: nat): (w: Word)
    ensures |w| == n && forall k :: 0 <= k < n ==> w[k]
  {
    seq(n, _ => true)
  }

  function ShiftRight(w: Word, n: nat): (r: Word)
    ensures |r| == |w|
  {
    if n <= |w| then w[n..] + Zeros(n) else Zeros(|w|)
  }

  function ShiftLeft(w: Word, n: nat): (r: Word)
    ensures |r| == |w|
  {
    if n <= |w| then Zeros(n) + w[..|w| - n] else Zeros(|w|)
  }

  function And(a: Word, b: Word): (r: Word)
    requires |a| == |b|
    ensures |r| == |a| && forall k :: 0 <= k < |a| ==> r[k] == (a[k] && b[k])
  {
    seq(|a|, k requires 0 <= k < |a| => a[k] && b[k])
  }

  function Or(a: Word, b: Word): (r: Word)
    requires |a| == |b|
    ensures |r| == |a| && forall k :: 0 <= k < |a| ==> r[k] == (a[k] || b[k])
  {
    seq(|a|, k requires 0 <= k < |a| => a[k] || b[k])
  }

  function Not(a: Word): (r: Word)
    ensures |r| == |a| && forall k :: 0 <= k < |a| ==> r[k] == !a[k]
  {
    seq(|a|, k requires 0 <= k < |a| => !a[k])
  }

  /** popcount */
  function Count(w: seq<bool>): nat {
    if w == [] then 0 else (if w[0] then 1 else 0) + Count(w[1..])
  }

  /** find_first_set: one plus the index of the least significant one bit, or zero. */
  function FirstSet(w: Word): (s: nat)
    ensures s <= |w|
    ensures s > 0 ==> w[s - 1] && forall k :: 0 <= k < s - 1 ==> !w[k]
    ensures s == 0 ==> forall k :: 0 <= k < |w| ==> !w[k]
  {
    if w == [] then 0
    else if w[0] then 1
    else var s := FirstSet(w[1..]); if s == 0 then 0 else s + 1
  }

  /** count_leading_zeroes */
  function LeadingZeros(w: Word): (n: nat)
    ensures n <= |w|
    ensures forall k :: |w| - n <= k < |w| ==> !w[k]
    ensures n < |w| ==> w[|w| - n - 1]
  {
    if w == [] || w[|w| - 1] then 0 else LeadingZeros(w[..|w| - 1]) + 1
  }

  function Pow2(n: nat): (p: nat)
    ensures p > 0
  {
    if n == 0 then 1 else 2 * Pow2(n - 1)
  }

  /** The number a word stands for. */
  function Val(w: Word): (v: nat)
    ensures v < Pow2(|w|)
  {
    if w == [] then 0 else (if w[0] then 1 else 0) + 2 * Val(w[1..])
  }

  /** The n low bits of a number. */
  function ToWord(v: nat, n: nat): (w: Word)
    ensures |w| == n
  {
    if n == 0 then [] else [v % 2 == 1] + ToWord(v / 2, n - 1)
  }

  lemma {:induction false} ValOfWord(v: nat, n: nat)
    requires v < Pow2(n)
    ensures Val(ToWord(v, n)) == v
  {
    if n > 0 {
      ValOfWord(v / 2, n - 1);
      assert ToWord(v, n)[1..] == ToWord(v / 2, n - 1);
    }
  }

  lemma {:induction false} CountAppend(a: seq<bool>, b: seq<bool>)
    ensures Count(a + b) == Count(a) + Count(b)
  {
    if a == [] {
      assert a + b == b;
    } else {
      assert (a + b)[1..] == a[1..] + b;
      CountAppend(a[1..], b);
    }
  }

  lemma {:induction false} CountZeros(n: nat)
    ensures Count(Zeros(n)) == 0
  {
    if n > 0 {
      assert Zeros(n)[1..] == Zeros(n - 1);
      CountZeros(n - 1);
    }
  }

  /** A word with no one bit at or above n is below 2^n, and the other way round. */
  lemma {:induction false} ValBelow(w: Word, n: nat)
    requires n <= |w|
    ensures Val(w) < Pow2(n) <==> forall k :: n <= k < |w| ==> !w[k]
  {
    if n == 0 {
      ValZero(w);
    } else {
      ValBelow(w[1..], n - 1);
      assert forall k :: n <= k < |w| ==> w[k] == w[1..][k - 1];
      assert forall k :: n - 1 <= k < |w| - 1 ==> w[1..][k] == w[k + 1];
    }
  }

  lemma {:induction false} ValZero(w: Word)
    ensures Val(w) == 0 <==> forall k :: 0 <= k < |w| ==> !w[k]
  {
    if w != [] {
      ValZero(w[1..]);
      assert forall k :: 1 <= k < |w| ==> w[k] == w[1..][k - 1];
      assert forall k :: 0 <= k < |w| - 1 ==> w[1..][k] == w[k + 1];
    }
  }

  /** (1 << n) - 1 */
  function LowMask(n: nat, width: nat): (w: Word)
    requires n <= width
    ensures |w| == width && forall k :: 0 <= k < width ==> (w[k] <==> k < n)
  {
    Ones(n) + Zeros(width - n)
  }

  lemma {:induction false} LowMaskValue(n: nat, width: nat)
    requires n <= width
    ensures Val(LowMask(n, width)) == Pow2(n) - 1
  {
    var w := LowMask(n, width);
    if n == 0 {
      ValZero(w);
    } else {
      LowMaskValue(n - 1, width - 1);
      assert w[1..] == LowMask(n - 1, width - 1);
    }
  }

  lemma {:induction false} Pow2Monotonic(a: nat, b: nat)
    requires a <= b
    ensures Pow2(a) <= Pow2(b)
    ensures a < b ==> Pow2(a) < Pow2(b)
  {
    if a < b {
      Pow2Monotonic(a, b - 1);
    }
  }
}
