/** Integer power with overflow checks, and unary minus: src/vm/math.cpp:77-107, 178-192. */
module IntegerMath {
  import opened Common

  predicate FitsI64(x: int) {
    -I64_LIMIT <= x < I64_LIMIT
  }

  function Abs(x: int): nat {
    if x < 0 then -x else x
  }

  function Power(a: int, n: nat): int {
    if n == 0 then 1 else a * Power(a, n - 1)
  }

  /** What remains to be computed: result times a to the power of n. */
  function Pending(result: int, a: int, n: nat): int {
    if n == 0 then result else a * Pending(result, a, n - 1)
  }

  lemma {:induction false} PendingIsProduct(result: int, a: int, n: nat)
    ensures Pending(result, a, n) == result * Power(a, n)
  {
    if n > 0 {
      PendingIsProduct(result, a, n - 1);
      var p := Power(a, n - 1);
      assert a * (result * p) == result * (a * p);
    }
  }

  datatype MathError = ZeroToNegativePower | Overflow

  /** The checked multiplication writes its result only if it fits. */
  method CheckedMul(a: i64, b: i64) returns (r: Result<i64, MathError>)
    ensures r == if FitsI64(a * b) then Success(a * b) else Failure(Overflow)
  {
    var product := a * b;
    r := if FitsI64(product) then Success(product) else Failure(Overflow);
  }

  /** Square and multiply. For exponents that are not negative the result is exact, or does not fit. */
  method PowInts(base: i64, exponent: i64) returns (r: Result<i64, MathError>)
    ensures base == 0 && exponent < 0 ==> r == Failure(ZeroToNegativePower)
    ensures base != 0 && exponent < 0 ==> r == Success(if base == 1 || base == -1 then base else 0)
    ensures exponent >= 0 ==>
              r == if FitsI64(Power(base, exponent)) then Success(Power(base, exponent)) else Failure(Overflow)
  {
    var a, b := base, exponent;
    if a == 0 && b < 0 {
      return Failure(ZeroToNegativePower);
    }
    if b < 0 {
      return Success(if a == 1 || a == -1 then a else 0);
    }
    var result: i64 := 1;
    PendingIsProduct(1, a, b);
    while true
      invariant 0 <= b && (result == 0 ==> a == 0)
      invariant Pending(result, a, b) == Power(base, exponent)
      decreases b
    {
      if b % 2 == 1 {
        MultiplyStep(result, a, b);
        var product := CheckedMul(result, a);
        if product.Failure? {
          return Failure(Overflow);
        }
        result := product.value;
      } else {
        SkipStep(result, a, b);
      }
      b := b / 2;
      if b == 0 {
        break;
      }
      SquareFits(result, a, b);
      var square := CheckedMul(a, a);
      if square.Failure? {
        return Failure(Overflow);
      }
      a := square.value;
    }
    r := Success(result);
  }

  lemma {:induction false} PowerOfSquare(a: int, n: nat)
    ensures Power(a, n) == (if n % 2 == 1 then a else 1) * Power(a * a, n / 2)
    decreases n
  {
    if n >= 2 {
      PowerOfSquare(a, n - 2);
      assert (n - 2) / 2 == n / 2 - 1 && (n - 2) % 2 == n % 2;
      var rest := Power(a * a, n / 2 - 1);
      var odd := if n % 2 == 1 then a else 1;
      calc {
        Power(a, n);
        a * (a * Power(a, n - 2));
        a * (a * (odd * rest));
        { Regroup(a, odd, rest); }
        odd * ((a * a) * rest);
      }
    }
  }

  lemma Regroup(a: int, odd: int, rest: int)
    ensures a * (a * (odd * rest)) == odd * ((a * a) * rest)
  {
    assert a * (odd * rest) == (a * odd) * rest;
    assert a * ((a * odd) * rest) == (a * (a * odd)) * rest;
    assert a * (a * odd) == odd * (a * a);
  }

  lemma {:induction false} PowerIsPositive(q: int, n: nat)
    requires q > 0
    ensures Power(q, n) >= 1
    ensures n > 0 ==> Power(q, n) >= q
  {
    if n > 0 {
      PowerIsPositive(q, n - 1);
      var p := Power(q, n - 1);
      assert q * p >= q by {
        assert q * (p - 1) >= 0;
      }
    }
  }

  /** A factor that overflows is not cured by further positive factors. */
  lemma FactorFits(x: int, p: int)
    requires x != 0 ==> p >= 1
    ensures FitsI64(x * p) ==> FitsI64(x)
  {
    if x > 0 {
      assert x * (p - 1) >= 0;
    } else if x < 0 {
      assert (0 - x) * (p - 1) >= 0;
    }
  }

  lemma Associative(x: int, y: int, z: int)
    ensures x * (y * z) == (x * y) * z
  {
  }

  lemma MultiplyPending(result: int, a: int, n: nat)
    requires n % 2 == 1
    ensures Pending(result, a, n) == Pending(result * a, a * a, n / 2)
  {
    var p := Power(a * a, n / 2);
    calc {
      Pending(result, a, n);
      { PendingIsProduct(result, a, n); }
      result * Power(a, n);
      { PowerOfSquare(a, n); }
      result * (a * p);
      { Associative(result, a, p); }
      (result * a) * p;
      { PendingIsProduct(result * a, a * a, n / 2); }
      Pending(result * a, a * a, n / 2);
    }
  }

  lemma PendingFits(x: int, q: int, n: nat)
    requires q > 0 || x == 0
    ensures FitsI64(Pending(x, q, n)) ==> FitsI64(x)
  {
    PendingIsProduct(x, q, n);
    if q > 0 {
      PowerIsPositive(q, n);
    }
    FactorFits(x, Power(q, n));
  }

  lemma NonZeroProduct(x: int, y: int)
    ensures x * y == 0 <==> x == 0 || y == 0
    ensures y != 0 ==> y * y > 0
  {
  }

  lemma MultiplyStep(result: int, a: int, n: nat)
    requires n % 2 == 1
    ensures Pending(result, a, n) == Pending(result * a, a * a, n / 2)
    ensures FitsI64(Pending(result, a, n)) ==> FitsI64(result * a)
    ensures result != 0 && a != 0 ==> result * a != 0
  {
    MultiplyPending(result, a, n);
    NonZeroProduct(result, a);
    PendingFits(result * a, a * a, n / 2);
  }

  lemma SkipStep(result: int, a: int, n: nat)
    requires n % 2 == 0
    ensures Pending(result, a, n) == Pending(result, a * a, n / 2)
  {
    PowerOfSquare(a, n);
    PendingIsProduct(result, a, n);
    PendingIsProduct(result, a * a, n / 2);
  }

  /** 2^63 is not a square. */
  lemma NoSquareIsTheLimit(a: int)
    ensures a * a != I64_LIMIT
  {
    var x := Abs(a);
    assert a * a == x * x;
    if x <= 3037000499 {
      assert x * x <= 3037000499 * 3037000499;
    } else {
      assert x * x >= 3037000500 * 3037000500;
    }
  }

  /** When the square overflows the result would not have fitted either: the squaring is never a false alarm. */
  lemma SquareFits(result: int, a: int, n: nat)
    requires n > 0 && (result == 0 ==> a == 0)
    ensures FitsI64(Pending(result, a * a, n)) ==> FitsI64(a * a)
    ensures a != 0 ==> a * a != 0
  {
    PendingIsProduct(result, a * a, n);
    NoSquareIsTheLimit(a);
    if a != 0 {
      var q := a * a;
      assert q > 0;
      PowerIsPositive(q, n);
      var p := Power(q, n);
      if result > 0 {
        assert (result - 1) * p >= 0;
      } else {
        assert (0 - result - 1) * p >= 0;
        assert result * p <= 0 - p;
      }
    }
  }

  /** Integer division rounds towards zero. */
  function TruncatedDiv(x: int, y: int): int
    requires y != 0
  {
    var q := Abs(x) / Abs(y);
    if (x < 0) == (y < 0) then q else -q
  }

  lemma {:induction false} PowerOfMinusOne(n: nat)
    ensures Power(-1, n) == if n % 2 == 0 then 1 else -1
    ensures Power(1, n) == 1
  {
    if n > 0 {
      PowerOfMinusOne(n - 1);
    }
  }

  lemma {:induction false} PowerGrows(a: int, n: nat)
    requires Abs(a) >= 2 && n > 0
    ensures Abs(Power(a, n)) >= 2
  {
    if n > 1 {
      PowerGrows(a, n - 1);
      var p := Power(a, n - 1);
      ProductGrows(a, p);
    }
  }

  lemma ProductGrows(a: int, p: int)
    requires Abs(a) >= 2 && Abs(p) >= 2
    ensures Abs(a * p) >= 2
  {
    var x, y := Abs(a), Abs(p);
    assert x * y >= 2 * y by {
      assert (x - 2) * y >= 0;
    }
    var product: int := x * y;
    assert a * p == product || a * p == 0 - product;
  }

  /**
   For a negative exponent the answer is 1 / base^(-exponent), rounded towards zero, exactly
   unless the base is -1 and the exponent even: then it is -1 instead of 1.
   */
  lemma NegativeExponents(base: int, exponent: int)
    requires base != 0 && exponent < 0
    ensures Power(base, -exponent) != 0
    ensures (if base == 1 || base == -1 then base else 0) == TruncatedDiv(1, Power(base, -exponent))
       <==> !(base == -1 && exponent % 2 == 0)
  {
    var n: nat := -exponent;
    PowerOfMinusOne(n);
    if base != 1 && base != -1 {
      PowerGrows(base, n);
      var p := Abs(Power(base, n));
      assert 1 / p == 0;
    } else if base == -1 {
      assert TruncatedDiv(1, 1) == 1 && TruncatedDiv(1, -1) == -1;
    }
  }

  /** Signed negation as the machine performs it. */
  function Negated(v: i64): i64 {
    if v == -I64_LIMIT then v else -v
  }

  /** The overflow test of unary_minus compares with -1. */
  function UnaryMinus(v: i64): Result<i64, MathError> {
    if v == -1 then Failure(Overflow) else Success(Negated(v))
  }

  /** It negates exactly, or reports that the result does not fit, for all values but -1 and the minimum. */
  lemma UnaryMinusIsExact(v: int)
    requires FitsI64(v)
    ensures UnaryMinus(v) == (if FitsI64(-v) then Success(-v) else Failure(Overflow))
       <==> v != -1 && v != -I64_LIMIT
  {
  }
}
