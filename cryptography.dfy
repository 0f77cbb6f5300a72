/** The factoring demo: input validation, the trial-division search for the smallest factor,
    and the factor list it shows. */
module Cryptography {
  import opened Numbers

  /** The text field's value after `parseInt(text, 10)`: an integer, or NaN. */
  datatype Input = Integer(value: int) | NotANumber

  const InvalidInputMessage := "Please enter an integer greater than 1."

  predicate Divides(d: int, n: int)
  {
    d != 0 && n % d == 0
  }

  predicate IsPrime(n: int)
  {
    n >= 2 && forall d :: 2 <= d < n ==> !Divides(d, n)
  }

  /** The guard `numberToFactor <= 1 || !Number.isInteger(numberToFactor)`, negated: NaN fails
      `isInteger`, an integer must exceed 1. */
  predicate ValidInput(x: Input)
    ensures ValidInput(x) <==> !(x.NotANumber? || x.value <= 1)
    ensures ValidInput(x) ==> x.value >= 2
  {
    x.Integer? && x.value > 1
  }

  /** No even number divides an odd one. */
  lemma EvenDoesNotDivideOdd(d: int, n: int)
    requires d > 0 && d % 2 == 0 && n % 2 == 1
    ensures !Divides(d, n)
  {
    var q := n / d;
    assert n == d * q + n % d;
    assert d * q == 2 * ((d / 2) * q);
  }

  /** If d divides n, so does the cofactor n / d, and d times the cofactor is n. */
  lemma Cofactor(d: int, n: int)
    requires d >= 1 && n >= 1 && Divides(d, n)
    ensures d * (n / d) == n
    ensures n / d >= 1 && Divides(n / d, n)
  {
    var e := n / d;
    assert n == d * e + n % d;
    assert e * d == n;
    MulMonotone(d, Min(e, 0), 0);
    ModOfProduct(e, d);
  }

  /** Euclidean division of a multiple e * d by e leaves no remainder. */
  lemma ModOfProduct(e: int, d: int)
    requires e > 0
    ensures (e * d) % e == 0
  {
    var q, r := (e * d) / e, (e * d) % e;
    assert e * d == e * q + r && 0 <= r < e;
    assert e * (d - q) == r;
    // d - q >= 1 would make r >= e, and d - q <= -1 would make r negative
    MulMonotone(e, 1, Max(1, d - q));
    MulMonotone(e, 1, Max(1, q - d));
  }

  /** A divisor d >= i of n, where n < i * i, has a cofactor in 2..i-1 that divides n. */
  lemma LargeDivisorHasSmallCofactor(n: int, i: int, d: int)
    requires n > 1 && i >= 2 && i * i > n && i <= d < n
    ensures Divides(d, n) ==> 2 <= n / d < i && Divides(n / d, n)
  {
    if Divides(d, n) {
      Cofactor(d, n);
      var e := n / d;
      // e >= i would give d * e >= i * i > n
      MulMonotone(d, Min(e, i), e);
      MulMonotone(Min(e, i), i, d);
      assert e < i;
    }
  }

  /** Trial division up to the square root suffices: with no divisor in 2..i-1 and i * i > n,
      n is prime. */
  lemma PrimeIfNoSmallDivisor(n: int, i: int)
    requires n > 1 && i >= 2 && i * i > n
    requires forall d :: 2 <= d < i ==> !Divides(d, n)
    ensures IsPrime(n)
  {
    forall d | 2 <= d < n
      ensures !Divides(d, n)
    {
      if d >= i {
        LargeDivisorHasSmallCofactor(n, i, d);
      }
    }
  }

  /** `findFactor`: 2 for even n, otherwise the first odd i >= 3 with i * i <= n that divides n,
      otherwise n itself. The result is the smallest divisor of n above 1, and it is n exactly
      when n is prime. */
  method FindFactor(n: int) returns (f: int)
    requires n > 1
    ensures 2 <= f <= n && Divides(f, n)
    ensures forall d :: 2 <= d < f ==> !Divides(d, n)
    ensures f == n <==> IsPrime(n)
  {
    if n % 2 == 0 {
      assert Divides(2, n);
      return 2;
    }
    var i := 3;
    while i * i <= n
      invariant i >= 3 && i % 2 == 1
      invariant forall d :: 2 <= d < i ==> !Divides(d, n)
      decreases n - i
    {
      MulMonotone(i, 3, i);
      if n % i == 0 {
        assert Divides(i, n) && i < n;
        return i;
      }
      EvenDoesNotDivideOdd(i + 1, n);
      i := i + 2;
    }
    PrimeIfNoSmallDivisor(n, i);
    return n;
  }

  /** The smallest divisor f of a composite n is at most its cofactor, so the shown pair
      [f, n / f] is in ascending order and multiplies back to n. */
  lemma SmallestDivisorAtMostCofactor(n: int, f: int)
    requires n > 1 && 2 <= f < n && Divides(f, n)
    requires forall d :: 2 <= d < f ==> !Divides(d, n)
    ensures f * (n / f) == n && f <= n / f
  {
    Cofactor(f, n);
    assert n / f != 1;
  }

  /** The factor list shown for a valid n: [n] for a prime, [f, n / f] for a composite with f its
      smallest divisor. */
  predicate ShowsFactorisation(n: int, fs: seq<int>)
  {
    if IsPrime(n) then fs == [n]
    else
      |fs| == 2 && 2 <= fs[0] <= fs[1] && fs[0] * fs[1] == n && Divides(fs[0], n) &&
      forall d :: 2 <= d < fs[0] ==> !Divides(d, n)
  }

  class FactoringDemo {
    var numberToFactor: Input
    var factors: Option<seq<int>>
    var error: Option<string>

    /** The field starts at 15, with no result and no error. */
    constructor ()
      ensures numberToFactor == Integer(15) && factors == None && error == None
    {
      numberToFactor := Integer(15);
      factors := None;
      error := None;
    }

    /** The input's `onChange`: stores the parsed value, keeping the last result and error. */
    method SetInput(x: Input)
      modifies this
      ensures numberToFactor == x && factors == old(factors) && error == old(error)
    {
      numberToFactor := x;
    }

    /** `handleFactor`: clears the previous error and result, then either reports the invalid
        input or shows the factorisation. */
    method HandleFactor()
      modifies this
      ensures numberToFactor == old(numberToFactor)
      ensures !ValidInput(numberToFactor) ==> error == Some(InvalidInputMessage) && factors == None
      ensures ValidInput(numberToFactor) ==>
        error == None && factors.Some? && ShowsFactorisation(numberToFactor.value, factors.value)
    {
      error := None;
      factors := None;
      if numberToFactor.NotANumber? || numberToFactor.value <= 1 {
        error := Some(InvalidInputMessage);
        return;
      }
      var n := numberToFactor.value;
      var factor := FindFactor(n);
      if factor == n {
        factors := Some([factor]);
      } else {
        SmallestDivisorAtMostCofactor(n, factor);
        factors := Some([factor, n / factor]);
      }
    }
  }

  /** The demo's initial value: 15 factors as 3 and 5. */
  method FactorFifteen() returns (fs: seq<int>)
    ensures fs == [3, 5]
  {
    var demo := new FactoringDemo();
    demo.HandleFactor();
    fs := demo.factors.value;
    assert Divides(3, 15) && !IsPrime(15);
  }

  /** A prime is shown as itself: 17 gives [17]. */
  method FactorSeventeen() returns (fs: seq<int>)
    ensures fs == [17]
  {
    var demo := new FactoringDemo();
    demo.SetInput(Integer(17));
    demo.HandleFactor();
    fs := demo.factors.value;
    assert IsPrime(17) by {
      PrimeIfNoSmallDivisor(17, 5);
    }
  }

  /** The field is read with `parseInt(text, 10)`, which stops at the first non-digit, so typing
      "2.5" stores 2. String parsing is not modelled: this method starts from the parsed value 2
      and shows that it is accepted and factored as the prime [2]. */
  method FactorTwoPointFive() returns (err: Option<string>, fs: Option<seq<int>>)
    ensures err == None && fs == Some([2])
  {
    var demo := new FactoringDemo();
    demo.SetInput(Integer(2));
    demo.HandleFactor();
    err, fs := demo.error, demo.factors;
  }

  /** An input of 1, or an empty or non-numeric field (NaN), is rejected with the message and
      no factors, even when an earlier run had shown some. */
  method RejectOneAndNaN() returns (errOne: Option<string>, errNaN: Option<string>, fs: Option<seq<int>>)
    ensures errOne == Some(InvalidInputMessage) && errNaN == Some(InvalidInputMessage) && fs == None
  {
    var demo := new FactoringDemo();
    demo.HandleFactor();
    demo.SetInput(Integer(1));
    demo.HandleFactor();
    errOne := demo.error;
    demo.SetInput(NotANumber);
    demo.HandleFactor();
    errNaN, fs := demo.error, demo.factors;
  }
}
