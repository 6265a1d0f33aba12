/** The prime search of common/fasthash.cpp that picks a table width. */
module PrimeSearch {
  ghost predicate Divides(d: nat, n: nat)
    requires d > 0
  {
    n % d == 0
  }

  ghost predicate IsPrime(n: nat) {
    2 <= n && forall d | 2 <= d < n :: !Divides(d, n)
  }

  // ---- there is always a next prime ----

  function Factorial(n: nat): (f: nat)
    ensures f >= 1
  {
    if n == 0 then 1 else n * Factorial(n - 1)
  }

  lemma DividesDef(d: nat, n: nat, k: nat)
    requires d > 0 && n == d * k
    ensures Divides(d, n)
  {
    ModOfMultiple(d, k, 0);
  }

  lemma MulMono(a: nat, b: nat, c: nat)
    requires b <= c
    ensures a * b <= a * c && b * a <= c * a
  {
  }

  lemma ModOfMultiple(d: nat, k: nat, r: nat)
    requires r < d
    ensures (d * k + r) % d == r
  {
    var n := d * k + r;
    var q := n / d;
    assert n == d * q + n % d;
    if q > k {
      MulMono(d, k + 1, q);
    } else if q < k {
      MulMono(d, q + 1, k);
    }
  }

  lemma Quotient(d: nat, n: nat) returns (k: nat)
    requires d > 0 && Divides(d, n)
    ensures n == d * k
  {
    k := n / d;
  }

  lemma {:induction false} DividesFactorial(d: nat, n: nat)
    requires 1 <= d <= n
    ensures Divides(d, Factorial(n))
  {
    if d == n {
      DividesDef(d, Factorial(n), Factorial(n - 1));
    } else {
      DividesFactorial(d, n - 1);
      var k := Quotient(d, Factorial(n - 1));
      assert Factorial(n) == d * (n * k) by {
        assert n * (d * k) == d * (n * k);
      }
      DividesDef(d, Factorial(n), n * k);
    }
  }

  /** Divisibility is transitive. */
  lemma DividesTrans(a: nat, b: nat, c: nat)
    requires a > 0 && b > 0 && Divides(a, b) && Divides(b, c)
    ensures Divides(a, c)
  {
    var k := Quotient(a, b);
    var l := Quotient(b, c);
    assert a * (k * l) == (a * k) * l;
    DividesDef(a, c, k * l);
  }

  /** Every number above 1 has a prime divisor. */
  lemma {:induction false} PrimeDivisor(n: nat) returns (p: nat)
    requires n >= 2
    ensures IsPrime(p) && p <= n && Divides(p, n)
    decreases n
  {
    if IsPrime(n) {
      DividesDef(n, n, 1);
      return n;
    }
    var d :| 2 <= d < n && Divides(d, n);
    p := PrimeDivisor(d);
    DividesTrans(p, d, n);
  }

  /** Euclid: some prime is at least `n`. */
  lemma PrimeAbove(n: nat) returns (p: nat)
    ensures IsPrime(p) && p >= n
  {
    var f := Factorial(n);
    p := PrimeDivisor(f + 1);
    if p < n {
      DividesFactorial(p, n);
      var k := Quotient(p, f);
      ModOfMultiple(p, k, 1);
      assert false;
    }
  }

  ghost predicate IsLeastPrime(n: nat, p: nat) {
    IsPrime(p) && n <= p && forall q | n <= q < p :: !IsPrime(q)
  }

  lemma {:induction false} LeastFrom(n: nat, bound: nat) returns (p: nat)
    requires n <= bound && IsPrime(bound)
    ensures IsLeastPrime(n, p)
    decreases bound - n
  {
    if IsPrime(n) {
      p := n;
    } else {
      p := LeastFrom(n + 1, bound);
    }
  }

  lemma LeastExists(n: nat)
    ensures exists p :: IsLeastPrime(n, p)
  {
    var b := PrimeAbove(n);
    var p := LeastFrom(n, b);
  }

  /** The least prime that is at least `n`. */
  ghost function LeastPrime(n: nat): (p: nat)
    ensures IsLeastPrime(n, p)
    ensures p >= 2
  {
    LeastExists(n);
    var p :| IsLeastPrime(n, p);
    p
  }

  // ---- trial division ----

  /** floor(sqrt(n)), the integer part of the source's floating-point square root. */
  ghost predicate IsSqrt(n: nat, s: nat) {
    s * s <= n < (s + 1) * (s + 1)
  }

  method Sqrt(n: nat) returns (s: nat)
    ensures IsSqrt(n, s)
  {
    s := 0;
    while (s + 1) * (s + 1) <= n
      invariant s * s <= n
      decreases n - s * s
    {
      s := s + 1;
    }
  }

  lemma Smaller(s: nat, d: nat, k: nat)
    requires s < d && s < k
    ensures (s + 1) * (s + 1) <= d * k
  {
    MulMono(s + 1, s + 1, d);
    MulMono(d, s + 1, k);
  }

  lemma SqrtBounds(n: nat, s: nat)
    requires IsSqrt(n, s) && n > 3
    ensures n <= 8 ==> s == 2
    ensures s + 1 < n
  {
    if s <= 1 {
      Smaller(s, 2, 2);
    } else if s >= 3 {
      Smaller(2, s, s);
      MulMono(s, 3, s);
    }
  }

  /** The cofactor of a proper divisor of an odd number is itself an odd proper divisor. */
  lemma CoDivisor(d: nat, n: nat, k: nat)
    requires n % 2 == 1 && 2 <= d < n && n == d * k
    ensures 3 <= d && 3 <= k && Divides(k, n)
  {
    ModOfMultiple(2, k, 0);
    ModOfMultiple(2, d, 0);
    DividesDef(k, n, d);
  }

  /** A divisor below the square root, or its cofactor, is among the candidates the search tries. */
  lemma DivisorIsTried(d: nat, n: nat, s: nat)
    requires n % 2 == 1 && n > 3 && IsSqrt(n, s) && 2 <= d < n && Divides(d, n)
    ensures exists x :: 3 <= x <= s + 1 && Divides(x, n)
  {
    var k := Quotient(d, n);
    CoDivisor(d, n, k);
    if s < d && s < k {
      Smaller(s, d, k);
    } else {
      var x := if d <= s then d else k;
      assert 3 <= x <= s + 1 && Divides(x, n);
    }
  }

  /** Trial division by 3 .. floor(sqrt(n)) + 1 decides primality of every odd n above 3. */
  lemma TrialDivision(n: nat, s: nat)
    requires n % 2 == 1 && n > 3 && IsSqrt(n, s)
    ensures IsPrime(n) <==> forall x | 3 <= x <= s + 1 :: !Divides(x, n)
  {
    SqrtBounds(n, s);
    if !IsPrime(n) {
      var d :| 2 <= d < n && Divides(d, n);
      DivisorIsTried(d, n, s);
    }
  }

  lemma EvenIsComposite(n: nat)
    requires n % 2 == 0 && n > 2
    ensures !IsPrime(n)
  {
    assert Divides(2, n);
  }

  lemma LeastPrimeUnique(n: nat, p: nat)
    requires IsLeastPrime(n, p)
    ensures p == LeastPrime(n)
  {
  }

  /** The inner loop of the search: tries every divisor up to the square root plus one. */
  method TrialDivide(n: nat) returns (fPrime: bool)
    requires n % 2 == 1 && n > 3
    ensures fPrime <==> IsPrime(n)
  {
    var root := Sqrt(n);
    TrialDivision(n, root);
    var stop := root + 1;
    fPrime := true;
    for x := 3 to stop + 1
      invariant fPrime && forall y | 3 <= y < x :: !Divides(y, n)
    {
      if n % x == 0 {
        assert Divides(x, n);
        fPrime := false;
        break;
      }
    }
  }

  /** FindPrime: the candidate advances over odd numbers only, and no prime is ever skipped. */
  method FindPrime(val: nat) returns (result: nat)
    ensures result == LeastPrime(val)
  {
    result := val;
    if val <= 2 {
      assert IsLeastPrime(val, 2);
      LeastPrimeUnique(val, 2);
      return 2;
    }
    if val == 3 {
      assert IsLeastPrime(3, 3);
      LeastPrimeUnique(3, 3);
      return 3;
    }
    if result % 2 == 0 {
      EvenIsComposite(result);
      result := result + 1;
    }
    var fPrime := false;
    ghost var target := LeastPrime(val);
    while !fPrime
      invariant val <= result && result > 3 && result % 2 == 1
      invariant forall q | val <= q < result :: !IsPrime(q)
      invariant fPrime ==> IsPrime(result)
      decreases !fPrime, target - result
    {
      fPrime := TrialDivide(result);
      if !fPrime {
        EvenIsComposite(result + 1);
        result := result + 2;
      }
    }
    assert IsLeastPrime(val, result);
    LeastPrimeUnique(val, result);
  }
}
