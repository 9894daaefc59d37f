/** Integer arithmetic as Rust's i64 does it, where it differs from Dafny's. */
module Integers {

  const LIMIT: int := 0x20_0000_0000_0000   // 2^53: integers up to here are exact as f64
  const WORD: int := 0x1_0000_0000_0000_0000

  const U64_MAX: nat := 0xFFFF_FFFF_FFFF_FFFF

  predicate InRange(n: int) { -LIMIT <= n <= LIMIT }

  /** i64 wrap-around. */
  function Wrap64(n: int): int { (n + WORD / 2) % WORD - WORD / 2 }

  /** A number in decimal. */
  function Digits(n: nat): string {
    if n < 10 then [('0' as int + n) as char] else Digits(n / 10) + [('0' as int + n % 10) as char]
  }

  function Abs(n: int): nat { if n < 0 then -n else n }

  /** Division and remainder truncating toward zero. */
  function TruncDiv(a: int, b: int): int
    requires b != 0
  {
    if (a < 0) == (b < 0) then Abs(a) / Abs(b) else -(Abs(a) / Abs(b))
  }

  function TruncRem(a: int, b: int): int
    requires b != 0
  {
    a - b * TruncDiv(a, b)
  }

  /** The 64-bit integers. */
  predicate IsI64(n: int) { -(WORD / 2) <= n < WORD / 2 }

  lemma WrapIsI64(n: int)
    ensures IsI64(Wrap64(n)) && (IsI64(n) ==> Wrap64(n) == n)
  {
  }

  /** Wrapping around changes a number by a multiple of 2 to the 64. */
  lemma WrapIsCongruent(n: int)
    ensures exists k: int :: Wrap64(n) == n + k * WORD
  {
    var m := n + WORD / 2;
    assert m % WORD == m - (m / WORD) * WORD;
    var k := -(m / WORD);
    assert Wrap64(n) == n + k * WORD;
  }

  lemma WrapExact(n: int)
    requires InRange(n)
    ensures Wrap64(n) == n
  {
  }

  lemma MulGrows(b: nat, q: nat)
    requires b > 0
    ensures b * q >= q
  {
    assert (b - 1) * q >= 0;
  }

  lemma DivMod(a: nat, b: nat)
    requires b > 0
    ensures a == b * (a / b) + a % b
    ensures 0 <= a / b && 0 <= a % b < b
  {
  }

  lemma QuotientBound(a: nat, b: nat)
    requires b > 0
    ensures 0 <= a / b <= a && 0 <= a - b * (a / b) <= a
  {
    DivMod(a, b);
    MulGrows(b, a / b);
  }

  lemma SignedProduct(a: int, b: int, q: int)
    requires b != 0 && q == TruncDiv(a, b)
    ensures b * q == if a < 0 then -(Abs(b) * (Abs(a) / Abs(b))) else Abs(b) * (Abs(a) / Abs(b))
  {
  }

  /** Truncating division shrinks, and its remainder has the dividend's sign and is no larger. */
  lemma TruncFacts(a: int, b: int)
    requires b != 0
    ensures Abs(TruncRem(a, b)) <= Abs(a)
    ensures Abs(TruncDiv(a, b)) <= Abs(a)
  {
    QuotientBound(Abs(a), Abs(b));
    SignedProduct(a, b, TruncDiv(a, b));
  }

  /** A remainder is no larger than the dividend and has its sign. */
  lemma RemainderKeepsSign(a: int, b: int)
    requires b != 0
    ensures if a < 0 then a <= TruncRem(a, b) <= 0 else 0 <= TruncRem(a, b) <= a
  {
    QuotientBound(Abs(a), Abs(b));
    SignedProduct(a, b, TruncDiv(a, b));
  }

  /** The remainder is smaller than the divisor; with its sign this says what the quotient is. */
  lemma RemainderIsSmall(a: int, b: int)
    requires b != 0
    ensures a == b * TruncDiv(a, b) + TruncRem(a, b) && Abs(TruncRem(a, b)) < Abs(b)
  {
    DivMod(Abs(a), Abs(b));
    SignedProduct(a, b, TruncDiv(a, b));
  }

  /** A multiple of a number leaves no remainder. */
  lemma MultipleDivides(k: nat, n: nat)
    requires n > 0
    ensures (k * n) % n == 0
  {
    var x := k * n;
    var q := x / n;
    DivMod(x, n);
    assert n * (k - q) == x % n;
    if k - q >= 1 {
      MulGrows(k - q, n);
    } else if k - q <= -1 {
      MulGrows(q - k, n);
    }
  }

  ghost predicate Divides(d: nat, n: nat) { exists q: nat :: n == q * d }

  lemma ModDivides(d: nat, n: nat)
    requires d > 0
    ensures n % d == 0 <==> Divides(d, n)
  {
    if n % d == 0 {
      DivMod(n, d);
      assert n == (n / d) * d;
    }
    if Divides(d, n) {
      var q: nat :| n == q * d;
      MultipleDivides(q, d);
    }
  }

  lemma DividesSum(d: nat, a: nat, b: nat)
    requires Divides(d, a) && Divides(d, b)
    ensures Divides(d, a + b)
  {
    var p: nat :| a == p * d;
    var q: nat :| b == q * d;
    assert a + b == (p + q) * d;
  }

  lemma DividesThrough(d: nat, e: nat, n: nat)
    requires Divides(d, e) && Divides(e, n)
    ensures Divides(d, n)
  {
    var p: nat :| e == p * d;
    var q: nat :| n == q * e;
    assert n == (q * p) * d;
  }

  lemma SmallRemainder(x: nat, n: nat)
    requires x < n
    ensures x % n == x
  {
    DivMod(x, n);
    if x / n >= 1 { MulGrows(x / n, n); }
  }

  /** 2 to the `k`. */
  function Power(k: nat): (p: nat)
    ensures p > 0
  {
    if k == 0 then 1 else 2 * Power(k - 1)
  }

  lemma {:induction false} PowerGrows(j: nat, k: nat)
    requires j < k
    ensures Power(j) < Power(k)
    decreases k
  {
    if j < k - 1 { PowerGrows(j, k - 1); }
  }

  predicate PowerOfTwo(n: nat) { n == 1 || (n > 1 && n % 2 == 0 && PowerOfTwo(n / 2)) }

  lemma {:induction false} PowerOfTwoIsPower(n: nat)
    requires PowerOfTwo(n)
    ensures exists k: nat :: n == Power(k)
    decreases n
  {
    if n == 1 {
      assert n == Power(0);
    } else {
      PowerOfTwoIsPower(n / 2);
      var k: nat :| n / 2 == Power(k);
      assert n == Power(k + 1);
    }
  }

  // ---------------------------------------------------------------- bits

  /** Bit `k` of a number. */
  predicate BitAt(n: nat, k: nat) { n / Power(k) % 2 == 1 }

  lemma HalfBits(n: nat, k: nat)
    ensures BitAt(n, 0) <==> n % 2 == 1
    ensures BitAt(n, k + 1) == BitAt(n / 2, k)
  {
    var p := Power(k);
    assert Power(0) == 1 && Power(k + 1) == 2 * p;
    DivTwice(n, p);
  }

  lemma DivTwice(n: nat, p: nat)
    requires p > 0
    ensures n / (2 * p) == n / 2 / p
  {
    var q, r := n / (2 * p), n % (2 * p);
    DivMod(n, 2 * p);
    assert n == 2 * (p * q) + r;
    assert n / 2 == p * q + r / 2;
    DivMod(n / 2, p);
    QuotientIs(n / 2, p, q, r / 2);
  }

  lemma QuotientIs(n: nat, p: nat, q: nat, r: nat)
    requires p > 0 && n == p * q + r && r < p
    ensures n / p == q
  {
    DivMod(n, p);
    var d := n / p - q;
    assert p * d == r - n % p;
    if d >= 1 { MulGrows(d, p); }
  }

  lemma PowerIs(k: nat)
    ensures Power(0) == 1 && Power(k + 1) == 2 * Power(k)
  {
  }

  lemma {:induction false} ZeroHasNoBits(k: nat)
    ensures !BitAt(0, k)
  {
    QuotientIs(0, Power(k), 0, 0);
  }

  lemma {:induction false} PowerAdds(j: nat, k: nat)
    ensures Power(j + k) == Power(j) * Power(k)
    decreases j
  {
    if j > 0 {
      PowerAdds(j - 1, k);
      assert 2 * (Power(j - 1) * Power(k)) == (2 * Power(j - 1)) * Power(k);
    }
  }
}
