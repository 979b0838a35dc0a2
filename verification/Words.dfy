/** Arithmetic of 64-bit counters and power-of-two masks. */
module Words {

  function BitAnd(a: nat, b: nat): (r: nat)
    ensures r <= b
  {
    if a == 0 || b == 0 then 0 else (if a % 2 == 1 && b % 2 == 1 then 1 else 0) + 2 * BitAnd(a / 2, b / 2)
  }

  lemma Multiple(c: nat, k: int, d: int)
    requires 0 < c + d && d < c && (k != 0 || d != 0)
    ensures c * k != d
  {
  }

  /** `i % c`, by repeated subtraction: the place of number `i` on a ring of `c`. */
  function Ring(i: nat, c: nat): (r: nat)
    requires c > 0
    ensures r < c
  {
    if i < c then i else Ring(i - c, c)
  }

  lemma {:induction false} RingIsRemainder(i: nat, c: nat)
    requires c > 0
    ensures Ring(i, c) == i % c
  {
    if i >= c {
      RingIsRemainder(i - c, c);
      Quotient(i, c, (i - c) / c + 1, (i - c) % c);
    }
  }

  lemma RingApart(i: nat, j: nat, c: nat)
    requires i < j < i + c
    ensures Ring(i, c) != Ring(j, c)
  {
  }

  predicate IsPowerOfTwo(n: nat) {
    n == 1 || (n > 1 && n % 2 == 0 && IsPowerOfTwo(n / 2))
  }

  /** Masking with one less than a power of two is taking the remainder. */
  lemma {:induction false} MaskIsRemainder(x: nat, c: nat)
    requires IsPowerOfTwo(c)
    ensures BitAnd(x, c - 1) == x % c
    decreases c
  {
    if c > 1 {
      MaskIsRemainder(x / 2, c / 2);
      Halves(x, c / 2);
      assert (c - 1) / 2 == c / 2 - 1 && (c - 1) % 2 == 1;
      if x == 0 { Zero(c); }
    }
  }

  lemma Zero(c: nat)
    requires c > 0
    ensures 0 % c == 0
  {
  }

  lemma Halves(x: nat, d: nat)
    requires d > 0
    ensures x % (2 * d) == x % 2 + 2 * ((x / 2) % d)
  {
    var y := x / 2;
    assert y == d * (y / d) + y % d;
    assert x == 2 * y + x % 2;
    Doubled(d, y / d);
    Quotient(x, 2 * d, y / d, x % 2 + 2 * (y % d));
  }

  lemma Doubled(d: nat, q: nat)
    ensures 2 * (d * q) == (2 * d) * q
  {
  }

  lemma Quotient(n: nat, c: nat, q: nat, r: nat)
    requires n == c * q + r && r < c
    ensures n % c == r
  {
    if n / c != q {
      assert n == c * (n / c) + n % c;
      Distribute(c, n / c, q);
      Multiple(c, n / c - q, r - n % c);
    }
  }

  lemma Distribute(c: nat, a: int, b: int)
    ensures c * a - c * b == c * (a - b)
  {
  }

  lemma {:induction false} PowersDivide(c: nat, m: nat) returns (q: nat)
    requires IsPowerOfTwo(c) && IsPowerOfTwo(m) && c <= m
    ensures m == c * q
    decreases c
  {
    if c == 1 {
      q := m;
    } else {
      q := PowersDivide(c / 2, m / 2);
      Doubled(c / 2, q);
    }
  }

  lemma {:induction false} PowersMultiply(a: nat, b: nat)
    requires IsPowerOfTwo(a) && IsPowerOfTwo(b)
    ensures IsPowerOfTwo(a * b)
    decreases a
  {
    if a > 1 {
      PowersMultiply(a / 2, b);
      assert a == 2 * (a / 2);
      Doubled(a / 2, b);
      PowerDoubles(a / 2 * b);
    }
  }

  lemma PowerDoubles(n: nat)
    requires IsPowerOfTwo(n)
    ensures IsPowerOfTwo(2 * n)
  {
  }

  lemma WordIsPower()
    ensures IsPowerOfTwo(0x1_0000_0000_0000_0000) && IsPowerOfTwo(0x8000_0000_0000_0000)
  {
    assert IsPowerOfTwo(4) && IsPowerOfTwo(16);
    PowersMultiply(16, 16);
    PowersMultiply(256, 256);
    PowersMultiply(0x1_0000, 0x1_0000);
    PowersMultiply(0x1_0000_0000, 0x1_0000_0000);
  }

  lemma Nested(x: nat, c: nat, q: nat, m: nat)
    requires c > 0 && m > 0 && m == c * q
    ensures (x % m) % c == x % c
  {
    var r, k := x % m, x / m;
    assert x == m * k + r;
    assert r == c * (r / c) + r % c;
    Associate(c, q, k);
    Distribute(c, q * k + r / c, r / c);
    Quotient(x, c, q * k + r / c, r % c);
  }

  lemma Associate(a: nat, b: nat, c: nat)
    ensures (a * b) * c == a * (b * c)
  {
  }

  /** A capacity that divides 2^64 does not notice that the counter wrapped. */
  lemma WrapIsInvisible(x: nat, c: nat)
    requires IsPowerOfTwo(c) && c <= 0x8000_0000_0000_0000
    ensures (x % 0x1_0000_0000_0000_0000) % c == x % c
  {
    WordIsPower();
    var q := PowersDivide(c, 0x1_0000_0000_0000_0000);
    Nested(x, c, q, 0x1_0000_0000_0000_0000);
  }
}
