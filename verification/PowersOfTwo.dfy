/** Powers of two, bit lengths and the bitwise operators on two's complement integers. */
module PowersOfTwo {

  const TWO_31: nat := 0x8000_0000
  const TWO_32: nat := 0x1_0000_0000

  function Pow2(k: nat): (r: nat)
    ensures r >= 1
  {
    if k == 0 then 1 else 2 * Pow2(k - 1)
  }

  lemma {:induction false} Pow2Monotone(a: nat, b: nat)
    requires a <= b
    ensures Pow2(a) <= Pow2(b)
    ensures a < b ==> 2 * Pow2(a) <= Pow2(b)
    decreases b
  {
    if a < b { Pow2Monotone(a, b - 1); }
  }

  lemma {:induction false} Pow2Sum(a: nat, b: nat)
    ensures Pow2(a + b) == Pow2(a) * Pow2(b)
    decreases b
  {
    if b > 0 {
      Pow2Sum(a, b - 1);
      assert Pow2(a + b) == 2 * Pow2(a + (b - 1));
    }
  }

  /** `r` is the least power of two that is at least `n`, and `k` its exponent. */
  ghost predicate LeastPower(n: int, r: int, k: nat) {
    r == Pow2(k) && n <= r && (k > 0 ==> Pow2(k - 1) < n)
  }

  ghost predicate IsLeastPower(n: int, r: int) {
    exists k: nat :: LeastPower(n, r, k)
  }

  lemma Pow2Order(a: nat, b: nat)
    ensures Pow2(a) < Pow2(b) <==> a < b
  {
    if a < b { Pow2Monotone(a, b); } else { Pow2Monotone(b, a); }
  }

  lemma LeastPowerUnique(n: int, r: int, s: int, j: nat, k: nat)
    requires LeastPower(n, r, j) && LeastPower(n, s, k)
    ensures j == k && r == s
  {
    if j > 0 { Pow2Order(j - 1, k); }
    if k > 0 { Pow2Order(k - 1, j); }
  }

  /** `y` is the quotient of `x` by `p`, rounded down. */
  ghost predicate Quotient(x: int, p: nat, y: int) {
    p > 0 && p * y <= x < p * (y + 1)
  }

  lemma QuotientIff(x: int, p: nat, y: int, q: int)
    requires Quotient(x, p, y)
    ensures q <= y <==> p * q <= x
  {
    assert q <= y ==> p * q <= p * y;
    assert q > y ==> p * q >= p * (y + 1);
  }

  // ----- bitwise operators on two's complement integers

  function Abs(x: int): nat {
    if x < 0 then -x else x
  }

  predicate AllBitsEqual(x: int) {
    x == 0 || x == -1
  }

  function Or(a: int, b: int): int
    decreases Abs(a) + Abs(b)
  {
    if AllBitsEqual(a) && AllBitsEqual(b) then (if a == 0 then b else -1)
    else 2 * Or(a / 2, b / 2) + (if a % 2 == 1 || b % 2 == 1 then 1 else 0)
  }

  function And(a: int, b: int): int
    decreases Abs(a) + Abs(b)
  {
    if AllBitsEqual(a) && AllBitsEqual(b) then (if a == 0 then 0 else b)
    else 2 * And(a / 2, b / 2) + (if a % 2 == 1 && b % 2 == 1 then 1 else 0)
  }

  lemma {:induction false} OrBounds(a: int, b: int)
    ensures 0 <= a && 0 <= b ==> a <= Or(a, b) && b <= Or(a, b)
    ensures a < 0 && b < 0 ==> b <= Or(a, b) < 0
    decreases Abs(a) + Abs(b)
  {
    if !(AllBitsEqual(a) && AllBitsEqual(b)) { OrBounds(a / 2, b / 2); }
  }

  lemma {:induction false} OrFits(a: nat, b: nat, m: nat)
    requires a < Pow2(m) && b < Pow2(m)
    ensures 0 <= Or(a, b) < Pow2(m)
    decreases m
  {
    if m > 0 && !(a == 0 && b == 0) { OrFits(a / 2, b / 2, m - 1); }
  }

  /** Bits above position `m` of one operand pass through unchanged. */
  lemma {:induction false} OrHigh(h: nat, r: nat, b: nat, m: nat)
    requires r < Pow2(m) && b < Pow2(m)
    ensures Or(h * Pow2(m) + r, b) == h * Pow2(m) + Or(r, b)
    decreases m
  {
    if m == 0 {
      OrZero(h);
    } else {
      var p := h * Pow2(m - 1);
      HalveProduct(h, Pow2(m - 1));
      OrHigh(h, r / 2, b / 2, m - 1);
      OrOfDouble(p, r, b);
    }
  }

  lemma HalveProduct(h: nat, q: nat)
    ensures h * (2 * q) == 2 * (h * q) && h * q >= 0
  {
  }

  lemma OrOfDouble(p: nat, r: nat, b: nat)
    requires Or(p + r / 2, b / 2) == p + Or(r / 2, b / 2)
    ensures Or(2 * p + r, b) == 2 * p + Or(r, b)
  {
    var a := 2 * p + r;
    assert a / 2 == p + r / 2 && a % 2 == r % 2;
    if r == 0 && b == 0 { OrZero(a); }
  }

  lemma {:induction false} OrZero(a: nat)
    ensures Or(a, 0) == a
  {
    if a > 0 { OrZero(a / 2); }
  }

  lemma {:induction false} OrSame(a: int)
    ensures Or(a, a) == a
    decreases Abs(a)
  {
    if !AllBitsEqual(a) { OrSame(a / 2); }
  }

  lemma Pow2Table()
    ensures Pow2(1) == 2 && Pow2(2) == 4 && Pow2(4) == 16 && Pow2(5) == 32 && Pow2(8) == 256 && Pow2(16) == 65536
    ensures Pow2(31) == TWO_31 && Pow2(32) == TWO_32
  {
    assert Pow2(4) == 16;
    assert Pow2(8) == 256;
    assert Pow2(12) == 4096;
    assert Pow2(16) == 65536;
    assert Pow2(20) == 0x10_0000;
    assert Pow2(24) == 0x100_0000;
    assert Pow2(28) == 0x1000_0000;
  }

  /** The bit length of a positive number. */
  function Length(x: nat): (len: nat)
    ensures x < Pow2(len) && (x > 0 ==> Pow2(len) <= 2 * x)
    ensures x == 0 ==> len == 0
    ensures x > 0 ==> len > 0
  {
    if x == 0 then 0 else 1 + Length(x / 2)
  }
}
