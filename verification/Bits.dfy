/** C's bitwise operators on integers of unlimited width: bit i of x is the
    parity of x / 2^i, negative numbers in two's complement. */
module Bits {

  function And(x: nat, m: int): nat
    decreases x
  {
    if x == 0 then 0 else 2 * And(x / 2, m / 2) + (x % 2) * (m % 2)
  }

  function Or(x: nat, y: nat): nat
    decreases x + y
  {
    if x == 0 && y == 0 then 0
    else 2 * Or(x / 2, y / 2) + (if x % 2 == 1 || y % 2 == 1 then 1 else 0)
  }

  function Pow2(k: nat): (p: int)
    ensures p > 0
  {
    if k == 0 then 1 else 2 * Pow2(k - 1)
  }

  lemma Pow2Values()
    ensures Pow2(1) == 2 && Pow2(8) == 0x100 && Pow2(16) == 0x1_0000 && Pow2(24) == 0x100_0000
    ensures Pow2(32) == 0x1_0000_0000
  {
    assert Pow2(4) == 0x10;
    assert Pow2(12) == 0x1000;
    assert Pow2(20) == 0x10_0000;
    assert Pow2(28) == 0x1000_0000;
  }

  lemma DivModDouble(x: nat, p: nat)
    requires p > 0
    ensures x % (2 * p) == x % 2 + 2 * (x / 2 % p)
  {
    var h, q := x / 2, x / 2 / p;
    assert x == (2 * p) * q + (x % 2 + 2 * (h % p)) by {
      assert h == p * q + h % p;
      assert 2 * (p * q) == (2 * p) * q;
    }
    DivModUnique(x, 2 * p, q, x % 2 + 2 * (h % p));
  }

  lemma DivModUnique(x: int, d: int, q: int, r: int)
    requires 0 <= r < d && x == d * q + r
    ensures x / d == q && x % d == r
  {
    var q', r' := x / d, x % d;
    assert d * (q - q') == r' - r;
    assert d * (q' - q) == r - r';
    if q > q' {
      MulAtLeast(d, q - q');
    } else if q < q' {
      MulAtLeast(d, q' - q);
    }
  }

  lemma MulAtLeast(d: int, n: int)
    requires d > 0 && n >= 1
    ensures d * n >= d
  {
    assert d * n == d + d * (n - 1);
    assert d * (n - 1) >= 0;
  }

  // The operators work bit by bit.
  lemma AndStep(x: nat, xBit: int, m: int, mBit: int)
    requires 0 <= xBit <= 1 && 0 <= mBit <= 1
    ensures And(2 * x + xBit, 2 * m + mBit) == 2 * And(x, m) + (if xBit == mBit == 1 then 1 else 0)
  {
    assert (2 * x + xBit) / 2 == x && (2 * x + xBit) % 2 == xBit;
    assert (2 * m + mBit) / 2 == m && (2 * m + mBit) % 2 == mBit;
  }

  lemma OrStep(x: nat, xBit: int, y: nat, yBit: int)
    requires 0 <= xBit <= 1 && 0 <= yBit <= 1
    ensures Or(2 * x + xBit, 2 * y + yBit) == 2 * Or(x, y) + (if xBit == yBit == 0 then 0 else 1)
  {
    assert (2 * x + xBit) / 2 == x && (2 * x + xBit) % 2 == xBit;
    assert (2 * y + yBit) / 2 == y && (2 * y + yBit) % 2 == yBit;
  }

  // Masking with all ones keeps the number, masking with zero clears it.
  lemma {:induction false} AndOnes(x: nat)
    ensures And(x, -1) == x && And(x, 0) == 0
  {
    if x > 0 {
      AndStep(x / 2, x % 2, -1, 1);
      AndStep(x / 2, x % 2, 0, 0);
      AndOnes(x / 2);
    }
  }

  // Masking with -2^k clears the low k bits.
  lemma {:induction false} AndClearsLow(x: nat, k: nat)
    ensures And(x, -Pow2(k)) == x - x % Pow2(k)
    decreases k
  {
    hide And;
    if k == 0 {
      AndOnes(x);
    } else {
      AndStep(x / 2, x % 2, -Pow2(k - 1), 0);
      AndClearsLow(x / 2, k - 1);
      DivModDouble(x, Pow2(k - 1));
    }
  }

  // Masking with 2^k - 1 keeps exactly the low k bits.
  lemma {:induction false} AndKeepsLow(x: nat, k: nat)
    ensures And(x, Pow2(k) - 1) == x % Pow2(k)
    decreases k
  {
    hide And;
    if k == 0 {
      AndOnes(x);
    } else {
      AndStep(x / 2, x % 2, Pow2(k - 1) - 1, 1);
      AndKeepsLow(x / 2, k - 1);
      DivModDouble(x, Pow2(k - 1));
    }
  }

  // Masking again changes nothing, and all ones masked with a number are the number.
  lemma {:induction false} AndAgain(x: nat, m: int)
    ensures And(And(x, m), m) == And(x, m)
  {
    if x > 0 {
      AndStep(And(x / 2, m / 2), (x % 2) * (m % 2), m / 2, m % 2);
      AndAgain(x / 2, m / 2);
    }
  }

  lemma {:induction false} AndFull(y: nat, k: nat)
    requires y < Pow2(k)
    ensures And(Pow2(k) - 1, y) == y
    decreases k
  {
    hide And;
    if k == 0 {
      AndOnes(0);
    } else {
      AndStep(Pow2(k - 1) - 1, 1, y / 2, y % 2);
      AndFull(y / 2, k - 1);
    }
  }

  lemma {:induction false} OrZero(x: nat)
    ensures Or(x, 0) == x
  {
    if x > 0 { OrZero(x / 2); }
  }

  // Or-ing a k-bit number into a number whose low k bits are clear adds it.
  lemma {:induction false} OrDisjoint(a: nat, y: nat, k: nat)
    requires y < Pow2(k)
    ensures Or(a * Pow2(k), y) == a * Pow2(k) + y
    decreases k
  {
    hide Or;
    if k == 0 {
      OrZero(a);
    } else {
      assert a * Pow2(k) == 2 * (a * Pow2(k - 1));
      OrStep(a * Pow2(k - 1), 0, y / 2, y % 2);
      OrDisjoint(a, y / 2, k - 1);
    }
  }
}
