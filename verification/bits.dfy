/**
 Unsigned C integer arithmetic on `nat`: the fixed-width types the two drivers use, the bitwise
 operators `&` and `|` defined bit by bit, shifts as multiplication and division by powers of two,
 and the conversion to `unsigned char`, which keeps a value modulo 2^8.

 The lemmas show that `&` and `|` commute with cutting a number at bit n (`/ Pow2(n)` keeps the bits
 from n up, `% Pow2(n)` keeps the bits below n). With them every mask-and-shift expression of the
 drivers reduces to ordinary arithmetic with constant divisors.
 */
module Bits {

  type uint8 = x: nat | x < 0x100
  type uint16 = x: nat | x < 0x1_0000

  /** 2 to the power n. */
  function Pow2(n: nat): (r: nat)
    ensures r >= 1
  {
    if n == 0 then 1 else 2 * Pow2(n - 1)
  }

  /** The powers of two the drivers' masks and shifts use. */
  lemma SmallPowers()
    ensures Pow2(1) == 2 && Pow2(2) == 4 && Pow2(3) == 8 && Pow2(4) == 16
    ensures Pow2(5) == 32 && Pow2(6) == 64 && Pow2(7) == 128 && Pow2(8) == 256
    ensures Pow2(9) == 512 && Pow2(12) == 4096
  {
  }

  /** The conversion of a non-negative value to `unsigned char` (or `uint8_t`). */
  function ToUint8(x: nat): uint8
  {
    x % 0x100
  }

  /** C's `a & b` on non-negative values. */
  function And(a: nat, b: nat): (r: nat)
    ensures r <= a && r <= b
    decreases a
  {
    if a == 0 || b == 0 then 0
    else 2 * And(a / 2, b / 2) + (if a % 2 == 1 && b % 2 == 1 then 1 else 0)
  }

  /** C's `a | b` on non-negative values. */
  function Or(a: nat, b: nat): (r: nat)
    ensures a <= r && b <= r && r <= a + b
    decreases a
  {
    if a == 0 then b
    else if b == 0 then a
    else 2 * Or(a / 2, b / 2) + (if a % 2 == 1 || b % 2 == 1 then 1 else 0)
  }

  /** C's `a << n` when the result does not overflow the promoted type. */
  function Shl(a: nat, n: nat): nat
  {
    a * Pow2(n)
  }

  /** C's `a >> n` on a non-negative value. */
  function Shr(a: nat, n: nat): nat
  {
    DivIsNat(a, Pow2(n));
    a / Pow2(n)
  }

  /** Dividing a non-negative value by a positive one gives a value between 0 and the dividend. */
  lemma DivIsNat(a: nat, p: nat)
    requires p >= 1
    ensures 0 <= a / p <= a
  {
  }

  /** Multiplication by a non-negative factor is monotone. */
  lemma {:induction false} MulMonotone(x: nat, y: nat, d: nat)
    requires x <= y
    ensures x * d <= y * d
    decreases y - x
  {
    if x < y {
      MulMonotone(x, y - 1, d);
      assert y * d == (y - 1) * d + d;
    }
  }

  /** Division with remainder has exactly one answer. */
  lemma DivModUnique(a: nat, d: nat, q: nat, r: nat)
    requires r < d
    requires a == q * d + r
    ensures a / d == q && a % d == r
  {
    var q', r' := a / d, a % d;
    assert a == q' * d + r';
    if q' < q {
      MulMonotone(q' + 1, q, d);
      assert false;
    } else if q < q' {
      MulMonotone(q + 1, q', d);
      assert false;
    }
  }

  /** A value is its quotient and remainder put back together. */
  lemma DivModSplit(x: nat, p: nat)
    requires p >= 1
    ensures x == p * (x / p) + x % p
  {
  }

  /** A value below the divisor is its own remainder. */
  lemma ModBelow(x: nat, d: nat)
    requires x < d
    ensures x % d == x && x / d == 0
  {
    DivModUnique(x, d, 0, x);
  }

  /** Cutting at bit n + 1 is dropping bit 0 and then cutting at bit n. */
  lemma DivModStep(x: nat, n: nat)
    ensures x / Pow2(n + 1) == (x / 2) / Pow2(n)
    ensures x % Pow2(n + 1) == 2 * ((x / 2) % Pow2(n)) + x % 2
  {
    var p := Pow2(n);
    var q, r := (x / 2) / p, (x / 2) % p;
    assert x / 2 == q * p + r;
    assert x == q * (2 * p) + (2 * r + x % 2);
    DivModUnique(x, 2 * p, q, 2 * r + x % 2);
  }

  /** One step of `And`, valid also when an operand is zero. */
  lemma AndStep(a: nat, b: nat)
    ensures And(a, b) == 2 * And(a / 2, b / 2) + (if a % 2 == 1 && b % 2 == 1 then 1 else 0)
  {
  }

  /** One step of `Or`, valid also when an operand is zero. */
  lemma OrStep(a: nat, b: nat)
    ensures Or(a, b) == 2 * Or(a / 2, b / 2) + (if a % 2 == 1 || b % 2 == 1 then 1 else 0)
  {
  }

  /** `&` acts on the bits from n up independently of the bits below n. */
  lemma {:induction false} AndDiv(a: nat, b: nat, n: nat)
    ensures And(a, b) / Pow2(n) == And(Shr(a, n), Shr(b, n))
    decreases n
  {
    if n > 0 {
      var m := n - 1;
      var p := Pow2(m);
      AndDiv(a / 2, b / 2, m);
      DivModStep(a, m);
      DivModStep(b, m);
      DivModStep(And(a, b), m);
      AndStep(a, b);
      assert And(a, b) / 2 == And(a / 2, b / 2);
      calc {
        And(a, b) / Pow2(n);
        (And(a, b) / 2) / p;
        And(a / 2, b / 2) / p;
        And((a / 2) / p, (b / 2) / p);
        And(Shr(a, n), Shr(b, n));
      }
    } else {
      var p := Pow2(n);
      assert p == 1;
      assert a / p == a && b / p == b && And(a, b) / p == And(a, b);
    }
  }

  /** `&` acts on the bits below n independently of the bits from n up. */
  lemma {:induction false} AndMod(a: nat, b: nat, n: nat)
    ensures And(a, b) % Pow2(n) == And(a % Pow2(n), b % Pow2(n))
    decreases n
  {
    if n > 0 {
      var m := n - 1;
      var p := Pow2(m);
      var a', b' := a % Pow2(n), b % Pow2(n);
      var h, bit := And(a / 2, b / 2), if a % 2 == 1 && b % 2 == 1 then 1 else 0;
      AndMod(a / 2, b / 2, m);
      AndStep(a, b);
      DivModUnique(And(a, b), 2, h, bit);
      DivModStep(And(a, b), m);
      DivModStep(a, m);
      DivModStep(b, m);
      DivModUnique(a', 2, (a / 2) % p, a % 2);
      DivModUnique(b', 2, (b / 2) % p, b % 2);
      AndStep(a', b');
    }
  }

  /** `|` acts on the bits from n up independently of the bits below n. */
  lemma {:induction false} OrDiv(a: nat, b: nat, n: nat)
    ensures Or(a, b) / Pow2(n) == Or(Shr(a, n), Shr(b, n))
    decreases n
  {
    if n > 0 {
      var m := n - 1;
      var p := Pow2(m);
      OrDiv(a / 2, b / 2, m);
      DivModStep(a, m);
      DivModStep(b, m);
      DivModStep(Or(a, b), m);
      OrStep(a, b);
      assert Or(a, b) / 2 == Or(a / 2, b / 2);
      calc {
        Or(a, b) / Pow2(n);
        (Or(a, b) / 2) / p;
        Or(a / 2, b / 2) / p;
        Or((a / 2) / p, (b / 2) / p);
        Or(Shr(a, n), Shr(b, n));
      }
    } else {
      var p := Pow2(n);
      assert p == 1;
      assert a / p == a && b / p == b && Or(a, b) / p == Or(a, b);
    }
  }

  /** `|` acts on the bits below n independently of the bits from n up. */
  lemma {:induction false} OrMod(a: nat, b: nat, n: nat)
    ensures Or(a, b) % Pow2(n) == Or(a % Pow2(n), b % Pow2(n))
    decreases n
  {
    if n > 0 {
      var m := n - 1;
      var p := Pow2(m);
      var a', b' := a % Pow2(n), b % Pow2(n);
      var h, bit := Or(a / 2, b / 2), if a % 2 == 1 || b % 2 == 1 then 1 else 0;
      OrMod(a / 2, b / 2, m);
      OrStep(a, b);
      DivModUnique(Or(a, b), 2, h, bit);
      DivModStep(Or(a, b), m);
      DivModStep(a, m);
      DivModStep(b, m);
      DivModUnique(a', 2, (a / 2) % p, a % 2);
      DivModUnique(b', 2, (b / 2) % p, b % 2);
      OrStep(a', b');
    }
  }

  /** Masking with n one-bits keeps the value modulo 2^n. */
  lemma {:induction false} AndLowOnes(x: nat, n: nat)
    ensures And(x, Pow2(n) - 1) == x % Pow2(n)
    decreases n
  {
    if n > 0 {
      var m := n - 1;
      var p := Pow2(m);
      AndLowOnes(x / 2, m);
      assert Pow2(n) - 1 == 2 * (p - 1) + 1;
      DivModUnique(Pow2(n) - 1, 2, p - 1, 1);
      AndStep(x, Pow2(n) - 1);
      DivModStep(x, m);
    }
  }

  /** Masking with a mask shifted left by n is masking the shifted-down value, shifted back up. */
  lemma AndShiftedMask(x: nat, mask: nat, n: nat)
    ensures And(x, Shl(mask, n)) == Shl(And(Shr(x, n), mask), n)
  {
    var p := Pow2(n);
    var m := Shl(mask, n);
    DivModUnique(m, p, mask, 0);
    AndDiv(x, m, n);
    AndMod(x, m, n);
    var r := And(x, m);
    assert r / p == And(Shr(x, n), mask);
    assert r % p == 0 by {
      assert And(x % p, 0) == 0;
    }
    DivModSplit(r, p);
  }

  /** The field of `width` bits starting at bit `low`, as a mask-and-shift expression. */
  lemma FieldOfMask(x: nat, low: nat, width: nat)
    ensures And(x, Shl(Pow2(width) - 1, low)) == Shl(Shr(x, low) % Pow2(width), low)
  {
    AndShiftedMask(x, Pow2(width) - 1, low);
    AndLowOnes(Shr(x, low), width);
  }

  /** `|` of a value below bit n and a value with no bits below n is their sum. */
  lemma OrDisjoint(low: nat, high: nat, n: nat)
    requires low < Pow2(n) && high % Pow2(n) == 0
    ensures Or(low, high) == low + high
    ensures Or(high, low) == low + high
  {
    var p := Pow2(n);
    DivModUnique(low, p, 0, low);
    assert Shr(low, n) == 0 && low % p == low;
    OrDiv(low, high, n);
    OrMod(low, high, n);
    OrDiv(high, low, n);
    OrMod(high, low, n);
    var r, r' := Or(low, high), Or(high, low);
    assert r / p == Shr(high, n) && r % p == low;
    assert r' / p == Shr(high, n) && r' % p == low;
    DivModSplit(r, p);
    DivModSplit(r', p);
    DivModSplit(high, p);
  }
}
