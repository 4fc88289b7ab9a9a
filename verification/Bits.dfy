/** Bit masks on unbounded naturals, as the table index and the allocator rounding use them. */
module Bits {
  import opened Arithmetic

  predicate IsPow2(n: nat) {
    n == 1 || (n > 1 && n % 2 == 0 && IsPow2(n / 2))
  }

  /** Bitwise `a & b`. */
  function And(a: nat, b: nat): nat {
    if a == 0 || b == 0 then 0
    else 2 * And(a / 2, b / 2) + (if a % 2 == 1 && b % 2 == 1 then 1 else 0)
  }

  /** Bitwise `a & !b`. */
  function AndNot(a: nat, b: nat): nat
    decreases a
  {
    if a == 0 then 0
    else 2 * AndNot(a / 2, b / 2) + (if a % 2 == 1 && b % 2 == 0 then 1 else 0)
  }

  /** Masking with `n - 1` is the remainder by `n` when `n` is a power of two. */
  lemma {:induction false} MaskIsRemainder(a: nat, n: nat)
    requires IsPow2(n)
    ensures And(a, n - 1) == a % n
  {
    if n > 1 {
      MaskIsRemainder(a / 2, n / 2);
      MaskStep(a, n / 2);
    }
  }

  lemma MaskStep(a: nat, h: nat)
    requires h > 0 && And(a / 2, h - 1) == a / 2 % h
    ensures And(a, 2 * h - 1) == a % (2 * h)
  {
    if a > 0 {
      AndOdd(a, h);
    }
    HalfRemainder(a, h);
  }

  lemma AndOdd(a: nat, h: nat)
    requires a > 0 && h > 0
    ensures And(a, 2 * h - 1) == 2 * And(a / 2, h - 1) + a % 2
  {
    assert (2 * h - 1) / 2 == h - 1 && (2 * h - 1) % 2 == 1;
  }

  lemma {:induction false} AndEven(a: nat, h: nat)
    requires h > 0
    ensures And(a, 2 * h) == 2 * And(a / 2, h)
  {
    var b := 2 * h;
    assert b / 2 == h && b % 2 == 0;
    if a > 0 {
      assert And(a, b) == 2 * And(a / 2, b / 2);
    }
  }

  lemma HalfRemainder(a: nat, h: nat)
    requires h > 0
    ensures a % (2 * h) == 2 * (a / 2 % h) + a % 2
  {
    var q, r := a / 2 / h, a / 2 % h;
    assert a / 2 == q * h + r;
    assert a == q * (2 * h) + (2 * r + a % 2);
    DivMod(q, 2 * r + a % 2, 2 * h);
  }

  /** Masking with a power of two singles out one bit. */
  lemma {:induction false} AndPow2(a: nat, n: nat)
    requires IsPow2(n)
    ensures And(a, n) == if a / n % 2 == 1 then n else 0
  {
    if n == 1 {
      assert And(a / 2, 0) == 0;
    } else {
      AndEven(a, n / 2);
      AndPow2(a / 2, n / 2);
      HalfQuotient(a, n / 2);
    }
  }

  lemma HalfQuotient(a: nat, h: nat)
    requires h > 0
    ensures a / (2 * h) == a / 2 / h
  {
    var q, r := a / 2 / h, a / 2 % h;
    assert a / 2 == q * h + r;
    assert a == q * (2 * h) + (2 * r + a % 2);
    DivMod(q, 2 * r + a % 2, 2 * h);
  }

  lemma HighBit()
    ensures IsPow2(0x8000_0000)
  {
    assert IsPow2(2) && IsPow2(4) && IsPow2(8) && IsPow2(0x10) && IsPow2(0x20) && IsPow2(0x40) && IsPow2(0x80);
    assert IsPow2(0x100) && IsPow2(0x200) && IsPow2(0x400) && IsPow2(0x800) && IsPow2(0x1000) && IsPow2(0x2000);
    assert IsPow2(0x4000) && IsPow2(0x8000) && IsPow2(0x1_0000) && IsPow2(0x2_0000) && IsPow2(0x4_0000);
    assert IsPow2(0x8_0000) && IsPow2(0x10_0000) && IsPow2(0x20_0000) && IsPow2(0x40_0000) && IsPow2(0x80_0000);
    assert IsPow2(0x100_0000) && IsPow2(0x200_0000) && IsPow2(0x400_0000) && IsPow2(0x800_0000);
    assert IsPow2(0x1000_0000) && IsPow2(0x2000_0000) && IsPow2(0x4000_0000);
  }

  /** The two halves of a mask add up. */
  lemma {:induction false} Split(a: nat, b: nat)
    ensures And(a, b) + AndNot(a, b) == a
    decreases a
  {
    if a != 0 {
      Split(a / 2, b / 2);
      if b == 0 { AndNotZero(a / 2); }
    }
  }

  lemma {:induction false} AndNotZero(a: nat)
    ensures AndNot(a, 0) == a
  {
    if a != 0 { AndNotZero(a / 2); }
  }

  /** Smaller powers of two divide larger ones. */
  lemma {:induction false} Pow2Divides(a: nat, b: nat)
    requires IsPow2(a) && IsPow2(b) && a <= b
    ensures b % a == 0
  {
    if a == b {
      DivMod(1, 0, a);
    } else {
      HalfPow2(a, b);
      Pow2Divides(a, b / 2);
      var q := b / 2 / a;
      assert b / 2 == q * a;
      assert b == (2 * q) * a;
      DivMod(2 * q, 0, a);
    }
  }

  lemma {:induction false} HalfPow2(a: nat, b: nat)
    requires IsPow2(a) && IsPow2(b) && a < b
    ensures IsPow2(b / 2) && a <= b / 2
  {
    if a > 1 {
      HalfPow2(a / 2, b / 2);
    }
  }
}
