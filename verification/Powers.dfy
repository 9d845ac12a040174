/** The shifts and bit operations of C on non-negative integers, by recursion on the bits. */
module Powers {
  /** 1 << k */
  function Pow2(k: nat): (p: nat)
    ensures p >= 1
  {
    if k == 0 then 1 else 2 * Pow2(k - 1)
  }

  /** a << k */
  function Shl(a: nat, k: nat): nat
  {
    if k == 0 then a else 2 * Shl(a, k - 1)
  }

  /** a >> k */
  function Shr(a: nat, k: nat): nat
  {
    if k == 0 then a else Shr(a / 2, k - 1)
  }

  /** a & ((1 << k) - 1) */
  function LowBits(a: nat, k: nat): nat
  {
    if k == 0 then 0 else a % 2 + 2 * LowBits(a / 2, k - 1)
  }

  /** a | b */
  function BitOr(a: nat, b: nat): nat
  {
    if a == 0 && b == 0 then 0
    else 2 * BitOr(a / 2, b / 2) + if a % 2 == 1 || b % 2 == 1 then 1 else 0
  }

  /** a & b */
  function BitAnd(a: nat, b: nat): nat
  {
    if a == 0 || b == 0 then 0
    else 2 * BitAnd(a / 2, b / 2) + if a % 2 == 1 && b % 2 == 1 then 1 else 0
  }

  lemma Pow2Values()
    ensures Pow2(0) == 1 && Pow2(7) == 128 && Pow2(8) == 256 && Pow2(16) == 65536
  {
    assert Pow2(3) == 8;
    assert Pow2(6) == 64;
    assert Pow2(11) == 2048;
    assert Pow2(14) == 16384;
  }

  lemma Pow2Grows(k: nat)
    ensures Pow2(k) < Pow2(k + 1)
  {
  }

  /** A value is its high bits shifted back plus its low bits. */
  lemma {:induction false} SplitBits(a: nat, k: nat)
    ensures a == Shl(Shr(a, k), k) + LowBits(a, k) && LowBits(a, k) < Pow2(k)
  {
    if k > 0 { SplitBits(a / 2, k - 1); }
  }

  /** What was joined comes apart again. */
  lemma {:induction false} JoinBits(high: nat, k: nat, low: nat)
    requires low < Pow2(k)
    ensures Shr(Shl(high, k) + low, k) == high && LowBits(Shl(high, k) + low, k) == low
  {
    if k > 0 {
      var a := Shl(high, k - 1);
      assert (2 * a + low) / 2 == a + low / 2 && (2 * a + low) % 2 == low % 2;
      JoinBits(high, k - 1, low / 2);
    }
  }

  lemma {:induction false} OrZero(a: nat)
    ensures BitOr(a, 0) == a == BitOr(0, a)
  {
    if a > 0 { OrZero(a / 2); }
  }

  /** Bits that do not overlap: | is +. */
  lemma {:induction false} OrIsSum(high: nat, k: nat, low: nat)
    requires low < Pow2(k)
    ensures BitOr(Shl(high, k), low) == Shl(high, k) + low
  {
    if k == 0 {
      OrZero(high);
    } else {
      var h := Shl(high, k - 1);
      assert (2 * h) / 2 == h && (2 * h) % 2 == 0;
      OrIsSum(high, k - 1, low / 2);
    }
  }

  /** Testing one bit. */
  lemma {:induction false} AndIsBit(a: nat, k: nat)
    ensures BitAnd(a, Pow2(k)) != 0 <==> Shr(a, k) % 2 == 1
  {
    if k == 0 {
      assert BitAnd(a / 2, 0) == 0;
    } else if a == 0 {
      ShrZero(k);
    } else {
      assert Pow2(k) / 2 == Pow2(k - 1) && Pow2(k) % 2 == 0;
      AndIsBit(a / 2, k - 1);
    }
  }

  lemma {:induction false} ShrZero(k: nat)
    ensures Shr(0, k) == 0
  {
    if k > 0 { ShrZero(k - 1); }
  }

  lemma {:induction false} ShrOnce(a: nat, k: nat)
    ensures Shr(a, k + 1) == Shr(a, k) / 2
  {
    if k > 0 { ShrOnce(a / 2, k - 1); }
  }

  lemma {:induction false} ShlSum(a: nat, b: nat, k: nat)
    ensures Shl(a + b, k) == Shl(a, k) + Shl(b, k)
  {
    if k > 0 { ShlSum(a, b, k - 1); }
  }

  lemma {:induction false} ShlOne(k: nat)
    ensures Shl(1, k) == Pow2(k)
  {
    if k > 0 { ShlOne(k - 1); }
  }

  lemma {:induction false} ShlPow2(a: nat, k: nat)
    ensures Shl(Pow2(a), k) == Pow2(a + k)
  {
    if k > 0 { ShlPow2(a, k - 1); }
  }

  lemma {:induction false} ShrBound(c: nat, k: nat, n: nat)
    requires c < Pow2(n + k)
    ensures Shr(c, k) < Pow2(n)
  {
    if k > 0 { ShrBound(c / 2, k - 1, n); }
  }

  /** high of n bits and low of k bits make a value of n + k bits. */
  lemma JoinedFits(high: nat, n: nat, k: nat, low: nat)
    requires high < Pow2(n) && low < Pow2(k)
    ensures Shl(high, k) + low < Pow2(n + k)
  {
    ShlSum(high + 1, Pow2(n) - (high + 1), k);
    ShlSum(high, 1, k);
    ShlOne(k);
    ShlPow2(n, k);
  }
}
