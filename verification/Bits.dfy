/** Bit-level view of unbounded natural numbers. */
module Bits {
  import opened Common

  predicate Bit(v: nat, i: nat)
    decreases i
  {
    if i == 0 then v % 2 == 1 else Bit(v / 2, i - 1)
  }

  function Shl(v: nat, k: nat): (r: nat)
    ensures v > 0 ==> r > 0
    decreases k
  {
    if k == 0 then v else 2 * Shl(v, k - 1)
  }

  function Shr(v: nat, k: nat): nat
    decreases k
  {
    if k == 0 then v else Shr(v / 2, k - 1)
  }

  function Or(a: nat, b: nat): nat
    decreases a + b
  {
    if a == 0 && b == 0 then 0
    else 2 * Or(a / 2, b / 2) + if a % 2 == 1 || b % 2 == 1 then 1 else 0
  }

  function And(a: nat, b: nat): nat
    decreases a + b
  {
    if a == 0 && b == 0 then 0
    else 2 * And(a / 2, b / 2) + if a % 2 == 1 && b % 2 == 1 then 1 else 0
  }

  /** The k lowest bits set. */
  function LowOnes(k: nat): nat {
    if k == 0 then 0 else 2 * LowOnes(k - 1) + 1
  }

  lemma {:induction false} ZeroBits(i: nat)
    ensures !Bit(0, i)
  {
    if i > 0 { ZeroBits(i - 1); }
  }

  lemma {:induction false} ShlBit(v: nat, k: nat, i: nat)
    ensures Bit(Shl(v, k), i) <==> i >= k && Bit(v, i - k)
    decreases k
  {
    if k > 0 && i > 0 {
      assert Shl(v, k) / 2 == Shl(v, k - 1);
      ShlBit(v, k - 1, i - 1);
    }
  }

  lemma {:induction false} ShrBit(v: nat, k: nat, i: nat)
    ensures Bit(Shr(v, k), i) <==> Bit(v, i + k)
    decreases k
  {
    if k > 0 { ShrBit(v / 2, k - 1, i); }
  }

  lemma {:induction false} OrBit(a: nat, b: nat, i: nat)
    ensures Bit(Or(a, b), i) <==> Bit(a, i) || Bit(b, i)
    decreases i
  {
    if a == 0 && b == 0 {
      ZeroBits(i);
    } else if i > 0 {
      assert Or(a, b) / 2 == Or(a / 2, b / 2);
      OrBit(a / 2, b / 2, i - 1);
    }
  }

  lemma {:induction false} AndBit(a: nat, b: nat, i: nat)
    ensures Bit(And(a, b), i) <==> Bit(a, i) && Bit(b, i)
    decreases i
  {
    if a == 0 && b == 0 {
      ZeroBits(i);
    } else if i > 0 {
      assert And(a, b) / 2 == And(a / 2, b / 2);
      AndBit(a / 2, b / 2, i - 1);
    }
  }

  lemma {:induction false} LowOnesBit(k: nat, i: nat)
    ensures Bit(LowOnes(k), i) <==> i < k
    decreases k
  {
    if k == 0 {
      ZeroBits(i);
    } else if i > 0 {
      assert LowOnes(k) / 2 == LowOnes(k - 1);
      LowOnesBit(k - 1, i - 1);
    }
  }

  lemma {:induction false} LowOnesIs(k: nat)
    ensures LowOnes(k) + 1 == Shl(1, k)
  {
    if k > 0 { LowOnesIs(k - 1); }
  }

  /** Masking with low ones is reduction modulo a power of two. */
  lemma {:induction false} AndLowOnes(v: nat, k: nat)
    ensures And(v, LowOnes(k)) == v % Shl(1, k)
    decreases k
  {
    if k == 0 {
      AndZero(v);
    } else {
      AndLowOnes(v / 2, k - 1);
      HalfMod(v, Shl(1, k - 1));
    }
  }

  lemma {:induction false} AndZero(v: nat)
    ensures And(v, 0) == 0
    decreases v
  {
    if v > 0 { AndZero(v / 2); }
  }

  lemma HalfMod(v: nat, m: nat)
    requires m > 0
    ensures v % (2 * m) == 2 * (v / 2 % m) + v % 2
  {
    var h := v / 2;
    var q, r := h / m, h % m;
    assert v == (2 * m) * q + (2 * r + v % 2) by {
      assert h == m * q + r;
      assert (2 * m) * q == 2 * (m * q);
    }
    ModIs(v, 2 * m, q, 2 * r + v % 2);
  }

  /** Two numbers with the same bits below n, and none above, are equal. */
  lemma {:induction false} BitsDetermine(a: nat, b: nat, n: nat)
    requires forall i: nat :: Bit(a, i) <==> Bit(b, i)
    requires a < Shl(1, n) && b < Shl(1, n)
    ensures a == b
    decreases n
  {
    if n > 0 {
      assert Bit(a, 0) <==> Bit(b, 0);
      forall i: nat ensures Bit(a / 2, i) <==> Bit(b / 2, i) {
        assert Bit(a, i + 1) <==> Bit(b, i + 1);
      }
      BitsDetermine(a / 2, b / 2, n - 1);
    }
  }

  /** Number of set bits below n. */
  function Ones(v: nat, n: nat): (c: nat)
    ensures c <= n
  {
    if n == 0 then 0 else Ones(v, n - 1) + if Bit(v, n - 1) then 1 else 0
  }
}
