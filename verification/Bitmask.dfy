/** Logical-immediate decoding of packages/ntsim-analyzer/src/aarch64.mjs. */
module Bitmask {
  import opened Common
  import opened Bits

  datatype Error = BadLength | BadWidth

  /** The loop from the top bit down. */
  method HighestSetBit(v: nat, bits: nat) returns (r: int)
    ensures -1 <= r < bits
    ensures r >= 0 ==> Bit(v, r)
    ensures forall i: nat :: r < i < bits ==> !Bit(v, i)
  {
    r := bits - 1;
    while r >= 0
      invariant -1 <= r < bits
      invariant forall i: nat :: r < i < bits ==> !Bit(v, i)
    {
      ShrBit(v, r, 0);
      if Shr(v, r) % 2 == 1 { return; }
      r := r - 1;
    }
  }

  /** Element size exponent: position of the leading one of N:NOT(imms). */
  ghost predicate IsLength(n: nat, imms: nat, len: int)
    requires n <= 1 && imms < 64
  {
    if n == 1 then len == 6
    else if imms == 63 then len == -1
    else 0 <= len < 6 && Shl(1, len) <= 63 - imms < Shl(1, len + 1)
  }

  lemma TopBit(n: nat, imms: nat, v: nat, len: int)
    requires n <= 1 && imms < 64 && -1 <= len < 7 && v == Or(Shl(n, 6), 63 - imms)
    requires len >= 0 ==> Bit(v, len)
    requires forall i: nat :: len < i < 7 ==> !Bit(v, i)
    ensures IsLength(n, imms, len)
  {
    hide Bit, Or, Shl;
    Powers();
    var w := 63 - imms;
    forall i: nat ensures Bit(v, i) <==> (i >= 6 && Bit(n, i - 6)) || Bit(w, i) {
      OrBit(Shl(n, 6), w, i);
      ShlBit(n, 6, i);
    }
    SmallBits(w, 6);
    if n == 1 {
      assert Bit(1, 0) by { LowOnesBit(1, 0); OneIs(); }
      assert Bit(v, 6);
    } else {
      assert forall i: nat :: !Bit(0, i) by { forall i: nat ensures !Bit(0, i) { ZeroBits(i); } }
      if len < 0 {
        forall i: nat | i < 6 ensures !Bit(w, i) { assert !Bit(v, i); }
        AllClear(w, 6);
      } else {
        assert len < 6 && Bit(w, len);
        Leading(w, len, 6);
      }
    }
  }

  lemma OneIs()
    ensures LowOnes(1) == 1
  {
    assert LowOnes(1) == 2 * LowOnes(0) + 1;
  }

  lemma {:induction false} SmallBits(w: nat, n: nat)
    requires w < Shl(1, n)
    ensures forall i: nat :: i >= n ==> !Bit(w, i)
    decreases n
  {
    forall i: nat | i >= n ensures !Bit(w, i) {
      if n == 0 { ZeroBits(i); } else { SmallBits(w / 2, n - 1); }
    }
  }

  lemma {:induction false} AllClear(w: nat, n: nat)
    requires w < Shl(1, n) && forall i: nat :: i < n ==> !Bit(w, i)
    ensures w == 0
    decreases n
  {
    if n > 0 {
      assert !Bit(w, 0);
      forall i: nat | i < n - 1 ensures !Bit(w / 2, i) { assert !Bit(w, i + 1); }
      AllClear(w / 2, n - 1);
    }
  }

  lemma {:induction false} Leading(w: nat, len: nat, n: nat)
    requires w < Shl(1, n) && len < n && Bit(w, len) && forall i: nat :: len < i < n ==> !Bit(w, i)
    ensures Shl(1, len) <= w < Shl(1, len + 1)
    decreases n
  {
    if len == 0 {
      forall i: nat | i < n - 1 ensures !Bit(w / 2, i) { assert !Bit(w, i + 1); }
      AllClear(w / 2, n - 1);
    } else {
      forall i: nat | len - 1 < i < n - 1 ensures !Bit(w / 2, i) { assert !Bit(w, i + 1); }
      Leading(w / 2, len - 1, n - 1);
    }
  }

  // ------------------------------------------------------------ the element and its replication

  /** Bit i of a run of s+1 ones rotated right by r within e bits. */
  predicate Rotated(i: nat, r: nat, s: nat, e: nat)
    requires e > 0
  {
    (i + r) % e <= s
  }

  function Element(s: nat, r: nat, e: nat): nat
    requires r < e
  {
    And(Or(Shr(LowOnes(s + 1), r), Shl(LowOnes(s + 1), e - r)), LowOnes(e))
  }

  lemma ElementBit(s: nat, r: nat, e: nat, i: nat)
    requires s < e && r < e
    ensures Bit(Element(s, r, e), i) <==> i < e && Rotated(i, r, s, e)
  {
    var ones := LowOnes(s + 1);
    AndBit(Or(Shr(ones, r), Shl(ones, e - r)), LowOnes(e), i);
    OrBit(Shr(ones, r), Shl(ones, e - r), i);
    ShrBit(ones, r, i);
    ShlBit(ones, e - r, i);
    LowOnesBit(s + 1, i + r);
    LowOnesBit(e, i);
    if i < e {
      if i + r < e {
        ModIs(i + r, e, 0, i + r);
      } else {
        ModIs(i + r, e, 1, i + r - e);
        LowOnesBit(s + 1, i - (e - r));
      }
    }
  }

  function Repeat(elem: nat, e: nat, count: nat): nat {
    if count == 0 then 0 else Or(Shl(Repeat(elem, e, count - 1), e), elem)
  }

  lemma {:induction false} RepeatBit(elem: nat, e: nat, count: nat, i: nat)
    requires e > 0 && forall j: nat :: j >= e ==> !Bit(elem, j)
    ensures Bit(Repeat(elem, e, count), i) <==> i < e * count && Bit(elem, i % e)
    decreases count
  {
    if count == 0 {
      ZeroBits(i);
    } else {
      var rest := Repeat(elem, e, count - 1);
      OrBit(Shl(rest, e), elem, i);
      ShlBit(rest, e, i);
      assert e * count == e * (count - 1) + e;
      if i < e {
        ModIs(i, e, 0, i);
        AtLeast(e, count);
      } else {
        RepeatBit(elem, e, count - 1, i - e);
        BackOne(i, e);
      }
    }
  }

  lemma BackOne(i: nat, e: nat)
    requires 0 < e <= i
    ensures (i - e) % e == i % e
  {
    var q, r := i / e, i % e;
    assert i == e * q + r;
    assert e * (q - 1) == e * q - e;
    ModIs(i - e, e, q - 1, r);
  }

  // ------------------------------------------------------------ the decoder

  /** Arm DecodeBitMasks for a logical immediate: bit i is set when (i + r) mod esize is at most s. */
  ghost predicate Decodes(mask: nat, immr: nat, imms: nat, width: nat, e: nat)
    requires e > 0
  {
    forall i: nat :: Bit(mask, i) <==> i < width && Rotated(i, immr % e, imms % e, e)
  }

  lemma Powers()
    ensures Shl(1, 0) == 1 && Shl(1, 1) == 2 && Shl(1, 2) == 4 && Shl(1, 3) == 8
    ensures Shl(1, 4) == 16 && Shl(1, 5) == 32 && Shl(1, 6) == 64
    ensures Shl(1, 7) == 128
  {
    assert Shl(1, 2) == 2 * (2 * Shl(1, 0));
    assert Shl(1, 4) == 2 * (2 * Shl(1, 2));
    assert Shl(1, 6) == 2 * (2 * Shl(1, 4));
  }

  /** Accepts exactly the encodings with an element of at least two bits that fits the width, and
      returns exactly the architecture's mask. */
  method DecodeBitmask(n: nat, immr: nat, imms: nat, width: nat) returns (r: Result<nat, Error>)
    requires n <= 1 && immr < 64 && imms < 64 && (width == 32 || width == 64)
    ensures r.Ok? <==> if n == 1 then width == 64 else imms < 62
    ensures r.Ok? ==>
      exists len :: IsLength(n, imms, len) && 1 <= len <= 6 && Decodes(r.value, immr, imms, width, Shl(1, len))
    ensures r == Err(BadWidth) <==> n == 1 && width == 32
  {
    hide Or, And, Shr, Shl, Bit, LowOnes, IsLength, Decodes;
    Powers();
    var v := Or(Shl(n, 6), 63 - imms);
    var length := HighestSetBit(v, 7);
    TopBit(n, imms, v, length);
    LengthCases(n, imms, length, width);
    if length < 1 { return Err(BadLength); }
    var esize := Shl(1, length);
    if esize > width { return Err(BadWidth); }
    var mask := Expand(immr, imms, width, length);
    r := Ok(mask);
  }

  lemma LengthCases(n: nat, imms: nat, len: int, width: nat)
    requires n <= 1 && imms < 64 && IsLength(n, imms, len) && (width == 32 || width == 64)
    ensures len < 1 <==> n == 0 && imms >= 62
    ensures len >= 1 ==> len <= 6 && (Shl(1, len) > width <==> n == 1 && width == 32)
    ensures len >= 1 && Shl(1, len) <= width ==> width % Shl(1, len) == 0
  {
    hide Shl;
    Powers();
  }

  /** From the element size on: slice out s and r, rotate the run, replicate it. */
  method Expand(immr: nat, imms: nat, width: nat, length: nat) returns (mask: nat)
    requires length >= 1 && Shl(1, length) <= width && width % Shl(1, length) == 0
    ensures Decodes(mask, immr, imms, width, Shl(1, length))
  {
    hide Or, And, Shr, Shl, Bit, LowOnes;
    var esize := Shl(1, length);
    var s, rot := And(imms, esize - 1), And(immr, esize - 1);
    LowOnesIs(length);
    AndLowOnes(imms, length);
    AndLowOnes(immr, length);
    var ones := Shl(1, s + 1) - 1;
    LowOnesIs(s + 1);
    LowOnesIs(esize);
    var elem := And(Or(Shr(ones, rot), Shl(ones, esize - rot)), Shl(1, esize) - 1);
    var all, count := 0, width / esize;
    for i := 0 to count
      invariant all == Repeat(elem, esize, i)
    {
      all := Or(Shl(all, esize), elem);
    }
    DecodedBits(all, s, rot, esize, width);
    LowOnesIs(width);
    mask := And(all, Shl(1, width) - 1);
  }

  lemma DecodedBits(mask: nat, s: nat, rot: nat, e: nat, width: nat)
    requires s < e && rot < e <= width && width % e == 0
    requires mask == Repeat(Element(s, rot, e), e, width / e)
    ensures forall i: nat :: Bit(And(mask, LowOnes(width)), i) <==> i < width && Rotated(i, rot, s, e)
  {
    var elem := Element(s, rot, e);
    forall j: nat | j >= e ensures !Bit(elem, j) { ElementBit(s, rot, e, j); }
    forall i: nat ensures Bit(And(mask, LowOnes(width)), i) <==> i < width && Rotated(i, rot, s, e) {
      AndBit(mask, LowOnes(width), i);
      LowOnesBit(width, i);
      RepeatBit(elem, e, width / e, i);
      assert e * (width / e) == width;
      ElementBit(s, rot, e, i % e);
      RotatedPeriodic(i, rot, s, e);
    }
  }

  lemma RotatedPeriodic(i: nat, r: nat, s: nat, e: nat)
    requires e > 0
    ensures i % e < e && (Rotated(i % e, r, s, e) <==> Rotated(i, r, s, e))
  {
    var q, t := i / e, i % e;
    assert i == e * q + t;
    var u := (t + r) / e;
    assert t + r == e * u + (t + r) % e;
    assert e * (q + u) == e * q + e * u;
    ModIs(i + r, e, q + u, (t + r) % e);
  }

  // ------------------------------------------------------------ consequences

  /** The mask is determined by its decoding. */
  lemma DecodingUnique(m: nat, m': nat, immr: nat, imms: nat, width: nat, e: nat)
    requires e > 0 && Decodes(m, immr, imms, width, e) && Decodes(m', immr, imms, width, e)
    requires m < Shl(1, width) && m' < Shl(1, width)
    ensures m == m'
  {
    forall i: nat ensures Bit(m, i) <==> Bit(m', i) {
    }
    BitsDetermine(m, m', width);
  }

  /** Ones among the first j bits of an element. */
  function RunCount(r: nat, s: nat, e: nat, j: nat): int
    requires r < e
  {
    if j <= e - r then Max(0, Min(j, s + 1 - r)) else Max(0, s + 1 - r) + Min(j - (e - r), s + 1)
  }

  lemma RunStep(r: nat, s: nat, e: nat, j: nat)
    requires r < e && s < e && 0 < j <= e
    ensures RunCount(r, s, e, j) == RunCount(r, s, e, j - 1) + if Rotated(j - 1, r, s, e) then 1 else 0
  {
    if j - 1 + r < e { ModIs(j - 1 + r, e, 0, j - 1 + r); } else { ModIs(j - 1 + r, e, 1, j - 1 + r - e); }
  }

  lemma {:induction false} OnesUpTo(m: nat, r: nat, s: nat, width: nat, e: nat, k: nat, j: nat)
    requires r < e && s < e && j <= e && e * k + j <= width
    requires forall i: nat :: Bit(m, i) <==> i < width && Rotated(i, r, s, e)
    ensures Ones(m, e * k + j) == k * (s + 1) + RunCount(r, s, e, j)
    decreases k, j
  {
    hide Bit, Rotated, RunCount;
    if j > 0 {
      var i := e * k + (j - 1);
      OnesUpTo(m, r, s, width, e, k, j - 1);
      assert Bit(m, i) <==> Rotated(i, r, s, e);
      RotatedPeriodic(i, r, s, e);
      ModIs(i, e, k, j - 1);
      RunStep(r, s, e, j);
    } else {
      RunEnds(r, s, e);
      if k > 0 {
        Distribute(e, k, 1);
        OnesUpTo(m, r, s, width, e, k - 1, e);
        Distribute(s + 1, k, 1);
        assert k * (s + 1) == (k - 1) * (s + 1) + (s + 1);
      }
    }
  }

  lemma RunEnds(r: nat, s: nat, e: nat)
    requires r < e && s < e
    ensures RunCount(r, s, e, 0) == 0 && RunCount(r, s, e, e) == s + 1
  {
  }

  /** The mask has s + 1 ones in every element. */
  lemma OnesInMask(m: nat, immr: nat, imms: nat, width: nat, e: nat)
    requires e > 0 && width % e == 0 && Decodes(m, immr, imms, width, e)
    ensures Ones(m, width) == (width / e) * (imms % e + 1)
  {
    assert e * (width / e) == width;
    OnesUpTo(m, immr % e, imms % e, width, e, width / e, 0);
    RunEnds(immr % e, imms % e, e);
  }

  /** The architecture reserves encodings whose element is all ones; the decoder accepts them, and
      they are exactly those that decode to the all-ones mask. */
  lemma ReservedIffAllOnes(m: nat, immr: nat, imms: nat, width: nat, e: nat)
    requires 0 < e <= width && width % e == 0 && Decodes(m, immr, imms, width, e) && m < Shl(1, width)
    ensures m == LowOnes(width) <==> imms % e == e - 1
  {
    var s, r := imms % e, immr % e;
    if s == e - 1 {
      forall i: nat ensures Bit(m, i) <==> Bit(LowOnes(width), i) {
        LowOnesBit(width, i);
      }
      LowOnesIs(width);
      BitsDetermine(m, LowOnes(width), width);
    } else {
      var i := if r == 0 then e - 1 else e - 1 - r;
      ModIs(i + r, e, 0, e - 1);
      assert !Bit(m, i);
      LowOnesBit(width, i);
    }
  }
}
