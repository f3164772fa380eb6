/** crc32 of packages/triage/src/apihash.mjs, and the error-detection property it is chosen for. */
module Crc32 {

  const POLY: bv32 := 0xEDB8_8320

  /** A UTF-16 code unit, and one that is a byte. */
  type unit = x: bv32 | x < 0x1_0000
  type octet = x: bv32 | x < 256

  // ------------------------------------------------------------ bit facts

  function Plus(a: bv32, b: bv32): bv32 { a ^ b }

  predicate Odd(x: bv32) { x & 1 == 1 }

  function Half(x: bv32): bv32 { x >> 1 }

  lemma PlusZero(a: bv32)
    ensures Plus(a, 0) == a && Plus(0, a) == a && Plus(a, a) == 0
  {
  }

  lemma PlusAssoc(a: bv32, b: bv32, c: bv32)
    ensures Plus(Plus(a, b), c) == Plus(a, Plus(b, c))
  {
  }

  lemma PlusComm(a: bv32, b: bv32)
    ensures Plus(a, b) == Plus(b, a)
  {
  }

  lemma PlusSwap(a: bv32, b: bv32, c: bv32, d: bv32)
    ensures Plus(Plus(a, b), Plus(c, d)) == Plus(Plus(a, c), Plus(b, d))
  {
    hide Plus;
    PlusAssoc(a, b, Plus(c, d));
    PlusAssoc(b, c, d);
    PlusComm(b, c);
    PlusAssoc(c, b, d);
    PlusAssoc(a, c, Plus(b, d));
  }

  lemma PlusZeroIff(a: bv32, b: bv32)
    ensures Plus(a, b) == 0 <==> a == b
  {
  }

  lemma HalfPlus(x: bv32, y: bv32)
    ensures Half(Plus(x, y)) == Plus(Half(x), Half(y))
  {
  }

  lemma OddPlus(x: bv32, y: bv32)
    ensures Odd(Plus(x, y)) <==> Odd(x) != Odd(y)
  {
  }

  lemma HalfZeroIff(x: bv32)
    ensures !Odd(x) ==> (Half(x) == 0 <==> x == 0)
    ensures Plus(Half(x), POLY) != 0
  {
  }

  /** The code's mask -(crc & 1) selects the polynomial exactly for odd registers. */
  lemma Branchless(x: bv32)
    ensures POLY & (0 - (x & 1)) == if Odd(x) then POLY else 0
  {
  }

  // ------------------------------------------------------------ one bit, one byte

  function Step(x: bv32): bv32 { if Odd(x) then Plus(Half(x), POLY) else Half(x) }

  function Steps(x: bv32, n: nat): bv32 { if n == 0 then x else Step(Steps(x, n - 1)) }

  function ByteStep(crc: bv32, b: unit): bv32 { Steps(Plus(crc, b), 8) }

  lemma StepLinear(x: bv32, y: bv32)
    ensures Step(Plus(x, y)) == Plus(Step(x), Step(y))
  {
    hide Plus, Half, Odd;
    HalfPlus(x, y);
    OddPlus(x, y);
    var p, q := Half(x), Half(y);
    PlusAssoc(p, q, POLY);
    PlusSwap(p, q, POLY, 0);
    PlusSwap(p, POLY, q, POLY);
    PlusSwap(p, POLY, q, 0);
    PlusSwap(p, 0, q, POLY);
    PlusZero(POLY);
    PlusZero(p);
    PlusZero(q);
    PlusZero(Plus(p, q));
  }

  lemma StepZeroIff(x: bv32)
    ensures Step(x) == 0 <==> x == 0
  {
    HalfZeroIff(x);
  }

  lemma {:induction false} StepsLinear(x: bv32, y: bv32, n: nat)
    ensures Steps(Plus(x, y), n) == Plus(Steps(x, n), Steps(y, n))
  {
    hide Step, Plus;
    if n > 0 {
      StepsLinear(x, y, n - 1);
      StepLinear(Steps(x, n - 1), Steps(y, n - 1));
    }
  }

  /** Stepping is one-to-one: only zero leads to zero. */
  lemma {:induction false} StepsZeroIff(x: bv32, n: nat)
    ensures Steps(x, n) == 0 <==> x == 0
  {
    hide Step;
    if n > 0 {
      StepsZeroIff(x, n - 1);
      StepZeroIff(Steps(x, n - 1));
    }
  }

  /** y moved up by k bits, for k at most 8. */
  function Up(y: bv32, k: nat): bv32
    requires k <= 8
  {
    match k
    case 0 => y
    case 1 => y << 1
    case 2 => y << 2
    case 3 => y << 3
    case 4 => y << 4
    case 5 => y << 5
    case 6 => y << 6
    case 7 => y << 7
    case 8 => y << 8
  }

  lemma UpHalves(y: bv32, k: nat)
    requires y < 0x0100_0000 && 0 < k <= 8
    ensures !Odd(Up(y, k)) && Half(Up(y, k)) == Up(y, k - 1)
  {
    hide Odd, Half;
    match k
    case 1 => Shift1(y);
    case 2 => Shift2(y);
    case 3 => Shift3(y);
    case 4 => Shift4(y);
    case 5 => Shift5(y);
    case 6 => Shift6(y);
    case 7 => Shift7(y);
    case 8 => Shift8(y);
  }

  lemma Shift1(y: bv32)
    requires y < 0x0100_0000
    ensures !Odd(y << 1) && Half(y << 1) == y
  {
  }

  lemma Shift2(y: bv32)
    requires y < 0x0100_0000
    ensures !Odd(y << 2) && Half(y << 2) == y << 1
  {
  }

  lemma Shift3(y: bv32)
    requires y < 0x0100_0000
    ensures !Odd(y << 3) && Half(y << 3) == y << 2
  {
  }

  lemma Shift4(y: bv32)
    requires y < 0x0100_0000
    ensures !Odd(y << 4) && Half(y << 4) == y << 3
  {
  }

  lemma Shift5(y: bv32)
    requires y < 0x0100_0000
    ensures !Odd(y << 5) && Half(y << 5) == y << 4
  {
  }

  lemma Shift6(y: bv32)
    requires y < 0x0100_0000
    ensures !Odd(y << 6) && Half(y << 6) == y << 5
  {
  }

  lemma Shift7(y: bv32)
    requires y < 0x0100_0000
    ensures !Odd(y << 7) && Half(y << 7) == y << 6
  {
  }

  lemma Shift8(y: bv32)
    requires y < 0x0100_0000
    ensures !Odd(y << 8) && Half(y << 8) == y << 7
  {
  }

  /** Eight steps shift out a zero byte. */
  lemma {:induction false} StepsShift(y: bv32, k: nat)
    requires y < 0x0100_0000 && k <= 8
    ensures Steps(Up(y, 8), k) == Up(y, 8 - k)
  {
    hide Up, Half, Odd, Plus;
    if k > 0 {
      StepsShift(y, k - 1);
      UpHalves(y, 9 - k);
    }
  }

  // ------------------------------------------------------------ whole messages

  function Fold(crc: bv32, s: seq<unit>): bv32 {
    if s == [] then crc else ByteStep(Fold(crc, s[..|s| - 1]), s[|s| - 1])
  }

  const ONES: bv32 := 0xFFFF_FFFF

  function Crc(s: seq<unit>): bv32 { Plus(Fold(ONES, s), ONES) }

  method ComputeCrc(s: seq<unit>) returns (r: bv32)
    ensures r == Crc(s)
  {
    hide ByteStep, Plus;
    var crc: bv32 := ONES;
    for i := 0 to |s|
      invariant crc == Fold(ONES, s[..i])
    {
      assert s[..i + 1][..i] == s[..i];
      crc := FeedByte(crc, s[i]);
    }
    assert s[..|s|] == s;
    r := Plus(crc, ONES);
  }

  method FeedByte(start: bv32, b: unit) returns (crc: bv32)
    ensures crc == ByteStep(start, b)
  {
    hide Step;
    crc := start ^ b;
    for k := 0 to 8
      invariant crc == Steps(Plus(start, b), k)
    {
      crc := FeedBit(crc);
    }
  }

  method FeedBit(x: bv32) returns (crc: bv32)
    ensures crc == Step(x)
  {
    Branchless(x);
    crc := (x >> 1) ^ (POLY & (0 - (x & 1)));
    PlusZero(Half(x));
  }

  function UnitXor(a: unit, b: unit): (c: unit)
    ensures c == Plus(a, b) && (c == 0 <==> a == b)
  {
    hide Plus;
    PlusZeroIff(a, b);
    PlusUnits(a, b);
    Plus(a, b)
  }

  lemma PlusUnits(a: bv32, b: bv32)
    requires a < 0x1_0000 && b < 0x1_0000
    ensures Plus(a, b) < 0x1_0000
  {
  }

  function Xor(s: seq<unit>, t: seq<unit>): (d: seq<unit>)
    requires |s| == |t|
    ensures |d| == |s| && forall i :: 0 <= i < |d| ==> d[i] == UnitXor(s[i], t[i])
  {
    seq<unit>(|s|, i requires 0 <= i < |s| => UnitXor(s[i], t[i]))
  }

  /** The register after two messages of one length differs by the register of their difference. */
  lemma {:induction false} FoldLinear(a: bv32, b: bv32, s: seq<unit>, t: seq<unit>)
    requires |s| == |t|
    ensures Plus(Fold(a, s), Fold(b, t)) == Fold(Plus(a, b), Xor(s, t))
  {
    hide Plus, Steps, UnitXor;
    if s != [] {
      var n := |s| - 1;
      FoldLinear(a, b, s[..n], t[..n]);
      assert Xor(s, t)[..n] == Xor(s[..n], t[..n]);
      var fa, fb := Fold(a, s[..n]), Fold(b, t[..n]);
      StepsLinear(Plus(fa, s[n]), Plus(fb, t[n]), 8);
      PlusSwap(fa, s[n], fb, t[n]);
    }
  }

  lemma {:induction false} FoldConcat(crc: bv32, s: seq<unit>, t: seq<unit>)
    ensures Fold(crc, s + t) == Fold(Fold(crc, s), t)
  {
    hide ByteStep;
    if t == [] {
      assert s + t == s;
    } else {
      assert (s + t)[..|s + t| - 1] == s + t[..|t| - 1];
      FoldConcat(crc, s, t[..|t| - 1]);
    }
  }

  lemma FoldThree(x: bv32, a: unit, b: unit, c: unit)
    ensures Fold(x, [a, b, c]) == ByteStep(ByteStep(ByteStep(x, a), b), c)
  {
    hide ByteStep;
    assert [a, b, c][..2] == [a, b] && [a, b][..1] == [a] && [a][..0] == [];
    assert Fold(x, [a]) == ByteStep(x, a);
    assert Fold(x, [a, b]) == ByteStep(Fold(x, [a]), b);
  }

  lemma FirstThree()
    ensures ByteStep(0xFFFF_FFFF, 0x31) == 0x7C23_1048
    ensures ByteStep(0x7C23_1048, 0x32) == 0xB0AC_BB32
    ensures ByteStep(0xB0AC_BB32, 0x33) == 0x77B7_9C2D
  {
  }

  lemma NextThree()
    ensures ByteStep(0x77B7_9C2D, 0x34) == 0x641C_1F5C
    ensures ByteStep(0x641C_1F5C, 0x35) == 0x340A_C5E3
    ensures ByteStep(0x340A_C5E3, 0x36) == 0xF68D_2C9E
  {
  }

  lemma LastThree()
    ensures ByteStep(0xF68D_2C9E, 0x37) == 0xAFFC_9660
    ensures ByteStep(0xAFFC_9660, 0x38) == 0x651F_2550
    ensures ByteStep(0x651F_2550, 0x39) == 0x340B_C6D9
  {
  }

  /** The checksum of the nine digits "123456789" is the published check value of CRC-32. */
  lemma CheckValue()
    ensures Crc([0x31, 0x32, 0x33, 0x34, 0x35, 0x36, 0x37, 0x38, 0x39]) == 0xCBF4_3926
  {
    hide ByteStep, Fold;
    FirstThree();
    NextThree();
    LastThree();
    var s: seq<unit>, t: seq<unit>, u: seq<unit> := [0x31, 0x32, 0x33], [0x34, 0x35, 0x36], [0x37, 0x38, 0x39];
    FoldConcat(ONES, s + t, u);
    FoldConcat(ONES, s, t);
    FoldThree(ONES, 0x31, 0x32, 0x33);
    FoldThree(0x77B7_9C2D, 0x34, 0x35, 0x36);
    FoldThree(0xF68D_2C9E, 0x37, 0x38, 0x39);
    assert s + t + u == [0x31, 0x32, 0x33, 0x34, 0x35, 0x36, 0x37, 0x38, 0x39];
  }

  ghost predicate AllZero(s: seq<unit>) { forall i :: 0 <= i < |s| ==> s[i] == 0 }

  lemma {:induction false} ZerosKeepNonzero(crc: bv32, s: seq<unit>)
    requires AllZero(s)
    ensures Fold(crc, s) == 0 <==> crc == 0
  {
    hide Plus, Steps;
    if s != [] {
      ZerosKeepNonzero(crc, s[..|s| - 1]);
      var f := Fold(crc, s[..|s| - 1]);
      PlusZero(f);
      StepsZeroIff(f, 8);
    }
  }

  /** A unit below a word. */
  function Join(b: unit, r: bv32): bv32 { Plus(b, Above(r)) }

  function Above(r: bv32): bv32 { r << 8 }

  lemma AboveIsUp(r: bv32)
    ensures Above(r) == Up(r, 8)
  {
  }

  lemma JoinBounds(b: unit, r: bv32)
    ensures r < 0x0001_0000 ==> Join(b, r) < 0x0100_0000
    ensures b < 256 && r < 0x0000_0100 ==> Join(b, r) < 0x0001_0000
    ensures r == 0 ==> Join(b, r) == b
    ensures b < 256 && r < 0x0100_0000 ==> (Join(b, r) == 0 <==> b == 0 && r == 0)
  {
  }

  lemma JoinIs(b: unit, r: bv32)
    ensures Join(b, r) == Plus(b, Up(r, 8))
  {
    hide Plus, Above, Up;
    AboveIsUp(r);
  }

  ghost predicate AllBytes(w: seq<unit>) { forall i :: 0 <= i < |w| ==> w[i] < 256 }

  /** Up to four bytes as a little-endian word; up to three wider units overlap in it. */
  function Word(w: seq<unit>): (v: bv32)
    requires |w| <= 3 || (|w| == 4 && AllBytes(w))
    ensures |w| <= 2 || (|w| == 3 && AllBytes(w)) ==> v < 0x0100_0000
    ensures |w| <= 1 || (|w| == 2 && AllBytes(w)) ==> v < 0x0001_0000
    ensures |w| == 0 || (|w| == 1 && AllBytes(w)) ==> v < 0x0000_0100
    ensures |w| == 0 ==> v == 0
    ensures AllBytes(w) ==> (v == 0 <==> AllZero(w))
  {
    if w == [] then 0
    else
      assert w == [w[0]] + w[1..];
      assert AllBytes(w) ==> AllBytes(w[1..]) && w[0] < 256;
      assert AllZero(w) <==> w[0] == 0 && AllZero(w[1..]);
      var r := Word(w[1..]);
      JoinBounds(w[0], r);
      Join(w[0], r)
  }

  function Bytes(x: bv32, n: nat): bv32
    decreases n
  {
    if n == 0 then x else Bytes(Steps(x, 8), n - 1)
  }

  lemma {:induction false} BytesZeroIff(x: bv32, n: nat)
    ensures Bytes(x, n) == 0 <==> x == 0
    decreases n
  {
    if n > 0 {
      StepsZeroIff(x, 8);
      BytesZeroIff(Steps(x, 8), n - 1);
    }
  }

  /** Feeding up to four bytes, or three units, is feeding their word at once. */
  lemma {:induction false} FoldWord(x: bv32, w: seq<unit>)
    requires |w| <= 3 || (|w| == 4 && AllBytes(w))
    ensures Fold(x, w) == Bytes(Plus(x, Word(w)), |w|)
    decreases |w|
  {
    hide ByteStep, Plus, Join, Steps;
    if w == [] {
      PlusZero(x);
    } else {
      var b, rest := w[0], w[1..];
      assert w == [b] + rest;
      assert AllBytes(w) ==> AllBytes(rest);
      FoldConcat(x, [b], rest);
      assert [b][..0] == [];
      FoldWord(ByteStep(x, b), rest);
      OneByte(x, b, Word(rest));
    }
  }

  lemma OneByte(x: bv32, b: unit, r: bv32)
    requires r < 0x0100_0000
    ensures Plus(ByteStep(x, b), r) == Steps(Plus(x, Join(b, r)), 8)
  {
    hide Plus, Join, Steps, Up;
    JoinIs(b, r);
    PlusAssoc(x, b, Up(r, 8));
    StepsLinear(Plus(x, b), Up(r, 8), 8);
    StepsShift(r, 8);
    UpZero(r);
  }

  lemma UpZero(y: bv32)
    ensures Up(y, 0) == y
  {
  }

  /** The part of a difference that lies in a window. */
  function Window(d: seq<unit>, at: nat, n: nat): (w: seq<unit>)
    ensures |w| <= n
  {
    var lo := if at <= |d| then at else |d|;
    var hi := if at + n <= |d| then at + n else |d|;
    d[lo..hi]
  }

  /** For messages that differ only inside a window of four bytes, or of three units, the checksums
      agree exactly when the window's difference is zero as a word. */
  lemma WindowIff(s: seq<unit>, t: seq<unit>, at: nat, n: nat)
    requires |s| == |t| && forall i :: 0 <= i < |s| && !(at <= i < at + n) ==> s[i] == t[i]
    requires n <= 3 || (n == 4 && AllBytes(Window(Xor(s, t), at, n)))
    ensures Crc(s) == Crc(t) <==> Word(Window(Xor(s, t), at, n)) == 0
  {
    hide Plus, UnitXor, Fold, Word;
    var d := Xor(s, t);
    var w := Window(d, at, n);
    var lo := if at <= |d| then at else |d|;
    var pre, post := d[..lo], d[lo + |w|..];
    assert d == pre + w + post;
    FoldLinear(ONES, ONES, s, t);
    PlusZero(ONES);
    FoldConcat(0, pre + w, post);
    FoldConcat(0, pre, w);
    ZerosKeepNonzero(0, pre);
    FoldWord(0, w);
    PlusZero(Word(w));
    BytesZeroIff(Word(w), |w|);
    ZerosKeepNonzero(Fold(0, w), post);
    var cs, ct := Fold(ONES, s), Fold(ONES, t);
    PlusZeroIff(cs, ct);
    PlusSwap(cs, ONES, ct, ONES);
    PlusZero(Plus(cs, ct));
    PlusZeroIff(Plus(cs, ONES), Plus(ct, ONES));
  }

  /** Main result: changing bytes only inside a window of four, anywhere in a message of any
      length, always changes the checksum. */
  lemma BurstDetected(s: seq<octet>, t: seq<octet>, at: nat)
    requires |s| == |t| && s != t
    requires forall i :: 0 <= i < |s| && !(at <= i < at + 4) ==> s[i] == t[i]
    ensures Crc(s) != Crc(t)
  {
    hide UnitXor, Crc, Word;
    var d := Xor(s, t);
    var w := Window(d, at, 4);
    var lo := if at <= |d| then at else |d|;
    forall i | 0 <= i < |w| ensures w[i] < 256 { XorOfBytes(s[lo + i], t[lo + i]); }
    assert !AllZero(w) by {
      var i :| 0 <= i < |s| && s[i] != t[i];
      assert w[i - lo] == d[i];
    }
    WindowIff(s, t, at, 4);
  }

  lemma XorOfBytes(a: octet, b: octet)
    ensures UnitXor(a, b) < 256
  {
  }

  /** Names with a wider character escape the check: one such difference reads as its neighbour's. */
  lemma WideUnitsCollide()
    ensures Crc([0x100, 0]) == Crc([0, 1])
  {
    var s: seq<unit>, t: seq<unit> := [0x100, 0], [0, 1];
    hide Crc;
    WindowIff(s, t, 0, 2);
    var w := Window(Xor(s, t), 0, 2);
    assert w == [0x100, 1];
    assert w[1..] == [1] && [1][1..] == [];
    assert Word([1]) == Join(1, 0);
    assert Word(w) == Join(0x100, Word(w[1..]));
  }
}
