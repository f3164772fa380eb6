/** The random generator and the mutation strategies of packages/ntsim-analyzer/src/fuzz.mjs. */
module Mutators {
  import opened Common
  import opened GuestMemory
  import opened Bits
  import opened FuzzCorpus

  // ------------------------------------------------------------ random numbers

  function Xorshift(x: bv32): bv32 {
    var a := x ^ (x << 13);
    var b := a ^ (a >> 17);
    b ^ (b << 5)
  }

  /** The generator is stuck exactly when it starts at zero: no other state leads there. */
  lemma XorshiftZeroIff(x: bv32)
    ensures Xorshift(x) == 0 <==> x == 0
  {
  }

  // ------------------------------------------------------------ single edits

  /** Two states and what follows them; the steps are linear, so these fix all three shifts. */
  lemma XorshiftExamples()
    ensures Xorshift(1) == 0x42021 && Xorshift(0x8000_0000) == 0x8008_4000
  {
  }

  const INTERESTING8: seq<byte> := [0x00, 0xFF, 0x7F, 0x80, 0x01, 0xFE, 0x55, 0xAA]
  const INTERESTING16: seq<nat> := [0x0000, 0xFFFF, 0x7FFF, 0x8000, 0x00FF, 0xFF00, 0x0100]
  const INTERESTING32: seq<nat> :=
    [0x00000000, 0xFFFFFFFF, 0x7FFFFFFF, 0x80000000, 0x00000001, 0xFFFFFFFE, 0x0000FFFF, 0xFFFF0000, 0x7FFFFF00,
     0x80000001]
  const LENGTHS: seq<nat> := [1, 4, 8, 16, 32, 64, 128]

  const LONGEST: nat := 256

  /** x ^ (1 << b). */
  function FlipBit(x: nat, b: nat): nat {
    if b == 0 then (if x % 2 == 0 then x + 1 else x - 1) else 2 * FlipBit(x / 2, b - 1) + x % 2
  }

  lemma {:induction false} FlipBitFlips(x: nat, b: nat, i: nat)
    ensures Bit(FlipBit(x, b), i) <==> (Bit(x, i) != (i == b))
    decreases b
  {
    if b > 0 && i > 0 {
      assert FlipBit(x, b) / 2 == FlipBit(x / 2, b - 1);
      FlipBitFlips(x / 2, b - 1, i - 1);
    } else if i > 0 {
      assert FlipBit(x, 0) / 2 == x / 2;
    }
  }

  lemma {:induction false} FlipBitBound(x: nat, b: nat, n: nat)
    requires x < Shl(1, n) && b < n
    ensures FlipBit(x, b) < Shl(1, n)
    decreases n
  {
    if b > 0 { FlipBitBound(x / 2, b - 1, n - 1); }
  }

  function FlippedByte(x: byte, b: nat): (y: byte)
    requires b < 8
    ensures forall i: nat :: Bit(y, i) <==> (Bit(x, i) != (i == b))
  {
    assert Shl(1, 8) == 256;
    FlipBitBound(x, b, 8);
    assert forall i: nat :: Bit(FlipBit(x, b), i) <==> (Bit(x, i) != (i == b)) by {
      forall i: nat ensures Bit(FlipBit(x, b), i) <==> (Bit(x, i) != (i == b)) { FlipBitFlips(x, b, i); }
    }
    FlipBit(x, b)
  }

  /** Bytes from an offset on replaced. */
  ghost predicate Stored(buf: Input, out: Input, at: nat, bs: seq<byte>) {
    at + |bs| <= |buf| == |out| && forall i :: 0 <= i < |buf| ==>
      out[i] == if at <= i < at + |bs| then bs[i - at] else buf[i]
  }

  ghost predicate OneBitFlipped(buf: Input, out: Input) {
    if buf == [] then out == []
    else exists i: nat, b: nat :: i < |buf| && b < 8 && out == buf[i := FlippedByte(buf[i], b)]
  }

  ghost predicate OneByteStored(buf: Input, out: Input, values: seq<byte>) {
    if buf == [] then out == [] else exists i: nat, v: byte :: v in values && Stored(buf, out, i, [v])
  }

  ghost predicate AnyByteStored(buf: Input, out: Input) {
    if buf == [] then out == [] else exists i: nat, v: byte :: Stored(buf, out, i, [v])
  }

  ghost predicate WordStored(buf: Input, out: Input, width: nat, values: seq<nat>) {
    exists i: nat, v: nat :: v in values && Stored(buf, out, i, Le(v, width))
  }

  /** A prefix of one input, then a suffix of the other, then zeros. */
  ghost predicate Spliced(buf: Input, other: Input, out: Input, cutA: nat, cutB: nat) {
    && cutA < |buf| == |out| && cutB < |other|
    && forall i :: 0 <= i < |buf| ==>
         out[i] == if i < cutA then buf[i] else if cutB + i - cutA < |other| then other[cutB + i - cutA] else 0
  }

  ghost predicate SplicedWith(buf: Input, other: Input, out: Input) {
    if other == [] || buf == [] then out == buf else exists cutA: nat, cutB: nat :: Spliced(buf, other, out, cutA, cutB)
  }

  function Clamped(n: int): int { Max(1, Min(LONGEST, n)) }

  predicate ShiftedLength(n: nat, delta: int, len: nat) { -8 <= delta < 8 && len == Clamped(n + delta) }

  /** Eight shorter to seven longer, within 1 to 256, or one of the listed lengths; the common prefix stays. */
  ghost predicate Resized(buf: Input, out: Input) {
    && ((exists delta :: ShiftedLength(|buf|, delta, |out|)) || |out| in LENGTHS)
    && forall i :: 0 <= i < Min(|buf|, |out|) ==> out[i] == buf[i]
  }

  ghost predicate ByteFlipped(buf: Input, out: Input) {
    if buf == [] then out == [] else exists i: nat :: i < |buf| && out == buf[i := 255 - buf[i]]
  }

  /** A listed value of the given width, or a listed byte in an input too short for it. */
  ghost predicate InterestingStored(buf: Input, out: Input, width: nat, values: seq<nat>) {
    if |buf| < width then OneByteStored(buf, out, INTERESTING8) else WordStored(buf, out, width, values)
  }

  ghost predicate SplicedFrom(buf: Input, corpus: seq<Entry>, out: Input) {
    if corpus == [] then OneBitFlipped(buf, out) else exists e :: e in corpus && SplicedWith(buf, e.buf, out)
  }

  /** One strategy applied once. */
  ghost predicate SingleEdit(buf: Input, corpus: seq<Entry>, out: Input) {
    || OneBitFlipped(buf, out) || ByteFlipped(buf, out) || OneByteStored(buf, out, INTERESTING8)
    || InterestingStored(buf, out, 2, INTERESTING16) || InterestingStored(buf, out, 4, INTERESTING32)
    || AnyByteStored(buf, out) || SplicedFrom(buf, corpus, out) || Resized(buf, out)
  }

  /** Stages of a stack of edits, from the input to the result. */
  ghost predicate EditChain(corpus: seq<Entry>, stages: seq<Input>) {
    stages != [] && forall i :: 0 <= i < |stages| - 1 ==> SingleEdit(stages[i], corpus, stages[i + 1])
  }

  ghost predicate Stacked(buf: Input, corpus: seq<Entry>, out: Input) {
    exists stages :: EditChain(corpus, stages) && 2 <= |stages| <= 5 && stages[0] == buf && stages[|stages| - 1] == out
  }

  /** What every strategy keeps: the length, or else a length between 1 and 256. */
  ghost predicate LengthOk(buf: Input, out: Input) {
    |out| == |buf| || 1 <= |out| <= LONGEST
  }

  lemma EditLength(buf: Input, corpus: seq<Entry>, out: Input)
    requires SingleEdit(buf, corpus, out)
    ensures LengthOk(buf, out)
  {
  }

  lemma {:induction false} ChainLength(corpus: seq<Entry>, stages: seq<Input>)
    requires EditChain(corpus, stages)
    ensures LengthOk(stages[0], stages[|stages| - 1])
    decreases |stages|
  {
    hide SingleEdit;
    var n := |stages| - 1;
    if n > 0 {
      ChainLength(corpus, stages[..n]);
      EditLength(stages[n - 1], corpus, stages[n - 1 + 1]);
    }
  }

  /** However edits are stacked, the length stays or ends between 1 and 256. */
  lemma MutantLength(buf: Input, corpus: seq<Entry>, out: Input)
    requires SingleEdit(buf, corpus, out) || Stacked(buf, corpus, out)
    ensures LengthOk(buf, out)
  {
    hide SingleEdit;
    if SingleEdit(buf, corpus, out) {
      EditLength(buf, corpus, out);
    } else {
      var stages :| EditChain(corpus, stages) && stages[0] == buf && stages[|stages| - 1] == out;
      ChainLength(corpus, stages);
    }
  }

  class Generator {
    var state: bv32

    constructor (seed: bv32)
      ensures state == seed
    {
      state := seed;
    }

    method Next() returns (v: nat)
      modifies this
      ensures state == Xorshift(old(state)) && v == state as nat
    {
      state := Xorshift(state);
      v := state as nat;
    }

    method RandInt(max: int) returns (v: nat)
      modifies this
      ensures if max <= 0 then v == 0 && state == old(state)
              else v == (Xorshift(old(state)) as nat) % max < max && state == Xorshift(old(state))
    {
      if max <= 0 { return 0; }
      v := Next();
      v := v % max;
    }

    method BitFlip(buf: Input) returns (out: Input)
      modifies this
      ensures OneBitFlipped(buf, out)
    {
      if buf == [] { return buf; }
      var i := RandInt(|buf|);
      var b := RandInt(8);
      out := buf[i := FlippedByte(buf[i], b)];
    }

    method ByteFlip(buf: Input) returns (out: Input)
      modifies this
      ensures ByteFlipped(buf, out)
    {
      if buf == [] { return buf; }
      var i := RandInt(|buf|);
      out := buf[i := 255 - buf[i]];
    }

    method Interesting8(buf: Input) returns (out: Input)
      modifies this
      ensures OneByteStored(buf, out, INTERESTING8)
    {
      if buf == [] { return buf; }
      var i := RandInt(|buf|);
      var k := RandInt(|INTERESTING8|);
      out := buf[i := INTERESTING8[k]];
      assert Stored(buf, out, i, [INTERESTING8[k]]);
    }

    method Interesting16(buf: Input) returns (out: Input)
      modifies this
      ensures InterestingStored(buf, out, 2, INTERESTING16)
    {
      if |buf| < 2 { out := Interesting8(buf); return; }
      var i := RandInt(|buf| - 1);
      var k := RandInt(|INTERESTING16|);
      out := Store(buf, i, 2, INTERESTING16[k]);
    }

    method Interesting32(buf: Input) returns (out: Input)
      modifies this
      ensures InterestingStored(buf, out, 4, INTERESTING32)
    {
      if |buf| < 4 { out := Interesting8(buf); return; }
      var i := RandInt(|buf| - 3);
      var k := RandInt(|INTERESTING32|);
      out := Store(buf, i, 4, INTERESTING32[k]);
    }

    method RandomByte(buf: Input) returns (out: Input)
      modifies this
      ensures AnyByteStored(buf, out)
    {
      if buf == [] { return buf; }
      var i := RandInt(|buf|);
      var v := RandInt(256);
      out := buf[i := v];
      assert Stored(buf, out, i, [v]);
    }

    /** The tail behind the spliced suffix is zeroed, not filled with the input's own bytes. */
    method Splice(buf: Input, corpus: seq<Entry>) returns (out: Input)
      modifies this
      ensures SplicedFrom(buf, corpus, out)
    {
      if corpus == [] { out := BitFlip(buf); return; }
      var k := RandInt(|corpus|);
      var other := corpus[k].buf;
      assert corpus[k] in corpus;
      if other == [] || buf == [] {
        assert SplicedWith(buf, other, buf);
        return buf;
      }
      var cutA := RandInt(|buf|);
      var cutB := RandInt(|other|);
      var size := Max(|buf|, |other|);
      var suffixLen := Min(|other| - cutB, size - cutA);
      var joined := buf[..cutA] + other[cutB..cutB + suffixLen] + Zeros(size - cutA - suffixLen);
      out := joined[..|buf|];
      SpliceIs(buf, other, cutA, cutB);
      assert SplicedWith(buf, other, out);
    }

    method Resize(buf: Input) returns (out: Input)
      modifies this
      ensures Resized(buf, out)
    {
      var r := RandInt(16);
      var delta := r as int - 8;
      var newLen := Clamped(|buf| + delta);
      assert ShiftedLength(|buf|, delta, newLen);
      var snap := RandInt(8);
      if snap == 0 {
        var k := RandInt(|LENGTHS|);
        newLen := LENGTHS[k];
      }
      var copyLen := Min(|buf|, newLen);
      out := buf[..copyLen];
      while |out| < newLen
        invariant copyLen <= |out| <= newLen && out[..copyLen] == buf[..copyLen]
      {
        var v := RandInt(256);
        out := out + [v];
      }
      assert forall i :: 0 <= i < copyLen ==> out[i] == out[..copyLen][i];
    }

    /** One edit of a stack. */
    method Edit(buf: Input, corpus: seq<Entry>) returns (out: Input)
      modifies this
      ensures SingleEdit(buf, corpus, out)
      ensures match (Xorshift(old(state)) as nat) % 8
        case 0 => OneBitFlipped(buf, out)
        case 1 => ByteFlipped(buf, out)
        case 2 => OneByteStored(buf, out, INTERESTING8)
        case 3 => InterestingStored(buf, out, 2, INTERESTING16)
        case 4 => InterestingStored(buf, out, 4, INTERESTING32)
        case 5 => SplicedFrom(buf, corpus, out)
        case 6 => Resized(buf, out)
        case _ => AnyByteStored(buf, out)
    {
      hide Xorshift, OneBitFlipped, ByteFlipped, OneByteStored, InterestingStored, AnyByteStored, SplicedFrom, Resized;
      var pick := RandInt(8);
      match pick
      case 0 => out := BitFlip(buf);
      case 1 => out := ByteFlip(buf);
      case 2 => out := Interesting8(buf);
      case 3 => out := Interesting16(buf);
      case 4 => out := Interesting32(buf);
      case 5 => out := Splice(buf, corpus);
      case 6 => out := Resize(buf);
      case _ => out := RandomByte(buf);
    }

    /** One to four edits, one on top of the other. */
    method Havoc(buf: Input, corpus: seq<Entry>) returns (out: Input)
      modifies this
      ensures Stacked(buf, corpus, out)
    {
      hide SingleEdit;
      out := buf;
      var stacks := RandInt(4);
      stacks := 1 + stacks;
      ghost var stages := [buf];
      for i := 0 to stacks
        invariant EditChain(corpus, stages) && |stages| == i + 1 && stages[0] == buf && stages[i] == out
      {
        out := Edit(out, corpus);
        stages := stages + [out];
      }
    }

    method MutateSingle(buf: Input, corpus: seq<Entry>) returns (out: Input)
      modifies this
      ensures SingleEdit(buf, corpus, out) || Stacked(buf, corpus, out)
      ensures var r := (Xorshift(old(state)) as nat) % 100;
        if r < 10 then OneBitFlipped(buf, out)
        else if r < 18 then ByteFlipped(buf, out)
        else if r < 28 then OneByteStored(buf, out, INTERESTING8)
        else if r < 36 then InterestingStored(buf, out, 2, INTERESTING16)
        else if r < 44 then InterestingStored(buf, out, 4, INTERESTING32)
        else if r < 56 then AnyByteStored(buf, out)
        else if r < 70 then SplicedFrom(buf, corpus, out)
        else if r < 80 then Resized(buf, out)
        else Stacked(buf, corpus, out)
    {
      hide Xorshift, OneBitFlipped, ByteFlipped, OneByteStored, InterestingStored, AnyByteStored, SplicedFrom;
      hide Resized, Stacked;
      var r := RandInt(100);
      if r < 10 { out := BitFlip(buf); }
      else if r < 18 { out := ByteFlip(buf); }
      else if r < 28 { out := Interesting8(buf); }
      else if r < 36 { out := Interesting16(buf); }
      else if r < 44 { out := Interesting32(buf); }
      else if r < 56 { out := RandomByte(buf); }
      else if r < 70 { out := Splice(buf, corpus); }
      else if r < 80 { out := Resize(buf); }
      else { out := Havoc(buf, corpus); }
    }
  }

  lemma SpliceIs(buf: Input, other: Input, cutA: nat, cutB: nat)
    requires cutA < |buf| && cutB < |other|
    ensures var size := Max(|buf|, |other|);
      var suffixLen := Min(|other| - cutB, size - cutA);
      var joined := buf[..cutA] + other[cutB..cutB + suffixLen] + Zeros(size - cutA - suffixLen);
      |buf| <= |joined| && Spliced(buf, other, joined[..|buf|], cutA, cutB)
  {
    var size := Max(|buf|, |other|);
    var suffixLen := Min(|other| - cutB, size - cutA);
    var a, b, c := buf[..cutA], other[cutB..cutB + suffixLen], Zeros(size - cutA - suffixLen);
    forall i | 0 <= i < |buf|
      ensures (a + b + c)[i] ==
        if i < cutA then buf[i] else if cutB + i - cutA < |other| then other[cutB + i - cutA] else 0
    {
      if cutA <= i < cutA + suffixLen { assert (a + b + c)[i] == b[i - cutA]; }
    }
  }

  /** A little-endian word stored into a copy, byte by byte. */
  method Store(buf: Input, at: nat, width: nat, v: nat) returns (out: Input)
    requires at + width <= |buf|
    ensures Stored(buf, out, at, Le(v, width))
  {
    var bs := Le(v, width);
    out := buf;
    for j := 0 to width
      invariant |out| == |buf|
      invariant forall i :: 0 <= i < |buf| ==> out[i] == if at <= i < at + j then bs[i - at] else buf[i]
    {
      out := out[at + j := bs[j]];
    }
  }
}
