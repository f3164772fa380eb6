/** The padding and word access that md5 and sha256 of packages/triage/src/md5.mjs share (section 3.1 and
    3.2 of RFC 1321, section 5.1.1 of FIPS 180-4).  The two differ only in byte order. */
module HashPadding {
  import opened Common
  import opened GuestMemory

  datatype Order = Little | Big

  const TWO31: nat := 0x8000_0000

  /** Messages this long or longer overflow the 32-bit shift that sizes the buffer. */
  const LIMIT: nat := TWO31 - 72

  const BLOCK: nat := 64

  // ------------------------------------------------------------ size of the padded message

  function ToInt32(x: int): int { (x + TWO31) % TWO32 - TWO31 }

  /** (((n + 8) >> 6) + 1) << 6 on 32-bit operands. */
  function PadSize(n: nat): int { ToInt32((ToInt32(n + 8) / 64 + 1) * 64) }

  /** Either the next multiple of 64 with room for the marker and the length, or too small to
      hold the message at all. */
  lemma PadSizeExact(n: nat)
    ensures n < LIMIT ==> PadSize(n) == (n + 8) / 64 * 64 + 64
    ensures n >= LIMIT ==> PadSize(n) < n
  {
    var k := ToInt32(n + 8);
    assert k <= n + 8 && 0 <= k + TWO31 < TWO32;
    var s := (k / 64 + 1) * 64;
    assert k < s <= k + 64;
    if n >= LIMIT && k == n + 8 {
      assert s == TWO31;
    }
  }

  // ------------------------------------------------------------ bytes and words

  function Reverse(s: seq<byte>): (r: seq<byte>)
    ensures |r| == |s| && forall i :: 0 <= i < |s| ==> r[i] == s[|s| - 1 - i]
  {
    seq(|s|, i requires 0 <= i < |s| => s[|s| - 1 - i])
  }

  lemma ReverseTwice(s: seq<byte>)
    ensures Reverse(Reverse(s)) == s
  {
  }

  lemma ReverseConcat(s: seq<byte>, t: seq<byte>)
    ensures Reverse(s + t) == Reverse(t) + Reverse(s)
  {
  }

  function Ordered(bs: seq<byte>, order: Order): (r: seq<byte>)
    ensures |r| == |bs|
  {
    if order == Little then bs else Reverse(bs)
  }

  /** The integer in bytes of the given order. */
  function Encode(v: nat, width: nat, order: Order): (bs: seq<byte>)
    ensures |bs| == width
  {
    Ordered(Le(v, width), order)
  }

  function Decode(bs: seq<byte>, order: Order): (v: nat)
    ensures v < Pow256(|bs|)
  {
    Un(Ordered(bs, order))
  }

  lemma Decoded(v: nat, width: nat, order: Order)
    requires v < Pow256(width)
    ensures Decode(Encode(v, width, order), order) == v
  {
    UnLe(v, width);
    ReverseTwice(Le(v, width));
  }

  lemma Scale(b: int, x: int, p: int, u: int)
    ensures b + 256 * (x + p * u) == (b + 256 * x) + (256 * p) * u
  {
    assert 256 * (p * u) == (256 * p) * u;
  }

  lemma {:induction false} UnConcat(s: seq<byte>, t: seq<byte>)
    ensures Un(s + t) == Un(s) + Pow256(|s|) * Un(t)
  {
    if s == [] {
      assert s + t == t;
    } else {
      assert (s + t)[0] == s[0] && (s + t)[1..] == s[1..] + t;
      UnConcat(s[1..], t);
      Scale(s[0], Un(s[1..]), Pow256(|s| - 1), Un(t));
    }
  }

  /** A 64-bit integer is its two 32-bit halves. */
  lemma Halves(v: nat)
    requires v < TWO64
    ensures Le(v, 8) == Le(v % TWO32, 4) + Le(v / TWO32, 4)
  {
    Widths();
    hide Le, Un, Pow256;
    var lo, hi := Le(v % TWO32, 4), Le(v / TWO32, 4);
    UnLe(v % TWO32, 4);
    UnLe(v / TWO32, 4);
    UnConcat(lo, hi);
    LeUn(lo + hi);
  }

  /** DataView.getUint32. */
  function Word(b: seq<byte>, o: nat, order: Order): bv32
    requires o + 4 <= |b|
  {
    Widths();
    Decode(b[o..o + 4], order) as bv32
  }

  function Quad(b0: byte, b1: byte, b2: byte, b3: byte): nat { b0 + 0x100 * b1 + 0x1_0000 * b2 + 0x100_0000 * b3 }

  /** Its value, byte by byte. */
  lemma WordIs(b: seq<byte>, o: nat)
    requires o + 4 <= |b|
    ensures Quad(b[o], b[o + 1], b[o + 2], b[o + 3]) < TWO32 && Quad(b[o + 3], b[o + 2], b[o + 1], b[o]) < TWO32
    ensures Word(b, o, Little) == Quad(b[o], b[o + 1], b[o + 2], b[o + 3]) as bv32
    ensures Word(b, o, Big) == Quad(b[o + 3], b[o + 2], b[o + 1], b[o]) as bv32
  {
    hide Decode, Quad;
    Widths();
    DecodedFour(b[o..o + 4]);
  }

  lemma DecodedFour(bs: seq<byte>)
    requires |bs| == 4
    ensures Decode(bs, Little) == Quad(bs[0], bs[1], bs[2], bs[3])
    ensures Decode(bs, Big) == Quad(bs[3], bs[2], bs[1], bs[0])
  {
    hide Un;
    UnFour(bs);
    UnFour(Reverse(bs));
  }

  // ------------------------------------------------------------ the padded message

  /** Message, 0x80, the fewest zeros that fill a block, and the message's length in bits. */
  ghost predicate IsPadded(p: seq<byte>, msg: seq<byte>, order: Order) {
    var n := |msg|;
    && n + 9 <= |p| < n + 9 + BLOCK && |p| % BLOCK == 0
    && p[..n] == msg && p[n] == 0x80
    && (forall i :: n < i < |p| - 8 ==> p[i] == 0)
    && p[|p| - 8..] == Encode(8 * n % TWO64, 8, order)
  }

  /** The conditions leave no choice ... */
  lemma PaddingUnique(p: seq<byte>, q: seq<byte>, msg: seq<byte>, order: Order)
    requires IsPadded(p, msg, order) && IsPadded(q, msg, order)
    ensures p == q
  {
    hide Encode;
    assert |p| / BLOCK == |q| / BLOCK;
    var n := |msg|;
    forall i | 0 <= i < |p| ensures p[i] == q[i] {
      if i < n { assert p[..n][i] == q[..n][i]; }
      if i >= |p| - 8 { assert p[|p| - 8..][i - (|p| - 8)] == q[|p| - 8..][i - (|p| - 8)]; }
    }
  }

  /** ... and the message can be recovered: no two messages the code accepts pad to the same bytes. */
  lemma PaddingInjective(p: seq<byte>, m: seq<byte>, m': seq<byte>, order: Order)
    requires IsPadded(p, m, order) && IsPadded(p, m', order)
    requires |m| < LIMIT && |m'| < LIMIT
    ensures m == m'
  {
    hide Encode, Decode;
    Widths();
    Decoded(8 * |m|, 8, order);
    Decoded(8 * |m'|, 8, order);
  }

  method PutWord(b: array<byte>, o: nat, v: nat, order: Order)
    requires o + 4 <= b.Length
    modifies b
    ensures b[o..o + 4] == Encode(v, 4, order)
    ensures forall i :: 0 <= i < b.Length && !(o <= i < o + 4) ==> b[i] == old(b[i])
  {
    var bs := Encode(v, 4, order);
    b[o], b[o + 1], b[o + 2], b[o + 3] := bs[0], bs[1], bs[2], bs[3];
  }

  lemma LengthField(n: nat, order: Order)
    requires n < LIMIT
    ensures var lo, hi := 8 * n % TWO32, 8 * n / TWO32;
      Encode(8 * n % TWO64, 8, order) ==
      if order == Little then Encode(lo, 4, order) + Encode(hi, 4, order)
      else Encode(hi, 4, order) + Encode(lo, 4, order)
  {
    hide Le;
    Halves(8 * n);
    ReverseConcat(Le(8 * n % TWO32, 4), Le(8 * n / TWO32, 4));
  }

  /** The length in bits, as two words. */
  method PutLength(b: array<byte>, n: nat, order: Order)
    requires 8 <= b.Length && n < LIMIT
    modifies b
    ensures b[b.Length - 8..] == Encode(8 * n % TWO64, 8, order)
    ensures b[..b.Length - 8] == old(b[..b.Length - 8])
  {
    hide Encode;
    var at, lo, hi := b.Length - 8, 8 * n % TWO32, 8 * n / TWO32;
    var first, second := if order == Little then lo else hi, if order == Little then hi else lo;
    PutWord(b, at, first, order);
    ghost var s := b[at..at + 4];
    PutWord(b, at + 4, second, order);
    assert b[at..at + 4] == s;
    LengthField(n, order);
    assert b[at..] == b[at..at + 4] + b[at + 4..at + 8];
  }

  /** A zeroed buffer with the message in front. */
  method NewBuffer(size: nat, msg: seq<byte>) returns (b: array<byte>)
    requires |msg| <= size
    ensures fresh(b) && b.Length == size && b[..|msg|] == msg
    ensures forall i :: |msg| <= i < size ==> b[i] == 0
  {
    b := new byte[size](_ => 0);
    for i := 0 to |msg|
      invariant forall j :: 0 <= j < size ==> b[j] == if j < i then msg[j] else 0
    {
      b[i] := msg[i];
    }
  }

  /** None is the RangeError of sizing or filling the buffer. */
  method Pad(msg: seq<byte>, order: Order) returns (r: Option<array<byte>>)
    ensures r.Some? <==> |msg| < 0x7FFF_FFB8
    ensures r.Some? ==> fresh(r.value) && IsPadded(r.value[..], msg, order)
  {
    hide Encode, PadSize;
    var n := |msg|;
    var size := PadSize(n);
    PadSizeExact(n);
    if size < n { return None; }
    var b := NewBuffer(size, msg);
    b[n] := 0x80;
    assert b[..n] == msg;
    ghost var front := b[..size - 8];
    PutLength(b, n, order);
    assert b[..size - 8] == front;
    assert forall i {:trigger b[i]} :: 0 <= i < size - 8 ==> b[i] == b[..size - 8][i];
    assert b[..n] == front[..n];
    r := Some(b);
  }

  // ------------------------------------------------------------ the printed digest

  function Digit(v: nat): (c: char)
    requires v < 16
    ensures Value(c) == Some(v) && c == "0123456789abcdef"[v]
  {
    if v < 10 then '0' + v as char else 'a' + (v - 10) as char
  }

  function Value(c: char): Option<nat> {
    if '0' <= c <= '9' then Some((c - '0') as nat)
    else if 'a' <= c <= 'f' then Some((c - 'a') as nat + 10)
    else None
  }

  /** Two lower-case digits a byte. */
  function Hex(bs: seq<byte>): (s: string)
    ensures |s| == 2 * |bs|
  {
    if bs == [] then "" else Hex(bs[..|bs| - 1]) + [Digit(bs[|bs| - 1] / 16), Digit(bs[|bs| - 1] % 16)]
  }

  /** High digit first, byte after byte. */
  lemma {:induction false} HexDigits(bs: seq<byte>, i: nat)
    requires i < |bs|
    ensures Hex(bs)[2 * i] == "0123456789abcdef"[bs[i] / 16] && Hex(bs)[2 * i + 1] == "0123456789abcdef"[bs[i] % 16]
  {
    if i < |bs| - 1 {
      HexDigits(bs[..|bs| - 1], i);
    }
  }

  lemma HexInjective(s: seq<byte>, t: seq<byte>)
    requires Hex(s) == Hex(t)
    ensures s == t
  {
    hide Hex;
    forall i: nat | i < |s| ensures s[i] == t[i] {
      HexDigits(s, i);
      HexDigits(t, i);
      SameDigits(s[i], t[i]);
    }
  }

  lemma SameDigits(x: byte, y: byte)
    requires Digit(x / 16) == Digit(y / 16) && Digit(x % 16) == Digit(y % 16)
    ensures x == y
  {
    assert Value(Digit(x / 16)) == Some(x / 16) && Value(Digit(y / 16)) == Some(y / 16);
    assert Value(Digit(x % 16)) == Some(x % 16) && Value(Digit(y % 16)) == Some(y % 16);
  }

  /** The words' bytes in the hash's order. */
  function WordBytes(ws: seq<bv32>, order: Order): (bs: seq<byte>)
    ensures |bs| == 4 * |ws|
  {
    if ws == [] then [] else WordBytes(ws[..|ws| - 1], order) + Encode(ws[|ws| - 1] as nat, 4, order)
  }

  lemma OneMoreWord(ws: seq<bv32>, w: bv32, order: Order)
    ensures WordBytes(ws + [w], order) == WordBytes(ws, order) + Encode(w as nat, 4, order)
  {
    hide Encode;
    assert (ws + [w])[..|ws|] == ws;
  }

  lemma Nothing(order: Order)
    ensures WordBytes([], order) == [] && Hex([]) == ""
  {
  }

  lemma OneMoreByte(bs: seq<byte>, b: byte)
    ensures Hex(bs + [b]) == Hex(bs) + [Digit(b / 16), Digit(b % 16)]
  {
    hide Digit;
    assert (bs + [b])[..|bs|] == bs;
  }

  method PrintWords(ws: seq<bv32>, order: Order) returns (s: string)
    ensures s == Hex(WordBytes(ws, order))
  {
    hide Encode, WordBytes, Hex, Digit;
    var out: seq<byte> := [];
    Nothing(order);
    for i := 0 to |ws|
      invariant out == WordBytes(ws[..i], order)
    {
      OneMoreWord(ws[..i], ws[i], order);
      assert ws[..i + 1] == ws[..i] + [ws[i]];
      out := out + Encode(ws[i] as nat, 4, order);
    }
    assert ws[..|ws|] == ws;
    s := "";
    for i := 0 to |out|
      invariant s == Hex(out[..i])
    {
      OneMoreByte(out[..i], out[i]);
      assert out[..i + 1] == out[..i] + [out[i]];
      s := s + [Digit(out[i] / 16), Digit(out[i] % 16)];
    }
    assert out[..|out|] == out;
  }
}
