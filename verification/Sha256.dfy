/** sha256 of packages/triage/src/md5.mjs against section 6.2.2 of FIPS 180-4. */
module Sha256 {
  import opened Common
  import opened GuestMemory
  import opened HashPadding
  import opened Logic32

  type Block = s: seq<bv32> | |s| == 16 witness seq(16, _ => 0)
  type Vars = s: seq<bv32> | |s| == 8 witness seq(8, _ => 0)

  // ------------------------------------------------------------ constants (sections 4.2.2 and 5.3.3)

  datatype RootBits = R(prime: nat, bits: nat)

  function CubeFloor(p: nat): nat {
    if p < 8 then 1 else if p < 27 then 2 else if p < 64 then 3 else if p < 125 then 4 else if p < 216 then 5 else 6
  }

  function SquareFloor(p: nat): nat {
    if p < 4 then 1 else if p < 9 then 2 else if p < 16 then 3 else 4
  }

  /** The bits are the first 32 of the fractional part of the prime's cube root ... */
  predicate IsCubeRoot(r: RootBits) {
    var v := CubeFloor(r.prime) * TWO32 + r.bits;
    r.bits < TWO32 && v * v * v <= r.prime * TWO32 * TWO32 * TWO32 < (v + 1) * (v + 1) * (v + 1)
  }

  /** ... or of its square root. */
  predicate IsSquareRoot(r: RootBits) {
    var v := SquareFloor(r.prime) * TWO32 + r.bits;
    r.bits < TWO32 && v * v <= r.prime * TWO32 * TWO32 < (v + 1) * (v + 1)
  }

  type CubeRoot = r: RootBits | IsCubeRoot(r) witness R(2, 0x428A2F98)
  type SquareRoot = r: RootBits | IsSquareRoot(r) witness R(2, 0x6A09E667)

  const K0: seq<CubeRoot> :=
    [R(2, 0x428A2F98), R(3, 0x71374491), R(5, 0xB5C0FBCF), R(7, 0xE9B5DBA5),
     R(11, 0x3956C25B), R(13, 0x59F111F1), R(17, 0x923F82A4), R(19, 0xAB1C5ED5)]

  const K1: seq<CubeRoot> :=
    [R(23, 0xD807AA98), R(29, 0x12835B01), R(31, 0x243185BE), R(37, 0x550C7DC3),
     R(41, 0x72BE5D74), R(43, 0x80DEB1FE), R(47, 0x9BDC06A7), R(53, 0xC19BF174)]

  const K2: seq<CubeRoot> :=
    [R(59, 0xE49B69C1), R(61, 0xEFBE4786), R(67, 0x0FC19DC6), R(71, 0x240CA1CC),
     R(73, 0x2DE92C6F), R(79, 0x4A7484AA), R(83, 0x5CB0A9DC), R(89, 0x76F988DA)]

  const K3: seq<CubeRoot> :=
    [R(97, 0x983E5152), R(101, 0xA831C66D), R(103, 0xB00327C8), R(107, 0xBF597FC7),
     R(109, 0xC6E00BF3), R(113, 0xD5A79147), R(127, 0x06CA6351), R(131, 0x14292967)]

  const K4: seq<CubeRoot> :=
    [R(137, 0x27B70A85), R(139, 0x2E1B2138), R(149, 0x4D2C6DFC), R(151, 0x53380D13),
     R(157, 0x650A7354), R(163, 0x766A0ABB), R(167, 0x81C2C92E), R(173, 0x92722C85)]

  const K5: seq<CubeRoot> :=
    [R(179, 0xA2BFE8A1), R(181, 0xA81A664B), R(191, 0xC24B8B70), R(193, 0xC76C51A3),
     R(197, 0xD192E819), R(199, 0xD6990624), R(211, 0xF40E3585), R(223, 0x106AA070)]

  const K6: seq<CubeRoot> :=
    [R(227, 0x19A4C116), R(229, 0x1E376C08), R(233, 0x2748774C), R(239, 0x34B0BCB5),
     R(241, 0x391C0CB3), R(251, 0x4ED8AA4A), R(257, 0x5B9CCA4F), R(263, 0x682E6FF3)]

  const K7: seq<CubeRoot> :=
    [R(269, 0x748F82EE), R(271, 0x78A5636F), R(277, 0x84C87814), R(281, 0x8CC70208),
     R(283, 0x90BEFFFA), R(293, 0xA4506CEB), R(307, 0xBEF9A3F7), R(311, 0xC67178F2)]

  const H0: seq<SquareRoot> :=
    [R(2, 0x6A09E667), R(3, 0xBB67AE85), R(5, 0x3C6EF372), R(7, 0xA54FF53A),
     R(11, 0x510E527F), R(13, 0x9B05688C), R(17, 0x1F83D9AB), R(19, 0x5BE0CD19)]

  function K(i: nat): bv32
    requires i < 64
  {
    (K0 + K1 + K2 + K3 + K4 + K5 + K6 + K7)[i].bits as bv32
  }

  function Initial(): Vars { seq(8, i requires 0 <= i < 8 => H0[i].bits as bv32) }

  // ------------------------------------------------------------ the standard's computation

  function Plus(x: bv32, y: bv32, z: bv32, u: bv32): bv32 { Add(Add(Add(x, y), z), u) }

  /** The message schedule. */
  function W(x: Block, t: nat): bv32 {
    if t < 16 then x[t] else Plus(Sigma1(W(x, t - 2)), W(x, t - 7), Sigma0(W(x, t - 15)), W(x, t - 16))
  }

  function T1(v: Vars, k: bv32, w: bv32): bv32 { Add(Add(Add(Add(v[7], Sum1(v[4])), Ch(v[4], v[5], v[6])), k), w) }
  function T2(v: Vars): bv32 { Add(Sum0(v[0]), Maj(v[0], v[1], v[2])) }

  function Round(v: Vars, k: bv32, w: bv32): Vars {
    [Add(T1(v, k, w), T2(v)), v[0], v[1], v[2], Add(v[3], T1(v, k, w)), v[4], v[5], v[6]]
  }

  function Rounds(v: Vars, x: Block, n: nat): Vars
    requires n <= 64
  {
    if n == 0 then v else Round(Rounds(v, x, n - 1), K(n - 1), W(x, n - 1))
  }

  /** The round run backwards, read off its output ... */
  function Undo(v: Vars, k: bv32, w: bv32): Vars {
    var t1 := Sub(v[0], Add(Sum0(v[1]), Maj(v[1], v[2], v[3])));
    [v[1], v[2], v[3], Sub(v[4], t1), v[5], v[6], v[7],
     Sub(Sub(Sub(Sub(t1, w), k), Ch(v[5], v[6], v[7])), Sum1(v[5]))]
  }

  /** ... recovers the working variables ... */
  lemma RoundUndone(v: Vars, k: bv32, w: bv32)
    ensures Undo(Round(v, k, w), k, w) == v
  {
    hide Add, Sub, Sum0, Sum1, Ch, Maj;
    var s, c := Sum1(v[4]), Ch(v[4], v[5], v[6]);
    SubUndoesAdd(T1(v, k, w), T2(v));
    SubUndoesAdd(v[3], T1(v, k, w));
    SubUndoesAdd(Add(Add(Add(v[7], s), c), k), w);
    SubUndoesAdd(Add(Add(v[7], s), c), k);
    SubUndoesAdd(Add(v[7], s), c);
    SubUndoesAdd(v[7], s);
    var r := Undo(Round(v, k, w), k, w);
    assert r[0] == v[0] && r[1] == v[1] && r[2] == v[2] && r[3] == v[3];
    assert r[4] == v[4] && r[5] == v[5] && r[6] == v[6] && r[7] == v[7];
  }

  /** ... so that a block's rounds map different states to different states. */
  lemma {:induction false} RoundsInjective(u: Vars, v: Vars, x: Block, n: nat)
    requires n <= 64 && Rounds(u, x, n) == Rounds(v, x, n)
    ensures u == v
  {
    hide Round, K, W, Undo;
    if n > 0 {
      RoundUndone(Rounds(u, x, n - 1), K(n - 1), W(x, n - 1));
      RoundUndone(Rounds(v, x, n - 1), K(n - 1), W(x, n - 1));
      RoundsInjective(u, v, x, n - 1);
    }
  }

  function AddVars(u: Vars, v: Vars): Vars { seq(8, i requires 0 <= i < 8 => Add(u[i], v[i])) }

  function Words(b: seq<byte>, off: nat): (x: Block)
    requires off + 64 <= |b|
    ensures forall i: nat :: i < 16 ==> x[i] == Word(b, off + 4 * i, Big)
  {
    seq(16, i requires 0 <= i < 16 => Word(b, off + 4 * i, Big))
  }

  /** Hash value after the first n blocks. */
  function Fold(p: seq<byte>, n: nat): Vars
    requires n * 64 <= |p|
  {
    if n == 0 then Initial()
    else
      var h := Fold(p, n - 1);
      AddVars(h, Rounds(h, Words(p, (n - 1) * 64), 64))
  }

  /** The words are the block's bytes, high byte first. */
  lemma WordsRead(b: seq<byte>, off: nat, i: nat)
    requires off + 64 <= |b| && i < 16
    ensures var o := off + 4 * i;
      var value := Quad(b[o + 3], b[o + 2], b[o + 1], b[o]);
      value < TWO32 && Words(b, off)[i] == value as bv32
  {
    hide Word, Quad;
    WordIs(b, off + 4 * i);
  }

  /** Sixteen consecutive schedule words give the one in front of them. */
  lemma ScheduleBack(x: Block, t: nat)
    requires t >= 16
    ensures W(x, t - 16) == Sub(W(x, t), Add(Add(Sigma1(W(x, t - 2)), W(x, t - 7)), Sigma0(W(x, t - 15))))
  {
    hide Sigma0, Sigma1, Add, Sub;
    SubUndoesAdd(Add(Add(Sigma1(W(x, t - 2)), W(x, t - 7)), Sigma0(W(x, t - 15))), W(x, t - 16));
  }

  /** What a block adds to the hash value is its rounds' result, word by word. */
  lemma BlockAdds(p: seq<byte>, n: nat, i: nat)
    requires 0 < n && n * 64 <= |p| && i < 8
    ensures Sub(Fold(p, n)[i], Fold(p, n - 1)[i]) == Rounds(Fold(p, n - 1), Words(p, (n - 1) * 64), 64)[i]
  {
    hide Words, Rounds, Add, Sub;
    SubUndoesAdd(Fold(p, n - 1)[i], Rounds(Fold(p, n - 1), Words(p, (n - 1) * 64), 64)[i]);
  }

  // ------------------------------------------------------------ the code's loops

  /** Fills the schedule in place: the block's words, then the recurrence. */
  method Expand(b: array<byte>, off: nat, w: array<bv32>)
    requires off + 64 <= b.Length && w.Length == 64 && b as object != w
    modifies w
    ensures forall t :: 0 <= t < 64 ==> w[t] == W(Words(b[..], off), t)
  {
    hide Word, Sigma0, Sigma1, Plus, W;
    ghost var bs := b[..];
    ghost var x := Words(bs, off);
    for i := 0 to 16
      invariant b[..] == bs
      invariant forall t :: 0 <= t < i ==> w[t] == W(x, t)
    {
      WordOfBlock(x, i);
      w[i] := Word(b[..], off + 4 * i, Big);
    }
    for i := 16 to 64
      invariant b[..] == bs
      invariant forall t :: 0 <= t < i ==> w[t] == W(x, t)
    {
      var s0, s1 := Sigma0(w[i - 15]), Sigma1(w[i - 2]);
      NextWord(x, i);
      w[i] := Plus(w[i - 16], s0, w[i - 7], s1);
    }
  }

  lemma WordOfBlock(x: Block, t: nat)
    requires t < 16
    ensures W(x, t) == x[t]
  {
  }

  lemma NextWord(x: Block, t: nat)
    requires t >= 16
    ensures W(x, t) == Plus(W(x, t - 16), Sigma0(W(x, t - 15)), W(x, t - 7), Sigma1(W(x, t - 2)))
  {
    hide Add, Sigma0, Sigma1;
    Reversed(W(x, t - 16), Sigma0(W(x, t - 15)), W(x, t - 7), Sigma1(W(x, t - 2)));
  }

  /** The 64 rounds, one assignment after the other on the eight working variables. */
  method Compress(v: Vars, ghost x: Block, w: array<bv32>) returns (r: Vars)
    requires w.Length == 64 && forall t :: 0 <= t < 64 ==> w[t] == W(x, t)
    ensures r == Rounds(v, x, 64)
  {
    hide K, W, Sum0, Sum1, Ch, Maj, Add;
    var a, b, c, d, e, f, g, h := v[0], v[1], v[2], v[3], v[4], v[5], v[6], v[7];
    for i := 0 to 64
      invariant [a, b, c, d, e, f, g, h] == Rounds(v, x, i)
    {
      var t1 := Add(Add(Add(Add(h, Sum1(e)), Ch(e, f, g)), K(i)), w[i]);
      var t2 := Add(Sum0(a), Maj(a, b, c));
      h := g;
      g := f;
      f := e;
      e := Add(d, t1);
      d := c;
      c := b;
      b := a;
      a := Add(t1, t2);
    }
    r := [a, b, c, d, e, f, g, h];
  }

  /** The digest of every message below the size limit is the standard's fold over its padded blocks,
      printed high byte first. */
  method Sha256(msg: seq<byte>) returns (r: Option<string>, ghost p: seq<byte>)
    ensures r.Some? <==> |msg| < LIMIT
    ensures r.Some? ==> IsPadded(p, msg, Big) && r.value == Hex(WordBytes(Fold(p, |p| / 64), Big))
  {
    hide Rounds, Words, Encode, W, Initial, AddVars, Hex, WordBytes;
    p := [];
    var padded := Pad(msg, Big);
    if padded.None? { return None, p; }
    var b := padded.value;
    p := b[..];
    assert |p| % 64 == 0;
    var state := Initial();
    var w := new bv32[64](_ => 0);
    var off := 0;
    while off < b.Length
      invariant b[..] == p
      invariant 0 <= off <= b.Length && off % 64 == 0 && state == Fold(p, off / 64)
    {
      Expand(b, off, w);
      var s := Compress(state, Words(p, off), w);
      state := AddVars(state, s);
      off := off + 64;
    }
    var digest := PrintWords(state, Big);
    r := Some(digest);
  }
}
