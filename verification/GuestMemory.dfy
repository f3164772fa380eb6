/** Guest memory as the harness sees it: a sparse map from address to byte that reads zero
    where nothing was written, with little-endian integer access. */
module GuestMemory {

  type byte = x: int | 0 <= x < 256

  type Mem = map<int, byte>

  function Zeros(n: nat): (bs: seq<byte>)
    ensures |bs| == n && forall i :: 0 <= i < n ==> bs[i] == 0
  {
    seq<byte>(n, i => 0)
  }

  function At(m: Mem, a: int): byte { if a in m then m[a] else 0 }

  function Read(m: Mem, a: int, n: nat): (bs: seq<byte>)
    ensures |bs| == n
    ensures forall i :: 0 <= i < n ==> bs[i] == At(m, a + i)
  {
    seq<byte>(n, i => At(m, a + i))
  }

  function Write(m: Mem, a: int, bs: seq<byte>): (m': Mem)
    ensures forall x {:trigger At(m', x)} :: At(m', x) == if a <= x < a + |bs| then bs[x - a] else At(m, x)
    decreases |bs|
  {
    if bs == [] then m else Write(m[a := bs[0]], a + 1, bs[1..])
  }

  lemma ReadBack(m: Mem, a: int, bs: seq<byte>)
    ensures Read(Write(m, a, bs), a, |bs|) == bs
  {
  }

  lemma ReadAround(m: Mem, a: int, bs: seq<byte>, p: int, n: nat)
    requires p + n <= a || a + |bs| <= p
    ensures Read(Write(m, a, bs), p, n) == Read(m, p, n)
  {
  }

  lemma ReadSplit(m: Mem, a: int, n: nat, k: nat)
    requires k <= n
    ensures Read(m, a, n) == Read(m, a, k) + Read(m, a + k, n - k)
  {
  }

  lemma ReadConcat(m: Mem, a: int, xs: seq<byte>, ys: seq<byte>)
    ensures Read(m, a, |xs| + |ys|) == xs + ys <==> Read(m, a, |xs|) == xs && Read(m, a + |xs|, |ys|) == ys
  {
    var all := Read(m, a, |xs| + |ys|);
    ReadSplit(m, a, |all|, |xs|);
    if all == xs + ys {
      assert all[..|xs|] == xs && all[|xs|..] == ys;
      assert all[..|xs|] == Read(m, a, |xs|) && all[|xs|..] == Read(m, a + |xs|, |ys|);
    }
  }

  // ------------------------------------------------------------ little-endian integers

  function Pow256(n: nat): (p: nat)
    ensures p > 0
  {
    if n == 0 then 1 else 256 * Pow256(n - 1)
  }

  function Le(v: nat, n: nat): (bs: seq<byte>)
    ensures |bs| == n
  {
    if n == 0 then [] else [v % 256] + Le(v / 256, n - 1)
  }

  function Un(bs: seq<byte>): (v: nat)
    ensures v < Pow256(|bs|)
  {
    if bs == [] then 0 else bs[0] + 256 * Un(bs[1..])
  }

  /** Writing an in-range value and reading it back gives the value ... */
  lemma {:induction false} UnLe(v: nat, n: nat)
    requires v < Pow256(n)
    ensures Un(Le(v, n)) == v
  {
    if n > 0 {
      assert v / 256 < Pow256(n - 1);
      UnLe(v / 256, n - 1);
      assert Le(v, n)[1..] == Le(v / 256, n - 1);
    }
  }

  /** ... and every byte string is the encoding of the value it reads as. */
  lemma {:induction false} LeUn(bs: seq<byte>)
    ensures Le(Un(bs), |bs|) == bs
  {
    if bs != [] {
      LeUn(bs[1..]);
      assert bs == [bs[0]] + bs[1..];
    }
  }

  /** What little-endian means: the first byte is the lowest. */
  lemma {:induction false} UnTwo(bs: seq<byte>)
    requires |bs| == 2
    ensures Un(bs) == bs[0] as int + 0x100 * (bs[1] as int)
  {
    assert bs[1..][1..] == [];
    assert Un(bs[1..]) == bs[1] + 256 * Un([]);
  }

  lemma {:induction false} UnFour(bs: seq<byte>)
    requires |bs| == 4
    ensures Un(bs) == bs[0] as int + 0x100 * (bs[1] as int) + 0x1_0000 * (bs[2] as int) + 0x100_0000 * (bs[3] as int)
  {
    UnTwo(bs[2..]);
    assert bs[1..][1..] == bs[2..];
    assert Un(bs[1..]) == bs[1] + 256 * Un(bs[2..]);
  }

  lemma {:induction false} UnEight(bs: seq<byte>)
    requires |bs| == 8
    ensures Un(bs) == bs[0] as int + 0x100 * (bs[1] as int) + 0x1_0000 * (bs[2] as int) + 0x100_0000 * (bs[3] as int) +
      0x1_0000_0000 * Un(bs[4..])
    ensures Un(bs[4..]) ==
      bs[4] as int + 0x100 * (bs[5] as int) + 0x1_0000 * (bs[6] as int) + 0x100_0000 * (bs[7] as int)
  {
    UnFour(bs[4..]);
    assert bs[1..][1..] == bs[2..] && bs[2..][1..] == bs[3..] && bs[3..][1..] == bs[4..];
    assert Un(bs[1..]) == bs[1] + 256 * Un(bs[2..]);
    assert Un(bs[2..]) == bs[2] + 256 * Un(bs[3..]);
    assert Un(bs[3..]) == bs[3] + 256 * Un(bs[4..]);
  }

  const TWO16: nat := 0x1_0000
  const TWO32: nat := 0x1_0000_0000
  const TWO64: nat := 0x1_0000_0000_0000_0000

  lemma Widths()
    ensures Pow256(2) == TWO16 && Pow256(4) == TWO32 && Pow256(8) == TWO64
  {
    assert Pow256(2) == 256 * (256 * Pow256(0));
    assert Pow256(4) == 256 * (256 * Pow256(2));
    assert Pow256(6) == 256 * (256 * Pow256(4));
    assert Pow256(8) == 256 * (256 * Pow256(6));
  }

  function U16(m: Mem, a: int): nat { Un(Read(m, a, 2)) }
  function U32(m: Mem, a: int): nat { Un(Read(m, a, 4)) }
  function U64(m: Mem, a: int): nat { Un(Read(m, a, 8)) }

  function W16(m: Mem, a: int, v: int): Mem { Write(m, a, Le(v % TWO16, 2)) }
  function W32(m: Mem, a: int, v: int): Mem { Write(m, a, Le(v % TWO32, 4)) }
  function W64(m: Mem, a: int, v: int): Mem { Write(m, a, Le(v % TWO64, 8)) }

  lemma W64Reads(m: Mem, a: int, v: int)
    ensures U64(W64(m, a, v), a) == v % TWO64
  {
    Widths();
    ReadBack(m, a, Le(v % TWO64, 8));
    UnLe(v % TWO64, 8);
  }

  // ------------------------------------------------------------ tables of words

  /** Little-endian 64-bit words in a row. */
  function Words(ws: seq<int>): (bs: seq<byte>)
    ensures |bs| == 8 * |ws|
  {
    if ws == [] then [] else Le(ws[0] % TWO64, 8) + Words(ws[1..])
  }

  ghost predicate TableAt(m: Mem, p: int, ws: seq<int>) {
    Read(m, p, 8 * |ws|) == Words(ws)
  }

  lemma {:induction false} TableWord(m: Mem, p: int, ws: seq<int>, i: nat)
    requires TableAt(m, p, ws) && i < |ws|
    ensures U64(m, p + 8 * i) == ws[i] % TWO64
    decreases |ws|
  {
    hide Le, Un;
    ReadConcat(m, p, Le(ws[0] % TWO64, 8), Words(ws[1..]));
    if i == 0 {
      Widths();
      UnLe(ws[0] % TWO64, 8);
    } else {
      TableWord(m, p + 8, ws[1..], i - 1);
    }
  }

  lemma TableAppend(m: Mem, p: int, ws: seq<int>, w: int)
    requires TableAt(m, p, ws)
    ensures TableAt(W64(m, p + 8 * |ws|, w), p, ws + [w])
  {
    var q := p + 8 * |ws|;
    hide Le, Un, Words, Read, Write;
    var bs := Le(w % TWO64, 8);
    ReadBack(m, q, bs);
    ReadAround(m, q, bs, p, 8 * |ws|);
    ReadConcat(W64(m, q, w), p, Words(ws), bs);
    WordsAppend(ws, w);
  }

  lemma {:induction false} WordsAppend(ws: seq<int>, w: int)
    ensures Words(ws + [w]) == Words(ws) + Le(w % TWO64, 8)
  {
    if ws == [] {
      assert Words([w][1..]) == [];
    } else {
      assert (ws + [w])[1..] == ws[1..] + [w];
      WordsAppend(ws[1..], w);
    }
  }
}
