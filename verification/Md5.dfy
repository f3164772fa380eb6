/** md5 of packages/triage/src/md5.mjs against section 3.4 of RFC 1321.  The sine table is a
    parameter: its entries come from floating-point arithmetic. */
module Md5 {
  import opened Common
  import opened GuestMemory
  import opened HashPadding
  import opened Logic32

  type Block = s: seq<bv32> | |s| == 16 witness seq(16, _ => 0)
  type Regs = s: seq<bv32> | |s| == 4 witness seq(4, _ => 0)
  type Table = s: seq<bv32> | |s| == 64 witness seq(64, _ => 0)

  // ------------------------------------------------------------ the RFC's operations

  function Aux(round: nat, x: bv32, y: bv32, z: bv32): bv32 {
    if round == 0 then F(x, y, z) else if round == 1 then G(x, y, z) else if round == 2 then H(x, y, z) else I(x, y, z)
  }

  /** The first round chooses between y and z by x, ... */
  lemma FirstRound(x: bv32, y: bv32, z: bv32)
    ensures Aux(0, x, y, z) & x == y & x && Aux(0, x, y, z) & !x == z & !x
  {
  }

  /** ... the second between x and y by z, ... */
  lemma SecondRound(x: bv32, y: bv32, z: bv32)
    ensures Aux(1, x, y, z) & z == x & z && Aux(1, x, y, z) & !z == y & !z
  {
  }

  /** ... the third takes the parity: x decides whether it is the others' exclusive or or its complement, ... */
  lemma ThirdRound(x: bv32, y: bv32, z: bv32)
    ensures Aux(2, x, y, z) & !x == (y ^ z) & !x && Aux(2, x, y, z) & x == !(y ^ z) & x
  {
  }

  /** ... and the fourth complements y where x has ones or z has none. */
  lemma FourthRound(x: bv32, y: bv32, z: bv32)
    ensures Aux(3, x, y, z) & x == !y & x && Aux(3, x, y, z) & !z == !y & !z && Aux(3, x, y, z) & !x & z == y & !x & z
  {
  }

  /** Word used by each operation, as the RFC lists them round by round. */
  const WORDS: seq<seq<nat>> :=
    [[0, 1, 2, 3, 4, 5, 6, 7, 8, 9, 10, 11, 12, 13, 14, 15],
     [1, 6, 11, 0, 5, 10, 15, 4, 9, 14, 3, 8, 13, 2, 7, 12],
     [5, 8, 11, 14, 1, 4, 7, 10, 13, 0, 3, 6, 9, 12, 15, 2],
     [0, 7, 14, 5, 12, 3, 10, 1, 8, 15, 6, 13, 4, 11, 2, 9]]

  /** Rotation amounts, which repeat every four operations. */
  const SHIFTS: seq<seq<nat>> := [[7, 12, 17, 22], [5, 9, 14, 20], [4, 11, 16, 23], [6, 10, 15, 21]]

  function Replaced(a: bv32, b: bv32, f: bv32, x: bv32, t: bv32, c: nat): bv32
    requires c <= 32
  {
    Add(b, Rotl(Add(Add(Add(a, f), x), t), c))
  }

  /** Register that operation i replaces. */
  function Turn(i: nat): (k: nat)
    ensures k < 4
  {
    (4 - i % 4) % 4
  }

  /** Operation i replaces register a by b + ((a + Aux(b, c, d) + X[k] + T[i]) <<< s), where
      [abcd] is [ABCD], [DABC], [CDAB], [BCDA] in turn. */
  function Operation(r: Regs, x: Block, t: Table, i: nat): Regs
    requires i < 64
  {
    var a := Turn(i);
    var b, c, d := r[(a + 1) % 4], r[(a + 2) % 4], r[(a + 3) % 4];
    WordsInRange(i);
    r[a := Replaced(r[a], b, Aux(i / 16, b, c, d), x[WORDS[i / 16][i % 16]], t[i], SHIFTS[i / 16][i % 4])]
  }

  lemma WordsInRange(i: nat)
    requires i < 64
    ensures WORDS[i / 16][i % 16] < 16 && SHIFTS[i / 16][i % 4] in AMOUNTS && SHIFTS[i / 16][i % 4] < 32
  {
  }

  function Operations(r: Regs, x: Block, t: Table, n: nat): Regs
    requires n <= 64
  {
    if n == 0 then r else Operation(Operations(r, x, t, n - 1), x, t, n - 1)
  }

  function Undo(r: Regs, x: Block, t: Table, i: nat): Regs
    requires i < 64
  {
    var a := Turn(i);
    var b, c, d := r[(a + 1) % 4], r[(a + 2) % 4], r[(a + 3) % 4];
    WordsInRange(i);
    var sum := Right(Sub(r[a], b), SHIFTS[i / 16][i % 4]);
    r[a := Sub(Sub(Sub(sum, t[i]), x[WORDS[i / 16][i % 16]]), Aux(i / 16, b, c, d))]
  }

  lemma Isolate(a: bv32, b: bv32, f: bv32, x: bv32, t: bv32, c: nat)
    requires c in AMOUNTS && c < 32
    ensures Sub(Sub(Sub(Right(Sub(Replaced(a, b, f, x, t, c), b), c), t), x), f) == a
  {
    hide Rotl, Right, Add, Sub;
    var sum := Add(Add(Add(a, f), x), t);
    SubUndoesAdd(b, Rotl(sum, c));
    RotlUndone(sum, c);
    SubUndoesAdd(Add(Add(a, f), x), t);
    SubUndoesAdd(Add(a, f), x);
    SubUndoesAdd(a, f);
  }

  /** The operation run backwards, read off its output, recovers the registers ... */
  lemma OperationUndone(r: Regs, x: Block, t: Table, i: nat)
    requires i < 64
    ensures Undo(Operation(r, x, t, i), x, t, i) == r
  {
    hide Aux, Replaced, Sub, Right;
    WordsInRange(i);
    var a := Turn(i);
    var b, c, d := r[(a + 1) % 4], r[(a + 2) % 4], r[(a + 3) % 4];
    Isolate(r[a], b, Aux(i / 16, b, c, d), x[WORDS[i / 16][i % 16]], t[i], SHIFTS[i / 16][i % 4]);
  }

  /** ... so that a block's operations map different states to different states. */
  lemma {:induction false} OperationsInjective(r: Regs, s: Regs, x: Block, t: Table, n: nat)
    requires n <= 64 && Operations(r, x, t, n) == Operations(s, x, t, n)
    ensures r == s
  {
    hide Operation, Undo;
    if n > 0 {
      OperationUndone(Operations(r, x, t, n - 1), x, t, n - 1);
      OperationUndone(Operations(s, x, t, n - 1), x, t, n - 1);
      OperationsInjective(r, s, x, t, n - 1);
    }
  }

  function AddRegs(r: Regs, s: Regs): Regs {
    [Add(r[0], s[0]), Add(r[1], s[1]), Add(r[2], s[2]), Add(r[3], s[3])]
  }

  function Words(b: seq<byte>, off: nat): Block
    requires off + 64 <= |b|
  {
    seq(16, i requires 0 <= i < 16 => Word(b, off + 4 * i, Little))
  }

  const INITIAL: Regs := [0x67452301, 0xEFCDAB89, 0x98BADCFE, 0x10325476]

  /** State after the first n blocks. */
  function Fold(p: seq<byte>, t: Table, n: nat): Regs
    requires n * 64 <= |p|
  {
    if n == 0 then INITIAL
    else
      var r := Fold(p, t, n - 1);
      AddRegs(r, Operations(r, Words(p, (n - 1) * 64), t, 64))
  }

  /** The registers start as the bytes the RFC lists. */
  lemma InitialBytes()
    ensures WordBytes(INITIAL, Little) ==
      [0x01, 0x23, 0x45, 0x67, 0x89, 0xAB, 0xCD, 0xEF, 0xFE, 0xDC, 0xBA, 0x98, 0x76, 0x54, 0x32, 0x10]
  {
    hide Encode, WordBytes;
    var a, b, c, d := INITIAL[0], INITIAL[1], INITIAL[2], INITIAL[3];
    Nothing(Little);
    OneMoreWord([], a, Little);
    OneMoreWord([a], b, Little);
    OneMoreWord([a, b], c, Little);
    OneMoreWord([a, b, c], d, Little);
    InitialWords();
    assert [] + [a] == [a] && [a] + [b] == [a, b] && [a, b] + [c] == [a, b, c] && [a, b, c] + [d] == INITIAL;
    assert WordBytes([a, b], Little) == [0x01, 0x23, 0x45, 0x67, 0x89, 0xAB, 0xCD, 0xEF];
  }

  lemma InitialWords()
    ensures Encode(INITIAL[0] as nat, 4, Little) == [0x01, 0x23, 0x45, 0x67]
    ensures Encode(INITIAL[1] as nat, 4, Little) == [0x89, 0xAB, 0xCD, 0xEF]
    ensures Encode(INITIAL[2] as nat, 4, Little) == [0xFE, 0xDC, 0xBA, 0x98]
    ensures Encode(INITIAL[3] as nat, 4, Little) == [0x76, 0x54, 0x32, 0x10]
  {
    LittleWords();
    hide Encode;
    assert INITIAL[0] as nat == 0x67452301 && INITIAL[1] as nat == 0xEFCDAB89;
    assert INITIAL[2] as nat == 0x98BADCFE && INITIAL[3] as nat == 0x10325476;
  }

  lemma LittleWords()
    ensures Encode(0x67452301, 4, Little) == [0x01, 0x23, 0x45, 0x67]
    ensures Encode(0xEFCDAB89, 4, Little) == [0x89, 0xAB, 0xCD, 0xEF]
    ensures Encode(0x98BADCFE, 4, Little) == [0xFE, 0xDC, 0xBA, 0x98]
    ensures Encode(0x10325476, 4, Little) == [0x76, 0x54, 0x32, 0x10]
  {
    LittleWord([0x01, 0x23, 0x45, 0x67]);
    LittleWord([0x89, 0xAB, 0xCD, 0xEF]);
    LittleWord([0xFE, 0xDC, 0xBA, 0x98]);
    LittleWord([0x76, 0x54, 0x32, 0x10]);
    hide Encode;
  }

  lemma LittleWord(bs: seq<byte>)
    requires |bs| == 4
    ensures Encode(Quad(bs[0], bs[1], bs[2], bs[3]), 4, Little) == bs
  {
    hide Le, Un;
    UnFour(bs);
    LeUn(bs);
  }

  /** The words are the block's bytes, low byte first. */
  lemma WordsRead(b: seq<byte>, off: nat, i: nat)
    requires off + 64 <= |b| && i < 16
    ensures var o := off + 4 * i;
      var value := Quad(b[o], b[o + 1], b[o + 2], b[o + 3]);
      value < TWO32 && Words(b, off)[i] == value as bv32
  {
    hide Word, Quad;
    WordIs(b, off + 4 * i);
  }

  lemma AddedAt(r: Regs, s: Regs, k: nat)
    requires k < 4
    ensures AddRegs(r, s)[k] == Add(r[k], s[k])
  {
    hide Add;
  }

  /** What a block adds to the state is its operations' result, register by register. */
  lemma BlockAdds(p: seq<byte>, t: Table, n: nat, k: nat)
    requires 0 < n && n * 64 <= |p| && k < 4
    ensures Sub(Fold(p, t, n)[k], Fold(p, t, n - 1)[k]) ==
      Operations(Fold(p, t, n - 1), Words(p, (n - 1) * 64), t, 64)[k]
  {
    hide Words, Operations, Add, Sub, AddRegs;
    AddedAt(Fold(p, t, n - 1), Operations(Fold(p, t, n - 1), Words(p, (n - 1) * 64), t, 64), k);
    SubUndoesAdd(Fold(p, t, n - 1)[k], Operations(Fold(p, t, n - 1), Words(p, (n - 1) * 64), t, 64)[k]);
  }

  // ------------------------------------------------------------ the code's loop

  function Four(r: seq<nat>): (s: seq<nat>)
    requires |r| == 4
    ensures |s| == 16 && forall j :: 0 <= j < 16 ==> s[j] == r[j % 4]
  {
    r + r + r + r
  }

  const S: seq<nat> := Four([7, 12, 17, 22]) + Four([5, 9, 14, 20]) + Four([4, 11, 16, 23]) + Four([6, 10, 15, 21])

  function Index(i: nat): nat {
    if i < 16 then i else if i < 32 then (5 * i + 1) % 16 else if i < 48 then (3 * i + 5) % 16 else 7 * i % 16
  }

  lemma Words0(j: nat)
    requires j < 16
    ensures Index(j) == WORDS[0][j]
  {
  }

  lemma Words1(j: nat)
    requires j < 16
    ensures Index(16 + j) == WORDS[1][j]
  {
  }

  lemma Words2(j: nat)
    requires j < 16
    ensures Index(32 + j) == WORDS[2][j]
  {
  }

  lemma Words3(j: nat)
    requires j < 16
    ensures Index(48 + j) == WORDS[3][j]
  {
  }

  /** The closed forms give the listed words ... */
  lemma WordsAgree(i: nat)
    requires i < 64
    ensures Index(i) == WORDS[i / 16][i % 16]
  {
    hide Index, WORDS;
    if i < 16 {
      Words0(i);
    } else if i < 32 {
      Words1(i - 16);
    } else if i < 48 {
      Words2(i - 32);
    } else {
      Words3(i - 48);
    }
  }

  /** ... and the flat table the listed shifts. */
  lemma ShiftsAgree(i: nat)
    requires i < 64
    ensures |S| == 64 && S[i] == SHIFTS[i / 16][i % 4]
  {
    FourRows(SHIFTS[0], SHIFTS[1], SHIFTS[2], SHIFTS[3], i);
  }

  lemma FourRows(r0: seq<nat>, r1: seq<nat>, r2: seq<nat>, r3: seq<nat>, i: nat)
    requires |r0| == |r1| == |r2| == |r3| == 4 && i < 64
    ensures var s := Four(r0) + Four(r1) + Four(r2) + Four(r3);
      |s| == 64 && s[i] == [r0, r1, r2, r3][i / 16][i % 4]
  {
    hide Four;
    var r := [r0, r1, r2, r3][i / 16];
    assert (Four(r0) + Four(r1) + Four(r2) + Four(r3))[i] == Four(r)[i - 16 * (i / 16)];
  }

  function Mix(i: nat, b: bv32, c: bv32, d: bv32): bv32 {
    if i < 16 then F(b, c, d) else if i < 32 then Select(b, c, d) else if i < 48 then H(b, c, d) else I(b, c, d)
  }

  lemma MixIsAux(i: nat, b: bv32, c: bv32, d: bv32)
    requires i < 64
    ensures Mix(i, b, c, d) == Aux(i / 16, b, c, d)
  {
    hide F, G, H, I, Select;
    SelectIsG(b, c, d);
  }

  /** The loop's variables A, B, C, D are the RFC's registers from the k-th on, cyclically. */
  ghost predicate Roles(a: bv32, b: bv32, c: bv32, d: bv32, r: Regs, k: nat)
    requires k < 4
  {
    a == r[k] && b == r[(k + 1) % 4] && c == r[(k + 2) % 4] && d == r[(k + 3) % 4]
  }

  /** One pass of the loop body is one operation of the RFC. */
  lemma OneOperation(a: bv32, b: bv32, c: bv32, d: bv32, r: Regs, x: Block, t: Table, i: nat)
    requires i < 64 && Roles(a, b, c, d, r, Turn(i))
    ensures Index(i) < 16 && |S| == 64 && S[i] <= 32
    ensures Roles(d, Rotated(a, b, Mix(i, b, c, d), x[Index(i)], t[i], S[i]), b, c, Operation(r, x, t, i), Turn(i + 1))
  {
    hide Rotated, Replaced, Index, Four, Turn, Mix, Aux, SHIFTS, WORDS, S;
    WordsAgree(i);
    ShiftsAgree(i);
    WordsInRange(i);
    MixIsAux(i, b, c, d);
    Reordered(a, b, Mix(i, b, c, d), x[Index(i)], t[i], S[i]);
    NextTurn(i);
  }

  /** The same sum in the code's order. */
  function Rotated(a: bv32, b: bv32, f: bv32, x: bv32, t: bv32, c: nat): bv32
    requires c <= 32
  {
    Add(b, Rotl(Add(Add(Add(f, a), t), x), c))
  }

  lemma Reordered(a: bv32, b: bv32, f: bv32, x: bv32, t: bv32, c: nat)
    requires c <= 32
    ensures Rotated(a, b, f, x, t, c) == Replaced(a, b, f, x, t, c)
  {
    hide Rotl, Add;
    AddCommutes(f, a);
    LastTwo(Add(a, f), t, x);
  }

  lemma NextTurn(i: nat)
    ensures Turn(i + 1) == (Turn(i) + 3) % 4
  {
  }

  method ReadBlock(b: array<byte>, off: nat, m: array<bv32>)
    requires off + 64 <= b.Length && m.Length == 16
    modifies m
    ensures m[..] == Words(b[..], off)
  {
    hide Word;
    for i := 0 to 16
      invariant forall j :: 0 <= j < i ==> m[j] == Word(b[..], off + 4 * j, Little)
    {
      m[i] := Word(b[..], off + 4 * i, Little);
    }
  }

  /** The 64 steps on four rotating variables compute the RFC's 64 operations on fixed registers. */
  method Compress(r: Regs, m: array<bv32>, t: Table) returns (s: Regs)
    requires m.Length == 16
    ensures s == Operations(r, m[..], t, 64)
  {
    hide Rotated, Operation, Index, Mix, Roles, Turn, S;
    var A, B, C, D := r[0], r[1], r[2], r[3];
    Begins(r);
    for i := 0 to 64
      invariant Roles(A, B, C, D, Operations(r, m[..], t, i), Turn(i))
    {
      OneOperation(A, B, C, D, Operations(r, m[..], t, i), m[..], t, i);
      var f, g := Pass(i, B, C, D);
      A, D, C, B := D, C, B, Rotated(A, B, f, m[g], t[i], S[i]);
    }
    s := [A, B, C, D];
    Ends(A, B, C, D, Operations(r, m[..], t, 64));
  }

  method Pass(i: nat, B: bv32, C: bv32, D: bv32) returns (f: bv32, g: nat)
    ensures f == Mix(i, B, C, D) && g == Index(i)
  {
    hide F, H, I, Select;
    if i < 16 { f, g := F(B, C, D), i; }
    else if i < 32 { f, g := Select(B, C, D), (5 * i + 1) % 16; }
    else if i < 48 { f, g := H(B, C, D), (3 * i + 5) % 16; }
    else { f, g := I(B, C, D), 7 * i % 16; }
  }

  lemma Begins(r: Regs)
    ensures Roles(r[0], r[1], r[2], r[3], r, Turn(0))
  {
  }

  lemma Ends(a: bv32, b: bv32, c: bv32, d: bv32, r: Regs)
    requires Roles(a, b, c, d, r, Turn(64))
    ensures r == [a, b, c, d]
  {
  }

  /** The digest of every message below the size limit is the RFC's fold over its padded blocks, printed
      low byte first. */
  method Md5(msg: seq<byte>, t: Table) returns (r: Option<string>, ghost p: seq<byte>)
    ensures r.Some? <==> |msg| < LIMIT
    ensures r.Some? ==> IsPadded(p, msg, Little) && r.value == Hex(WordBytes(Fold(p, t, |p| / 64), Little))
  {
    hide Operations, Words, Encode, Hex, WordBytes;
    p := [];
    var padded := Pad(msg, Little);
    if padded.None? { return None, p; }
    var b := padded.value;
    p := b[..];
    assert |p| % 64 == 0;
    hide IsPadded, AddRegs;
    var state: Regs := INITIAL;
    var m := new bv32[16](_ => 0);
    var off := 0;
    while off < b.Length
      invariant b[..] == p
      invariant 0 <= off <= b.Length && off % 64 == 0 && state == Fold(p, t, off / 64)
    {
      ReadBlock(b, off, m);
      var s := Compress(state, m, t);
      state := AddRegs(state, s);
      off := off + 64;
    }
    var digest := PrintWords(state, Little);
    r := Some(digest);
  }
}
