/** The bitwise functions of MD5 (section 3.4 of RFC 1321) and SHA-256 (section 4.1.2 of FIPS 180-4) on
    32-bit words, and what each says bit by bit. */
module Logic32 {

  function Rotl(x: bv32, c: nat): bv32
    requires c <= 32
  {
    (x << c) | (x >> (32 - c))
  }

  /** For every amount MD5 uses, a rotation. */
  lemma RotlRotates(x: bv32)
    ensures Rotl(x, 7) == x.RotateLeft(7) && Rotl(x, 12) == x.RotateLeft(12)
    ensures Rotl(x, 17) == x.RotateLeft(17) && Rotl(x, 22) == x.RotateLeft(22)
    ensures Rotl(x, 5) == x.RotateLeft(5) && Rotl(x, 9) == x.RotateLeft(9)
    ensures Rotl(x, 14) == x.RotateLeft(14) && Rotl(x, 20) == x.RotateLeft(20)
    ensures Rotl(x, 4) == x.RotateLeft(4) && Rotl(x, 11) == x.RotateLeft(11)
    ensures Rotl(x, 16) == x.RotateLeft(16) && Rotl(x, 23) == x.RotateLeft(23)
    ensures Rotl(x, 6) == x.RotateLeft(6) && Rotl(x, 10) == x.RotateLeft(10)
    ensures Rotl(x, 15) == x.RotateLeft(15) && Rotl(x, 21) == x.RotateLeft(21)
  {
  }

  function Rotr(x: bv32, c: nat): bv32
    requires c <= 32
  {
    (x >> c) | (x << (32 - c))
  }

  /** The same for SHA-256. */
  lemma RotrRotates(x: bv32)
    ensures Rotr(x, 2) == x.RotateRight(2) && Rotr(x, 6) == x.RotateRight(6) && Rotr(x, 7) == x.RotateRight(7)
    ensures Rotr(x, 11) == x.RotateRight(11) && Rotr(x, 13) == x.RotateRight(13) && Rotr(x, 17) == x.RotateRight(17)
    ensures Rotr(x, 18) == x.RotateRight(18) && Rotr(x, 19) == x.RotateRight(19)
    ensures Rotr(x, 22) == x.RotateRight(22) && Rotr(x, 25) == x.RotateRight(25)
  {
  }

  function Xor3(x: bv32, y: bv32, z: bv32): bv32 { x ^ y ^ z }

  /** The amounts of MD5. */
  const AMOUNTS: set<nat> := {7, 12, 17, 22, 5, 9, 14, 20, 4, 11, 16, 23, 6, 10, 15, 21}

  function Left(x: bv32, c: nat): bv32
    requires c < 32
  {
    x.RotateLeft(c)
  }

  function Right(x: bv32, c: nat): bv32
    requires c < 32
  {
    x.RotateRight(c)
  }

  lemma EachRotates(x: bv32)
    ensures Rotl(x, 7) == Left(x, 7) && Rotl(x, 12) == Left(x, 12) && Rotl(x, 17) == Left(x, 17)
    ensures Rotl(x, 22) == Left(x, 22) && Rotl(x, 5) == Left(x, 5) && Rotl(x, 9) == Left(x, 9)
    ensures Rotl(x, 14) == Left(x, 14) && Rotl(x, 20) == Left(x, 20) && Rotl(x, 4) == Left(x, 4)
    ensures Rotl(x, 11) == Left(x, 11) && Rotl(x, 16) == Left(x, 16) && Rotl(x, 23) == Left(x, 23)
    ensures Rotl(x, 6) == Left(x, 6) && Rotl(x, 10) == Left(x, 10) && Rotl(x, 15) == Left(x, 15)
    ensures Rotl(x, 21) == Left(x, 21)
  {
    hide Rotl;
    RotlRotates(x);
  }

  lemma RotlIsLeft(x: bv32, c: nat)
    requires c in AMOUNTS
    ensures c < 32 && Rotl(x, c) == Left(x, c)
  {
    hide Rotl, Left;
    EachRotates(x);
  }

  lemma Unrotated(x: bv32, c: nat)
    requires c < 32
    ensures x.RotateLeft(c).RotateRight(c) == x
  {
  }

  lemma RightOfLeft(x: bv32, c: nat)
    requires c < 32
    ensures Right(Left(x, c), c) == Right(x.RotateLeft(c), c)
  {
  }

  lemma RightOfRotated(x: bv32, c: nat)
    requires c < 32
    ensures Right(x.RotateLeft(c), c) == x.RotateLeft(c).RotateRight(c)
  {
  }

  lemma RotlUndone(x: bv32, c: nat)
    requires c in AMOUNTS
    ensures c < 32 && Right(Rotl(x, c), c) == x
  {
    hide Rotl, Left, Right;
    RotlIsLeft(x, c);
    RightOfLeft(x, c);
    RightOfRotated(x, c);
    Unrotated(x, c);
  }

  // ------------------------------------------------------------ sums modulo 2^32

  function Add(x: bv32, y: bv32): bv32 { x + y }
  function Sub(x: bv32, y: bv32): bv32 { x - y }

  lemma AddCommutes(x: bv32, y: bv32)
    ensures Add(x, y) == Add(y, x)
  {
  }

  lemma InnerLeft(x: bv32, y: bv32, z: bv32)
    ensures Add(Add(x, y), z) == Add(x + y, z)
  {
  }

  lemma OuterLeft(x: bv32, y: bv32, z: bv32)
    ensures Add(x + y, z) == x + y + z
  {
  }

  lemma InnerRight(x: bv32, y: bv32, z: bv32)
    ensures Add(x, Add(y, z)) == Add(x, y + z)
  {
  }

  lemma OuterRight(x: bv32, y: bv32, z: bv32)
    ensures Add(x, y + z) == x + y + z
  {
  }

  lemma AddAssociates(x: bv32, y: bv32, z: bv32)
    ensures Add(Add(x, y), z) == Add(x, Add(y, z))
  {
    hide Add;
    InnerLeft(x, y, z);
    OuterLeft(x, y, z);
    InnerRight(x, y, z);
    OuterRight(x, y, z);
  }

  /** Four summands from the last to the first. */
  lemma Reversed(a: bv32, b: bv32, c: bv32, d: bv32)
    ensures Add(Add(Add(a, b), c), d) == Add(Add(Add(d, c), b), a)
  {
    hide Add;
    AddCommutes(Add(Add(a, b), c), d);
    AddCommutes(Add(a, b), c);
    AddAssociates(d, c, Add(a, b));
    AddCommutes(a, b);
    AddAssociates(Add(d, c), b, a);
  }

  lemma LastTwo(s: bv32, x: bv32, y: bv32)
    ensures Add(Add(s, x), y) == Add(Add(s, y), x)
  {
    hide Add;
    AddAssociates(s, x, y);
    AddCommutes(x, y);
    AddAssociates(s, y, x);
  }

  lemma FirstOff(x: bv32, y: bv32)
    ensures (x + y) - x == y
  {
  }

  lemma LastOff(x: bv32, y: bv32)
    ensures (x + y) - y == x
  {
  }

  lemma SubUndoesAdd(x: bv32, y: bv32)
    ensures Sub(Add(x, y), y) == x && Sub(Add(x, y), x) == y
  {
    FirstOff(x, y);
    LastOff(x, y);
  }

  // ------------------------------------------------------------ MD5

  function F(x: bv32, y: bv32, z: bv32): bv32 { (x & y) | (!x & z) }
  function G(x: bv32, y: bv32, z: bv32): bv32 { (x & z) | (y & !z) }
  function H(x: bv32, y: bv32, z: bv32): bv32 { Xor3(x, y, z) }
  function I(x: bv32, y: bv32, z: bv32): bv32 { y ^ (x | !z) }

  /** Second round, in the code's words: d chooses between b and c. */
  function Select(b: bv32, c: bv32, d: bv32): bv32 { (d & b) | (!d & c) }

  lemma SelectIsG(b: bv32, c: bv32, d: bv32)
    ensures Select(b, c, d) == G(b, c, d)
  {
  }

  // ------------------------------------------------------------ SHA-256

  function Ch(x: bv32, y: bv32, z: bv32): bv32 { (x & y) ^ (!x & z) }
  function Maj(x: bv32, y: bv32, z: bv32): bv32 { (x & y) ^ (x & z) ^ (y & z) }
  function Sum0(x: bv32): bv32 { Xor3(Rotr(x, 2), Rotr(x, 13), Rotr(x, 22)) }
  function Sum1(x: bv32): bv32 { Xor3(Rotr(x, 6), Rotr(x, 11), Rotr(x, 25)) }
  function Sigma0(x: bv32): bv32 { Xor3(Rotr(x, 7), Rotr(x, 18), x >> 3) }
  function Sigma1(x: bv32): bv32 { Xor3(Rotr(x, 17), Rotr(x, 19), x >> 10) }

  /** Ch chooses between y and z by x. */
  lemma ChChooses(x: bv32, y: bv32, z: bv32)
    ensures Ch(x, y, z) & x == y & x && Ch(x, y, z) & !x == z & !x
  {
  }

  /** Wherever two of the three agree, Maj agrees with them. */
  lemma MajAgrees(x: bv32, y: bv32, z: bv32)
    ensures Maj(x, y, z) & !(x ^ y) == x & !(x ^ y)
  {
  }

  lemma MajAgreesOuter(x: bv32, y: bv32, z: bv32)
    ensures Maj(x, y, z) & !(x ^ z) == x & !(x ^ z)
  {
  }

  lemma MajAgreesLast(x: bv32, y: bv32, z: bv32)
    ensures Maj(x, y, z) & !(y ^ z) == y & !(y ^ z)
  {
  }

  /** The sums are of rotations, by each function's own amounts, and shifts. */
  lemma SumsRotate(x: bv32)
    ensures Sum0(x) == Xor3(x.RotateRight(2), x.RotateRight(13), x.RotateRight(22))
    ensures Sum1(x) == Xor3(x.RotateRight(6), x.RotateRight(11), x.RotateRight(25))
    ensures Sigma0(x) == Xor3(x.RotateRight(7), x.RotateRight(18), x >> 3)
    ensures Sigma1(x) == Xor3(x.RotateRight(17), x.RotateRight(19), x >> 10)
  {
    hide Rotr, Xor3;
    RotrRotates(x);
  }
}
