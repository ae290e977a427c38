/** The functions of section 4.1.2 of FIPS 180-4 bit by bit. They are built from the operations of a 32-bit machine;
    here each bit of a result is told from bits of the arguments, with rotations as sums of positions, so that a
    wrong constant or a wrong argument in any of them shows. */
module Sha256Bits {
  import opened Sha256

  /** Bit k, counted from the lowest. */
  predicate Bit(x: Word, k: bv6)
    requires k < 32
  {
    (x.bits >> k) & 1 == 1
  }

  lemma XorBit(x: Word, y: Word, k: bv6)
    requires k < 32
    ensures Bit(Xor(x, y), k) == (Bit(x, k) != Bit(y, k))
  {
  }

  lemma AndBit(x: Word, y: Word, k: bv6)
    requires k < 32
    ensures Bit(And(x, y), k) == (Bit(x, k) && Bit(y, k))
  {
  }

  lemma NotBit(x: Word, k: bv6)
    requires k < 32
    ensures Bit(Not(x), k) == !Bit(x, k)
  {
  }

  /** A one chooses the second argument, a zero the third. */
  lemma ChBits(x: Word, y: Word, z: Word, k: bv6)
    requires k < 32
    ensures Bit(Ch(x, y, z), k) == if Bit(x, k) then Bit(y, k) else Bit(z, k)
  {
    hide Bit, Xor, And, Not;
    XorBit(And(x, y), And(Not(x), z), k);
    AndBit(x, y, k);
    AndBit(Not(x), z, k);
    NotBit(x, k);
  }

  /** The majority of the three. */
  lemma MajBits(x: Word, y: Word, z: Word, k: bv6)
    requires k < 32
    ensures Bit(Maj(x, y, z), k)
      <==> (Bit(x, k) && Bit(y, k)) || (Bit(x, k) && Bit(z, k)) || (Bit(y, k) && Bit(z, k))
  {
    hide Bit, Xor, And;
    XorBit(And(x, y), And(x, z), k);
    XorBit(Xor(And(x, y), And(x, z)), And(y, z), k);
    AndBit(x, y, k);
    AndBit(x, z, k);
    AndBit(y, z, k);
  }

  /** Whether the sum of three bits is odd. */
  predicate Odd(a: bool, b: bool, c: bool) {
    (a != b) != c
  }

  lemma SumBit(a: Word, b: Word, c: Word, k: bv6)
    requires k < 32
    ensures Bit(Xor(Xor(a, b), c), k) == Odd(Bit(a, k), Bit(b, k), Bit(c, k))
  {
    hide Bit, Xor;
    XorBit(a, b, k);
    XorBit(Xor(a, b), c, k);
  }

  lemma BigSigma0Turns(x: Word, k: bv6)
    requires k < 32
    ensures Bit(Rotr(x, 2), k) == Bit(x, (k + 2) & 31)
    ensures Bit(Rotr(x, 13), k) == Bit(x, (k + 13) & 31)
    ensures Bit(Rotr(x, 22), k) == (Bit(x, (k + 22) & 31))
  {
  }

  lemma BigSigma0Bits(x: Word, k: bv6)
    requires k < 32
    ensures Bit(BigSigma0(x), k) == Odd(Bit(x, (k + 2) & 31), Bit(x, (k + 13) & 31), Bit(x, (k + 22) & 31))
  {
    hide Bit, Rotr, Xor, Odd;
    BigSigma0Turns(x, k);
    SumBit(Rotr(x, 2), Rotr(x, 13), Rotr(x, 22), k);
  }

  lemma BigSigma1Turns(x: Word, k: bv6)
    requires k < 32
    ensures Bit(Rotr(x, 6), k) == Bit(x, (k + 6) & 31)
    ensures Bit(Rotr(x, 11), k) == Bit(x, (k + 11) & 31)
    ensures Bit(Rotr(x, 25), k) == (Bit(x, (k + 25) & 31))
  {
  }

  lemma BigSigma1Bits(x: Word, k: bv6)
    requires k < 32
    ensures Bit(BigSigma1(x), k) == Odd(Bit(x, (k + 6) & 31), Bit(x, (k + 11) & 31), Bit(x, (k + 25) & 31))
  {
    hide Bit, Rotr, Xor, Odd;
    BigSigma1Turns(x, k);
    SumBit(Rotr(x, 6), Rotr(x, 11), Rotr(x, 25), k);
  }

  lemma SmallSigma0Turns(x: Word, k: bv6)
    requires k < 32
    ensures Bit(Rotr(x, 7), k) == Bit(x, (k + 7) & 31)
    ensures Bit(Rotr(x, 18), k) == Bit(x, (k + 18) & 31)
    ensures Bit(Shr(x, 3), k) == (k + 3 < 32 && Bit(x, k + 3))
  {
  }

  lemma SmallSigma0Bits(x: Word, k: bv6)
    requires k < 32
    ensures Bit(SmallSigma0(x), k) == Odd(Bit(x, (k + 7) & 31), Bit(x, (k + 18) & 31), k + 3 < 32 && Bit(x, k + 3))
  {
    hide Bit, Rotr, Xor, Odd, Shr;
    SmallSigma0Turns(x, k);
    SumBit(Rotr(x, 7), Rotr(x, 18), Shr(x, 3), k);
  }

  lemma SmallSigma1Turns(x: Word, k: bv6)
    requires k < 32
    ensures Bit(Rotr(x, 17), k) == Bit(x, (k + 17) & 31)
    ensures Bit(Rotr(x, 19), k) == Bit(x, (k + 19) & 31)
    ensures Bit(Shr(x, 10), k) == (k + 10 < 32 && Bit(x, k + 10))
  {
  }

  lemma SmallSigma1Bits(x: Word, k: bv6)
    requires k < 32
    ensures Bit(SmallSigma1(x), k) == Odd(Bit(x, (k + 17) & 31), Bit(x, (k + 19) & 31), k + 10 < 32 && Bit(x, k + 10))
  {
    hide Bit, Rotr, Xor, Odd, Shr;
    SmallSigma1Turns(x, k);
    SumBit(Rotr(x, 17), Rotr(x, 19), Shr(x, 10), k);
  }
}
