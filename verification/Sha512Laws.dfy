/** What the operations of the standard do, bit by bit and argument by argument. */
module Sha512Laws {
  import opened Bits
  import opened Fips180

  // ---- single bits ----

  /** Bit i of x, the lowest one being bit 0. */
  function Bit(x: nat, i: nat): (r: nat)
    ensures r <= 1
  {
    Shr(x, i) % 2
  }

  lemma {:induction false} BitOfBitwise(g: Gate, x: nat, y: nat, n: nat, i: nat)
    requires i < n
    ensures Bit(Bitwise(g, x, y, n), i) == g.Apply(Bit(x, i), Bit(y, i))
    decreases i
  {
    BitwiseStep(g, x, y, n);
    hide Bitwise, Gate.Apply;
    if i > 0 {
      BitOfBitwise(g, x / 2, y / 2, n - 1, i - 1);
    }
  }

  lemma {:induction false} BitOfLow(x: nat, n: nat, i: nat)
    requires i < n
    ensures Bit(Low(x, n), i) == Bit(x, i)
    decreases i
  {
    var half := Low(x / 2, n - 1);
    assert Low(x, n) == x % 2 + 2 * half;
    AddEven(half, x % 2);
    hide Low;
    if i > 0 {
      BitOfLow(x / 2, n - 1, i - 1);
    }
  }

  lemma BitOfRotr(x: Word, n: nat, i: nat)
    requires n <= 64 && i < 64
    ensures Bit(Rotr(x, n), i) == Bit(x, (i + n) % 64)
  {
    hide Rotr, Bit;
    if i < 64 - n {
      BitBelow(x, n, i);
    } else {
      BitMoved(x, n, i);
    }
  }

  lemma BitBelow(x: Word, n: nat, i: nat)
    requires n <= 64 && i < 64 - n
    ensures Bit(Rotr(x, n), i) == Bit(x, i + n)
  {
    var k, low, high := 64 - n, Low(x, n), Shr(x, n);
    ShrJoin(low, high, k, i);
    ShrShr(x, n, i);
    hide Shr, Shl, Low, Pow2;
    EvenAbove(low, k - i, Shr(high, i));
  }

  lemma BitMoved(x: Word, n: nat, i: nat)
    requires n <= 64 && 64 - n <= i < 64
    ensures Bit(Rotr(x, n), i) == Bit(x, i + n - 64)
  {
    hide Low, Pow2;
    Pow2Of32();
    ShrBelow(x, n, 64 - n);
    ShrJoinFar(Low(x, n), Shr(x, n), 64 - n, i - (64 - n));
    BitOfLow(x, n, i - (64 - n));
    hide Shr, Shl;
  }

  lemma EvenAbove(x: nat, n: nat, y: nat)
    requires n > 0
    ensures (Shl(x, n) + y) % 2 == y % 2
  {
    AddEven(Shl(x, n - 1), y);
  }

  /** A word has no bits from 64 on. */
  function BitAbove(x: Word, i: nat): (r: nat)
    ensures r <= 1
  {
    if i < 64 then Bit(x, i) else 0
  }

  lemma BitOfShift(x: Word, n: nat, i: nat)
    requires i < 64
    ensures Bit(ShiftRight(x, n), i) == BitAbove(x, i + n)
  {
    ShrShr(x, n, i);
    if i + n >= 64 {
      NothingAbove(x, i + n);
    }
  }

  lemma NothingAbove(x: Word, n: nat)
    requires n >= 64
    ensures Shr(x, n) == 0
  {
    Pow2Of32();
    ShrAll(x, 64);
    ShrShr(x, 64, n - 64);
    ShrOfZero(n - 64);
  }

  lemma {:induction false} ShrOfZero(n: nat)
    ensures Shr(0, n) == 0
  {
    if n > 0 {
      ShrOfZero(n - 1);
    }
  }

  lemma {:induction false} BitOfNot(x: nat, n: nat, i: nat)
    requires x < Pow2(n) && i < n
    ensures Bit(Pow2(n) - 1 - x, i) == 1 - Bit(x, i)
    decreases i
  {
    Doubles(n);
    NotStep(Pow2(n - 1), x);
    hide Pow2;
    if i > 0 {
      BitOfNot(x / 2, n - 1, i - 1);
    }
  }

  /** A number of n bits is known by its bits. */
  lemma {:induction false} SameBits(x: nat, y: nat, n: nat)
    requires x < Pow2(n) && y < Pow2(n) && forall i :: 0 <= i < n ==> Bit(x, i) == Bit(y, i)
    ensures x == y
    decreases n
  {
    if n > 0 {
      Doubles(n);
      hide Pow2;
      assert Bit(x, 0) == Bit(y, 0);
      forall i | 0 <= i < n - 1
        ensures Bit(x / 2, i) == Bit(y / 2, i)
      {
        assert Bit(x, i + 1) == Bit(y, i + 1);
      }
      SameBits(x / 2, y / 2, n - 1);
      SameHalves(x, y);
    }
  }

  function Parity(a: nat, b: nat): (r: nat)
    ensures r <= 1
  {
    (a + b) % 2
  }

  function Parity3(a: nat, b: nat, c: nat): (r: nat)
    ensures r <= 1
  {
    (a + b + c) % 2
  }

  function Both(a: nat, b: nat): (r: nat)
    ensures r <= 1
  {
    if a == 1 && b == 1 then 1 else 0
  }

  lemma ParityTwice(a: nat, b: nat, c: nat)
    ensures Parity(Parity(a, b), c) == Parity3(a, b, c)
    ensures a <= 1 && b <= 1 ==> Parity(a, b) == if a == b then 0 else 1
  {
  }

  lemma XorBit(x: Word, y: Word, i: nat)
    requires i < 64
    ensures Bit(Xor(x, y), i) == Parity(Bit(x, i), Bit(y, i))
  {
    ParityTwice(Bit(x, i), Bit(y, i), 0);
    BitOfBitwise(XorGate, x, y, 64, i);
    hide Bitwise, Pow2, Bit, Parity;
  }

  lemma AndBit(x: Word, y: Word, i: nat)
    requires i < 64
    ensures Bit(And(x, y), i) == Both(Bit(x, i), Bit(y, i))
  {
    BitOfBitwise(AndGate, x, y, 64, i);
    hide Bitwise, Pow2, Bit;
  }

  lemma NotBit(x: Word, i: nat)
    requires i < 64
    ensures Bit(Not(x), i) == 1 - Bit(x, i)
  {
    Pow2Of32();
    BitOfNot(x, 64, i);
    hide Pow2, Bit;
  }

  // ---- the functions of section 4.1.3 ----

  /** Bit i of each is the parity of three bits of x. */
  lemma BigSigma0Bits(x: Word, i: nat)
    requires i < 64
    ensures Bit(BigSigma0(x), i)
            == Parity3(Bit(x, (i + 28) % 64), Bit(x, (i + 34) % 64), Bit(x, (i + 39) % 64))
  {
    hide Xor, Rotr, ShiftRight, Bit, BitAbove, Parity, Parity3;
    BitOfRotr(x, 28, i);
    BitOfRotr(x, 34, i);
    BitOfRotr(x, 39, i);
    XorBit(Rotr(x, 28), Rotr(x, 34), i);
    XorBit(Xor(Rotr(x, 28), Rotr(x, 34)), Rotr(x, 39), i);
    ParityTwice(Bit(x, (i + 28) % 64), Bit(x, (i + 34) % 64), Bit(x, (i + 39) % 64));
  }

  lemma BigSigma1Bits(x: Word, i: nat)
    requires i < 64
    ensures Bit(BigSigma1(x), i)
            == Parity3(Bit(x, (i + 14) % 64), Bit(x, (i + 18) % 64), Bit(x, (i + 41) % 64))
  {
    hide Xor, Rotr, ShiftRight, Bit, BitAbove, Parity, Parity3;
    BitOfRotr(x, 14, i);
    BitOfRotr(x, 18, i);
    BitOfRotr(x, 41, i);
    XorBit(Rotr(x, 14), Rotr(x, 18), i);
    XorBit(Xor(Rotr(x, 14), Rotr(x, 18)), Rotr(x, 41), i);
    ParityTwice(Bit(x, (i + 14) % 64), Bit(x, (i + 18) % 64), Bit(x, (i + 41) % 64));
  }

  lemma SmallSigma0Bits(x: Word, i: nat)
    requires i < 64
    ensures Bit(SmallSigma0(x), i)
            == Parity3(Bit(x, (i + 1) % 64), Bit(x, (i + 8) % 64), BitAbove(x, i + 7))
  {
    hide Xor, Rotr, ShiftRight, Bit, BitAbove, Parity, Parity3;
    BitOfRotr(x, 1, i);
    BitOfRotr(x, 8, i);
    BitOfShift(x, 7, i);
    XorBit(Rotr(x, 1), Rotr(x, 8), i);
    XorBit(Xor(Rotr(x, 1), Rotr(x, 8)), ShiftRight(x, 7), i);
    ParityTwice(Bit(x, (i + 1) % 64), Bit(x, (i + 8) % 64), BitAbove(x, i + 7));
  }

  lemma SmallSigma1Bits(x: Word, i: nat)
    requires i < 64
    ensures Bit(SmallSigma1(x), i)
            == Parity3(Bit(x, (i + 19) % 64), Bit(x, (i + 61) % 64), BitAbove(x, i + 6))
  {
    hide Xor, Rotr, ShiftRight, Bit, BitAbove, Parity, Parity3;
    BitOfRotr(x, 19, i);
    BitOfRotr(x, 61, i);
    BitOfShift(x, 6, i);
    XorBit(Rotr(x, 19), Rotr(x, 61), i);
    XorBit(Xor(Rotr(x, 19), Rotr(x, 61)), ShiftRight(x, 6), i);
    ParityTwice(Bit(x, (i + 19) % 64), Bit(x, (i + 61) % 64), BitAbove(x, i + 6));
  }

  /** Where x has a one the choice is y, elsewhere z. */
  lemma ChBits(x: Word, y: Word, z: Word, i: nat)
    requires i < 64
    ensures Bit(Ch(x, y, z), i) == if Bit(x, i) == 1 then Bit(y, i) else Bit(z, i)
  {
    hide Xor, And, Not, Bit, Parity, Both;
    ChoiceOfBits(Bit(x, i), Bit(y, i), Bit(z, i));
    AndBit(x, y, i);
    NotBit(x, i);
    AndBit(Not(x), z, i);
    XorBit(And(x, y), And(Not(x), z), i);
  }

  /** The bit that two of the three have. */
  lemma MajBits(x: Word, y: Word, z: Word, i: nat)
    requires i < 64
    ensures Bit(Maj(x, y, z), i) == if Bit(x, i) + Bit(y, i) + Bit(z, i) >= 2 then 1 else 0
  {
    hide Xor, And, Bit, Parity, Both;
    MajorityOfBits(Bit(x, i), Bit(y, i), Bit(z, i));
    AndBit(x, y, i);
    AndBit(x, z, i);
    AndBit(y, z, i);
    XorBit(And(x, y), And(x, z), i);
    XorBit(Xor(And(x, y), And(x, z)), And(y, z), i);
  }

  lemma ChoiceOfBits(a: nat, b: nat, c: nat)
    requires a <= 1 && b <= 1 && c <= 1
    ensures Parity(Both(a, b), Both(1 - a, c)) == if a == 1 then b else c
  {
  }

  lemma MajorityOfBits(a: nat, b: nat, c: nat)
    requires a <= 1 && b <= 1 && c <= 1
    ensures Parity(Parity(Both(a, b), Both(a, c)), Both(b, c)) == if a + b + c >= 2 then 1 else 0
  {
  }

  lemma SameWord(x: Word, y: Word)
    requires forall i :: 0 <= i < 64 ==> Bit(x, i) == Bit(y, i)
    ensures x == y
  {
    hide Bit, Pow2;
    Pow2Of32();
    SameBits(x, y, 64);
  }

  /** The parity of three sums is the sum of two parities. */
  lemma ParityOfSix(a: nat, b: nat, c: nat, d: nat, e: nat, f: nat)
    ensures Parity3(Parity(a, b), Parity(c, d), Parity(e, f)) == Parity(Parity3(a, c, e), Parity3(b, d, f))
  {
    var q := (a + b) / 2 + (c + d) / 2 + (e + f) / 2;
    var r := (a + c + e) / 2 + (b + d + f) / 2;
    SameParity(Parity(a, b) + Parity(c, d) + Parity(e, f), q, Parity3(a, c, e) + Parity3(b, d, f), r);
  }

  lemma SameParity(x: nat, q: nat, y: nat, r: nat)
    requires x + 2 * q == y + 2 * r
    ensures x % 2 == y % 2
  {
  }

  lemma BigSigma0OfXor(x: Word, y: Word)
    ensures BigSigma0(Xor(x, y)) == Xor(BigSigma0(x), BigSigma0(y))
  {
    hide BigSigma0, Xor, Bit;
    forall i | 0 <= i < 64
      ensures Bit(BigSigma0(Xor(x, y)), i) == Bit(Xor(BigSigma0(x), BigSigma0(y)), i)
    {
      BigSigma0OfXorAt(x, y, i);
    }
    SameWord(BigSigma0(Xor(x, y)), Xor(BigSigma0(x), BigSigma0(y)));
  }

  lemma BigSigma0OfXorAt(x: Word, y: Word, i: nat)
    requires i < 64
    ensures Bit(BigSigma0(Xor(x, y)), i) == Bit(Xor(BigSigma0(x), BigSigma0(y)), i)
  {
    hide BigSigma0, Xor, Bit, BitAbove, Parity, Parity3;
    BigSigma0Bits(Xor(x, y), i);
    BigSigma0Bits(x, i);
    BigSigma0Bits(y, i);
    XorBit(BigSigma0(x), BigSigma0(y), i);
    XorRotated(x, y, i, 28);
    XorRotated(x, y, i, 34);
    XorRotated(x, y, i, 39);
    ParityOfSix(Bit(x, (i + 28) % 64), Bit(y, (i + 28) % 64),
                Bit(x, (i + 34) % 64), Bit(y, (i + 34) % 64),
                Bit(x, (i + 39) % 64), Bit(y, (i + 39) % 64));
  }

  lemma BigSigma1OfXor(x: Word, y: Word)
    ensures BigSigma1(Xor(x, y)) == Xor(BigSigma1(x), BigSigma1(y))
  {
    hide BigSigma1, Xor, Bit;
    forall i | 0 <= i < 64
      ensures Bit(BigSigma1(Xor(x, y)), i) == Bit(Xor(BigSigma1(x), BigSigma1(y)), i)
    {
      BigSigma1OfXorAt(x, y, i);
    }
    SameWord(BigSigma1(Xor(x, y)), Xor(BigSigma1(x), BigSigma1(y)));
  }

  lemma BigSigma1OfXorAt(x: Word, y: Word, i: nat)
    requires i < 64
    ensures Bit(BigSigma1(Xor(x, y)), i) == Bit(Xor(BigSigma1(x), BigSigma1(y)), i)
  {
    hide BigSigma1, Xor, Bit, BitAbove, Parity, Parity3;
    BigSigma1Bits(Xor(x, y), i);
    BigSigma1Bits(x, i);
    BigSigma1Bits(y, i);
    XorBit(BigSigma1(x), BigSigma1(y), i);
    XorRotated(x, y, i, 14);
    XorRotated(x, y, i, 18);
    XorRotated(x, y, i, 41);
    ParityOfSix(Bit(x, (i + 14) % 64), Bit(y, (i + 14) % 64),
                Bit(x, (i + 18) % 64), Bit(y, (i + 18) % 64),
                Bit(x, (i + 41) % 64), Bit(y, (i + 41) % 64));
  }

  lemma SmallSigma0OfXor(x: Word, y: Word)
    ensures SmallSigma0(Xor(x, y)) == Xor(SmallSigma0(x), SmallSigma0(y))
  {
    hide SmallSigma0, Xor, Bit;
    forall i | 0 <= i < 64
      ensures Bit(SmallSigma0(Xor(x, y)), i) == Bit(Xor(SmallSigma0(x), SmallSigma0(y)), i)
    {
      SmallSigma0OfXorAt(x, y, i);
    }
    SameWord(SmallSigma0(Xor(x, y)), Xor(SmallSigma0(x), SmallSigma0(y)));
  }

  lemma SmallSigma0OfXorAt(x: Word, y: Word, i: nat)
    requires i < 64
    ensures Bit(SmallSigma0(Xor(x, y)), i) == Bit(Xor(SmallSigma0(x), SmallSigma0(y)), i)
  {
    hide SmallSigma0, Xor, Bit, BitAbove, Parity, Parity3;
    SmallSigma0Bits(Xor(x, y), i);
    SmallSigma0Bits(x, i);
    SmallSigma0Bits(y, i);
    XorBit(SmallSigma0(x), SmallSigma0(y), i);
    XorRotated(x, y, i, 1);
    XorRotated(x, y, i, 8);
    XorAbove(x, y, i + 7);
    ParityOfSix(Bit(x, (i + 1) % 64), Bit(y, (i + 1) % 64),
                Bit(x, (i + 8) % 64), Bit(y, (i + 8) % 64),
                BitAbove(x, i + 7), BitAbove(y, i + 7));
  }

  lemma SmallSigma1OfXor(x: Word, y: Word)
    ensures SmallSigma1(Xor(x, y)) == Xor(SmallSigma1(x), SmallSigma1(y))
  {
    hide SmallSigma1, Xor, Bit;
    forall i | 0 <= i < 64
      ensures Bit(SmallSigma1(Xor(x, y)), i) == Bit(Xor(SmallSigma1(x), SmallSigma1(y)), i)
    {
      SmallSigma1OfXorAt(x, y, i);
    }
    SameWord(SmallSigma1(Xor(x, y)), Xor(SmallSigma1(x), SmallSigma1(y)));
  }

  lemma SmallSigma1OfXorAt(x: Word, y: Word, i: nat)
    requires i < 64
    ensures Bit(SmallSigma1(Xor(x, y)), i) == Bit(Xor(SmallSigma1(x), SmallSigma1(y)), i)
  {
    hide SmallSigma1, Xor, Bit, BitAbove, Parity, Parity3;
    SmallSigma1Bits(Xor(x, y), i);
    SmallSigma1Bits(x, i);
    SmallSigma1Bits(y, i);
    XorBit(SmallSigma1(x), SmallSigma1(y), i);
    XorRotated(x, y, i, 19);
    XorRotated(x, y, i, 61);
    XorAbove(x, y, i + 6);
    ParityOfSix(Bit(x, (i + 19) % 64), Bit(y, (i + 19) % 64),
                Bit(x, (i + 61) % 64), Bit(y, (i + 61) % 64),
                BitAbove(x, i + 6), BitAbove(y, i + 6));
  }

  lemma XorRotated(x: Word, y: Word, i: nat, n: nat)
    ensures Bit(Xor(x, y), (i + n) % 64) == Parity(Bit(x, (i + n) % 64), Bit(y, (i + n) % 64))
  {
    XorBit(x, y, (i + n) % 64);
    hide Xor, Bit, Parity;
  }

  lemma XorAbove(x: Word, y: Word, i: nat)
    ensures BitAbove(Xor(x, y), i) == Parity(BitAbove(x, i), BitAbove(y, i))
  {
    hide Xor, Bit;
    if i < 64 {
      XorBit(x, y, i);
    }
  }

  lemma RotrOne(n: nat)
    requires 0 < n < 64
    ensures Rotr(1, n) == Pow2(64 - n)
  {
    LowOne(n);
    ShrOfZero(n - 1);
    hide Low;
  }

  lemma LowOne(n: nat)
    requires n > 0
    ensures Low(1, n) == 1
  {
    LowOfZero(n - 1);
  }

  lemma {:induction false} LowOfZero(n: nat)
    ensures Low(0, n) == 0
  {
    if n > 0 {
      LowOfZero(n - 1);
    }
  }

  /** A bit above all those of y is added by xor. */
  lemma XorPower(y: Word, k: nat)
    requires k < 64 && y < Pow2(k)
    ensures Pow2(k) + y < BASE * BASE && Xor(Pow2(k), y) == Pow2(k) + y
  {
    PowerFits(k);
    JoinedXor(y, k);
  }

  lemma PowerFits(k: nat)
    requires k < 64
    ensures 2 * Pow2(k) <= BASE * BASE
  {
    Pow2Of32();
    Powers(64, k);
    hide Pow2;
  }

  lemma JoinedXor(y: nat, k: nat)
    requires k < 64 && y < Pow2(k)
    ensures Bitwise(XorGate, Pow2(k), y, 64) == Pow2(k) + y
  {
    hide Bitwise;
    BitwiseJoin(XorGate, 1, 0, 0, y, k, 64 - k);
    XorWithZero(y, k);
    ShlZero(k);
    PowerFitsOne(64 - k);
    XorWithZero(1, 64 - k);
    assert k + (64 - k) == 64 && Pow2(k) == Shl(1, k);
  }

  lemma PowerFitsOne(n: nat)
    requires n > 0
    ensures 1 < Pow2(n)
  {
    Doubles(n);
    hide Pow2;
  }

  lemma {:induction false} XorWithZero(y: nat, n: nat)
    requires y < Pow2(n)
    ensures Bitwise(XorGate, 0, y, n) == y && Bitwise(XorGate, y, 0, n) == y
  {
    if n > 0 {
      Doubles(n);
      BitwiseUnfolds(XorGate, 0, y, n);
      BitwiseUnfolds(XorGate, y, 0, n);
      hide Bitwise, Pow2;
      XorWithZero(y / 2, n - 1);
    }
  }

  lemma Powers(k: nat, j: nat)
    requires j < k
    ensures 2 * Pow2(j) <= Pow2(k)
    decreases k
  {
    Doubles(k);
    if j < k - 1 {
      Powers(k - 1, j);
    }
    hide Pow2;
  }

  lemma XorPowers(k: nat, j: nat)
    requires j < k < 64
    ensures Pow2(k) + Pow2(j) < BASE * BASE && Pow2(j) < Pow2(k)
    ensures Xor(Pow2(k), Pow2(j)) == Pow2(k) + Pow2(j)
  {
    Powers(k, j);
    PowerFits(j);
    PowerFits(k);
    XorPower(Pow2(j), k);
    hide Pow2, Xor;
  }

  lemma XorLaws(x: Word, y: Word, z: Word)
    ensures Xor(x, y) == Xor(y, x) && Xor(Xor(x, y), z) == Xor(x, Xor(y, z)) && Xor(x, 0) == x
  {
    hide Xor, Bit;
    forall i | 0 <= i < 64
      ensures Bit(Xor(x, y), i) == Bit(Xor(y, x), i)
      ensures Bit(Xor(Xor(x, y), z), i) == Bit(Xor(x, Xor(y, z)), i)
      ensures Bit(Xor(x, 0), i) == Bit(x, i)
    {
      BitOfZero(i);
      XorBit(x, y, i);
      XorBit(y, x, i);
      XorBit(y, z, i);
      XorBit(x, 0, i);
      XorBit(Xor(x, y), z, i);
      XorBit(x, Xor(y, z), i);
    }
    SameWord(Xor(x, y), Xor(y, x));
    SameWord(Xor(Xor(x, y), z), Xor(x, Xor(y, z)));
    SameWord(Xor(x, 0), x);
  }

  lemma BitOfZero(i: nat)
    ensures Bit(0, i) == 0
  {
    ShrOfZero(i);
  }

  lemma ThreePowers(k: nat, j: nat, i: nat)
    requires i < j < k < 64
    ensures Pow2(k) < BASE * BASE && Pow2(j) < BASE * BASE && Pow2(i) < BASE * BASE
    ensures Xor(Xor(Pow2(k), Pow2(j)), Pow2(i)) == Pow2(k) + Pow2(j) + Pow2(i)
  {
    XorPowers(k, j);
    XorPowers(j, i);
    Powers(j, i);
    Powers(k, j);
    hide Pow2, Xor;
    XorPower(Pow2(j) + Pow2(i), k);
    XorLaws(Pow2(k), Pow2(j), Pow2(i));
  }

  /** The bits to which each of them sends the lowest one. */
  lemma SigmasOfOne()
    ensures BigSigma0(1) == Pow2(36) + Pow2(30) + Pow2(25)
    ensures BigSigma1(1) == Pow2(50) + Pow2(46) + Pow2(23)
    ensures SmallSigma0(1) == Pow2(63) + Pow2(56)
    ensures SmallSigma1(1) == Pow2(45) + Pow2(3)
  {
    hide Rotr, ShiftRight, Xor, Pow2;
    ThreePowers(36, 30, 25);
    ThreePowers(50, 46, 23);
    XorPowers(63, 56);
    XorPowers(45, 3);
    XorLaws(Pow2(63) + Pow2(56), 0, 0);
    XorLaws(Pow2(45) + Pow2(3), 0, 0);
    OneShiftedAway(7);
    OneShiftedAway(6);
    RotrOne(28);
    RotrOne(34);
    RotrOne(39);
    RotrOne(14);
    RotrOne(18);
    RotrOne(41);
    RotrOne(1);
    RotrOne(8);
    RotrOne(19);
    RotrOne(61);
  }

  lemma OneShiftedAway(n: nat)
    requires n > 0
    ensures ShiftRight(1, n) == 0
  {
    ShrOfZero(n - 1);
  }

  // ---- addition modulo 2^64 ----

  lemma PlusLaws(x: Word, y: Word, z: Word)
    ensures Plus(x, y) == Plus(y, x)
    ensures Plus(Plus(x, y), z) == Plus(x, Plus(y, z))
    ensures Plus(x, 0) == x
  {
    PlusWraps(x, y);
    PlusWraps(y, x);
    PlusWraps(y, z);
    PlusWraps(x, 0);
    PlusWraps(Plus(x, y), z);
    PlusWraps(x, Plus(y, z));
    hide Plus;
  }

  lemma PlusWraps(x: Word, y: Word)
    ensures Plus(x, y) == if x + y < BASE * BASE then x + y else x + y - BASE * BASE
  {
  }

  /** Subtraction modulo 2^64. */
  function Minus(x: Word, y: Word): (r: Word)
    ensures Plus(r, y) == x
  {
    var r: Word := if y <= x then x - y else x + BASE * BASE - y;
    PlusWraps(r, y);
    r
  }

  lemma MinusUndoesPlus(x: Word, y: Word)
    ensures Minus(Plus(x, y), y) == x
  {
    PlusWraps(x, y);
    hide Plus;
  }

  /** Adding x to a summand adds it to the sum. */
  lemma PlusMoves(x: Word, y: Word, z: Word)
    ensures Plus(Plus(y, x), z) == Plus(Plus(y, z), x)
    ensures Plus(z, Plus(y, x)) == Plus(Plus(z, y), x)
  {
    PlusLaws(y, x, z);
    PlusLaws(x, z, 0);
    PlusLaws(y, z, x);
    PlusLaws(z, y, x);
    hide Plus;
  }

  // ---- one round ----

  /** The round constant, the message word and the last variable enter once each, into a and e. */
  lemma RoundAddsConstant(v: Vars, k: Word, x: Word, w: Word)
    ensures var r := Round(v, k, w); Round(v, Plus(k, x), w) == r.(a := Plus(r.a, x), e := Plus(r.e, x))
  {
    hide Plus, BigSigma0, BigSigma1, Ch, Maj;
    var t := Plus(Plus(v.h, BigSigma1(v.e)), Ch(v.e, v.f, v.g));
    PlusMoves(x, k, t);
    PlusMoves(x, Plus(t, k), w);
    IntoBoth(v, x, Plus(Plus(t, k), w));
  }

  lemma RoundAddsWord(v: Vars, k: Word, w: Word, x: Word)
    ensures var r := Round(v, k, w); Round(v, k, Plus(w, x)) == r.(a := Plus(r.a, x), e := Plus(r.e, x))
  {
    hide Plus, BigSigma0, BigSigma1, Ch, Maj;
    var t := Plus(Plus(Plus(v.h, BigSigma1(v.e)), Ch(v.e, v.f, v.g)), k);
    PlusMoves(x, w, t);
    IntoBoth(v, x, Plus(t, w));
  }

  lemma RoundAddsLast(v: Vars, k: Word, w: Word, x: Word)
    ensures var r := Round(v, k, w); Round(v.(h := Plus(v.h, x)), k, w) == r.(a := Plus(r.a, x), e := Plus(r.e, x))
  {
    hide Plus, BigSigma0, BigSigma1, Ch, Maj;
    var s, c := BigSigma1(v.e), Ch(v.e, v.f, v.g);
    PlusMoves(x, v.h, s);
    PlusMoves(x, Plus(v.h, s), c);
    PlusMoves(x, Plus(Plus(v.h, s), c), k);
    PlusMoves(x, Plus(Plus(Plus(v.h, s), c), k), w);
    IntoBoth(v, x, Plus(Plus(Plus(Plus(v.h, s), c), k), w));
  }

  /** What is added to the first sum of a round is added to a and to e. */
  lemma IntoBoth(v: Vars, x: Word, t: Word)
    ensures var u := Plus(BigSigma0(v.a), Maj(v.a, v.b, v.c));
            Plus(Plus(t, x), u) == Plus(Plus(t, u), x) && Plus(v.d, Plus(t, x)) == Plus(Plus(v.d, t), x)
  {
    hide Plus, BigSigma0, Maj;
    PlusMoves(x, t, Plus(BigSigma0(v.a), Maj(v.a, v.b, v.c)));
    PlusMoves(x, t, v.d);
  }

  /** The fourth variable enters e alone. */
  lemma RoundAddsFourth(v: Vars, k: Word, w: Word, x: Word)
    ensures var r := Round(v, k, w); Round(v.(d := Plus(v.d, x)), k, w) == r.(e := Plus(r.e, x))
  {
    hide Plus, BigSigma0, BigSigma1, Ch, Maj;
    PlusMoves(x, v.d, Plus(Plus(Plus(Plus(v.h, BigSigma1(v.e)), Ch(v.e, v.f, v.g)), k), w));
  }

  /** What is left: six variables move one place, e, f and g enter both sums, a, b and c the first only. */
  lemma RoundOfSix(v: Vars)
    requires v.d == v.h == 0
    ensures var r, s, t := Round(v, 0, 0), Plus(BigSigma1(v.e), Ch(v.e, v.f, v.g)),
                           Plus(BigSigma0(v.a), Maj(v.a, v.b, v.c));
            && r.b == v.a && r.c == v.b && r.d == v.c && r.f == v.e && r.g == v.f && r.h == v.g
            && r.e == s && r.a == Plus(s, t)
  {
    hide Plus, BigSigma0, BigSigma1, Ch, Maj;
    var b, c := BigSigma1(v.e), Ch(v.e, v.f, v.g);
    PlusLaws(0, b, 0);
    PlusLaws(b, 0, 0);
    PlusLaws(Plus(b, c), 0, 0);
    PlusLaws(0, Plus(b, c), 0);
  }

  /** The variables before a round that ended in r. */
  function Unround(r: Vars, k: Word, w: Word): Vars {
    var t := Minus(r.a, Plus(BigSigma0(r.b), Maj(r.b, r.c, r.d)));
    Vars(r.b, r.c, r.d, Minus(r.e, t), r.f, r.g, r.h,
         Minus(Minus(Minus(Minus(t, w), k), Ch(r.f, r.g, r.h)), BigSigma1(r.f)))
  }

  lemma UnroundUndoesRound(v: Vars, k: Word, w: Word)
    ensures Unround(Round(v, k, w), k, w) == v
  {
    hide Plus, Minus, BigSigma0, BigSigma1, Ch, Maj;
    var s, c, u := BigSigma1(v.e), Ch(v.e, v.f, v.g), Plus(BigSigma0(v.a), Maj(v.a, v.b, v.c));
    var t := Plus(Plus(Plus(Plus(v.h, s), c), k), w);
    MinusUndoesPlus(t, u);
    PlusLaws(v.d, t, 0);
    MinusUndoesPlus(v.d, t);
    MinusUndoesPlus(Plus(Plus(Plus(v.h, s), c), k), w);
    MinusUndoesPlus(Plus(Plus(v.h, s), c), k);
    MinusUndoesPlus(Plus(v.h, s), c);
    MinusUndoesPlus(v.h, s);
  }

  lemma RoundUndoesUnround(r: Vars, k: Word, w: Word)
    ensures Round(Unround(r, k, w), k, w) == r
  {
    hide Plus, Minus, BigSigma0, BigSigma1, Ch, Maj;
    var u := Plus(BigSigma0(r.b), Maj(r.b, r.c, r.d));
    var t := Minus(r.a, u);
    PlusMinus(r.a, u);
    PlusMinus(t, w);
    PlusMinus(Minus(t, w), k);
    PlusMinus(Minus(Minus(t, w), k), Ch(r.f, r.g, r.h));
    PlusMinus(Minus(Minus(Minus(t, w), k), Ch(r.f, r.g, r.h)), BigSigma1(r.f));
    PlusMinus(r.e, t);
  }

  lemma PlusMinus(x: Word, y: Word)
    ensures Plus(Minus(x, y), y) == x
  {
  }

  // ---- the schedule, and a block ----

  /** Before word t the two schedules differ, among the last sixteen words, at most in the one at place j. */
  ghost predicate DifferAt(b: seq<Byte>, b': seq<Byte>, t: nat, j: nat)
    requires |b| == |b'| == 128 && 16 <= t
  {
    forall i :: t - 16 <= i < t && i != t - 16 + j ==> Schedule(b', i) == Schedule(b, i)
  }

  /** Four of the sixteen words before it enter word t: the first and the tenth as they are, the second and
      the fifteenth through one function each. */
  lemma WordMoves(b: seq<Byte>, b': seq<Byte>, t: nat, j: nat)
    requires |b| == |b'| == 128 && 16 <= t && j < 16 && DifferAt(b, b', t, j)
    ensures var w, w' := Schedule(b, t), Schedule(b', t);
            var u, u' := Schedule(b, t - 16 + j), Schedule(b', t - 16 + j);
            && (j in {0, 9} ==> Plus(w', u) == Plus(w, u'))
            && (j == 1 ==> Plus(w', SmallSigma0(u)) == Plus(w, SmallSigma0(u')))
            && (j == 14 ==> Plus(w', SmallSigma1(u)) == Plus(w, SmallSigma1(u')))
            && (j !in {0, 1, 9, 14} ==> w' == w)
  {
    FourSummands(b, t);
    FourSummands(b', t);
    hide Plus, SmallSigma0, SmallSigma1, Schedule;
    if j in {0, 1, 9, 14} {
      var a, c, d, e := Schedule(b, t - 16), SmallSigma0(Schedule(b, t - 15)), Schedule(b, t - 7),
                        SmallSigma1(Schedule(b, t - 2));
      var a', c', d', e' := Schedule(b', t - 16), SmallSigma0(Schedule(b', t - 15)), Schedule(b', t - 7),
                            SmallSigma1(Schedule(b', t - 2));
      OneSummand(a, a', c, d, e);
      OneSummand(c, c', a, d, e);
      OneSummand(d, d', a, c, e);
      OneSummand(e, e', a, c, d);
    }
  }

  function Four(a: Word, c: Word, d: Word, e: Word): Word {
    (a + c + d + e) % (BASE * BASE)
  }

  lemma FourSummands(b: seq<Byte>, t: nat)
    requires |b| == 128 && 16 <= t
    ensures var a, c, d, e := Schedule(b, t - 16), SmallSigma0(Schedule(b, t - 15)), Schedule(b, t - 7),
                              SmallSigma1(Schedule(b, t - 2));
            Schedule(b, t) == Four(a, c, d, e) == Four(c, a, d, e) == Four(d, a, c, e) == Four(e, a, c, d)
  {
    var a, c, d, e := Schedule(b, t - 16), SmallSigma0(Schedule(b, t - 15)), Schedule(b, t - 7),
                      SmallSigma1(Schedule(b, t - 2));
    assert Schedule(b, t) == Plus(Plus(Plus(e, d), c), a);
    hide Schedule, SmallSigma0, SmallSigma1, Plus;
    FourPlus(a, c, d, e);
  }

  lemma FourPlus(a: Word, c: Word, d: Word, e: Word)
    ensures Plus(Plus(Plus(e, d), c), a) == Four(a, c, d, e)
  {
    hide Plus;
    PlusWraps(e, d);
    PlusWraps(Plus(e, d), c);
    PlusWraps(Plus(Plus(e, d), c), a);
    Wraps(a + c + d + e, Plus(Plus(Plus(e, d), c), a));
  }

  lemma Wraps(n: int, r: Word)
    requires n == r || n == r + BASE * BASE || n == r + 2 * BASE * BASE || n == r + 3 * BASE * BASE
    ensures n % (BASE * BASE) == r
  {
  }

  lemma OneSummand(u: Word, u': Word, a: Word, c: Word, d: Word)
    ensures Plus(Four(u', a, c, d), u) == Plus(Four(u, a, c, d), u')
  {
    var n := a + c + d + u + u';
    Modulo(u' + a + c + d, u);
    Modulo(u + a + c + d, u');
  }

  lemma Modulo(n: nat, u: Word)
    ensures (n % (BASE * BASE) + u) % (BASE * BASE) == (n + u) % (BASE * BASE)
  {
  }

  /** The schedule of zeros. */
  lemma {:induction false} ScheduleOfZeros(b: seq<Byte>, t: nat)
    requires |b| == 128 && forall i :: 0 <= i < 128 ==> b[i] == 0
    ensures Schedule(b, t) == 0
  {
    hide SmallSigma0, SmallSigma1, Plus, BigEndian;
    if t < 16 {
      ZeroDigits(b[8 * t..8 * t + 8]);
    } else {
      FourSummands(b, t);
      ScheduleOfZeros(b, t - 2);
      ScheduleOfZeros(b, t - 7);
      ScheduleOfZeros(b, t - 15);
      ScheduleOfZeros(b, t - 16);
      SmallSigmasOfZero();
      hide Schedule;
    }
  }

  lemma {:induction false} ZeroDigits(s: seq<Byte>)
    requires forall i :: 0 <= i < |s| ==> s[i] == 0
    ensures BigEndian(s) == 0
  {
    if s != [] {
      ZeroDigits(s[..|s| - 1]);
    }
  }

  lemma SmallSigmasOfZero()
    ensures SmallSigma0(0) == 0 && SmallSigma1(0) == 0
  {
    hide Xor;
    XorLaws(0, 0, 0);
    SmallSigma0OfXor(0, 0);
    SmallSigma1OfXor(0, 0);
    SelfXor(SmallSigma0(0));
    SelfXor(SmallSigma1(0));
    hide SmallSigma0, SmallSigma1;
  }

  lemma SelfXor(x: Word)
    ensures Xor(x, x) == 0
  {
    hide Xor, Bit;
    forall i | 0 <= i < 64
      ensures Bit(Xor(x, x), i) == Bit(0, i)
    {
      XorBit(x, x, i);
      BitOfZero(i);
    }
    SameWord(Xor(x, x), 0);
  }

  /** The first t rounds look at the first t constants only. */
  lemma {:induction false} RoundsLookAtFirst(v: Vars, k: seq<Word>, k': seq<Word>, block: seq<Byte>, t: nat)
    requires |k| == |k'| == 80 && |block| == 128 && t <= 80 && k[..t] == k'[..t]
    ensures Rounds(v, k, block, t) == Rounds(v, k', block, t)
    decreases t
  {
    hide Round, Schedule;
    if t > 0 {
      assert k[..t - 1] == k[..t][..t - 1] && k'[..t - 1] == k'[..t][..t - 1];
      assert k[t - 1] == k[..t][t - 1] && k'[t - 1] == k'[..t][t - 1];
      RoundsLookAtFirst(v, k, k', block, t - 1);
    }
  }

  /** Constant t - 1 is added in round t, and so into a and e. */
  lemma RoundsAddConstant(v: Vars, k: seq<Word>, block: seq<Byte>, t: nat, x: Word)
    requires |k| == 80 && |block| == 128 && 0 < t <= 80
    ensures var r := Rounds(v, k, block, t);
            Rounds(v, k[t - 1 := Plus(k[t - 1], x)], block, t) == r.(a := Plus(r.a, x), e := Plus(r.e, x))
  {
    hide Round, Schedule, Plus;
    var k' := k[t - 1 := Plus(k[t - 1], x)];
    assert k'[..t - 1] == k[..t - 1];
    RoundsLookAtFirst(v, k, k', block, t - 1);
    RoundAddsConstant(Rounds(v, k, block, t - 1), k[t - 1], x, Schedule(block, t - 1));
  }

  /** All eighty rounds are done and their result added to what was there. */
  lemma CompressAddsLastConstant(v: Vars, k: seq<Word>, block: seq<Byte>, x: Word)
    requires |k| == 80 && |block| == 128
    ensures var r := Compress(v, k, block);
            Compress(v, k[79 := Plus(k[79], x)], block) == r.(a := Plus(r.a, x), e := Plus(r.e, x))
  {
    hide Rounds, Plus;
    RoundsAddConstant(v, k, block, 80, x);
    var r := Rounds(v, k, block, 80);
    PlusMoves(x, r.a, v.a);
    PlusMoves(x, r.e, v.e);
  }

  function Unrounds(r: Vars, k: seq<Word>, block: seq<Byte>, t: nat): Vars
    requires |k| == 80 && |block| == 128 && t <= 80
    decreases t
  {
    if t == 0 then r
    else Unrounds(Unround(r, k[t - 1], Schedule(block, t - 1)), k, block, t - 1)
  }

  /** Rounds lose nothing. */
  lemma {:induction false} UnroundsUndoRounds(v: Vars, k: seq<Word>, block: seq<Byte>, t: nat)
    requires |k| == 80 && |block| == 128 && t <= 80
    ensures Unrounds(Rounds(v, k, block, t), k, block, t) == v
    decreases t
  {
    hide Round, Unround, Schedule;
    if t > 0 {
      UnroundUndoesRound(Rounds(v, k, block, t - 1), k[t - 1], Schedule(block, t - 1));
      UnroundsUndoRounds(v, k, block, t - 1);
    }
  }

  /** Blocks are taken in order, each from where the ones before it ended. */
  lemma {:induction false} CompressAllChains(v: Vars, k: seq<Word>, b: seq<seq<Byte>>, c: seq<seq<Byte>>)
    requires |k| == 80 && forall i :: 0 <= i < |b| ==> |b[i]| == 128
    requires forall i :: 0 <= i < |c| ==> |c[i]| == 128
    ensures CompressAll(v, k, b + c) == CompressAll(CompressAll(v, k, b), k, c)
    decreases |c|
  {
    hide Compress;
    if c == [] {
      assert b + c == b;
    } else {
      assert (b + c)[..|b + c| - 1] == b + c[..|c| - 1];
      CompressAllChains(v, k, b, c[..|c| - 1]);
    }
  }
}
