/** The SHA-512 compression function of FIPS 180-4 (sections 4.1.3 and 6.4.2) on 64-bit words:
    the reference the paired 32-bit code is measured against. */
module Fips180 {
  import opened Bits

  function Xor(x: Word, y: Word): Word {
    Pow2Of32();
    Bitwise(XorGate, x, y, 64)
  }

  function And(x: Word, y: Word): Word {
    Pow2Of32();
    Bitwise(AndGate, x, y, 64)
  }

  function Not(x: Word): Word {
    BASE * BASE - 1 - x
  }

  /** Addition modulo 2^64. */
  function Plus(x: Word, y: Word): Word {
    (x + y) % (BASE * BASE)
  }

  /** SHR^n. */
  function ShiftRight(x: Word, n: nat): Word {
    Shr(x, n)
  }

  /** ROTR^n: the n low bits move above the others. */
  function Rotr(x: Word, n: nat): Word
    requires n <= 64
  {
    Pow2Of32();
    ShrBelow(x, n, 64 - n);
    ShlBelow(Low(x, n), 64 - n, n);
    Shl(Low(x, n), 64 - n) + Shr(x, n)
  }

  function Ch(x: Word, y: Word, z: Word): Word {
    Xor(And(x, y), And(Not(x), z))
  }

  function Maj(x: Word, y: Word, z: Word): Word {
    Xor(Xor(And(x, y), And(x, z)), And(y, z))
  }

  function BigSigma0(x: Word): Word {
    Xor(Xor(Rotr(x, 28), Rotr(x, 34)), Rotr(x, 39))
  }

  function BigSigma1(x: Word): Word {
    Xor(Xor(Rotr(x, 14), Rotr(x, 18)), Rotr(x, 41))
  }

  function SmallSigma0(x: Word): Word {
    Xor(Xor(Rotr(x, 1), Rotr(x, 8)), ShiftRight(x, 7))
  }

  function SmallSigma1(x: Word): Word {
    Xor(Xor(Rotr(x, 19), Rotr(x, 61)), ShiftRight(x, 6))
  }

  /** The eight working variables. */
  datatype Vars = Vars(a: Word, b: Word, c: Word, d: Word, e: Word, f: Word, g: Word, h: Word)

  /** Word t of a block. */
  function MessageWord(block: seq<Byte>, t: nat): Word
    requires 8 * t + 8 <= |block|
  {
    EightDigits(block[8 * t..8 * t + 8]);
    BigEndian(block[8 * t..8 * t + 8])
  }

  lemma FourDigits(s: seq<Byte>)
    requires |s| == 4
    ensures BigEndian(s) == (((s[0] as int) * 256 + s[1]) * 256 + s[2]) * 256 + s[3] < BASE
  {
    assert BigEndian(s[..3][..2]) == BigEndian(s[..2]) by { assert s[..3][..2] == s[..2]; }
    assert BigEndian(s[..2]) == (s[0] as int) * 256 + s[1] by {
      assert s[..2][..1] == s[..1];
      assert BigEndian(s[..1]) == s[0];
    }
  }

  lemma EightDigits(s: seq<Byte>)
    requires |s| == 8
    ensures BigEndian(s) == BigEndian(s[..4]) * BASE + BigEndian(s[4..]) < BASE * BASE
  {
    AppendDigits(s[..4], s[4..]);
    assert s[..4] + s[4..] == s;
    FourDigits(s[..4]);
    FourDigits(s[4..]);
  }

  lemma AppendDigits(s: seq<Byte>, t: seq<Byte>)
    requires |t| == 4
    ensures BigEndian(s + t) == BigEndian(s) * BASE + BigEndian(t)
  {
    var u := s + t;
    assert u[..|u| - 1] == s + t[..3] && t[..3][..2] == t[..2] && t[..2][..1] == t[..1];
    assert (s + t[..3])[..|s| + 2] == s + t[..2];
    assert (s + t[..2])[..|s| + 1] == s + t[..1];
    assert (s + t[..1])[..|s|] == s && t[..1][..0] == [];
    assert BigEndian(s + t[..1]) == 256 * BigEndian(s) + t[0];
    assert BigEndian(s + t[..2]) == 256 * BigEndian(s + t[..1]) + t[1];
    assert BigEndian(s + t[..3]) == 256 * BigEndian(s + t[..2]) + t[2];
    FourDigits(t);
  }

  /** The message schedule. */
  function Schedule(block: seq<Byte>, t: nat): Word
    requires |block| == 128
  {
    if t < 16 then
      MessageWord(block, t)
    else
      Plus(Plus(Plus(SmallSigma1(Schedule(block, t - 2)), Schedule(block, t - 7)),
                SmallSigma0(Schedule(block, t - 15))), Schedule(block, t - 16))
  }

  function Round(v: Vars, k: Word, w: Word): Vars {
    var t1 := Plus(Plus(Plus(Plus(v.h, BigSigma1(v.e)), Ch(v.e, v.f, v.g)), k), w);
    var t2 := Plus(BigSigma0(v.a), Maj(v.a, v.b, v.c));
    Vars(Plus(t1, t2), v.a, v.b, v.c, Plus(v.d, t1), v.e, v.f, v.g)
  }

  /** The working variables after t rounds. */
  function Rounds(v: Vars, k: seq<Word>, block: seq<Byte>, t: nat): Vars
    requires |k| == 80 && |block| == 128 && t <= 80
  {
    if t == 0 then v else Round(Rounds(v, k, block, t - 1), k[t - 1], Schedule(block, t - 1))
  }

  function AddVars(v: Vars, u: Vars): Vars {
    Vars(Plus(v.a, u.a), Plus(v.b, u.b), Plus(v.c, u.c), Plus(v.d, u.d),
         Plus(v.e, u.e), Plus(v.f, u.f), Plus(v.g, u.g), Plus(v.h, u.h))
  }

  /** The intermediate hash value after one more block. */
  function Compress(v: Vars, k: seq<Word>, block: seq<Byte>): Vars
    requires |k| == 80 && |block| == 128
  {
    AddVars(v, Rounds(v, k, block, 80))
  }

  /** The intermediate hash value after all the blocks, in order. */
  function CompressAll(v: Vars, k: seq<Word>, blocks: seq<seq<Byte>>): Vars
    requires |k| == 80 && forall i :: 0 <= i < |blocks| ==> |blocks[i]| == 128
  {
    if blocks == [] then v
    else Compress(CompressAll(v, k, blocks[..|blocks| - 1]), k, blocks[|blocks| - 1])
  }
}

/** Module 890 of the bundle keeps every 64-bit word as a (high, low) pair of 32-bit halves.
    Each operation on pairs is shown to be the 64-bit operation of the standard. */
module HalfWords {
  import opened Bits
  import opened Fips180

  function Join(hi: Half, lo: Half): Word {
    hi * BASE + lo
  }

  /** `x + y | 0`. */
  function Add(x: Half, y: Half): Half {
    (x + y) % BASE
  }

  function Xor32(x: Half, y: Half): Half {
    Pow2Of32();
    Bitwise(XorGate, x, y, 32)
  }

  function And32(x: Half, y: Half): Half {
    Pow2Of32();
    Bitwise(AndGate, x, y, 32)
  }

  function Or32(x: Half, y: Half): Half {
    Pow2Of32();
    Bitwise(OrGate, x, y, 32)
  }

  /** `x >>> n`. */
  function Ushr(x: Half, n: nat): Half {
    Shr(x, n)
  }

  /** `x << n`: the bits above 32 are lost. */
  function LeftShift(x: Half, n: nat): Half
    requires n <= 32
  {
    Pow2Of32();
    ShlBelow(Low(x, 32 - n), n, 32 - n);
    Shl(Low(x, 32 - n), n)
  }

  // ---- the source's functions ----

  function Ch32(e: Half, t: Half, r: Half): Half {
    Xor32(r, And32(e, Xor32(t, r)))
  }

  function Maj32(e: Half, t: Half, r: Half): Half {
    Or32(And32(e, t), And32(r, Or32(e, t)))
  }

  function Sigma0Half(e: Half, t: Half): Half {
    Xor32(Xor32(Or32(Ushr(e, 28), LeftShift(t, 4)), Or32(Ushr(t, 2), LeftShift(e, 30))),
          Or32(Ushr(t, 7), LeftShift(e, 25)))
  }

  function Sigma1Half(e: Half, t: Half): Half {
    Xor32(Xor32(Or32(Ushr(e, 14), LeftShift(t, 18)), Or32(Ushr(e, 18), LeftShift(t, 14))),
          Or32(Ushr(t, 9), LeftShift(e, 23)))
  }

  function Gamma0(e: Half, t: Half): Half {
    Xor32(Xor32(Or32(Ushr(e, 1), LeftShift(t, 31)), Or32(Ushr(e, 8), LeftShift(t, 24))), Ushr(e, 7))
  }

  function Gamma0Low(e: Half, t: Half): Half {
    Xor32(Xor32(Or32(Ushr(e, 1), LeftShift(t, 31)), Or32(Ushr(e, 8), LeftShift(t, 24))),
          Or32(Ushr(e, 7), LeftShift(t, 25)))
  }

  function Gamma1(e: Half, t: Half): Half {
    Xor32(Xor32(Or32(Ushr(e, 19), LeftShift(t, 13)), Or32(Ushr(t, 29), LeftShift(e, 3))), Ushr(e, 6))
  }

  function Gamma1Low(e: Half, t: Half): Half {
    Xor32(Xor32(Or32(Ushr(e, 19), LeftShift(t, 13)), Or32(Ushr(t, 29), LeftShift(e, 3))),
          Or32(Ushr(e, 6), LeftShift(t, 26)))
  }

  function GetCarry(e: Half, t: Half): Half {
    if e < t then 1 else 0
  }

  // ---- each pair operation is the 64-bit one ----

  /** Adding the low halves, then the high halves and the carry, is addition modulo 2^64. */
  lemma CarryAddIsPlus(ah: Half, al: Half, bh: Half, bl: Half)
    ensures Join((ah + bh + GetCarry(Add(al, bl), bl)) % BASE, Add(al, bl)) == Plus(Join(ah, al), Join(bh, bl))
  {
    CarryIs(al, bl);
    hide Add, GetCarry;
    var low, high := Add(al, bl), ah + bh + GetCarry(Add(al, bl), bl);
    assert Join(ah, al) + Join(bh, bl) == high * BASE + low;
    HighWraps(high, low);
  }

  lemma CarryIs(al: Half, bl: Half)
    ensures al + bl == GetCarry(Add(al, bl), bl) * BASE + Add(al, bl) && GetCarry(Add(al, bl), bl) <= 1
  {
  }

  lemma HighWraps(high: nat, low: Half)
    requires high < 2 * BASE
    ensures (high * BASE + low) % (BASE * BASE) == high % BASE * BASE + low
  {
    if high >= BASE {
      assert high * BASE + low == BASE * BASE + ((high - BASE) * BASE + low);
    }
  }

  lemma JoinIsShl(h: Half, l: Half)
    ensures Join(h, l) == Shl(h, 32) + l
    ensures h < Pow2(32) && l < Pow2(32)
  {
    Pow2Of32();
    ShlIsTimes(h, 32);
  }

  lemma JoinBitwise(g: Gate, ah: Half, al: Half, bh: Half, bl: Half)
    ensures Bitwise(g, Join(ah, al), Join(bh, bl), 64)
         == Bitwise(g, ah, bh, 32) * BASE + Bitwise(g, al, bl, 32)
  {
    hide Bitwise, Shl, Join, Pow2;
    JoinIsShl(ah, al);
    JoinIsShl(bh, bl);
    Pow2Of32();
    BitwiseJoin(g, ah, al, bh, bl, 32, 32);
    ShlIsTimes(Bitwise(g, ah, bh, 32), 32);
  }

  lemma JoinXor(ah: Half, al: Half, bh: Half, bl: Half)
    ensures Xor(Join(ah, al), Join(bh, bl)) == Join(Xor32(ah, bh), Xor32(al, bl))
  {
    JoinBitwise(XorGate, ah, al, bh, bl);
  }

  lemma JoinAnd(ah: Half, al: Half, bh: Half, bl: Half)
    ensures And(Join(ah, al), Join(bh, bl)) == Join(And32(ah, bh), And32(al, bl))
  {
    JoinBitwise(AndGate, ah, al, bh, bl);
  }

  /** Bits shifted out of y at the bottom come back at the top of x. */
  lemma FunnelShift(x: Half, y: Half, n: nat)
    requires 0 < n < 32
    ensures Or32(Ushr(x, n), LeftShift(y, 32 - n)) == Shl(Low(y, n), 32 - n) + Shr(x, n)
  {
    Pow2Of32();
    ShrBelow(x, n, 32 - n);
    OrDisjoint(Shr(x, n), Low(y, n), 32 - n, n);
  }

  lemma ShrOfJoin(h: Half, l: Half, n: nat)
    requires n <= 32
    ensures Shr(Join(h, l), n) == Shl(h, 32 - n) + Shr(l, n)
    ensures Low(Join(h, l), n) == Low(l, n)
  {
    JoinIsShl(h, l);
    ShrJoin(h, l, 32, n);
  }

  /** A half shifted left by 32 - n overflows into the half above by its n-shifted value. */
  lemma Overflow(h: Half, n: nat)
    requires n <= 32
    ensures Shl(h, 32 - n) == Shl(Shr(h, n), 32) + Shl(Low(h, n), 32 - n)
  {
    SplitLow(h, n);
    ShlAdd(Shl(Shr(h, n), n), Low(h, n), 32 - n);
    ShlShl(Shr(h, n), n, 32 - n);
  }

  lemma RotrOfJoin(h: Half, l: Half, n: nat)
    requires n <= 32
    ensures Rotr(Join(h, l), n) == Shl(Low(l, n), 64 - n) + Shl(h, 32 - n) + Shr(l, n)
  {
    ShrOfJoin(h, l, n);
  }

  /** A rotation by less than the width of a half. */
  lemma RotrJoin(h: Half, l: Half, n: nat)
    requires 0 < n < 32
    ensures Rotr(Join(h, l), n)
         == Join(Or32(Ushr(h, n), LeftShift(l, 32 - n)), Or32(Ushr(l, n), LeftShift(h, 32 - n)))
  {
    hide Shl, Shr, Low, Join;
    var hi, lo := Or32(Ushr(h, n), LeftShift(l, 32 - n)), Or32(Ushr(l, n), LeftShift(h, 32 - n));
    RotrOfJoin(h, l, n);
    Overflow(h, n);
    FunnelShift(h, l, n);
    FunnelShift(l, h, n);
    JoinIsShl(hi, lo);
    ShlAdd(Shl(Low(l, n), 32 - n), Shr(h, n), 32);
    ShlShl(Low(l, n), 32 - n, 32);
  }

  lemma FarParts(h: Half, l: Half, m: nat)
    requires m <= 32
    ensures Shr(Join(h, l), 32 + m) == Shr(h, m)
    ensures Low(Join(h, l), 32 + m) == Shl(Low(h, m), 32) + l
  {
    JoinIsShl(h, l);
    ShrJoinFar(h, l, 32, m);
  }

  /** A rotation by more than the width of a half also swaps the halves. */
  lemma RotrJoinFar(h: Half, l: Half, n: nat)
    requires 32 < n < 64
    ensures Rotr(Join(h, l), n) == Rotr(Join(l, h), n - 32)
  {
    var m := n - 32;
    FarParts(h, l, m);
    RotrOfJoin(l, h, m);
    ShlAdd(Shl(Low(h, m), 32), l, 32 - m);
    ShlShl(Low(h, m), 32, 32 - m);
  }

  lemma ShiftRightJoin(h: Half, l: Half, n: nat)
    requires 0 < n < 32
    ensures ShiftRight(Join(h, l), n) == Join(Ushr(h, n), Or32(Ushr(l, n), LeftShift(h, 32 - n)))
  {
    ShrOfJoin(h, l, n);
    Overflow(h, n);
    FunnelShift(l, h, n);
    JoinIsShl(Ushr(h, n), Or32(Ushr(l, n), LeftShift(h, 32 - n)));
  }

  lemma Xor3Join(ah: Half, al: Half, bh: Half, bl: Half, ch: Half, cl: Half)
    ensures Xor(Xor(Join(ah, al), Join(bh, bl)), Join(ch, cl))
         == Join(Xor32(Xor32(ah, bh), ch), Xor32(Xor32(al, bl), cl))
  {
    JoinXor(ah, al, bh, bl);
    JoinXor(Xor32(ah, bh), Xor32(al, bl), ch, cl);
  }

  lemma SplitSigma0(h: Half, l: Half)
    ensures Join(Sigma0Half(h, l), Sigma0Half(l, h)) == BigSigma0(Join(h, l))
  {
    RotrJoin(h, l, 28);
    RotrJoinFar(h, l, 34);
    RotrJoin(l, h, 2);
    RotrJoinFar(h, l, 39);
    RotrJoin(l, h, 7);
    Xor3Join(Or32(Ushr(h, 28), LeftShift(l, 4)), Or32(Ushr(l, 28), LeftShift(h, 4)),
             Or32(Ushr(l, 2), LeftShift(h, 30)), Or32(Ushr(h, 2), LeftShift(l, 30)),
             Or32(Ushr(l, 7), LeftShift(h, 25)), Or32(Ushr(h, 7), LeftShift(l, 25)));
  }

  lemma SplitSigma1(h: Half, l: Half)
    ensures Join(Sigma1Half(h, l), Sigma1Half(l, h)) == BigSigma1(Join(h, l))
  {
    RotrJoin(h, l, 14);
    RotrJoin(h, l, 18);
    RotrJoinFar(h, l, 41);
    RotrJoin(l, h, 9);
    Xor3Join(Or32(Ushr(h, 14), LeftShift(l, 18)), Or32(Ushr(l, 14), LeftShift(h, 18)),
             Or32(Ushr(h, 18), LeftShift(l, 14)), Or32(Ushr(l, 18), LeftShift(h, 14)),
             Or32(Ushr(l, 9), LeftShift(h, 23)), Or32(Ushr(h, 9), LeftShift(l, 23)));
  }

  lemma SplitGamma0(h: Half, l: Half)
    ensures Join(Gamma0(h, l), Gamma0Low(l, h)) == SmallSigma0(Join(h, l))
  {
    RotrJoin(h, l, 1);
    RotrJoin(h, l, 8);
    ShiftRightJoin(h, l, 7);
    Xor3Join(Or32(Ushr(h, 1), LeftShift(l, 31)), Or32(Ushr(l, 1), LeftShift(h, 31)),
             Or32(Ushr(h, 8), LeftShift(l, 24)), Or32(Ushr(l, 8), LeftShift(h, 24)),
             Ushr(h, 7), Or32(Ushr(l, 7), LeftShift(h, 25)));
  }

  lemma SplitGamma1(h: Half, l: Half)
    ensures Join(Gamma1(h, l), Gamma1Low(l, h)) == SmallSigma1(Join(h, l))
  {
    RotrJoin(h, l, 19);
    RotrJoinFar(h, l, 61);
    RotrJoin(l, h, 29);
    ShiftRightJoin(h, l, 6);
    Xor3Join(Or32(Ushr(h, 19), LeftShift(l, 13)), Or32(Ushr(l, 19), LeftShift(h, 13)),
             Or32(Ushr(l, 29), LeftShift(h, 3)), Or32(Ushr(h, 29), LeftShift(l, 3)),
             Ushr(h, 6), Or32(Ushr(l, 6), LeftShift(h, 26)));
  }

  lemma SplitCh(eh: Half, el: Half, fh: Half, fl: Half, gh: Half, gl: Half)
    ensures Join(Ch32(eh, fh, gh), Ch32(el, fl, gl)) == Ch(Join(eh, el), Join(fh, fl), Join(gh, gl))
  {
    Pow2Of32();
    var nh: Half, nl: Half := BASE - 1 - eh, BASE - 1 - el;
    assert Not(Join(eh, el)) == Join(nh, nl);
    ChooseGates(eh, fh, gh, 32);
    ChooseGates(el, fl, gl, 32);
    JoinAnd(eh, el, fh, fl);
    JoinAnd(nh, nl, gh, gl);
    JoinXor(And32(eh, fh), And32(el, fl), And32(nh, gh), And32(nl, gl));
  }

  lemma SplitMaj(ah: Half, al: Half, bh: Half, bl: Half, ch: Half, cl: Half)
    ensures Join(Maj32(ah, bh, ch), Maj32(al, bl, cl)) == Maj(Join(ah, al), Join(bh, bl), Join(ch, cl))
  {
    MajorityGates(ah, bh, ch, 32);
    MajorityGates(al, bl, cl, 32);
    JoinAnd(ah, al, bh, bl);
    JoinAnd(ah, al, ch, cl);
    JoinAnd(bh, bl, ch, cl);
    Xor3Join(And32(ah, bh), And32(al, bl), And32(ah, ch), And32(al, cl), And32(bh, ch), And32(bl, cl));
  }

  // ---- pairs ----

  datatype Pair = Pair(hi: Half, lo: Half) {
    function Value(): Word {
      Join(hi, lo)
    }

    /** The source's addition: `lo = this.lo + y.lo | 0, hi = this.hi + y.hi + getCarry(lo, y.lo) | 0`. */
    function Plus(y: Pair): (r: Pair)
      ensures r.Value() == Fips180.Plus(Value(), y.Value())
    {
      CarryAddIsPlus(hi, lo, y.hi, y.lo);
      var low := Add(lo, y.lo);
      Pair((hi + y.hi + GetCarry(low, y.lo)) % BASE, low)
    }
  }

  lemma PlusSwap(x: Word, y: Word, z: Word)
    ensures Plus(x, y) == Plus(y, x)
    ensures Plus(Plus(x, y), z) == Plus(Plus(x, z), y)
  {
    PlusWraps(x, y);
    PlusWraps(y, x);
    PlusWraps(x, z);
    PlusWraps(Plus(x, y), z);
    PlusWraps(Plus(x, z), y);
    hide Plus;
  }

  lemma PlusWraps(x: Word, y: Word)
    ensures Plus(x, y) == if x + y < BASE * BASE then x + y else x + y - BASE * BASE
  {
  }
}

/** Module 890 of the bundle: the SHA-512 state and its block step. The round constants are
    given to the constructor. */
module Sha512 {
  import opened Bits
  import opened Fips180
  import opened HalfWords

  function ReadInt32BE(e: seq<Byte>, offset: nat): Half
    requires offset + 4 <= |e|
  {
    (((e[offset] as int) * 256 + e[offset + 1]) * 256 + e[offset + 2]) * 256 + e[offset + 3]
  }

  lemma ReadPair(e: seq<Byte>, t: nat)
    requires 8 * t + 8 <= |e|
    ensures Pair(ReadInt32BE(e, 8 * t), ReadInt32BE(e, 8 * t + 4)).Value() == MessageWord(e, t)
  {
    var s := e[8 * t..8 * t + 8];
    EightDigits(s);
    FourDigits(s[..4]);
    FourDigits(s[4..]);
  }

  /** Word t of an array of halves. */
  function PairAt(s: seq<Half>, t: nat): Pair
    requires 2 * t + 1 < |s|
  {
    Pair(s[2 * t], s[2 * t + 1])
  }

  function VarsOf(a: Pair, b: Pair, c: Pair, d: Pair, e: Pair, f: Pair, g: Pair, h: Pair): Vars {
    Vars(a.Value(), b.Value(), c.Value(), d.Value(), e.Value(), f.Value(), g.Value(), h.Value())
  }

  /** The round constants as 64-bit words. */
  function Constants(k: seq<Half>): (r: seq<Word>)
    requires |k| == 160
    ensures |r| == 80
  {
    seq(80, t requires 0 <= t < 80 => PairAt(k, t).Value())
  }

  class Sha512 {
    const k: seq<Half>
    const w: array<Half>
    // each pair is one of the source's field pairs, `_ah` and `_al` to `_hh` and `_hl`
    var a: Pair
    var b: Pair
    var c: Pair
    var d: Pair
    var e: Pair
    var f: Pair
    var g: Pair
    var h: Pair

    ghost predicate Valid()
      reads this
    {
      |k| == 160 && w.Length == 160
    }

    /** The intermediate hash value the fields stand for. */
    ghost function Value(): Vars
      reads this
    {
      VarsOf(a, b, c, d, e, f, g, h)
    }

    constructor (k: seq<Half>)
      requires |k| == 160
      ensures Valid() && fresh(w) && this.k == k
      ensures Value() == Vars(0x6a09e667f3bcc908, 0xbb67ae8584caa73b, 0x3c6ef372fe94f82b, 0xa54ff53a5f1d36f1,
                              0x510e527fade682d1, 0x9b05688c2b3e6c1f, 0x1f83d9abfb41bd6b, 0x5be0cd19137e2179)
    {
      this.k := k;
      w := new Half[160];
      a, b := Pair(1779033703, 4089235720), Pair(3144134277, 2227873595);
      c, d := Pair(1013904242, 4271175723), Pair(2773480762, 1595750129);
      e, f := Pair(1359893119, 2917565137), Pair(2600822924, 725511199);
      g, h := Pair(528734635, 4215389547), Pair(1541459225, 327033209);
    }

    /** `_update`: one block. */
    method Update(block: seq<Byte>)
      requires Valid() && |block| == 128
      modifies this, w
      ensures Valid()
      ensures Value() == Compress(old(Value()), Constants(k), block)
    {
      LoadBlock(block);
      ExtendSchedule(block);
      RunRounds(block);
    }

    method LoadBlock(block: seq<Byte>)
      requires Valid() && |block| == 128
      modifies w
      ensures Filled(w[..], block, 16)
    {
      var t := 0;
      while t < 32
        invariant 0 <= t <= 32 && t % 2 == 0
        invariant Filled(w[..], block, t / 2)
      {
        ghost var before := w[..];
        w[t], w[t + 1] := ReadInt32BE(block, 4 * t), ReadInt32BE(block, 4 * t + 4);
        ReadPair(block, t / 2);
        FilledStep(before, w[..], block, t / 2);
        t := t + 2;
      }
    }

    method ExtendSchedule(block: seq<Byte>)
      requires Valid() && |block| == 128
      requires Filled(w[..], block, 16)
      modifies w
      ensures Filled(w[..], block, 80)
    {
      hide Fips180.Plus, SmallSigma0, SmallSigma1, Schedule, Filled, Join;
      var t := 32;
      while t < 160
        invariant 32 <= t <= 160 && t % 2 == 0
        invariant Filled(w[..], block, t / 2)
      {
        ghost var before, i := w[..], t / 2;
        var r := ScheduleStep(Pair(w[t - 30], w[t - 29]), Pair(w[t - 4], w[t - 3]),
                              Pair(w[t - 14], w[t - 13]), Pair(w[t - 32], w[t - 31]));
        NextWord(before, block, i);
        w[t], w[t + 1] := r.hi, r.lo;
        FilledStep(before, w[..], block, i);
        t := t + 2;
      }
    }

    method RunRounds(block: seq<Byte>)
      requires Valid() && |block| == 128
      requires Filled(w[..], block, 80)
      modifies this
      ensures Value() == Compress(old(Value()), Constants(k), block)
    {
      hide Fips180.Plus, Round, Schedule, Filled, Join;
      var a', b', c', d', e', f', g', h' := a, b, c, d, e, f, g, h;
      ghost var v := Value();
      var t := 0;
      while t < 160
        invariant 0 <= t <= 160 && t % 2 == 0
        invariant Value() == v
        invariant VarsOf(a', b', c', d', e', f', g', h') == Rounds(v, Constants(k), block, t / 2)
      {
        FilledAt(w[..], block, 80, t / 2);
        assert PairAt(k, t / 2).Value() == Constants(k)[t / 2];
        a', b', c', d', e', f', g', h' :=
          OneRound(a', b', c', d', e', f', g', h', Pair(k[t], k[t + 1]), Pair(w[t], w[t + 1]));
        t := t + 2;
      }
      assert VarsOf(a', b', c', d', e', f', g', h') == Rounds(v, Constants(k), block, 80);
      AddFields(a', b', c', d', e', f', g', h');
    }

    /** The closing additions. */
    method AddFields(a': Pair, b': Pair, c': Pair, d': Pair, e': Pair, f': Pair, g': Pair, h': Pair)
      modifies this
      ensures Value() == AddVars(old(Value()), VarsOf(a', b', c', d', e', f', g', h'))
    {
      a, b, c, d := a.Plus(a'), b.Plus(b'), c.Plus(c'), d.Plus(d');
      e, f, g, h := e.Plus(e'), f.Plus(f'), g.Plus(g'), h.Plus(h');
    }
  }

  /** The first n words of the work array are those of the schedule. */
  ghost predicate Filled(s: seq<Half>, block: seq<Byte>, n: nat)
    requires |s| == 160 && |block| == 128 && n <= 80
  {
    forall i :: 0 <= i < n ==> PairAt(s, i).Value() == Schedule(block, i)
  }

  lemma FilledAt(s: seq<Half>, block: seq<Byte>, n: nat, i: nat)
    requires |s| == 160 && |block| == 128 && i < n <= 80 && Filled(s, block, n)
    ensures PairAt(s, i).Value() == Schedule(block, i)
  {
  }

  /** The recurrence, read from the words already there. */
  lemma NextWord(s: seq<Half>, block: seq<Byte>, i: nat)
    requires |s| == 160 && |block| == 128 && 16 <= i < 80 && Filled(s, block, i)
    ensures Schedule(block, i)
            == Plus(Plus(Plus(SmallSigma1(PairAt(s, i - 2).Value()), PairAt(s, i - 7).Value()),
                         SmallSigma0(PairAt(s, i - 15).Value())), PairAt(s, i - 16).Value())
  {
    hide Plus, SmallSigma0, SmallSigma1, Filled, Join;
    FilledAt(s, block, i, i - 15);
    FilledAt(s, block, i, i - 2);
    FilledAt(s, block, i, i - 7);
    FilledAt(s, block, i, i - 16);
    hide PairAt;
  }

  lemma FilledStep(s: seq<Half>, s': seq<Half>, block: seq<Byte>, n: nat)
    requires |s| == |s'| == 160 && |block| == 128 && n < 80
    requires Filled(s, block, n) && s'[..2 * n] == s[..2 * n]
    requires PairAt(s', n).Value() == Schedule(block, n)
    ensures Filled(s', block, n + 1)
  {
    forall i | 0 <= i < n
      ensures PairAt(s', i).Value() == Schedule(block, i)
    {
      assert s'[2 * i] == s'[..2 * n][2 * i] && s'[2 * i + 1] == s'[..2 * n][2 * i + 1];
      FilledAt(s, block, n, i);
    }
  }

  method ScheduleStep(w15: Pair, w2: Pair, w7: Pair, w16: Pair) returns (r: Pair)
    ensures r.Value() == Plus(Plus(Plus(SmallSigma1(w2.Value()), w7.Value()), SmallSigma0(w15.Value())), w16.Value())
  {
    var gamma0 := Pair(Gamma0(w15.hi, w15.lo), Gamma0Low(w15.lo, w15.hi));
    var gamma1 := Pair(Gamma1(w2.hi, w2.lo), Gamma1Low(w2.lo, w2.hi));
    SplitGamma0(w15.hi, w15.lo);
    SplitGamma1(w2.hi, w2.lo);
    r := w7.Plus(gamma0);
    r := r.Plus(gamma1);
    r := r.Plus(w16);
    PlusSwap(w7.Value(), gamma0.Value(), gamma1.Value());
    PlusSwap(w7.Value(), gamma1.Value(), gamma0.Value());
  }

  method OneRound(a: Pair, b: Pair, c: Pair, d: Pair, e: Pair, f: Pair, g: Pair, h: Pair, k: Pair, w: Pair)
    returns (a': Pair, b': Pair, c': Pair, d': Pair, e': Pair, f': Pair, g': Pair, h': Pair)
    ensures VarsOf(a', b', c', d', e', f', g', h') == Round(VarsOf(a, b, c, d, e, f, g, h), k.Value(), w.Value())
  {
    var maj := Pair(Maj32(a.hi, b.hi, c.hi), Maj32(a.lo, b.lo, c.lo));
    var sigma0 := Pair(Sigma0Half(a.hi, a.lo), Sigma0Half(a.lo, a.hi));
    var sigma1 := Pair(Sigma1Half(e.hi, e.lo), Sigma1Half(e.lo, e.hi));
    var choice := Pair(Ch32(e.hi, f.hi, g.hi), Ch32(e.lo, f.lo, g.lo));
    SplitMaj(a.hi, a.lo, b.hi, b.lo, c.hi, c.lo);
    SplitSigma0(a.hi, a.lo);
    SplitSigma1(e.hi, e.lo);
    SplitCh(e.hi, e.lo, f.hi, f.lo, g.hi, g.lo);
    var t1 := sigma1.Plus(h);
    PlusSwap(sigma1.Value(), h.Value(), 0);
    t1 := t1.Plus(choice);
    t1 := t1.Plus(k);
    t1 := t1.Plus(w);
    var t2 := maj.Plus(sigma0);
    PlusSwap(maj.Value(), sigma0.Value(), 0);
    h', g', f' := g, f, e;
    e' := t1.Plus(d);
    PlusSwap(t1.Value(), d.Value(), 0);
    d', c', b' := c, b, a;
    a' := t2.Plus(t1);
    PlusSwap(t2.Value(), t1.Value(), 0);
  }
}
