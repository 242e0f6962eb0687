/** Fixed-width unsigned words as numbers, with the shifts and the bitwise operators on them
    defined bit by bit, so that facts about every width are proved by induction.

    A JavaScript number that passes through a 32-bit operator is represented by its residue
    modulo 2^32 (a Half): `|0`, `>>>` and the bitwise operators agree on residues. */
module Bits {
  const BASE: int := 0x1_0000_0000

  type Byte = x: int | 0 <= x < 256
  type Half = x: int | 0 <= x < BASE
  type Word = x: int | 0 <= x < BASE * BASE

  datatype Gate = AndGate | OrGate | XorGate {
    function Apply(a: int, b: int): int {
      match this
      case AndGate => if a == 1 && b == 1 then 1 else 0
      case OrGate => if a == 1 || b == 1 then 1 else 0
      case XorGate => if a != b then 1 else 0
    }
  }

  /** x * 2^n. */
  function Shl(x: nat, n: nat): (r: nat)
    ensures r >= x
  {
    if n == 0 then x else 2 * Shl(x, n - 1)
  }

  /** x without its n low bits. */
  function Shr(x: nat, n: nat): (r: nat)
    ensures r <= x
  {
    if n == 0 then x else Shr(x / 2, n - 1)
  }

  function Pow2(n: nat): (p: nat)
    ensures p > 0
  {
    Shl(1, n)
  }

  /** The n low bits of x. */
  function Low(x: nat, n: nat): (r: nat)
    ensures r < Pow2(n)
    ensures r <= x
  {
    if n == 0 then 0 else x % 2 + 2 * Low(x / 2, n - 1)
  }

  /** The gate applied to the n low bits of x and y, bit by bit. */
  function Bitwise(g: Gate, x: nat, y: nat, n: nat): (r: nat)
    ensures r < Pow2(n)
  {
    if n == 0 then 0 else g.Apply(x % 2, y % 2) + 2 * Bitwise(g, x / 2, y / 2, n - 1)
  }

  function Power256(n: nat): (p: nat)
    ensures p > 0
  {
    if n == 0 then 1 else 256 * Power256(n - 1)
  }

  /** The number whose base-256 digits are s, most significant first. */
  function BigEndian(s: seq<Byte>): nat {
    if s == [] then 0 else 256 * BigEndian(s[..|s| - 1]) + s[|s| - 1]
  }

  // ---- shifts ----

  lemma {:induction false} ShlAdd(x: nat, y: nat, n: nat)
    ensures Shl(x + y, n) == Shl(x, n) + Shl(y, n)
  {
    if n > 0 {
      ShlAdd(x, y, n - 1);
    }
  }

  lemma {:induction false} ShlShl(x: nat, a: nat, b: nat)
    ensures Shl(Shl(x, a), b) == Shl(x, a + b)
  {
    if b > 0 {
      ShlShl(x, a, b - 1);
    }
  }

  lemma {:induction false} ShrShr(x: nat, a: nat, b: nat)
    ensures Shr(Shr(x, a), b) == Shr(x, a + b)
  {
    if a > 0 {
      ShrShr(x / 2, a - 1, b);
    }
  }

  lemma {:induction false} SplitLow(x: nat, n: nat)
    ensures x == Shl(Shr(x, n), n) + Low(x, n)
  {
    if n > 0 {
      SplitLow(x / 2, n - 1);
    }
  }

  lemma {:induction false} ShrBelow(x: nat, n: nat, m: nat)
    requires x < Pow2(n + m)
    ensures Shr(x, n) < Pow2(m)
  {
    if n > 0 {
      ShrBelow(x / 2, n - 1, m);
    }
  }

  lemma {:induction false} ShlBelow(x: nat, n: nat, m: nat)
    requires x < Pow2(m)
    ensures Shl(x, n) + Pow2(n) <= Pow2(n + m)
  {
    if n > 0 {
      ShlBelow(x, n - 1, m);
    }
  }

  lemma ShrUnfolds(x: nat, half: nat, n: nat)
    requires half == x / 2
    ensures if n == 0 then Shr(x, n) == x && Low(x, n) == 0
            else Shr(x, n) == Shr(half, n - 1) && Low(x, n) == x % 2 + 2 * Low(half, n - 1)
  {
  }

  /** Shifting a joined word by no more than the width of its low part. */
  lemma {:induction false} ShrJoin(h: nat, l: nat, k: nat, n: nat)
    requires n <= k
    ensures Shr(Shl(h, k) + l, n) == Shl(h, k - n) + Shr(l, n)
    ensures Low(Shl(h, k) + l, n) == Low(l, n)
  {
    hide Shr, Low, Pow2;
    ShrUnfolds(Shl(h, k) + l, (Shl(h, k) + l) / 2, n);
    ShrUnfolds(l, l / 2, n);
    if n > 0 {
      AddEven(Shl(h, k - 1), l);
      ShrUnfolds(Shl(h, k) + l, Shl(h, k - 1) + l / 2, n);
      ShrJoin(h, l / 2, k - 1, n - 1);
    }
  }

  lemma {:induction false} ShrAll(x: nat, n: nat)
    requires x < Pow2(n)
    ensures Shr(x, n) == 0 && Low(x, n) == x
  {
    if n > 0 {
      ShrAll(x / 2, n - 1);
    }
  }

  /** Shifting a joined word by more than the width of its low part. */
  lemma {:induction false} ShrJoinFar(h: nat, l: nat, k: nat, m: nat)
    requires l < Pow2(k)
    ensures Shr(Shl(h, k) + l, k + m) == Shr(h, m)
    ensures Low(Shl(h, k) + l, k + m) == Shl(Low(h, m), k) + l
  {
    if k > 0 {
      ShrJoinFar(h, l / 2, k - 1, m);
      AddEven(Shl(h, k - 1), l);
    }
  }

  // ---- bitwise operators ----

  /** The operator works on the k low bits and the bits above them separately. */
  lemma {:induction false} BitwiseJoin(g: Gate, h1: nat, l1: nat, h2: nat, l2: nat, k: nat, m: nat)
    requires l1 < Pow2(k) && l2 < Pow2(k)
    ensures Bitwise(g, Shl(h1, k) + l1, Shl(h2, k) + l2, k + m)
         == Shl(Bitwise(g, h1, h2, m), k) + Bitwise(g, l1, l2, k)
    decreases k
  {
    hide Bitwise, Pow2, Gate.Apply;
    if k == 0 {
      BitwiseNothing(g, l1, l2);
    } else {
      Doubles(k);
      var u, v := Shl(h1, k - 1), Shl(h2, k - 1);
      BitwiseJoin(g, h1, l1 / 2, h2, l2 / 2, k - 1, m);
      AddEven(u, l1);
      AddEven(v, l2);
      BitwiseUnfolds(g, 2 * u + l1, 2 * v + l2, k + m);
      BitwiseUnfolds(g, l1, l2, k);
    }
  }

  lemma BitwiseNothing(g: Gate, x: nat, y: nat)
    ensures Pow2(0) == 1 && Bitwise(g, x, y, 0) == 0
  {
  }

  lemma BitwiseUnfolds(g: Gate, x: nat, y: nat, n: nat)
    requires n > 0
    ensures Bitwise(g, x, y, n) == g.Apply(x % 2, y % 2) + 2 * Bitwise(g, x / 2, y / 2, n - 1)
  {
  }

  lemma AddEven(u: nat, l: nat)
    ensures (2 * u + l) / 2 == u + l / 2 && (2 * u + l) % 2 == l % 2
  {
  }

  lemma {:induction false} Symmetric(g: Gate, x: nat, y: nat, n: nat)
    ensures Bitwise(g, x, y, n) == Bitwise(g, y, x, n)
  {
    if n > 0 {
      Symmetric(g, x / 2, y / 2, n - 1);
    }
  }

  lemma {:induction false} OrWithZero(x: nat, n: nat)
    requires x < Pow2(n)
    ensures Bitwise(OrGate, x, 0, n) == x == Bitwise(OrGate, 0, x, n)
  {
    if n > 0 {
      OrWithZero(x / 2, n - 1);
    }
  }

  lemma {:induction false} ShlZero(k: nat)
    ensures Shl(0, k) == 0
  {
    if k > 0 {
      ShlZero(k - 1);
    }
  }

  /** Numbers with no bit in common: or is addition. */
  lemma OrDisjoint(y: nat, q: nat, k: nat, m: nat)
    requires y < Pow2(k) && q < Pow2(m)
    ensures Bitwise(OrGate, y, Shl(q, k), k + m) == Shl(q, k) + y
  {
    BitwiseJoin(OrGate, 0, y, q, 0, k, m);
    ShlZero(k);
    OrWithZero(q, m);
    OrWithZero(y, k);
  }

  lemma BitwiseStep(g: Gate, x: nat, y: nat, n: nat)
    requires n > 0
    ensures Bitwise(g, x, y, n) % 2 == g.Apply(x % 2, y % 2)
    ensures Bitwise(g, x, y, n) / 2 == Bitwise(g, x / 2, y / 2, n - 1)
  {
  }

  function Choose(e: nat, t: nat, r: nat, n: nat): nat {
    Bitwise(XorGate, r, Bitwise(AndGate, e, Bitwise(XorGate, t, r, n), n), n)
  }

  lemma ChooseStep(e: nat, t: nat, r: nat, n: nat)
    requires n > 0
    ensures Choose(e, t, r, n) % 2 == (if e % 2 == 1 then t % 2 else r % 2)
    ensures Choose(e, t, r, n) / 2 == Choose(e / 2, t / 2, r / 2, n - 1)
  {
    var a := Bitwise(XorGate, t, r, n);
    BitwiseStep(XorGate, t, r, n);
    BitwiseStep(AndGate, e, a, n);
    BitwiseStep(XorGate, r, Bitwise(AndGate, e, a, n), n);
  }

  /** Choosing with the source's three gates is choosing with the standard's four. */
  lemma {:induction false} ChooseGates(e: nat, t: nat, r: nat, n: nat)
    requires e < Pow2(n)
    ensures Choose(e, t, r, n)
         == Bitwise(XorGate, Bitwise(AndGate, e, t, n), Bitwise(AndGate, Pow2(n) - 1 - e, r, n), n)
  {
    hide Bitwise, Choose, Pow2;
    if n == 0 {
      ChooseNothing(e, t, r);
    } else {
      Doubles(n);
      NotStep(Pow2(n - 1), e);
      ChooseGates(e / 2, t / 2, r / 2, n - 1);
      ChooseStep(e, t, r, n);
      var a, b := Bitwise(AndGate, e, t, n), Bitwise(AndGate, Pow2(n) - 1 - e, r, n);
      BitwiseStep(AndGate, e, t, n);
      BitwiseStep(AndGate, Pow2(n) - 1 - e, r, n);
      BitwiseStep(XorGate, a, b, n);
      SameHalves(Choose(e, t, r, n), Bitwise(XorGate, a, b, n));
    }
  }

  lemma ChooseNothing(e: nat, t: nat, r: nat)
    ensures Pow2(0) == 1 && Choose(e, t, r, 0) == 0 && forall g, x, y :: Bitwise(g, x, y, 0) == 0
  {
  }

  lemma Doubles(n: nat)
    requires n > 0
    ensures Pow2(n) == 2 * Pow2(n - 1)
  {
  }

  lemma NotStep(p: nat, e: nat)
    requires e < 2 * p
    ensures (2 * p - 1 - e) % 2 == 1 - e % 2 && (2 * p - 1 - e) / 2 == p - 1 - e / 2
  {
  }

  lemma SameHalves(x: nat, y: nat)
    requires x % 2 == y % 2 && x / 2 == y / 2
    ensures x == y
  {
  }

  function Majority(e: nat, t: nat, r: nat, n: nat): nat {
    Bitwise(OrGate, Bitwise(AndGate, e, t, n), Bitwise(AndGate, r, Bitwise(OrGate, e, t, n), n), n)
  }

  lemma MajorityStep(e: nat, t: nat, r: nat, n: nat)
    requires n > 0
    ensures Majority(e, t, r, n)
         == (if e % 2 + t % 2 + r % 2 >= 2 then 1 else 0) + 2 * Majority(e / 2, t / 2, r / 2, n - 1)
  {
    var a, o := Bitwise(AndGate, e, t, n), Bitwise(OrGate, e, t, n);
    BitwiseStep(AndGate, e, t, n);
    BitwiseStep(OrGate, e, t, n);
    BitwiseStep(AndGate, r, o, n);
    BitwiseStep(OrGate, a, Bitwise(AndGate, r, o, n), n);
  }

  /** The source's majority is the standard's. */
  lemma {:induction false} MajorityGates(e: nat, t: nat, r: nat, n: nat)
    ensures Majority(e, t, r, n)
         == Bitwise(XorGate, Bitwise(XorGate, Bitwise(AndGate, e, t, n), Bitwise(AndGate, e, r, n), n),
                    Bitwise(AndGate, t, r, n), n)
  {
    if n > 0 {
      MajorityGates(e / 2, t / 2, r / 2, n - 1);
      MajorityStep(e, t, r, n);
      var a, b, c := Bitwise(AndGate, e, t, n), Bitwise(AndGate, e, r, n), Bitwise(AndGate, t, r, n);
      BitwiseStep(AndGate, e, t, n);
      BitwiseStep(AndGate, e, r, n);
      BitwiseStep(AndGate, t, r, n);
      BitwiseStep(XorGate, a, b, n);
      BitwiseStep(XorGate, Bitwise(XorGate, a, b, n), c, n);
    }
  }

  // ---- powers of two ----

  lemma {:induction false} ShlIsTimes(x: nat, n: nat)
    ensures Shl(x, n) == x * Pow2(n)
  {
    if n > 0 {
      ShlIsTimes(x, n - 1);
      DoubleFactor(x, Pow2(n - 1));
    }
  }

  lemma DoubleFactor(x: int, p: int)
    ensures x * (2 * p) == 2 * (x * p)
  {
  }

  lemma Pow2Of16()
    ensures Pow2(16) == 0x1_0000
  {
    assert Pow2(2) == 4 by { assert Pow2(1) == 2; }
    ShlShl(1, 2, 2);
    ShlIsTimes(4, 2);
    ShlShl(1, 4, 4);
    ShlIsTimes(16, 4);
    ShlShl(1, 8, 8);
    ShlIsTimes(256, 8);
  }

  lemma Pow2Of32()
    ensures Pow2(32) == BASE && Pow2(64) == BASE * BASE
  {
    Pow2Of16();
    ShlShl(1, 16, 16);
    ShlIsTimes(0x1_0000, 16);
    ShlShl(1, 32, 32);
    ShlIsTimes(BASE, 32);
  }
}

/** Copying into arrays, and joining chunks. */
module Buffers {
  lemma Associative<T>(a: seq<T>, b: seq<T>, c: seq<T>)
    ensures a + b + c == a + (b + c)
  {
  }

  function Flatten<T>(chunks: seq<seq<T>>): seq<T> {
    if chunks == [] then [] else Flatten(chunks[..|chunks| - 1]) + chunks[|chunks| - 1]
  }

  method Copy<T>(target: array<T>, i: nat, source: seq<T>, l: nat, c: nat)
    requires i + c <= target.Length && l + c <= |source|
    modifies target
    ensures target[..] == old(target[..i]) + source[l..l + c] + old(target[i + c..])
  {
    var u := 0;
    while u < c
      invariant 0 <= u <= c
      invariant target[..i + u] == old(target[..i]) + source[l..l + u]
      invariant target[i + u..] == old(target[i + u..])
    {
      target[i + u] := source[l + u];
      u := u + 1;
    }
  }
}
