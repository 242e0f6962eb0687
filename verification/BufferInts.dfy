/** Signed integers of any width in a byte buffer. */
module BufferInts {
  import opened Arithmetic
  import opened Bits

  datatype Error = ValueOutOfBounds | IndexOutOfRange | BeyondBuffer
  datatype Result<T> = Ok(value: T) | Err(error: Error)

  /** `/` followed by `|0`: towards zero, then into 32 signed bits. */
  function Truncated(v: int, d: int): int
    requires d > 0
  {
    if v >= 0 then v / d else -(-v / d)
  }

  function ToInt32(x: int): (r: int)
    ensures -0x8000_0000 <= r < 0x8000_0000
  {
    (x + 0x8000_0000) % 0x1_0000_0000 - 0x8000_0000
  }

  /** `255&`. */
  function LowByte(x: int): Byte {
    x % 256
  }

  /** Byte `a` of the two's complement of `v`, the lowest being byte 0. */
  function ByteAt(v: int, a: nat): Byte {
    v / Power256(a) % 256
  }

  function LittleEndian(s: seq<Byte>): nat {
    if s == [] then 0 else s[0] + 256 * LittleEndian(s[1..])
  }

  /** The byte at place i counts 256 to the power i: low bytes come first. */
  lemma {:induction false} LittleEndianWeighs(s: seq<Byte>, i: nat, b: Byte)
    requires i < |s|
    ensures LittleEndian(s[i := b]) - LittleEndian(s) == (b - s[i]) * Power256(i)
  {
    if i > 0 {
      LittleEndianWeighs(s[1..], i - 1, b);
      assert s[i := b][1..] == s[1..][i - 1 := b];
      Grouped((b - s[i]) as int, Power256(i - 1));
    } else {
      assert s[i := b][1..] == s[1..];
    }
  }

  lemma Grouped(d: int, p: int)
    ensures 256 * (d * p) == d * (256 * p)
  {
  }

  /** And in the other form high bytes come first. */
  lemma {:induction false} BigEndianWeighs(s: seq<Byte>, i: nat, b: Byte)
    requires i < |s|
    ensures BigEndian(s[i := b]) - BigEndian(s) == (b - s[i]) * Power256(|s| - 1 - i)
  {
    var n := |s| - 1;
    if i < n {
      BigEndianWeighs(s[..n], i, b);
      assert s[i := b][..n] == s[..n][i := b];
      Grouped((b - s[i]) as int, Power256(n - 1 - i));
    } else {
      assert s[i := b][..n] == s[..n];
    }
  }

  /** The ranges of one, two and four bytes, and the extreme bytes of one. */
  lemma RangesAre(v: int)
    ensures Fits(v, 1) <==> -128 <= v <= 127
    ensures Fits(v, 2) <==> -32768 <= v <= 32767
    ensures Fits(v, 4) <==> -2147483648 <= v <= 2147483647
    ensures Signed(127, 1) == 127 && Signed(128, 1) == -128 && Signed(255, 1) == -1
  {
    assert Power256(1) == 256 && Power256(2) == 0x1_0000 && Power256(3) == 0x100_0000;
  }

  function Signed(x: int, size: nat): int
    requires size > 0
  {
    if x >= 128 * Power256(size - 1) then x - Power256(size) else x
  }

  predicate Fits(v: int, size: nat)
    requires size > 0
  {
    -128 * Power256(size - 1) <= v < 128 * Power256(size - 1)
  }

  // ---- dividing towards zero with a borrow is dividing downwards ----

  lemma TruncatedIsFloor(v: int, d: int)
    requires d > 0
    ensures Truncated(v, d) - (if v < 0 && v % d != 0 then 1 else 0) == v / d
  {
    if v < 0 {
      var q, r := -v / d, -v % d;
      assert -v == q * d + r;
      if r == 0 {
        assert v == -q * d + 0;
        Quotient(v, d, -q, 0);
      } else {
        assert v == (-q - 1) * d + (d - r);
        Quotient(v, d, -q - 1, d - r);
      }
    }
  }

  lemma LowByteOfInt32(x: int, b: int)
    ensures LowByte(ToInt32(x) - b) == LowByte(x - b)
  {
    var k := (x + 0x8000_0000) / 0x1_0000_0000;
    assert ToInt32(x) == x - 0x1_0000_0000 * k;
    assert (x - b - 256 * (0x100_0000 * k)) % 256 == (x - b) % 256;
  }

  /** The borrow: something lower than byte `a` is not zero. */
  lemma BorrowStep(v: int, a: nat)
    ensures v % Power256(a + 1) != 0 <==> v % Power256(a) != 0 || ByteAt(v, a) != 0
    ensures v % Power256(a + 1) == v % Power256(a) + Power256(a) * ByteAt(v, a)
  {
    var p := Power256(a);
    var q := v / p;
    assert v == q * p + v % p && q == 256 * (q / 256) + q % 256;
    assert v == (256 * (q / 256) + q % 256) * p + v % p;
    assert v == q / 256 * (256 * p) + (p * (q % 256) + v % p);
    Small(p, q % 256, v % p);
    Quotient(v, 256 * p, q / 256, p * (q % 256) + v % p);
    assert q % 256 > 0 ==> p * (q % 256) > 0;
  }

  lemma Small(p: int, b: int, r: int)
    requires 0 <= b < 256 && 0 <= r < p
    ensures 0 <= p * b + r < 256 * p
  {
    assert p * b <= p * 255;
  }

  lemma NextByte(v: int, a: nat, borrow: int)
    requires borrow == if v < 0 && v % Power256(a) != 0 then 1 else 0
    ensures LowByte(ToInt32(Truncated(v, Power256(a))) - borrow) == ByteAt(v, a)
  {
    hide Power256;
    TruncatedIsFloor(v, Power256(a));
    LowByteOfInt32(Truncated(v, Power256(a)), borrow);
  }

  // ---- the loops ----

  method CheckInt(value: int, offset: nat, size: nat, length: nat) returns (r: Result<()>)
    requires size > 0
    ensures r == if !Fits(value, size) then Err(ValueOutOfBounds)
                 else if offset + size > length then Err(IndexOutOfRange) else Ok(())
  {
    var half := 128 * Power256(size - 1);
    if value > half - 1 || value < -half {
      return Err(ValueOutOfBounds);
    }
    if offset + size > length {
      return Err(IndexOutOfRange);
    }
    r := Ok(());
  }

  /** `writeIntLE`; with `noAssert` the caller answers for the range. */
  method WriteIntLE(buf: array<Byte>, value: int, offset: nat, size: nat, noAssert: bool) returns (r: Result<nat>)
    requires size > 0 && (noAssert ==> offset + size <= buf.Length)
    modifies buf
    ensures !noAssert && !Fits(value, size) ==> r == Err(ValueOutOfBounds) && buf[..] == old(buf[..])
    ensures !noAssert && Fits(value, size) && offset + size > buf.Length ==>
              r == Err(IndexOutOfRange) && buf[..] == old(buf[..])
    ensures offset + size <= buf.Length && (noAssert || Fits(value, size)) ==>
              && r == Ok(offset + size)
              && (forall a :: 0 <= a < size ==> buf[offset + a] == ByteAt(value, a))
              && buf[..offset] == old(buf[..offset]) && buf[offset + size..] == old(buf[offset + size..])
  {
    if !noAssert {
      var c := CheckInt(value, offset, size, buf.Length);
      if c.Err? {
        return Err(c.error);
      }
    }
    var a, mul, sub := 1, 1, 0;
    buf[offset] := LowByte(value);
    while a < size
      invariant 1 <= a <= size && mul == Power256(a - 1)
      invariant sub == if value < 0 && value % Power256(a - 1) != 0 then 1 else 0
      invariant forall i :: 0 <= i < a ==> buf[offset + i] == ByteAt(value, i)
      invariant buf[..offset] == old(buf[..offset]) && buf[offset + size..] == old(buf[offset + size..])
    {
      PowerMore(a - 1);
      hide Power256, ByteAt, Truncated, ToInt32, LowByte, Fits;
      mul := mul * 256;
      BorrowStep(value, a - 1);
      if value < 0 && sub == 0 && buf[offset + a - 1] != 0 {
        sub := 1;
      }
      NextByte(value, a, sub);
      buf[offset + a] := LowByte(ToInt32(Truncated(value, mul)) - sub);
      a := a + 1;
    }
    r := Ok(offset + size);
  }

  /** `writeIntBE`: the same bytes from the far end. */
  method WriteIntBE(buf: array<Byte>, value: int, offset: nat, size: nat, noAssert: bool) returns (r: Result<nat>)
    requires size > 0 && (noAssert ==> offset + size <= buf.Length)
    modifies buf
    ensures !noAssert && !Fits(value, size) ==> r == Err(ValueOutOfBounds) && buf[..] == old(buf[..])
    ensures !noAssert && Fits(value, size) && offset + size > buf.Length ==>
              r == Err(IndexOutOfRange) && buf[..] == old(buf[..])
    ensures offset + size <= buf.Length && (noAssert || Fits(value, size)) ==>
              && r == Ok(offset + size)
              && (forall a :: 0 <= a < size ==> buf[offset + size - 1 - a] == ByteAt(value, a))
              && buf[..offset] == old(buf[..offset]) && buf[offset + size..] == old(buf[offset + size..])
  {
    if !noAssert {
      var c := CheckInt(value, offset, size, buf.Length);
      if c.Err? {
        return Err(c.error);
      }
    }
    var a, mul, sub := size - 1, 1, 0;
    buf[offset + a] := LowByte(value);
    a := a - 1;
    while a >= 0
      invariant -1 <= a < size - 1 && mul == Power256(size - 2 - a)
      invariant sub == if value < 0 && value % Power256(size - 2 - a) != 0 then 1 else 0
      invariant forall i :: 0 <= i < size - 1 - a ==> buf[offset + size - 1 - i] == ByteAt(value, i)
      invariant buf[..offset] == old(buf[..offset]) && buf[offset + size..] == old(buf[offset + size..])
    {
      PowerMore(size - 2 - a);
      hide Power256, ByteAt, Truncated, ToInt32, LowByte, Fits;
      mul := mul * 256;
      BorrowStep(value, size - 2 - a);
      if value < 0 && sub == 0 && buf[offset + a + 1] != 0 {
        sub := 1;
      }
      NextByte(value, size - 1 - a, sub);
      buf[offset + a] := LowByte(ToInt32(Truncated(value, mul)) - sub);
      a := a - 1;
    }
    r := Ok(offset + size);
  }

  lemma Regroup(a: int, b: int, c: int)
    ensures a * (b * c) == a * b * c
  {
  }

  lemma PowerMore(n: nat)
    ensures Power256(n + 1) == 256 * Power256(n)
  {
  }

  lemma {:induction false} LittleEndianMore(s: seq<Byte>, b: Byte)
    ensures LittleEndian(s + [b]) == LittleEndian(s) + Power256(|s|) * b
  {
    if s == [] {
      assert s + [b] == [b];
    } else {
      assert (s + [b])[1..] == s[1..] + [b];
      LittleEndianMore(s[1..], b);
      PowerMore(|s| - 1);
      Regroup(256, Power256(|s| - 1), b);
      assert LittleEndian(s + [b]) == s[0] + 256 * LittleEndian(s[1..] + [b]);
      hide Power256;
    }
  }

  /** `readIntLE`. */
  method ReadIntLE(buf: array<Byte>, offset: nat, size: nat, noAssert: bool) returns (r: Result<int>)
    requires size > 0 && (noAssert ==> offset + size <= buf.Length)
    ensures r == if offset + size > buf.Length then Err(BeyondBuffer)
                 else Ok(Signed(LittleEndian(buf[offset..offset + size]), size))
  {
    if !noAssert && offset + size > buf.Length {
      return Err(BeyondBuffer);
    }
    hide LittleEndian, Power256;
    var val: int, mul: int, i := buf[offset], 1, 1;
    ghost var bytes := buf[offset..offset + size];
    LittleEndianFirst(bytes);
    while i < size
      invariant 1 <= i <= size && mul == Power256(i - 1) && val == LittleEndian(bytes[..i])
    {
      mul := mul * 256;
      LittleEndianNext(bytes, i);
      val := val + buf[offset + i] * mul;
      i := i + 1;
    }
    assert bytes[..i] == bytes;
    PowerMore(size - 1);
    mul := mul * 128;
    if val >= mul {
      val := val - Power256(size);
    }
    r := Ok(val);
  }

  lemma LittleEndianFirst(s: seq<Byte>)
    requires s != []
    ensures LittleEndian(s[..1]) == s[0] && Power256(0) == 1
  {
    assert s[..1][1..] == [];
  }

  lemma LittleEndianNext(s: seq<Byte>, i: nat)
    requires 0 < i < |s|
    ensures LittleEndian(s[..i + 1]) == LittleEndian(s[..i]) + s[i] * Power256(i)
    ensures Power256(i) == 256 * Power256(i - 1)
  {
    LittleEndianMore(s[..i], s[i]);
    assert s[..i + 1] == s[..i] + [s[i]];
    hide LittleEndian;
  }

  lemma {:induction false} BigEndianMore(b: Byte, s: seq<Byte>)
    ensures BigEndian([b] + s) == BigEndian(s) + Power256(|s|) * b
  {
    if s == [] {
      assert [b] + s == [b] && [b][..0] == [];
    } else {
      var n := |s| - 1;
      assert ([b] + s)[..n + 1] == [b] + s[..n];
      BigEndianMore(b, s[..n]);
      Regroup(256, Power256(n), b);
      var whole := [b] + s;
      assert BigEndian(whole) == 256 * BigEndian([b] + s[..n]) + s[n];
      hide BigEndian, Power256;
    }
  }

  /** `readIntBE`. */
  method ReadIntBE(buf: array<Byte>, offset: nat, size: nat, noAssert: bool) returns (r: Result<int>)
    requires size > 0 && (noAssert ==> offset + size <= buf.Length)
    ensures r == if offset + size > buf.Length then Err(BeyondBuffer)
                 else Ok(Signed(BigEndian(buf[offset..offset + size]), size))
  {
    if !noAssert && offset + size > buf.Length {
      return Err(BeyondBuffer);
    }
    hide BigEndian, Power256;
    var i, mul: int := size - 1, 1;
    var val: int := buf[offset + i];
    ghost var bytes := buf[offset..offset + size];
    BigEndianFirst(bytes);
    while i > 0
      invariant 0 <= i < size && mul == Power256(size - 1 - i) && val == BigEndian(bytes[i..])
    {
      mul := mul * 256;
      i := i - 1;
      BigEndianNext(bytes, i);
      val := val + buf[offset + i] * mul;
    }
    assert bytes[0..] == bytes;
    PowerMore(size - 1);
    mul := mul * 128;
    if val >= mul {
      val := val - Power256(size);
    }
    r := Ok(val);
  }

  lemma BigEndianFirst(s: seq<Byte>)
    requires s != []
    ensures BigEndian(s[|s| - 1..]) == s[|s| - 1] && Power256(0) == 1
  {
    var t := s[|s| - 1..];
    assert t[..0] == [];
  }

  lemma BigEndianNext(s: seq<Byte>, i: nat)
    requires i + 1 < |s|
    ensures BigEndian(s[i..]) == BigEndian(s[i + 1..]) + s[i] * Power256(|s| - 1 - i)
    ensures Power256(|s| - 1 - i) == 256 * Power256(|s| - 2 - i)
  {
    BigEndianMore(s[i], s[i + 1..]);
    assert s[i..] == [s[i]] + s[i + 1..];
    hide BigEndian;
  }

  // ---- reading undoes writing, and writing undoes reading ----

  function Reversed(s: seq<Byte>): (r: seq<Byte>)
    ensures |r| == |s| && forall i :: 0 <= i < |s| ==> r[i] == s[|s| - 1 - i]
  {
    seq(|s|, i requires 0 <= i < |s| => s[|s| - 1 - i])
  }

  lemma {:induction false} BigEndianIsReversed(s: seq<Byte>)
    ensures BigEndian(s) == LittleEndian(Reversed(s))
  {
    if s != [] {
      var n := |s| - 1;
      BigEndianIsReversed(s[..n]);
      assert Reversed(s) == [s[n]] + Reversed(s[..n]);
      assert Reversed(s)[1..] == Reversed(s[..n]);
    }
  }

  lemma {:induction false} BytesAreResidue(s: seq<Byte>, v: int)
    requires forall a :: 0 <= a < |s| ==> s[a] == ByteAt(v, a)
    ensures LittleEndian(s) == v % Power256(|s|)
  {
    if s != [] {
      var n := |s| - 1;
      BytesAreResidue(s[..n], v);
      LittleEndianMore(s[..n], s[n]);
      assert s == s[..n] + [s[n]];
      BorrowStep(v, n);
    }
  }

  lemma SignedOfResidue(v: int, size: nat)
    requires size > 0 && Fits(v, size)
    ensures Signed(v % Power256(size), size) == v
  {
    var p := Power256(size);
    if v >= 0 {
      Quotient(v, p, 0, v);
    } else {
      Quotient(v, p, -1, v + p);
    }
  }

  /** Whatever in-range value the bytes are of, reading gives it back: little end first, */
  lemma ReadUndoesWriteLE(s: seq<Byte>, v: int)
    requires s != [] && Fits(v, |s|) && forall a :: 0 <= a < |s| ==> s[a] == ByteAt(v, a)
    ensures Signed(LittleEndian(s), |s|) == v
  {
    BytesAreResidue(s, v);
    SignedOfResidue(v, |s|);
  }

  /** and big end first. */
  lemma ReadUndoesWriteBE(s: seq<Byte>, v: int)
    requires s != [] && Fits(v, |s|) && forall a :: 0 <= a < |s| ==> s[|s| - 1 - a] == ByteAt(v, a)
    ensures Signed(BigEndian(s), |s|) == v
  {
    BigEndianIsReversed(s);
    ReadUndoesWriteLE(Reversed(s), v);
  }

  lemma {:induction false} LittleEndianBelow(s: seq<Byte>)
    ensures LittleEndian(s) < Power256(|s|)
  {
    if s != [] {
      LittleEndianBelow(s[1..]);
    }
  }

  lemma {:induction false} ByteOfLittleEndian(s: seq<Byte>, a: nat)
    requires a < |s|
    ensures ByteAt(LittleEndian(s), a) == s[a]
  {
    hide LittleEndian, Power256;
    var n := |s| - 1;
    var init := s[..n];
    assert s == init + [s[n]];
    LittleEndianMore(init, s[n]);
    LittleEndianBelow(init);
    var p := Power256(n);
    if a == n {
      Quotient(LittleEndian(s), p, s[n], LittleEndian(init));
    } else {
      ByteOfLittleEndian(init, a);
      AddHigher(LittleEndian(init), s[n], n, a);
    }
  }

  /** Adding a multiple of a higher power leaves a byte alone. */
  lemma AddHigher(x: int, k: int, n: nat, a: nat)
    requires a < n
    ensures ByteAt(x + Power256(n) * k, a) == ByteAt(x, a)
  {
    var p := Power256(a);
    var m := PowerSplit(n, a);
    hide Power256;
    Above(x, k, Power256(n), p, m);
  }

  lemma Above(x: int, k: int, n: int, p: int, m: int)
    requires p > 0 && n == 256 * m * p
    ensures (x + n * k) / p % 256 == x / p % 256
  {
    var q, r := x / p, x % p;
    Shift(p, m, k, n, q, r);
    Quotient(x + n * k, p, q + 256 * (m * k), r);
    Wrap(q, m * k);
  }

  lemma Wrap(q: int, j: int)
    ensures (q + 256 * j) % 256 == q % 256
  {
  }

  lemma Shift(p: int, m: int, k: int, n: int, q: int, r: int)
    requires n == 256 * m * p
    ensures q * p + r + n * k == (q + 256 * (m * k)) * p + r
  {
    assert 256 * m * p * k == 256 * (m * k) * p;
  }

  lemma {:induction false} PowerSplit(n: nat, a: nat) returns (m: nat)
    requires a < n
    ensures Power256(n) == 256 * m * Power256(a)
  {
    if n == a + 1 {
      m := 1;
    } else {
      var l := PowerSplit(n - 1, a);
      m := 256 * l;
      assert 256 * (256 * l * Power256(a)) == 256 * m * Power256(a);
    }
  }

  /** Any bytes at all are the bytes of the value read from them, which is in range. */
  lemma WriteUndoesReadLE(s: seq<Byte>, a: nat)
    requires a < |s|
    ensures var v := Signed(LittleEndian(s), |s|); Fits(v, |s|) && ByteAt(v, a) == s[a]
  {
    LittleEndianBelow(s);
    ByteOfLittleEndian(s, a);
    AddHigher(LittleEndian(s), -1, |s|, a);
  }

  lemma WriteUndoesReadBE(s: seq<Byte>, a: nat)
    requires a < |s|
    ensures var v := Signed(BigEndian(s), |s|); Fits(v, |s|) && ByteAt(v, a) == s[|s| - 1 - a]
  {
    BigEndianIsReversed(s);
    WriteUndoesReadLE(Reversed(s), a);
  }
}
