/** Both encodings keep the order of characters. */
module UnicodeOrder {
  import opened Bits
  import opened Unicode

  /** At the first place where they differ a is smaller, or a is the shorter beginning of b. */
  predicate Before(a: seq<int>, b: seq<int>) {
    b != [] && (a == [] || a[0] < b[0] || (a[0] == b[0] && Before(a[1..], b[1..])))
  }

  /** Two numbers in the same base: high digits count before low ones. */
  lemma DigitsOrdered(c: nat, d: nat, base: nat)
    requires c < d && base > 0
    ensures c / base < d / base || (c / base == d / base && c % base < d % base)
  {
    Product(if c / base > d / base then c / base - d / base - 1 else 0, base);
  }

  lemma Product(x: nat, y: nat)
    ensures x * y >= 0
  {
  }

  lemma BeforeTwo(a: int, b: int, c: int, d: int)
    ensures Before([a, b], [c, d]) <==> a < c || (a == c && b < d)
  {
    assert [a, b][1..] == [b] && [c, d][1..] == [d];
    BeforeOne(b, d);
  }

  lemma BeforeOne(a: int, c: int)
    ensures Before([a], [c]) <==> a < c
  {
    assert [a][1..] == [] && [c][1..] == [];
    assert !Before([], []);
  }

  lemma BeforeThree(a: int, b: int, e: int, c: int, d: int, f: int)
    ensures Before([a, b, e], [c, d, f]) <==> a < c || (a == c && (b < d || (b == d && e < f)))
  {
    assert [a, b, e][1..] == [b, e] && [c, d, f][1..] == [d, f];
    BeforeTwo(b, e, d, f);
  }

  lemma BeforeFour(a: int, b: int, e: int, g: int, c: int, d: int, f: int, h: int)
    ensures Before([a, b, e, g], [c, d, f, h])
            <==> a < c || (a == c && (b < d || (b == d && (e < f || (e == f && g < h)))))
  {
    assert [a, b, e, g][1..] == [b, e, g] && [c, d, f, h][1..] == [d, f, h];
    BeforeThree(b, e, g, d, f, h);
  }

  /** Section 1 of RFC 3629: byte order of the encodings is character order. */
  lemma EncodingKeepsOrder(c: Scalar, d: Scalar)
    requires c < d
    ensures Before(EncodeScalar(c), EncodeScalar(d))
  {
    if d < 0x80 {
    } else if 0x80 <= c && d < 0x800 {
      DigitsOrdered(c, d, 0x40);
      BeforeTwo(0xC0 + c / 0x40, 0x80 + c % 0x40, 0xC0 + d / 0x40, 0x80 + d % 0x40);
    } else if 0x800 <= c && d < 0x1_0000 {
      ThreeOrdered(c, d);
    } else if 0x1_0000 <= c {
      FourOrdered(c, d);
    } else {
      LongerStartsHigher(c, d);
    }
  }

  lemma ThreeOrdered(c: nat, d: nat)
    requires c < d < 0x1_0000
    ensures Before([0xE0 + c / 0x1000, 0x80 + c / 0x40 % 0x40, 0x80 + c % 0x40],
                   [0xE0 + d / 0x1000, 0x80 + d / 0x40 % 0x40, 0x80 + d % 0x40])
  {
    DigitsOrdered(c, d, 0x40);
    if c / 0x40 < d / 0x40 {
      DigitsOrdered(c / 0x40, d / 0x40, 0x40);
    }
    assert c / 0x40 / 0x40 == c / 0x1000 && d / 0x40 / 0x40 == d / 0x1000;
    BeforeThree(0xE0 + c / 0x1000, 0x80 + c / 0x40 % 0x40, 0x80 + c % 0x40,
                0xE0 + d / 0x1000, 0x80 + d / 0x40 % 0x40, 0x80 + d % 0x40);
    hide Before;
  }

  lemma FourOrdered(c: nat, d: nat)
    requires c < d
    ensures Before([0xF0 + c / 0x4_0000, 0x80 + c / 0x1000 % 0x40, 0x80 + c / 0x40 % 0x40, 0x80 + c % 0x40],
                   [0xF0 + d / 0x4_0000, 0x80 + d / 0x1000 % 0x40, 0x80 + d / 0x40 % 0x40, 0x80 + d % 0x40])
  {
    DigitsOrdered(c, d, 0x40);
    if c / 0x40 < d / 0x40 {
      DigitsOrdered(c / 0x40, d / 0x40, 0x40);
      if c / 0x40 / 0x40 < d / 0x40 / 0x40 {
        DigitsOrdered(c / 0x40 / 0x40, d / 0x40 / 0x40, 0x40);
      }
    }
    assert c / 0x40 / 0x40 == c / 0x1000 && d / 0x40 / 0x40 == d / 0x1000;
    assert c / 0x1000 / 0x40 == c / 0x4_0000 && d / 0x1000 / 0x40 == d / 0x4_0000;
    BeforeFour(0xF0 + c / 0x4_0000, 0x80 + c / 0x1000 % 0x40, 0x80 + c / 0x40 % 0x40, 0x80 + c % 0x40,
               0xF0 + d / 0x4_0000, 0x80 + d / 0x1000 % 0x40, 0x80 + d / 0x40 % 0x40, 0x80 + d % 0x40);
    hide Before;
  }

  lemma LongerStartsHigher(c: Scalar, d: Scalar)
    requires (c < 0x80 <= d) || (c < 0x800 <= d) || (c < 0x1_0000 <= d)
    ensures EncodeScalar(c)[0] < EncodeScalar(d)[0]
  {
  }

  /** Pairs of surrogates stand in the order of the characters they write. */
  lemma PairsKeepOrder(c: Scalar, d: Scalar)
    requires 0x1_0000 <= c < d
    ensures Before(Utf16(c), Utf16(d))
  {
    DigitsOrdered(c - 0x1_0000, d - 0x1_0000, 0x400);
    BeforeTwo(0xD800 + (c - 0x1_0000) / 0x400, 0xDC00 + (c - 0x1_0000) % 0x400,
              0xD800 + (d - 0x1_0000) / 0x400, 0xDC00 + (d - 0x1_0000) % 0x400);
    hide Before;
  }

  /** Other characters are their own code unit. */
  lemma SingleUnits(c: Scalar)
    requires c < 0x1_0000
    ensures Utf16(c) == [c]
  {
  }
}
