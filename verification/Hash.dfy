/** Message padding and blocks of FIPS 180-4 (sections 5.1 and 5.2), over bytes. A block size of
    64 with 56 content bytes is section 5.1.1 (SHA-1, SHA-224, SHA-256); 128 with 112 is section
    5.1.2 (SHA-384, SHA-512). */
module Padding {
  import opened Arithmetic
  import opened Bits
  import opened Buffers

  function Zeros(n: nat): seq<Byte> {
    seq(n, _ => 0)
  }

  /** x written with n base-256 digits, most significant first. */
  function Digits(x: nat, n: nat): (s: seq<Byte>)
    ensures |s| == n
  {
    if n == 0 then [] else Digits(x / 256, n - 1) + [x % 256]
  }

  predicate Sizes(blockSize: nat, finalSize: nat) {
    0 < finalSize && finalSize + 8 <= blockSize
  }

  /** How many zero bytes follow the 0x80 byte. */
  function ZeroCount(length: nat, blockSize: nat, finalSize: nat): (k: nat)
    requires Sizes(blockSize, finalSize)
  {
    (finalSize - 1 - length) % blockSize
  }

  function Pad(msg: seq<Byte>, blockSize: nat, finalSize: nat): seq<Byte>
    requires Sizes(blockSize, finalSize)
  {
    msg + [128] + Zeros(ZeroCount(|msg|, blockSize, finalSize)) + Digits(8 * |msg|, blockSize - finalSize)
  }

  /** s cut into blocks of n bytes. */
  function Blocks(s: seq<Byte>, n: nat): (r: seq<seq<Byte>>)
    requires n > 0 && |s| % n == 0
    ensures forall i :: 0 <= i < |r| ==> |r[i]| == n
    decreases |s|
  {
    if s == [] then []
    else
      Whole(|s|, n);
      Blocks(s[..|s| - n], n) + [s[|s| - n..]]
  }

  // ---- remainders ----

  lemma SameRemainder(x: int, y: int, n: nat)
    requires n > 0 && x % n == y % n && 0 <= y - x < n
    ensures x == y
  {
    var d := y / n - x / n;
    assert d * n == (y / n) * n - (x / n) * n;
    assert y == (y / n) * n + y % n && x == (x / n) * n + x % n;
    Far(d, n);
  }

  lemma Whole(x: nat, n: nat)
    requires n > 0 && x > 0 && x % n == 0
    ensures x >= n && (x - n) % n == 0
  {
    assert x == (x / n) * n;
    if x < n {
      Quotient(x, n, 0, x);
    } else {
      assert (x / n - 1) * n == (x / n) * n - n;
      Quotient(x - n, n, x / n - 1, 0);
    }
  }

  /** Adding no more than what is missing to the next multiple of n. */
  lemma Advance(x: nat, c: nat, n: nat)
    requires n > 0 && x % n + c <= n
    ensures (x + c) % n == if x % n + c == n then 0 else x % n + c
  {
    if x % n + c == n {
      assert (x / n + 1) * n == (x / n) * n + n;
      Quotient(x + c, n, x / n + 1, 0);
    } else {
      Quotient(x + c, n, x / n, x % n + c);
    }
  }

  lemma Below(x: nat, n: nat)
    requires n > 0
    ensures x % n <= x && (x - x % n) % n == 0
  {
    assert (x / n) * n == x - x % n;
    assert x / n >= 0;
    assert (x / n) * n >= 0;
    Quotient(x - x % n, n, x / n, 0);
  }

  // ---- what the padding is ----

  /** The zero count by where the message ends in its last block. */
  lemma ZeroCountIs(length: nat, n: nat, f: nat)
    requires Sizes(n, f)
    ensures ZeroCount(length, n, f) == if length % n < f then f - 1 - length % n else n + f - 1 - length % n
  {
    var t, q := length % n, length / n;
    if t < f {
      assert (-q) * n == -(q * n);
      Quotient(f - 1 - length, n, -q, f - 1 - t);
    } else {
      assert (-q - 1) * n == -(q * n) - n;
      Quotient(f - 1 - length, n, -q - 1, n + f - 1 - t);
    }
  }

  lemma ZeroCountFits(length: nat, n: nat, f: nat)
    requires Sizes(n, f)
    ensures (length + 1 + ZeroCount(length, n, f)) % n == f
  {
    var q := (f - 1 - length) / n;
    assert f - 1 - length == q * n + ZeroCount(length, n, f);
    assert (-q) * n == -(q * n);
    Quotient(length + 1 + ZeroCount(length, n, f), n, -q, f);
  }

  /** Section 5.1: the zero count is the least k such that the message, the one bit and k zero
      bytes leave exactly the room for the length. */
  lemma ZeroCountIsLeast(length: nat, n: nat, f: nat, k: nat)
    requires Sizes(n, f)
    ensures (length + 1 + ZeroCount(length, n, f)) % n == f
    ensures (length + 1 + k) % n == f ==> ZeroCount(length, n, f) <= k
  {
    ZeroCountFits(length, n, f);
    if (length + 1 + k) % n == f && k < ZeroCount(length, n, f) {
      SameRemainder(length + 1 + k, length + 1 + ZeroCount(length, n, f), n);
      assert false;
    }
  }

  lemma PadLength(msg: seq<Byte>, n: nat, f: nat)
    requires Sizes(n, f)
    ensures |Pad(msg, n, f)| % n == 0
  {
    ZeroCountFits(|msg|, n, f);
    Advance(|msg| + 1 + ZeroCount(|msg|, n, f), n - f, n);
  }

  /** The sequence of blocks the standard hashes. */
  function PaddedBlocks(msg: seq<Byte>, n: nat, f: nat): (r: seq<seq<Byte>>)
    requires Sizes(n, f)
    ensures forall i :: 0 <= i < |r| ==> |r[i]| == n
  {
    PadLength(msg, n, f);
    Blocks(Pad(msg, n, f), n)
  }

  // ---- blocks ----

  lemma BlocksAppend(s: seq<Byte>, b: seq<Byte>, n: nat)
    requires n > 0 && |s| % n == 0 && |b| == n
    ensures |s + b| % n == 0 && Blocks(s + b, n) == Blocks(s, n) + [b]
  {
    assert |s| == (|s| / n) * n;
    assert (|s| / n + 1) * n == |s| + n;
    Quotient(|s| + n, n, |s| / n + 1, 0);
    assert (s + b)[..|s + b| - n] == s && (s + b)[|s + b| - n..] == b;
  }

  lemma {:induction false} FlattenBlocks(s: seq<Byte>, n: nat)
    requires n > 0 && |s| % n == 0
    ensures Flatten(Blocks(s, n)) == s
    decreases |s|
  {
    if s != [] {
      Whole(|s|, n);
      FlattenBlocks(s[..|s| - n], n);
      var r := Blocks(s, n);
      assert r[..|r| - 1] == Blocks(s[..|s| - n], n);
      assert s[..|s| - n] + s[|s| - n..] == s;
    }
  }

  lemma {:induction false} DigitsValue(x: nat, n: nat)
    requires x < Power256(n)
    ensures BigEndian(Digits(x, n)) == x
  {
    if n > 0 {
      DigitsValue(x / 256, n - 1);
      assert Digits(x, n)[..n - 1] == Digits(x / 256, n - 1);
    }
  }

  lemma {:induction false} Power256Grows(m: nat, n: nat)
    requires m <= n
    ensures Power256(m) <= Power256(n)
  {
    if m < n {
      Power256Grows(m, n - 1);
    }
  }

  lemma Power256Of8()
    ensures Power256(8) == 0x1_0000_0000_0000_0000
  {
    assert Power256(2) == 0x1_0000;
    assert Power256(4) == 0x1_0000_0000;
    assert Power256(6) == 0x1_0000_0000_0000;
  }

  /** The padded message byte by byte: the message, one byte 0x80, zeros, and the number of bits in the last
      bytes, high ones first. */
  lemma PaddedAt(msg: seq<Byte>, n: nat, f: nat, i: nat)
    requires Sizes(n, f) && i < |Pad(msg, n, f)|
    ensures var p := Pad(msg, n, f); var start := |p| - (n - f);
            && |msg| < start
            && p[i] == if i < |msg| then msg[i] else if i == |msg| then 0x80 else if i < start then 0
                       else 8 * |msg| / Power256(|p| - 1 - i) % 256
  {
    var start := |Pad(msg, n, f)| - (n - f);
    if i >= start {
      DigitAt(8 * |msg|, n - f, |Pad(msg, n, f)| - 1 - i);
    }
    hide Digits, ZeroCount;
  }

  /** Digit i from the right. */
  lemma {:induction false} DigitAt(x: nat, n: nat, i: nat)
    requires i < n
    ensures Digits(x, n)[n - 1 - i] == x / Power256(i) % 256
    decreases n
  {
    if i > 0 {
      DigitAt(x / 256, n - 1, i - 1);
      DivideOnce(x, Power256(i - 1));
    }
  }

  lemma DivideOnce(x: nat, p: nat)
    requires p > 0
    ensures x / 256 / p == x / (256 * p)
  {
    var q, r := x / 256 / p, x / 256 % p;
    assert x / 256 == q * p + r;
    assert x == q * (256 * p) + (256 * r + x % 256);
    Quotient(x, 256 * p, q, 256 * r + x % 256);
  }

  /** Different messages give different block sequences. */
  lemma PaddedBlocksInjective(m1: seq<Byte>, m2: seq<Byte>, n: nat, f: nat)
    requires Sizes(n, f) && 8 * |m1| < 0x1_0000_0000_0000_0000 && 8 * |m2| < 0x1_0000_0000_0000_0000
    ensures PaddedBlocks(m1, n, f) == PaddedBlocks(m2, n, f) ==> m1 == m2
  {
    Power256Of8();
    Power256Grows(8, n - f);
    PaddingReads(m1, n, f);
    PaddingReads(m2, n, f);
    hide PaddedBlocks;
  }

  /** What can be read off the blocks: the padded string, and at its end the length. */
  lemma PaddingReads(m: seq<Byte>, n: nat, f: nat)
    requires Sizes(n, f) && 8 * |m| < Power256(n - f)
    ensures var p := Flatten(PaddedBlocks(m, n, f));
            |p| >= n - f && 8 * |m| == BigEndian(p[|p| - (n - f)..]) && |m| <= |p| && m == p[..|m|]
  {
    PadLength(m, n, f);
    var p := Pad(m, n, f);
    FlattenBlocks(p, n);
    hide Flatten, Blocks, ZeroCount;
    assert p[|p| - (n - f)..] == Digits(8 * |m|, n - f);
    DigitsValue(8 * |m|, n - f);
  }
}

/** Module 392 of the bundle: block buffering, padding and the length field. The subclass's
    `_update` is represented by the log of the blocks handed to it. */
module Hash {
  import opened Bits
  import opened Buffers
  import opened Padding

  /** The largest byte count a JavaScript number holds exactly. */
  const MAX_SAFE: nat := 0x1f_ffff_ffff_ffff

  /** All whole blocks of s were handed on and the block holds the rest. */
  ghost predicate Buffered(handed: seq<seq<Byte>>, block: seq<Byte>, s: seq<Byte>)
    requires |block| > 0
  {
    var n := |block|;
    var rest := |s| % n;
    Below(|s|, n);
    && handed == Blocks(s[..|s| - rest], n)
    && block[..rest] == s[|s| - rest..]
  }

  lemma BufferMore(handed: seq<seq<Byte>>, block: seq<Byte>, block': seq<Byte>, s: seq<Byte>, more: seq<Byte>)
    requires |block| == |block'| > 0 && Buffered(handed, block, s)
    requires var i := |s| % |block|;
             i + |more| <= |block| && block'[..i] == block[..i] && block'[i..i + |more|] == more
    ensures more != [] && |s + more| % |block| == 0 ==> Buffered(handed + [block'], block', s + more)
    ensures more == [] || |s + more| % |block| != 0 ==> Buffered(handed, block', s + more)
  {
    var n, i := |block|, |s| % |block|;
    var t := s + more;
    Advance(|s|, |more|, n);
    Below(|s|, n);
    assert block'[..i + |more|] == s[|s| - i..] + more == t[|s| - i..];
    assert s[..|s| - i] == t[..|s| - i];
    if more == [] {
      assert t == s;
    } else if i + |more| == n {
      BlocksAppend(t[..|s| - i], block', n);
      assert block'[..n] == block';
      assert t[..|s| - i] + block' == t == t[..|t|];
    }
  }

  // ---- the final blocks ----

  lemma DigitsSplit(x: nat, m: nat)
    ensures Digits(x, m + 4) == Digits(x / BASE, m) + Digits(x % BASE, 4)
  {
    var a := x / 256;
    var b := a / 256;
    var c := b / 256;
    calc {
      Digits(x, m + 4);
      Digits(a, m + 3) + [x % 256];
      Digits(b, m + 2) + [a % 256] + [x % 256];
      Digits(c, m + 1) + [b % 256] + [a % 256] + [x % 256];
      Digits(c / 256, m) + [c % 256] + [b % 256] + [a % 256] + [x % 256];
      Digits(c / 256, m) + [c % 256, b % 256, a % 256, x % 256];
    }
    FourDigitsOf(x % BASE);
    DivisionChain(x);
  }

  lemma DivisionChain(x: nat)
    ensures x / 256 / 256 / 256 / 256 == x / BASE
    ensures x % BASE % 256 == x % 256 && x % BASE / 256 % 256 == x / 256 % 256
    ensures x % BASE / 0x1_0000 % 256 == x / 256 / 256 % 256
    ensures x % BASE / 0x100_0000 % 256 == x / 256 / 256 / 256 % 256
  {
    var q := x / 256 / 256 / 256 / 256;
    assert x == q * BASE + x % BASE by { BaseQuotient(x); }
    BaseRemainder(q, x % BASE);
  }

  lemma BaseQuotient(x: nat)
    ensures x / 256 / 256 / 256 / 256 == x / BASE
  {
    var y := x / 256 / 256;
    assert x / 0x1_0000 == y && y / 0x1_0000 == y / 256 / 256;
  }

  lemma BaseRemainder(q: nat, y: nat)
    requires y < BASE
    ensures var x := q * BASE + y;
            && x % 256 == y % 256 && x / 256 % 256 == y / 256 % 256
            && x / 256 / 256 % 256 == y / 0x1_0000 % 256
            && x / 256 / 256 / 256 % 256 == y / 0x100_0000 % 256
  {
    var x := q * BASE + y;
    assert x / 256 == q * 0x100_0000 + y / 256;
    assert x / 256 / 256 == q * 0x1_0000 + y / 0x1_0000;
    assert x / 256 / 256 / 256 == q * 0x100 + y / 0x100_0000;
  }

  lemma HighWord(r: nat)
    requires r <= 8 * MAX_SAFE
    ensures r - r % BASE >= 0 && (r - r % BASE) / BASE == r / BASE < BASE
  {
  }

  lemma FourDigitsOf(x: nat)
    ensures Digits(x, 4) == [x / 0x100_0000 % 256, x / 0x1_0000 % 256, x / 256 % 256, x % 256]
  {
    DigitsMore(x, 3);
    DigitsMore(x / 256, 2);
    DigitsMore(x / 0x1_0000, 1);
    DigitsMore(x / 0x100_0000, 0);
    hide Digits;
    Quarters(x);
  }

  lemma DigitsMore(x: nat, n: nat)
    ensures Digits(x, n + 1) == Digits(x / 256, n) + [x % 256] && Digits(x, 0) == []
  {
  }

  lemma Quarters(x: nat)
    ensures x / 256 / 256 == x / 0x1_0000 && x / 0x1_0000 / 256 == x / 0x100_0000
  {
  }

  lemma {:induction false} DigitsOfZero(m: nat)
    ensures Digits(0, m) == Zeros(m)
  {
    if m > 0 {
      DigitsOfZero(m - 1);
    }
  }

  /** The length field of w bytes as one 32-bit write. */
  lemma ShortLengthField(r: nat, w: nat)
    requires w >= 4 && r < BASE
    ensures Digits(r, w) == Zeros(w - 4) + Digits(r, 4)
  {
    hide Digits, Zeros;
    DigitsSplit(r, w - 4);
    DigitsOfZero(w - 4);
    assert r / BASE == 0 && r % BASE == r;
  }

  /** The length field of w bytes as two 32-bit writes. */
  lemma LongLengthField(r: nat, w: nat)
    requires w >= 8 && r < BASE * BASE
    ensures Digits(r, w) == Zeros(w - 8) + Digits(r / BASE, 4) + Digits(r % BASE, 4)
  {
    hide Digits;
    DigitsSplit(r, w - 4);
    ShortLengthField(r / BASE, w - 4);
  }

  lemma OneFinalBlock(handed: seq<seq<Byte>>, block: seq<Byte>, msg: seq<Byte>, f: nat, last: seq<Byte>)
    requires |block| == |last| && Sizes(|block|, f) && Buffered(handed, block, msg)
    requires var n := |block|; var t := |msg| % n;
             t < f && last == block[..t] + [128] + Zeros(f - 1 - t) + Digits(8 * |msg|, n - f)
    ensures handed + [last] == PaddedBlocks(msg, |block|, f)
  {
    var n := |block|;
    var whole := |msg| - |msg| % n;
    Below(|msg|, n);
    ZeroCountIs(|msg|, n, f);
    BlocksAppend(msg[..whole], last, n);
    assert Pad(msg, n, f) == msg[..whole] + last;
  }

  lemma TwoFinalBlocks(handed: seq<seq<Byte>>, block: seq<Byte>, msg: seq<Byte>, f: nat, b1: seq<Byte>, b2: seq<Byte>)
    requires |block| == |b1| == |b2| && Sizes(|block|, f) && Buffered(handed, block, msg)
    requires var n := |block|; var t := |msg| % n;
             && t >= f && b1 == block[..t] + [128] + Zeros(n - 1 - t)
             && b2 == Zeros(f) + Digits(8 * |msg|, n - f)
    ensures handed + [b1] + [b2] == PaddedBlocks(msg, |block|, f)
  {
    var n := |block|;
    var whole := |msg| - |msg| % n;
    Below(|msg|, n);
    ZeroCountIs(|msg|, n, f);
    BlocksAppend(msg[..whole], b1, n);
    BlocksAppend(msg[..whole] + b1, b2, n);
    assert Pad(msg, n, f) == msg[..whole] + b1 + b2;
  }

  class Hash {
    const block: array<Byte>
    const blockSize: nat
    const finalSize: nat
    var len: nat
    var handed: seq<seq<Byte>>
    ghost var fed: seq<Byte>

    ghost predicate Valid()
      reads this, block
    {
      && Sizes(blockSize, finalSize)
      && block.Length == blockSize
      && len == |fed|
      && Buffered(handed, block[..], fed)
    }

    constructor (blockSize: nat, finalSize: nat)
      requires Sizes(blockSize, finalSize)
      ensures Valid() && fresh(block) && fed == [] && handed == []
      ensures this.blockSize == blockSize && this.finalSize == finalSize
    {
      block := new Byte[blockSize](_ => 0);
      this.blockSize, this.finalSize := blockSize, finalSize;
      len, handed, fed := 0, [], [];
    }

    method Update(e: seq<Byte>)
      requires Valid()
      modifies this, block
      ensures Valid()
      ensures fed == old(fed) + e
    {
      hide Buffered;
      var l, s, n := 0, len, blockSize;
      while l < |e|
        invariant 0 <= l <= |e| && s == |fed|
        invariant fed == old(fed) + e[..l] && len == old(len)
        invariant Buffered(handed, block[..], fed)
      {
        var i := s % n;
        var c := if |e| - l < n - i then |e| - l else n - i;
        ghost var before, more := block[..], e[l..l + c];
        Copy(block, i, e, l, c);
        BufferMore(handed, before, block[..], fed, more);
        FedMore(old(fed), e, l, c);
        l, s, fed := l + c, s + c, fed + more;
        if s % n == 0 {
          handed := handed + [block[..]];
        }
      }
      assert e[..l] == e;
      len := len + |e|;
    }

    /** `digest` up to the call of `_hash`. */
    method Digest()
      requires Valid() && len <= MAX_SAFE
      modifies this, block
      ensures handed == PaddedBlocks(old(fed), blockSize, finalSize)
    {
      hide Buffered, PaddedBlocks, Digits;
      var t, n := len % blockSize, blockSize;
      ghost var before, was := block[..], handed;
      block[t] := 128;
      Fill(block, t + 1);
      ghost var first := block[..];
      assert first[..t + 1] == before[..t] + [128];
      assert first == first[..t + 1] + first[t + 1..];
      if t >= finalSize {
        handed := handed + [block[..]];
        Fill(block, 0);
        assert block[..] == Zeros(n);
      }
      ghost var start := if t >= finalSize then Zeros(finalSize) else before[..t] + [128] + Zeros(finalSize - 1 - t);
      assert block[..] == start + Zeros(n - finalSize);
      WriteLength();
      handed := handed + [block[..]];
      if t >= finalSize {
        TwoFinalBlocks(was, before, fed, finalSize, first, block[..]);
      } else {
        OneFinalBlock(was, before, fed, finalSize, block[..]);
      }
    }

    /** The bit count, as one or as two 32-bit words at the end of the block. */
    method WriteLength()
      requires Sizes(blockSize, finalSize) && block.Length == blockSize && len <= MAX_SAFE
      requires block[finalSize..] == Zeros(blockSize - finalSize)
      modifies block
      ensures block[..] == old(block[..finalSize]) + Digits(8 * len, blockSize - finalSize)
    {
      hide Digits;
      var r, n := 8 * len, blockSize;
      if r <= 0xffff_ffff {
        ShortLengthField(r, n - finalSize);
        ZerosUpTo(block[..], finalSize, n - 4);
        WriteUInt32BE(block, r, n - 4);
      } else {
        HighWord(r);
        LongLengthField(r, n - finalSize);
        var low := r % BASE;
        WriteTwoWords((r - low) / BASE, low);
      }
    }

    method WriteTwoWords(high: nat, low: nat)
      requires Sizes(blockSize, finalSize) && block.Length == blockSize && high < BASE && low < BASE
      requires block[finalSize..] == Zeros(blockSize - finalSize)
      modifies block
      ensures block[..] == old(block[..finalSize])
                           + (Zeros(blockSize - finalSize - 8) + Digits(high, 4) + Digits(low, 4))
    {
      var n := blockSize;
      ghost var before := block[..];
      ZerosUpTo(before, finalSize, n - 8);
      hide Digits, Zeros;
      WriteUInt32BE(block, high, n - 8);
      ghost var mid := block[..];
      WriteUInt32BE(block, low, n - 4);
      TwoWordsBehind(before, mid, block[..], before[..finalSize], Zeros(n - finalSize - 8),
                     Digits(high, 4), Digits(low, 4));
    }
  }

  lemma TwoWordsBehind(before: seq<Byte>, mid: seq<Byte>, after: seq<Byte>, kept: seq<Byte>, zeros: seq<Byte>,
                       high: seq<Byte>, low: seq<Byte>)
    requires |before| == |mid| >= 8 && |high| == |low| == 4 && before[..|before| - 8] == kept + zeros
    requires mid == before[..|before| - 8] + high + before[|before| - 4..]
    requires after == mid[..|mid| - 4] + low + mid[|mid|..]
    ensures after == kept + (zeros + high + low)
  {
    assert mid[..|mid| - 4] == before[..|before| - 8] + high;
  }

  lemma FedMore(fed: seq<Byte>, e: seq<Byte>, l: nat, c: nat)
    requires l + c <= |e|
    ensures fed + e[..l] + e[l..l + c] == fed + e[..l + c]
  {
    assert e[..l] + e[l..l + c] == e[..l + c];
  }

  lemma ZerosUpTo(block: seq<Byte>, f: nat, at: nat)
    requires f <= at <= |block| && block[f..] == Zeros(|block| - f)
    ensures block[..at] == block[..f] + Zeros(at - f)
  {
    assert forall i :: f <= i < at ==> block[i] == block[f..][i - f];
  }

  method Fill(target: array<Byte>, from: nat)
    requires from <= target.Length
    modifies target
    ensures target[..from] == old(target[..from])
    ensures target[from..] == Zeros(target.Length - from)
  {
    var u := from;
    while u < target.Length
      invariant from <= u <= target.Length
      invariant target[..from] == old(target[..from])
      invariant target[from..u] == Zeros(u - from)
    {
      target[u] := 0;
      u := u + 1;
    }
  }

  method WriteUInt32BE(target: array<Byte>, value: nat, offset: nat)
    requires offset + 4 <= target.Length && value < BASE
    modifies target
    ensures target[..] == old(target[..offset]) + Digits(value, 4) + old(target[offset + 4..])
  {
    ghost var before := target[..];
    FourDigitsOf(value);
    hide Digits;
    assert value / 0x100_0000 < 256;
    target[offset] := value / 0x100_0000;
    target[offset + 1] := value / 0x1_0000 % 256;
    target[offset + 2] := value / 0x100 % 256;
    target[offset + 3] := value % 256;
    FourWritten(before, target[..], offset, Digits(value, 4));
  }

  lemma FourWritten(before: seq<Byte>, after: seq<Byte>, offset: nat, d: seq<Byte>)
    requires offset + 4 <= |before| == |after| && |d| == 4
    requires after[offset] == d[0] && after[offset + 1] == d[1]
    requires after[offset + 2] == d[2] && after[offset + 3] == d[3]
    requires after[..offset] == before[..offset] && after[offset + 4..] == before[offset + 4..]
    ensures after == before[..offset] + d + before[offset + 4..]
  {
    assert after == after[..offset] + after[offset..offset + 4] + after[offset + 4..];
    assert after[offset..offset + 4] == d;
  }
}
