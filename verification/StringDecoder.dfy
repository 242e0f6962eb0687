/** Where a byte string cut at an arbitrary place stops having whole characters. */
module Utf8Chunks {
  import opened Bits
  import opened Unicode
  import opened Utf8

  /** How many leading bytes of b form whole characters. */
  function Done(b: seq<Byte>): (n: nat)
    ensures n <= |b|
  {
    if CharLength(b) == 0 then 0 else CharLength(b) + Done(b[CharLength(b)..])
  }

  /** The length a first byte announces; 0 if it starts no character of more than one byte. */
  function LeadLength(b: Byte): nat {
    if 0xC2 <= b <= 0xDF then 2 else if 0xE0 <= b <= 0xEF then 3 else if 0xF0 <= b <= 0xF4 then 4 else 0
  }

  /** The first bytes of a character, but not all of them. */
  predicate Truncated(t: seq<Byte>) {
    t == [] ||
    (&& |t| < LeadLength(t[0])
     && (|t| > 1 ==> IsTail(t[1]) && (t[0] == 0xE0 ==> t[1] >= 0xA0) && (t[0] == 0xED ==> t[1] <= 0x9F)
                     && (t[0] == 0xF0 ==> t[1] >= 0x90) && (t[0] == 0xF4 ==> t[1] <= 0x8F))
     && (|t| > 2 ==> IsTail(t[2])))
  }

  /** What the whole characters of b decode to. */
  function Finished(b: seq<Byte>): seq<Unit> {
    Slice(b[..Done(b)])
  }

  function Unfinished(b: seq<Byte>): seq<Byte> {
    b[Done(b)..]
  }

  /** Well-formed bytes, except that the last character may be unfinished. */
  predicate Good(b: seq<Byte>) {
    Truncated(Unfinished(b))
  }

  lemma HeadOfPrefix(x: seq<Byte>, y: seq<Byte>)
    ensures CharLength(x) > 0 ==> CharLength(x + y) == CharLength(x)
    ensures CharLength(x + y) <= |x| ==> CharLength(x) == CharLength(x + y)
    ensures CharLength(x + y) > |x| ==> CharLength(x) == 0 && Truncated(x)
    ensures Truncated(x + y) ==> Truncated(x) && CharLength(x) == 0
  {
  }

  lemma TailBytes(b: seq<Byte>, i: nat)
    requires 1 <= i < CharLength(b) || (Truncated(b) && 1 <= i < |b|)
    ensures b[i] / 0x40 == 2
  {
  }

  lemma {:induction false} DoneAppend(x: seq<Byte>, y: seq<Byte>)
    ensures Done(x + y) == Done(x) + Done(x[Done(x)..] + y)
    ensures (x + y)[Done(x + y)..] == (x[Done(x)..] + y)[Done(x[Done(x)..] + y)..]
    decreases |x|
  {
    var k := CharLength(x);
    if k == 0 {
      assert x[0..] == x;
    } else {
      HeadOfPrefix(x, y);
      assert (x + y)[k..] == x[k..] + y;
      DoneAppend(x[k..], y);
      assert x[k..][Done(x[k..])..] == x[Done(x)..];
    }
  }

  lemma {:induction false} GoodPrefix(x: seq<Byte>, y: seq<Byte>)
    requires Good(x + y)
    ensures Good(x)
    decreases |x|
  {
    var k := CharLength(x);
    HeadOfPrefix(x, y);
    if k == 0 {
      assert x[0..] == x && (x + y)[0..] == x + y;
    } else {
      assert (x + y)[k..] == x[k..] + y;
      assert (x + y)[Done(x + y)..] == (x[k..] + y)[Done(x[k..] + y)..];
      GoodPrefix(x[k..], y);
      assert x[k..][Done(x[k..])..] == x[Done(x)..];
    }
  }

  lemma {:induction false} DoneIsWellFormed(b: seq<Byte>)
    ensures WellFormed8(b[..Done(b)])
    ensures WellFormed8(b) <==> Done(b) == |b|
    decreases |b|
  {
    hide CharLength;
    var k := CharLength(b);
    if k > 0 {
      DoneIsWellFormed(b[k..]);
      var d := b[..Done(b)];
      HeadOfPrefix(d, b[Done(b)..]);
      assert d + b[Done(b)..] == b;
      assert d[k..] == b[k..][..Done(b[k..])];
    }
  }

  lemma {:induction false} SliceAppend(x: seq<Byte>, y: seq<Byte>)
    requires WellFormed8(x)
    ensures Slice(x + y) == Slice(x) + Slice(y)
  {
    DecodeAppend(x, y);
    Utf16AllAppend(Decode(x), Decode(y));
  }

  lemma {:induction false} DecodeAppend(x: seq<Byte>, y: seq<Byte>)
    requires WellFormed8(x)
    ensures Decode(x + y) == Decode(x) + Decode(y)
    decreases |x|
  {
    if x == [] {
      assert x + y == y;
    } else {
      var k := CharLength(x);
      HeadAppend(x, y);
      hide CharLength, DecodeHead;
      assert (x + y)[k..] == x[k..] + y;
      DecodeAppend(x[k..], y);
      assert x + y != [];
    }
  }

  /** A whole character in front decodes as it does alone. */
  lemma HeadAppend(x: seq<Byte>, y: seq<Byte>)
    requires CharLength(x) > 0
    ensures DecodeHead(x + y) == DecodeHead(x) && DecodeHead(x).1 == CharLength(x)
  {
    HeadOfPrefix(x, y);
    DecodeByGrammar(x);
    DecodeByGrammar(x + y);
    EncodeInjective(DecodeHead(x).0, DecodeHead(x + y).0);
    hide CharLength, DecodeHead;
    assert (x + y)[..CharLength(x)] == x[..CharLength(x)];
  }

  lemma FinishedAt(x: seq<Byte>, y: seq<Byte>)
    ensures Finished(x + y) == Finished(x) + Finished(Unfinished(x) + y)
  {
    DoneAppend(x, y);
    DoneIsWellFormed(x);
    hide Done, Slice, CharLength, WellFormed8;
    var d, rest := x[..Done(x)], Unfinished(x) + y;
    SliceAppend(d, rest[..Done(rest)]);
    assert x + y == d + rest;
    assert (x + y)[..Done(x + y)] == d + rest[..Done(rest)];
  }

  /** Reading on from the first unfinished byte. */
  lemma ResumeAt(x: seq<Byte>, y: seq<Byte>)
    ensures Unfinished(x + y) == Unfinished(Unfinished(x) + y)
    ensures Finished(x + y) == Finished(x) + Finished(Unfinished(x) + y)
    ensures Good(x + y) ==> Good(x) && Good(Unfinished(x) + y)
  {
    FinishedAt(x, y);
    DoneAppend(x, y);
    if Good(x + y) {
      GoodPrefix(x, y);
    }
    hide Done, Finished, Truncated;
  }

  /** The unfinished character t stays unfinished after y. */
  lemma StillUnfinished(t: seq<Byte>, y: seq<Byte>)
    requires t != [] && Truncated(t) && Good(t + y) && |t| + |y| < LeadLength(t[0])
    ensures Truncated(t + y) && Unfinished(t + y) == t + y && Finished(t + y) == []
  {
    assert CharLength(t + y) == 0;
    assert (t + y)[0..] == t + y && (t + y)[..0] == [];
  }

  lemma FirstCharacter(b: seq<Byte>)
    requires CharLength(b) > 0
    ensures var k := CharLength(b);
            && Unfinished(b) == Unfinished(b[k..]) && Finished(b) == Slice(b[..k]) + Finished(b[k..])
  {
    hide CharLength;
    var k := CharLength(b);
    HeadOfPrefix(b[..k], b[k..]);
    assert b[..k] + b[k..] == b && b[..k][k..] == [];
    SliceAppend(b[..k], b[k..][..Done(b[k..])]);
    assert b[..Done(b)] == b[..k] + b[k..][..Done(b[k..])];
  }

  lemma CompletedLength(t: seq<Byte>, y: seq<Byte>)
    requires t != [] && Good(t + y) && LeadLength(t[0]) > 0 && |t| + |y| >= LeadLength(t[0])
    ensures CharLength(t + y) == LeadLength(t[0])
  {
    assert (t + y)[0..] == t + y;
  }

  /** The unfinished character t is completed by the first bytes of y. */
  lemma Completed(t: seq<Byte>, y: seq<Byte>)
    requires t != [] && Truncated(t) && Good(t + y) && |t| + |y| >= LeadLength(t[0])
    ensures var k := LeadLength(t[0]); var rest := y[k - |t|..];
            && CharLength(t + y) == k
            && Good(rest) && Unfinished(t + y) == Unfinished(rest)
            && Finished(t + y) == Slice((t + y)[..k]) + Finished(rest)
  {
    CompletedLength(t, y);
    FirstCharacter(t + y);
    assert (t + y)[LeadLength(t[0])..] == y[LeadLength(t[0]) - |t|..];
  }

  /** The size of the last character of a well-formed string. */
  lemma {:induction false} LastCharacter(b: seq<Byte>) returns (k: nat)
    requires WellFormed8(b) && b != []
    ensures 1 <= k <= 4 && k <= |b| && CharLength(b[|b| - k..]) == k
    decreases |b|
  {
    var h := CharLength(b);
    if h == |b| {
      k := h;
      assert b[|b| - k..] == b;
    } else {
      k := LastCharacter(b[h..]);
      assert b[h..][|b| - h - k..] == b[|b| - k..];
    }
  }
}

/** `StringDecoder` of module 141 of the bundle, for the encoding utf8. */
module StringDecoder {
  import opened Bits
  import opened Buffers
  import opened Options
  import opened Unicode
  import opened Utf8
  import opened Utf8Chunks

  /** `utf8CheckByte`. */
  function CheckByte(e: Byte): int {
    if e <= 127 then 0
    else if e / 0x20 == 6 then 2
    else if e / 0x10 == 14 then 3
    else if e / 8 == 30 then 4
    else if e / 0x40 == 2 then -1
    else -2
  }

  lemma TailCheck(b: Byte)
    ensures IsTail(b) ==> CheckByte(b) == -1
    ensures b <= 0x7F ==> CheckByte(b) == 0
    ensures LeadLength(b) > 0 ==> CheckByte(b) == LeadLength(b)
  {
  }

  lemma CheckRange(b: Byte)
    ensures CheckByte(b) in {-2, -1, 0, 2, 3, 4}
  {
  }

  /** The last k bytes start with a first byte and go on with tail bytes; k is the size of the
      unfinished character or, if there is none, of the last one. */
  lemma LastBytes(b: seq<Byte>) returns (k: nat)
    requires Good(b) && b != []
    ensures var tail := b[Done(b)..];
            && 1 <= k <= |b| && k <= 4
            && (if tail == [] then CheckByte(b[|b| - k]) == (if k == 1 then 0 else k)
                else k == |tail| < LeadLength(tail[0]) == CheckByte(b[|b| - k]))
    ensures forall i :: |b| - k < i < |b| ==> CheckByte(b[i]) == -1
  {
    GoodIsTruncated(b);
    hide Good, Done, WellFormed8, CheckByte, LeadLength, CharLength, Truncated;
    var tail := b[Done(b)..];
    var c := tail;
    if tail == [] {
      DoneIsWellFormed(b);
      k := LastCharacter(b);
      c := b[|b| - k..];
      LeadCheck(c);
    } else {
      k := |tail|;
      TailCheck(c[0]);
    }
    InnerBytes(b, k, c);
  }

  lemma InnerBytes(b: seq<Byte>, k: nat, c: seq<Byte>)
    requires k <= |b| && c == b[|b| - k..] && (k <= CharLength(c) || Truncated(c))
    ensures forall i :: |b| - k < i < |b| ==> CheckByte(b[i]) == -1
  {
    hide CharLength, Truncated, CheckByte;
    forall i | |b| - k < i < |b|
      ensures CheckByte(b[i]) == -1
    {
      InnerCheck(c, i - (|b| - k));
    }
  }

  lemma LeadCheck(c: seq<Byte>)
    requires CharLength(c) > 0
    ensures CheckByte(c[0]) == if CharLength(c) == 1 then 0 else CharLength(c)
  {
  }

  lemma InnerCheck(c: seq<Byte>, i: nat)
    requires 1 <= i < CharLength(c) || (Truncated(c) && 1 <= i < |c|)
    ensures CheckByte(c[i]) == -1
  {
    TailBytes(c, i);
  }

  /** The bytes that complete, or go on with, an unfinished character are tail bytes. */
  lemma MissingBytes(t: seq<Byte>, e: seq<Byte>, total: nat)
    requires 0 < |t| < total <= 4
    requires e != []
    ensures (|t| + |e| < total && Truncated(t + e)) || (|t| + |e| >= total && CharLength(t + e) == total) ==>
      && e[0] / 0x40 == 2
      && (total - |t| > 1 && |e| > 1 ==> e[1] / 0x40 == 2)
      && (total - |t| > 2 && |e| > 2 ==> e[2] / 0x40 == 2)
  {
    var b := t + e;
    if (|b| < total && Truncated(b)) || (|b| >= total && CharLength(b) == total) {
      TailBytes(b, |t|);
      if total - |t| > 1 && |e| > 1 {
        TailBytes(b, |t| + 1);
        if total - |t| > 2 && |e| > 2 {
          TailBytes(b, |t| + 2);
        }
      }
    }
  }

  // ---- the decoder as a function, on any bytes ----

  /** The fields of the decoder. */
  datatype Held = Held(need: nat, total: nat, bytes: seq<Byte>)

  const LOST: seq<Unit> := [REPLACEMENT]

  predicate Fits(h: Held) {
    |h.bytes| == 4 && h.need <= h.total <= 4
  }

  /** How many bytes are missing at the end, of a character of how many. */
  function Incomplete(b: seq<Byte>): (r: (nat, nat))
    requires b != []
    ensures r.0 <= 3 && (r.0 > 0 ==> r.0 < r.1 <= 4 && r.1 - r.0 <= |b|)
  {
    var n := |b| - 1;
    var a := CheckByte(b[n]);
    if a >= 0 then (if a > 0 then a - 1 else 0, a)
    else if n < 1 || a == -2 then (0, 0)
    else
      var a1 := CheckByte(b[n - 1]);
      if a1 >= 0 then (if a1 > 0 then a1 - 2 else 0, a1)
      else if n < 2 || a1 == -2 then (0, 0)
      else
        var a2 := CheckByte(b[n - 2]);
        if a2 >= 0 then (if a2 > 2 then a2 - 3 else 0, if a2 == 2 then 0 else a2) else (0, 0)
  }

  function Overwrite(c: seq<Byte>, i: nat, s: seq<Byte>): (r: seq<Byte>)
    requires i + |s| <= |c|
    ensures |r| == |c|
  {
    c[..i] + s + c[i + |s|..]
  }

  function TextOf(h: Held, e: seq<Byte>): (r: (Held, seq<Unit>))
    requires Fits(h) && h.need == 0 && e != []
    ensures Fits(r.0)
  {
    var (need, total) := Incomplete(e);
    if need == 0 then (h, Slice(e))
    else
      var n := |e| - (total - need);
      (Held(need, total, Overwrite(h.bytes, 0, e[n..])), Slice(e[..n]))
  }

  function FillOf(h: Held, e: seq<Byte>): (r: (Held, Option<seq<Unit>>))
    requires Fits(h) && h.need > 0 && e != []
    ensures Fits(r.0) && (r.1.Some? ==> r.0.need <= |e|)
  {
    if e[0] / 0x40 != 2 then (h.(need := 0), Some(LOST))
    else if h.need > 1 && |e| > 1 && e[1] / 0x40 != 2 then (h.(need := 1), Some(LOST))
    else if h.need > 2 && |e| > 2 && e[2] / 0x40 != 2 then (h.(need := 2), Some(LOST))
    else if h.need <= |e| then
      var c := Overwrite(h.bytes, h.total - h.need, e[..h.need]);
      (h.(bytes := c), Some(Slice(c[..h.total])))
    else (Held(h.need - |e|, h.total, Overwrite(h.bytes, h.total - h.need, e)), None)
  }

  function WriteOf(h: Held, e: seq<Byte>): (r: (Held, seq<Unit>))
    requires Fits(h)
    ensures Fits(r.0)
  {
    if e == [] then (h, [])
    else if h.need == 0 then TextOf(h, e)
    else
      var (h', filled) := FillOf(h, e);
      if filled.None? then (h', [])
      else if h'.need == |e| then (h'.(need := 0), filled.value)
      else
        var (h'', u) := TextOf(h'.(need := 0), e[h'.need..]);
        (h'', filled.value + u)
  }

  /** Three bytes that are no character: written in two cuts they give one replacement, decoded at once
      two. So the theorem on chunks does not extend to malformed bytes. */
  lemma CutsMatterForMalformedBytes(h: Held)
    requires Fits(h) && h.need == 0
    ensures var (h', s) := WriteOf(h, [0xE2, 0x82]);
            var (h'', t) := WriteOf(h', [0x41]);
            s + t == [REPLACEMENT, 0x41] && h''.need == 0
    ensures Slice([0xE2, 0x82, 0x41]) == [REPLACEMENT, REPLACEMENT, 0x41]
  {
    var e, one: seq<Byte> := [0xE2, 0x82], [0x41];
    assert Incomplete(e) == (1, 3) && Incomplete(one) == (0, 0);
    SliceOfNothing(e);
    assert one[0..] == one;
    SliceOfAscii(one);
    MalformedAtOnce();
    hide Slice;
  }

  lemma SliceOfNothing(e: seq<Byte>)
    ensures Slice(e[..0]) == []
  {
    NothingDecoded();
    assert e[..0] == [];
  }

  lemma SliceOfAscii(one: seq<Byte>)
    requires one == [0x41]
    ensures Slice(one) == [0x41]
  {
    NothingDecoded();
    assert one[1..] == [] && DecodeHead(one) == (0x41, 1);
    assert Decode(one) == [0x41] && Utf16All([0x41]) == Utf16(0x41) + Utf16All([0x41][1..]);
  }

  lemma MalformedAtOnce()
    ensures Slice([0xE2, 0x82, 0x41]) == [REPLACEMENT, REPLACEMENT, 0x41]
  {
    var b, c, d: seq<Byte> := [0xE2, 0x82, 0x41], [0x82, 0x41], [0x41];
    NothingDecoded();
    assert b[1..] == c && c[1..] == d && d[1..] == [];
    assert DecodeHead(b) == (REPLACEMENT, 1) && DecodeHead(c) == (REPLACEMENT, 1) && DecodeHead(d) == (0x41, 1);
    assert Decode(d) == [0x41] && Decode(c) == [REPLACEMENT] + [0x41] && Decode(b) == [REPLACEMENT] + Decode(c);
    var x: seq<Scalar> := [REPLACEMENT, REPLACEMENT, 0x41];
    assert x[1..] == [REPLACEMENT, 0x41] && [REPLACEMENT, 0x41][1..] == [0x41] && [0x41][1..] == [];
    assert Utf16All([0x41]) == [0x41] && Utf16All([REPLACEMENT, 0x41]) == [REPLACEMENT, 0x41];
  }

  // ---- on well-formed bytes ----

  /** The decoder holds exactly the unfinished character. */
  predicate HoldsTail(h: Held, tail: seq<Byte>)
    requires Fits(h)
  {
    if tail == [] then h.need == 0
    else h.need > 0 && h.total == LeadLength(tail[0]) && h.total - h.need == |tail| && h.bytes[..|tail|] == tail
  }

  /** `utf8CheckIncomplete` finds exactly what is missing of an unfinished character. */
  lemma IncompleteOfGood(b: seq<Byte>)
    requires Good(b) && b != []
    ensures var (need, total) := Incomplete(b);
            if Done(b) == |b| then need == 0
            else need > 0 && total == LeadLength(b[Done(b)]) && total - need == |b| - Done(b)
  {
    var k := LastBytes(b);
    var tail := b[Done(b)..];
    hide Good, Done, LeadLength;
    CheckRange(b[|b| - k]);
    IncompleteFrom(b, k, CheckByte(b[|b| - k]));
    hide Incomplete, CheckByte;
  }

  /** What is found when the last first byte is `k` bytes from the end. */
  lemma IncompleteFrom(b: seq<Byte>, k: nat, a: int)
    requires 1 <= k <= |b| && k <= 4 && a == CheckByte(b[|b| - k]) && a in {0, 2, 3, 4}
    requires forall i :: |b| - k < i < |b| ==> CheckByte(b[i]) == -1
    ensures k == 1 ==> Incomplete(b) == (if a > 0 then a - 1 else 0, a)
    ensures k == 2 ==> Incomplete(b) == (if a > 0 then a - 2 else 0, a)
    ensures k == 3 ==> Incomplete(b) == (if a > 2 then a - 3 else 0, if a == 2 then 0 else a)
    ensures k == 4 ==> Incomplete(b) == (0, 0)
  {
    hide CheckByte;
  }

  /** `text` produces what is finished and holds the rest. */
  lemma TextOfGood(h: Held, b: seq<Byte>)
    requires Fits(h) && h.need == 0 && b != [] && Good(b)
    ensures TextOf(h, b).1 == Finished(b) && HoldsTail(TextOf(h, b).0, Unfinished(b))
  {
    IncompleteOfGood(b);
    hide Good, Done, Incomplete, Slice, LeadLength;
    assert b[..|b|] == b;
  }

  /** `utf8FillLast` completes the character held, or holds more of it. */
  lemma FillOfGood(h: Held, t: seq<Byte>, e: seq<Byte>)
    requires Fits(h) && 0 < h.need < h.total && e != [] && t == h.bytes[..h.total - h.need]
    ensures |e| < h.need && Truncated(t + e) ==>
              var (h', s) := FillOf(h, e);
              s == None && h'.need == h.need - |e| && h'.total == h.total && h'.bytes[..|t| + |e|] == t + e
    ensures |e| >= h.need && CharLength(t + e) == h.total ==>
              FillOf(h, e).0.need == h.need && FillOf(h, e).1 == Some(Slice((t + e)[..h.total]))
  {
    MissingBytes(t, e, h.total);
    hide CharLength, Truncated, Slice;
    if |e| >= h.need {
      assert (t + e)[..h.total] == t + e[..h.need];
      assert Overwrite(h.bytes, |t|, e[..h.need])[..h.total] == t + e[..h.need];
    }
  }

  /** A character held and not completed by these bytes. */
  lemma WriteHoldsMore(h: Held, tail: seq<Byte>, e: seq<Byte>)
    requires Fits(h) && tail != [] && e != [] && HoldsTail(h, tail) && Truncated(tail) && Good(tail + e)
    requires |tail| + |e| < h.total
    ensures WriteOf(h, e).1 == Finished(tail + e) && HoldsTail(WriteOf(h, e).0, Unfinished(tail + e))
  {
    StillUnfinished(tail, e);
    FillOfGood(h, tail, e);
    assert (tail + e)[0] == tail[0];
    hide FillOf, TextOf, Truncated, Good, Finished, Unfinished, LeadLength;
  }

  /** A character held and completed, and what follows it. */
  lemma WriteCompletes(h: Held, tail: seq<Byte>, e: seq<Byte>)
    requires Fits(h) && tail != [] && e != [] && HoldsTail(h, tail) && Truncated(tail) && Good(tail + e)
    requires |tail| + |e| >= h.total
    ensures WriteOf(h, e).1 == Finished(tail + e) && HoldsTail(WriteOf(h, e).0, Unfinished(tail + e))
  {
    hide FillOf, TextOf, Truncated, Good, Finished, Unfinished, LeadLength, Slice, CharLength;
    Completed(tail, e);
    FillOfGood(h, tail, e);
    WriteOfFilled(h, e);
    hide WriteOf;
    var rest := e[h.need..];
    if rest == [] {
      NothingUnfinished();
    } else {
      TextOfGood(FillOf(h, e).0.(need := 0), rest);
    }
  }

  /** `write` when the first bytes complete the character held. */
  lemma WriteOfFilled(h: Held, e: seq<Byte>)
    requires Fits(h) && e != [] && 0 < h.need <= |e|
    requires FillOf(h, e).0.need == h.need && FillOf(h, e).1.Some?
    ensures var (h', filled) := FillOf(h, e);
            && (h.need == |e| ==> WriteOf(h, e).0.need == 0 && WriteOf(h, e).1 == filled.value)
            && (h.need < |e| ==> var t := TextOf(h'.(need := 0), e[h.need..]);
                                 WriteOf(h, e).0 == t.0 && WriteOf(h, e).1 == filled.value + t.1)
  {
    hide FillOf, TextOf;
  }

  /** As long as the bytes seen are well-formed so far, each `write` produces exactly what became finished
      and holds the unfinished tail. */
  lemma WriteOfGood(h: Held, seen: seq<Byte>, e: seq<Byte>)
    requires Fits(h) && Good(seen + e) && HoldsTail(h, Unfinished(seen))
    ensures Good(seen)
    ensures Finished(seen) + WriteOf(h, e).1 == Finished(seen + e)
    ensures HoldsTail(WriteOf(h, e).0, Unfinished(seen + e))
  {
    var tail := Unfinished(seen);
    ResumeAt(seen, e);
    GoodIsTruncated(seen);
    hide Good, Finished, Unfinished, Truncated, LeadLength, TextOf, FillOf;
    if e == [] {
      assert seen + e == seen && Finished(seen) + [] == Finished(seen);
    } else if tail == [] {
      assert tail + e == e;
      TextOfGood(h, e);
    } else if |tail| + |e| < h.total {
      WriteHoldsMore(h, tail, e);
    } else {
      WriteCompletes(h, tail, e);
    }
  }

  class StringDecoder {
    const lastChar: array<Byte>
    var lastNeed: nat
    var lastTotal: nat
    ghost var seen: seq<Byte>
    ghost var out: seq<Unit>

    function State(): Held
      reads this, lastChar
    {
      Held(lastNeed, lastTotal, lastChar[..])
    }

    /** As long as the bytes seen are well-formed so far, everything finished has been output and lastChar
        holds exactly the unfinished character. */
    ghost predicate Valid()
      reads this, lastChar
    {
      && Fits(State())
      && (Good(seen) ==> out == Finished(seen) && HoldsTail(State(), Unfinished(seen)))
    }

    constructor ()
      ensures Valid() && fresh(lastChar) && lastNeed == 0 && seen == [] && out == []
    {
      lastNeed, lastTotal := 0, 0;
      lastChar := new Byte[4];
      seen, out := [], [];
      new;
      NothingUnfinished();
    }

    /** `utf8CheckIncomplete`: looks for an unfinished character in the last three bytes. */
    method CheckIncomplete(t: seq<Byte>, r: nat) returns (total: nat)
      requires lastNeed == 0 && r < |t|
      modifies this`lastNeed
      ensures (lastNeed, total) == Incomplete(t[r..])
    {
      hide CheckByte;
      var n := |t| - 1;
      CheckRange(t[n]);
      var a := CheckByte(t[n]);
      if a >= 0 {
        if a > 0 {
          lastNeed := a - 1;
        }
        return a;
      }
      n := n - 1;
      if n < r || a == -2 {
        return 0;
      }
      CheckRange(t[n]);
      a := CheckByte(t[n]);
      if a >= 0 {
        if a > 0 {
          lastNeed := a - 2;
        }
        return a;
      }
      n := n - 1;
      if n < r || a == -2 {
        return 0;
      }
      CheckRange(t[n]);
      a := CheckByte(t[n]);
      if a >= 0 {
        if a > 0 {
          if a == 2 {
            a := 0;
          } else {
            lastNeed := a - 3;
          }
        }
        return a;
      }
      return 0;
    }

    /** `text`: decodes e from r on, but for an unfinished character at the end. */
    method Text(e: seq<Byte>, r: nat) returns (s: seq<Unit>)
      requires Fits(State()) && lastNeed == 0 && r < |e|
      modifies this`lastNeed, this`lastTotal, lastChar
      ensures (State(), s) == TextOf(old(State()), e[r..])
    {
      hide Slice, Incomplete;
      ghost var b := e[r..];
      var total := CheckIncomplete(e, r);
      if lastNeed == 0 {
        s := Utf8Slice(e, r, |e|);
        assert e[r..|e|] == b;
        return;
      }
      lastTotal := total;
      var n := |e| - (total - lastNeed);
      assert e[r..n] == b[..n - r] && e[n..n + (|e| - n)] == b[n - r..];
      Copy(lastChar, 0, e, n, |e| - n);
      s := Utf8Slice(e, r, n);
    }

    /** `utf8FillLast`: completes the unfinished character; None is the source's undefined. */
    method FillLast(e: seq<Byte>) returns (s: Option<seq<Unit>>)
      requires Fits(State()) && 0 < lastNeed && e != []
      modifies this`lastNeed, lastChar
      ensures (State(), s) == FillOf(old(State()), e)
    {
      hide Slice;
      var t := lastTotal - lastNeed;
      if e[0] / 0x40 != 2 {
        lastNeed := 0;
        return Some(LOST);
      }
      if lastNeed > 1 && |e| > 1 {
        if e[1] / 0x40 != 2 {
          lastNeed := 1;
          return Some(LOST);
        }
        if lastNeed > 2 && |e| > 2 && e[2] / 0x40 != 2 {
          lastNeed := 2;
          return Some(LOST);
        }
      }
      if lastNeed <= |e| {
        assert e[0..lastNeed] == e[..lastNeed];
        Copy(lastChar, t, e, 0, lastNeed);
        var c := Utf8Slice(lastChar[..], 0, lastTotal);
        assert lastChar[..][0..lastTotal] == lastChar[..][..lastTotal];
        return Some(c);
      }
      assert e[0..|e|] == e;
      Copy(lastChar, t, e, 0, |e|);
      lastNeed := lastNeed - |e|;
      return None;
    }

    /** `write`. */
    method Write(e: seq<Byte>) returns (s: seq<Unit>)
      requires Valid()
      modifies this, lastChar
      ensures Valid() && (State(), s) == WriteOf(old(State()), e)
      ensures seen == old(seen) + e && out == old(out) + s
    {
      if Good(seen + e) {
        ResumeAt(seen, e);
        WriteOfGood(State(), seen, e);
      }
      s := [];
      if |e| == 0 {
        assert seen + e == seen;
        return;
      }
      s := WriteSome(e);
      hide Good, Finished, Unfinished, WriteOf, HoldsTail;
      out, seen := out + s, seen + e;
    }

    method WriteSome(e: seq<Byte>) returns (s: seq<Unit>)
      requires Fits(State()) && e != []
      modifies this`lastNeed, this`lastTotal, lastChar
      ensures (State(), s) == WriteOf(old(State()), e)
    {
      hide TextOf, FillOf;
      var r, t := 0, [];
      if lastNeed > 0 {
        var filled := FillLast(e);
        if filled == None {
          return [];
        }
        t := filled.value;
        r := lastNeed;
        lastNeed := 0;
      }
      s := t;
      if r < |e| {
        assert e[0..] == e;
        var u := Text(e, r);
        s := t + u;
        assert [] + u == u;
      }
    }

    /** `end`: what is left, with one replacement character for an unfinished one. */
    method End(e: seq<Byte>) returns (s: seq<Unit>)
      requires Valid()
      modifies this, lastChar
      ensures Valid() && seen == old(seen) + e
      ensures var (h, t) := WriteOf(old(State()), e);
              State() == h && s == t + (if h.need > 0 then LOST else [])
      ensures Good(seen) ==> old(out) + s == Finished(seen) + (if Unfinished(seen) == [] then [] else LOST)
    {
      s := Write(e);
      hide WriteOf, Finished;
      if lastNeed > 0 {
        s := s + LOST;
      } else {
        assert s + [] == s && Finished(seen) + [] == Finished(seen);
      }
    }
  }

  lemma GoodIsTruncated(b: seq<Byte>)
    requires Good(b)
    ensures Truncated(Unfinished(b))
    ensures Unfinished(b) != [] ==> |Unfinished(b)| < LeadLength(Unfinished(b)[0])
  {
  }

  lemma NothingUnfinished()
    ensures Unfinished([]) == [] && Finished([]) == []
  {
  }
}
