/** The streaming decoder on any bytes: when it does not matter where they are cut. */
module DecoderCuts {
  import opened Bits
  import opened Buffers
  import opened Options
  import opened Unicode
  import opened Utf8
  import opened Utf8Chunks
  import opened StringDecoder

  /** A first byte and some of the tail bytes it announces, but not all. */
  predicate Open(t: seq<Byte>) {
    t != [] && |t| < CheckByte(t[0]) && forall i :: 1 <= i < |t| ==> IsTail(t[i])
  }

  /** Nothing at the end of b waits for more. */
  predicate Closed(b: seq<Byte>) {
    forall i :: 0 <= i < |b| ==> !Open(b[i..])
  }

  /** Behind every first byte that is followed by at least one tail byte stand all those it announces. */
  predicate NoneCutOff(b: seq<Byte>) {
    forall i, j :: 0 <= i && i + 2 <= j <= |b| && Open(b[i..j]) ==> j < |b| && IsTail(b[j])
  }

  /** The same, but for the end of b. */
  predicate Uninterrupted(b: seq<Byte>) {
    forall i, j :: 0 <= i && i + 2 <= j < |b| && Open(b[i..j]) ==> IsTail(b[j])
  }

  // ---- where decoding at once can be split ----

  lemma LeadIsNoTail(t: seq<Byte>)
    requires Open(t)
    ensures t != [] && !IsTail(t[0])
  {
  }

  lemma HeadStays(d: seq<Byte>, x: seq<Byte>)
    requires d != [] && (!Open(d) || x == [] || !IsTail(x[0]))
    ensures DecodeHead(d + x) == DecodeHead(d)
  {
    var s := if d[0] > 239 then 4 else if d[0] > 223 then 3 else if d[0] > 191 then 2 else 1;
    if |d| < s <= |d + x| && d[0] <= 247 {
      assert CheckByte(d[0]) == s;
      if Open(d) {
        assert (d + x)[|d|] == x[0];
      }
    }
  }

  lemma {:induction false} DecodeSplits(d: seq<Byte>, x: seq<Byte>)
    requires Closed(d) || x == [] || !IsTail(x[0])
    ensures Decode(d + x) == Decode(d) + Decode(x)
    decreases |d|
  {
    hide Open, DecodeHead;
    if d == [] {
      assert d + x == x;
    } else {
      assert d[0..] == d;
      HeadStays(d, x);
      var k := DecodeHead(d).1;
      assert (d + x)[k..] == d[k..] + x;
      assert forall i :: 0 <= i < |d[k..]| ==> d[k..][i..] == d[k + i..];
      DecodeSplits(d[k..], x);
    }
  }

  /** Behind bytes of which nothing waits, or before a byte that goes on with nothing. */
  lemma SliceSplits(d: seq<Byte>, x: seq<Byte>)
    requires Closed(d) || x == [] || !IsTail(x[0])
    ensures Slice(d + x) == Slice(d) + Slice(x)
  {
    hide Decode, Closed;
    DecodeSplits(d, x);
    Utf16AllAppend(Decode(d), Decode(x));
  }

  lemma SliceLost(b: seq<Byte>)
    requires b != [] && DecodeHead(b) == (REPLACEMENT, 1)
    ensures Slice(b) == LOST + Slice(b[1..])
  {
    var rest := Decode(b[1..]);
    assert Decode(b) == [REPLACEMENT] + rest;
    assert ([REPLACEMENT] + rest)[1..] == rest;
    hide Decode, DecodeHead;
  }

  lemma {:induction false} TailsAreLost(t: seq<Byte>)
    requires forall i :: 0 <= i < |t| ==> IsTail(t[i])
    ensures |Slice(t)| == |t|
    decreases |t|
  {
    if t == [] {
      NothingDecoded();
    } else {
      assert DecodeHead(t) == (REPLACEMENT, 1);
      SliceLost(t);
      TailsAreLost(t[1..]);
    }
  }

  /** Decoded at once, what was cut off gives one replacement for each of its bytes. */
  lemma OpenIsLost(t: seq<Byte>)
    requires Open(t)
    ensures |Slice(t)| == |t| && (|t| == 1 ==> Slice(t) == LOST)
  {
    assert DecodeHead(t) == (REPLACEMENT, 1);
    SliceLost(t);
    TailsAreLost(t[1..]);
    hide Slice, DecodeHead;
    assert |t| == 1 ==> |Slice(t[1..])| == 0;
  }

  // ---- what the decoder holds ----

  function Waiting(h: Held): seq<Byte>
    requires Fits(h)
  {
    if h.need == 0 then [] else h.bytes[..h.total - h.need]
  }

  /** After reading b, all but the bytes held has been decoded as at once, and those held wait for more. */
  predicate Holds(h: Held, b: seq<Byte>, out: seq<Unit>)
    requires Fits(h)
  {
    var t := Waiting(h);
    && |t| <= |b| && b[|b| - |t|..] == t && out == Slice(b[..|b| - |t|])
    && if h.need == 0 then Closed(b) else Open(t) && CheckByte(t[0]) == h.total
  }

  /** `utf8CheckIncomplete` finds what waits at the end, if anything does. */
  lemma IncompleteIsOpen(b: seq<Byte>)
    requires b != []
    ensures var (need, total) := Incomplete(b);
            if need == 0 then Closed(b)
            else var t := b[|b| - (total - need)..]; Open(t) && CheckByte(t[0]) == total
  {
    var (need, total) := Incomplete(b);
    if need == 0 {
      forall i | 0 <= i < |b|
        ensures !Open(b[i..])
      {
        NotOpen(b, i);
      }
    }
  }

  lemma NotOpen(b: seq<Byte>, i: nat)
    requires i < |b| && Incomplete(b).0 == 0
    ensures !Open(b[i..])
  {
  }

  lemma TextHolds(h: Held, e: seq<Byte>)
    requires Fits(h) && h.need == 0 && e != []
    ensures Holds(TextOf(h, e).0, e, TextOf(h, e).1)
  {
    IncompleteIsOpen(e);
    hide Incomplete, Slice, Open, Closed, CheckByte;
    assert e[..|e|] == e;
  }

  /** More bytes behind a place where decoding can be split. */
  lemma HoldsBehind(h: Held, s: seq<Byte>, e: seq<Byte>, u: seq<Unit>)
    requires Fits(h) && e != [] && Holds(h, e, u) && (Closed(s) || !IsTail(e[0]))
    ensures Holds(h, s + e, Slice(s) + u)
  {
    hide Slice, Open, Closed, CheckByte;
    var t := Waiting(h);
    var n := |e| - |t|;
    assert (s + e)[|s| + n..] == t && (s + e)[..|s| + n] == s + e[..n];
    SliceSplits(s, e[..n]);
    if h.need == 0 {
      ClosedBehind(s, e);
    }
  }

  lemma ClosedBehind(s: seq<Byte>, e: seq<Byte>)
    requires e != [] && Closed(e) && (Closed(s) || !IsTail(e[0]))
    ensures Closed(s + e)
  {
    forall i | 0 <= i < |s + e|
      ensures !Open((s + e)[i..])
    {
      if i >= |s| {
        assert (s + e)[i..] == e[i - |s|..];
      } else {
        OpenPrefix(s[i..], e);
        assert (s + e)[i..] == s[i..] + e;
      }
    }
  }

  lemma OpenPrefix(x: seq<Byte>, y: seq<Byte>)
    requires x != [] && y != []
    ensures Open(x + y) ==> Open(x) && IsTail(y[0])
  {
    if Open(x + y) {
      assert (x + y)[0] == x[0] && (x + y)[|x|] == y[0];
      assert forall i :: 1 <= i < |x| ==> (x + y)[i] == x[i];
    }
  }

  // ---- one write ----

  predicate Tails(e: seq<Byte>) {
    forall i :: 0 <= i < |e| ==> IsTail(e[i])
  }

  /** `utf8FillLast`: the character held stays open, is interrupted behind `j` more bytes, or is complete. */
  lemma FillIs(h: Held, t: seq<Byte>, e: seq<Byte>)
    requires Fits(h) && h.need > 0 && t == Waiting(h) && Open(t) && CheckByte(t[0]) == h.total && e != []
    ensures var (h', filled) := FillOf(h, e); var j := h'.need;
            && h'.total == h.total
            && (filled.None? ==> j == h.need - |e| > 0 && Waiting(h') == t + e && Tails(e))
            && (filled.Some? && j < h.need ==>
                  j < |e| && Tails(e[..j]) && !IsTail(e[j]) && filled.value == LOST)
            && (filled.Some? && j >= h.need ==>
                  j == h.need <= |e| && Tails(e[..j]) && filled.value == Slice(t + e[..j]))
  {
    hide Slice, CheckByte, Overwrite;
    TailBits(e);
    if h.need <= |e| {
      OverwriteBehind(h.bytes, t, e[..h.need]);
    } else {
      OverwriteBehind(h.bytes, t, e);
    }
  }

  lemma OverwriteBehind(c: seq<Byte>, t: seq<Byte>, s: seq<Byte>)
    requires |t| + |s| <= |c| && t == c[..|t|]
    ensures Overwrite(c, |t|, s)[..|t| + |s|] == t + s
  {
  }

  lemma TailBits(e: seq<Byte>)
    ensures forall i :: 0 <= i < |e| ==> (IsTail(e[i]) <==> e[i] / 0x40 == 2)
  {
  }

  /** What is held and the tail bytes behind it. */
  lemma OpenMore(t: seq<Byte>, e: seq<Byte>)
    requires Open(t) && Tails(e)
    ensures |t| + |e| < CheckByte(t[0]) ==> Open(t + e)
    ensures |t| + |e| >= CheckByte(t[0]) ==> Closed(t + e)
  {
    hide CheckByte;
    var c := t + e;
    assert forall i :: 1 <= i < |c| ==> IsTail(c[i]);
    if |c| >= CheckByte(t[0]) {
      forall i | 0 <= i < |c|
        ensures !Open(c[i..])
      {
        if i > 0 {
          TailIsNoLead(c[i]);
        }
      }
    }
  }

  lemma TailIsNoLead(b: Byte)
    requires IsTail(b)
    ensures CheckByte(b) == -1
  {
  }

  lemma HoldsUnfolds(h: Held, s: seq<Byte>, out: seq<Unit>) returns (d: seq<Byte>)
    requires Fits(h) && h.need > 0 && Holds(h, s, out)
    ensures var t := Waiting(h);
            s == d + t && Open(t) && t != [] && CheckByte(t[0]) == h.total && out == Slice(d)
  {
    LeadIsNoTail(Waiting(h));
    hide Open, Closed, Slice, CheckByte;
    d := s[..|s| - |Waiting(h)|];
  }

  lemma WaitsMore(h: Held, d: seq<Byte>, t: seq<Byte>)
    requires Fits(h) && h.need > 0 && Waiting(h) == t && Open(t) && CheckByte(t[0]) == h.total
    ensures Holds(h, d + t, Slice(d))
  {
    hide Open, Closed, Slice, CheckByte;
    assert (d + t)[|d|..] == t && (d + t)[..|d|] == d;
  }

  /** An interrupted character of one byte gives the same replacement at once. */
  lemma InterruptedByte(d: seq<Byte>, t: seq<Byte>, e: seq<Byte>, j: nat)
    requires Open(t) && j < |e| && Tails(e[..j]) && !IsTail(e[j]) && |t| + j < CheckByte(t[0])
    requires Uninterrupted(d + t + e)
    ensures |t| == 1 && j == 0 && Slice(d + t) == Slice(d) + LOST
  {
    var b, i, k := d + t + e, |d|, |d| + |t| + j;
    OpenMore(t, e[..j]);
    assert b[i..k] == t + e[..j] && b[k] == e[j];
    assert k < i + 2;
    OpenIsLost(t);
    LeadIsNoTail(t);
    hide Slice;
    SliceSplits(d, t);
  }

  lemma WriteUnfolds(h: Held, e: seq<Byte>)
    requires Fits(h) && e != [] && h.need > 0
    ensures var (h', filled) := FillOf(h, e); var w := WriteOf(h, e);
            && (filled.None? ==> w == (h', []))
            && (filled.Some? && h'.need == |e| ==> w == (h'.(need := 0), filled.value))
            && (filled.Some? && h'.need < |e| ==>
                  var (h'', u) := TextOf(h'.(need := 0), e[h'.need..]); w == (h'', filled.value + u))
  {
    hide FillOf, TextOf;
  }

  /** With a character held, and none interrupted. */
  lemma FillHolds(h: Held, s: seq<Byte>, out: seq<Unit>, e: seq<Byte>)
    requires Fits(h) && h.need > 0 && e != [] && Holds(h, s, out) && Uninterrupted(s + e)
    ensures Holds(WriteOf(h, e).0, s + e, out + WriteOf(h, e).1)
  {
    hide Slice, Open, Closed, Uninterrupted, CheckByte, FillOf, WriteOf, TextOf, Holds, Tails;
    var t := Waiting(h);
    var d := HoldsUnfolds(h, s, out);
    FillIs(h, t, e);
    WriteUnfolds(h, e);
    var (h', filled) := FillOf(h, e);
    var j := h'.need;
    if filled.None? {
      OpenMore(t, e);
      WaitsMore(h', d, t + e);
      assert d + (t + e) == s + e && out + [] == out;
    } else if j < h.need {
      WaitingLength(h);
      InterruptedByte(d, t, e, j);
      assert e[0..] == e;
      TextBehind(h'.(need := 0), s, e);
      assert out + (LOST + TextOf(h'.(need := 0), e).1) == Slice(s) + TextOf(h'.(need := 0), e).1;
    } else {
      WaitingLength(h);
      Completes(h', d, t, e);
    }
  }

  lemma WaitingLength(h: Held)
    requires Fits(h) && h.need > 0
    ensures |Waiting(h)| == h.total - h.need
  {
  }

  /** `text` behind a place where decoding can be split. */
  lemma TextBehind(h: Held, s: seq<Byte>, e: seq<Byte>)
    requires Fits(h) && h.need == 0 && e != [] && (Closed(s) || !IsTail(e[0]))
    ensures var (h', u) := TextOf(h, e); Holds(h', s + e, Slice(s) + u)
  {
    hide Slice, Closed, Holds, TextOf;
    TextHolds(h, e);
    HoldsBehind(TextOf(h, e).0, s, e, TextOf(h, e).1);
  }

  lemma HoldsNothing(h: Held, s: seq<Byte>)
    requires Fits(h) && h.need == 0 && Closed(s)
    ensures Holds(h, s, Slice(s))
  {
    hide Slice, Closed;
    assert s[..|s|] == s;
  }

  /** The character held is completed by the first bytes of e. */
  lemma Completes(h: Held, d: seq<Byte>, t: seq<Byte>, e: seq<Byte>)
    requires Fits(h) && 0 < h.need <= |e| && Open(t) && Tails(e[..h.need]) && |t| + h.need == CheckByte(t[0])
    ensures var c, rest, clear := t + e[..h.need], e[h.need..], h.(need := 0);
            && (h.need == |e| ==> Holds(clear, d + t + e, Slice(d) + Slice(c)))
            && (h.need < |e| ==> var (h', u) := TextOf(clear, rest); Holds(h', d + t + e, Slice(d) + (Slice(c) + u)))
  {
    hide Slice, Open, Closed, CheckByte, TextOf, Holds, Tails;
    var c, rest, clear := t + e[..h.need], e[h.need..], h.(need := 0);
    LeadIsNoTail(t);
    OpenMore(t, e[..h.need]);
    ClosedBehind(d, c);
    SliceSplits(d, c);
    Parts(d, t, e, h.need);
    if h.need == |e| {
      HoldsNothing(clear, d + c);
    } else {
      TextBehind(clear, d + c, rest);
      Glue(Slice(d), Slice(c), TextOf(clear, rest).1);
    }
  }

  lemma Parts(d: seq<Byte>, t: seq<Byte>, e: seq<Byte>, n: nat)
    requires t != [] && n <= |e|
    ensures d + (t + e[..n]) + e[n..] == d + t + e && (n == |e| ==> d + (t + e[..n]) == d + t + e)
    ensures t + e[..n] != [] && (t + e[..n])[0] == t[0]
  {
  }

  lemma Glue(x: seq<Unit>, y: seq<Unit>, z: seq<Unit>)
    ensures x + y + z == x + (y + z)
  {
  }

  /** Every `write` leaves just the waiting bytes to be decoded, if no character is interrupted. */
  lemma WriteHolds(h: Held, s: seq<Byte>, out: seq<Unit>, e: seq<Byte>)
    requires Fits(h) && Holds(h, s, out) && Uninterrupted(s + e)
    ensures Holds(WriteOf(h, e).0, s + e, out + WriteOf(h, e).1)
  {
    hide Slice, Open, Closed, Uninterrupted, CheckByte, FillOf, TextOf;
    if e == [] {
      assert s + e == s && out + [] == out;
    } else if h.need == 0 {
      assert s[..|s|] == s;
      TextBehind(h, s, e);
    } else {
      FillHolds(h, s, out, e);
    }
    hide Holds, WriteOf;
  }

  // ---- whole streams ----

  /** The fields and the output after writing these chunks. */
  function Stream(h: Held, chunks: seq<seq<Byte>>): (r: (Held, seq<Unit>))
    requires Fits(h)
    ensures Fits(r.0)
  {
    if chunks == [] then (h, [])
    else
      var (h', out) := Stream(h, chunks[..|chunks| - 1]);
      var (h'', u) := WriteOf(h', chunks[|chunks| - 1]);
      (h'', out + u)
  }

  /** All output, `end` included. */
  function Streamed(h: Held, chunks: seq<seq<Byte>>): seq<Unit>
    requires Fits(h)
  {
    var (h', out) := Stream(h, chunks);
    out + if h'.need > 0 then LOST else []
  }

  lemma UninterruptedPrefix(x: seq<Byte>, y: seq<Byte>)
    requires Uninterrupted(x + y)
    ensures Uninterrupted(x)
  {
    hide Open;
    forall i, j | 0 <= i && i + 2 <= j < |x| && Open(x[i..j])
      ensures IsTail(x[j])
    {
      assert (x + y)[i..j] == x[i..j];
    }
  }

  lemma {:induction false} StreamHolds(h: Held, chunks: seq<seq<Byte>>)
    requires Fits(h) && h.need == 0 && Uninterrupted(Flatten(chunks))
    ensures Holds(Stream(h, chunks).0, Flatten(chunks), Stream(h, chunks).1)
    decreases |chunks|
  {
    hide Holds, Uninterrupted, WriteOf, Slice;
    if chunks == [] {
      NothingDecoded();
      HoldsNothing(h, []);
      SliceOfNothing([]);
    } else {
      var init, e := chunks[..|chunks| - 1], chunks[|chunks| - 1];
      UninterruptedPrefix(Flatten(init), e);
      StreamHolds(h, init);
      WriteHolds(Stream(h, init).0, Flatten(init), Stream(h, init).1, e);
    }
  }

  /** If no character is cut off, every cutting decodes as the whole. */
  lemma StreamedAsWhole(h: Held, chunks: seq<seq<Byte>>)
    requires Fits(h) && h.need == 0 && NoneCutOff(Flatten(chunks))
    ensures Streamed(h, chunks) == Slice(Flatten(chunks))
  {
    hide Stream, Slice, Flatten, Open;
    var b := Flatten(chunks);
    StreamHolds(h, chunks);
    var (h', out) := Stream(h, chunks);
    if h'.need == 0 {
      assert b[..|b|] == b && out + [] == out;
    } else {
      var d := HoldsUnfolds(h', b, out);
      var t := Waiting(h');
      assert b[|d|..|b|] == t;
      assert |t| < 2;
      OpenIsLost(t);
      LeadIsNoTail(t);
      SliceSplits(d, t);
    }
  }

  // ---- a character cut off shows in some cutting ----

  /** One write and the end give no more units than decoding at once. */
  lemma WrittenIsShort(h: Held, e: seq<Byte>)
    requires Fits(h) && h.need == 0 && e != []
    ensures var (h', u) := TextOf(h, e); |u| + (if h'.need > 0 then 1 else 0) <= |Slice(e)|
  {
    hide Slice, TextOf;
    TextHolds(h, e);
    var (h', u) := TextOf(h, e);
    if h'.need == 0 {
      assert e[..|e|] == e;
    } else {
      var d := HoldsUnfolds(h', e, u);
      OpenIsLost(Waiting(h'));
      LeadIsNoTail(Waiting(h'));
      SliceSplits(d, Waiting(h'));
    }
  }

  /** The first write ends behind the first byte t0 of a character. */
  lemma LeadIsHeld(h: Held, p: seq<Byte>, lead: Byte)
    requires Fits(h) && h.need == 0 && CheckByte(lead) > 2
    ensures var (h', u) := TextOf(h, p + [lead]);
            h'.need == CheckByte(lead) - 1 && h'.total == CheckByte(lead) && Waiting(h') == [lead] && u == Slice(p)
  {
    hide CheckByte, Slice;
    var e := p + [lead];
    assert e[|p|..] == [lead] && e[..|p|] == p && e[|e| - 1] == lead;
    CheckRange(lead);
  }

  /** The second write goes on with the tail bytes that are there and meets what interrupts them. */
  lemma RestIsInterrupted(h: Held, tails: seq<Byte>, r: seq<Byte>)
    requires Fits(h) && 0 < |tails| < h.need < h.total && Tails(tails) && (r == [] || !IsTail(r[0]))
    ensures var (h', u) := WriteOf(h, tails + r);
            |u| + (if h'.need > 0 then 1 else 0) <= 1 + |Slice(r)|
  {
    var e := tails + r;
    TailBits(e);
    assert forall i :: 0 <= i < |tails| ==> e[i] == tails[i];
    if r != [] {
      assert e[|tails|] == r[0] && e[|tails|..] == r;
      WrittenIsShort(FillOf(h, e).0.(need := 0), r);
    }
    hide TextOf, Slice;
  }

  /** What is cut off decodes at once to one replacement a byte. */
  lemma SliceAround(p: seq<Byte>, t: seq<Byte>, r: seq<Byte>)
    requires Open(t) && (r == [] || !IsTail(r[0]))
    ensures |Slice(p + t + r)| == |Slice(p)| + |t| + |Slice(r)|
  {
    hide Slice;
    LeadIsNoTail(t);
    OpenIsLost(t);
    SliceSplits(p, t + r);
    SliceSplits(t, r);
    assert p + t + r == p + (t + r);
  }

  /** Two writes, cut behind the first byte of a character cut off, give fewer units than the whole at once. */
  lemma CutOffShows(h: Held, p: seq<Byte>, t: seq<Byte>, r: seq<Byte>) returns (chunks: seq<seq<Byte>>)
    requires Fits(h) && h.need == 0 && Open(t) && |t| >= 2 && (r == [] || !IsTail(r[0]))
    ensures chunks == [p + [t[0]], t[1..] + r]
    ensures Flatten(chunks) == p + t + r && Streamed(h, chunks) != Slice(p + t + r)
  {
    LeadIsNoTail(t);
    chunks := [p + [t[0]], t[1..] + r];
    var lead := t[0];
    CutParts(p, t, r);
    assert CheckByte(lead) > 2 && Tails(t[1..]);
    hide Slice, TextOf, WriteOf, Streamed, Flatten, CheckByte, Open, Tails;
    LeadIsHeld(h, p, lead);
    var h' := TextOf(h, p + [lead]).0;
    RestIsInterrupted(h', t[1..], r);
    SliceAround(p, t, r);
    TwoWrites(h, p + [lead], t[1..] + r);
  }

  lemma CutParts(p: seq<Byte>, t: seq<Byte>, r: seq<Byte>)
    requires t != []
    ensures p + [t[0]] + (t[1..] + r) == p + t + r
  {
  }

  lemma TwoWrites(h: Held, x: seq<Byte>, y: seq<Byte>)
    requires Fits(h) && h.need == 0 && x != []
    ensures Flatten([x, y]) == x + y
    ensures var (h', u) := TextOf(h, x); var (h'', v) := WriteOf(h', y);
            Streamed(h, [x, y]) == u + v + if h''.need > 0 then LOST else []
  {
    hide TextOf, FillOf;
    var two, one: seq<seq<Byte>> := [x, y], [x];
    assert two[..1] == one && one[..0] == [];
    assert Flatten(one) == Flatten(one[..0]) + x && Flatten(two) == Flatten(two[..1]) + y;
    assert Stream(h, one[..0]) == (h, []);
    assert Stream(h, one) == (TextOf(h, x).0, [] + TextOf(h, x).1);
    hide WriteOf;
  }

  /** Every cutting of b decodes as the whole exactly when no character of b is cut off behind its second
      byte: no first byte is followed by some tail bytes and yet by fewer than it announces. */
  lemma CutsDoNotMatterIff(h: Held, b: seq<Byte>)
    requires Fits(h) && h.need == 0
    ensures (forall chunks: seq<seq<Byte>> :: Flatten(chunks) == b ==> Streamed(h, chunks) == Slice(b))
            <==> NoneCutOff(b)
  {
    hide Open, Streamed, Slice, Flatten;
    if NoneCutOff(b) {
      forall chunks: seq<seq<Byte>> | Flatten(chunks) == b
        ensures Streamed(h, chunks) == Slice(b)
      {
        StreamedAsWhole(h, chunks);
      }
    } else {
      var i, j :| 0 <= i && i + 2 <= j <= |b| && Open(b[i..j]) && !(j < |b| && IsTail(b[j]));
      var chunks := CutOffShows(h, b[..i], b[i..j], b[j..]);
      assert b[..i] + b[i..j] + b[j..] == b;
      assert Flatten(chunks) == b && Streamed(h, chunks) != Slice(b);
    }
  }

  // ---- well-formed bytes, and the class ----

  /** Well-formed bytes cut no character off. */
  lemma {:induction false} WellFormedIsUncut(b: seq<Byte>)
    requires WellFormed8(b)
    ensures NoneCutOff(b)
    decreases |b|
  {
    hide CharLength, Open;
    if b != [] {
      var k := CharLength(b);
      WellFormedIsUncut(b[k..]);
      forall i, j | 0 <= i && i + 2 <= j <= |b| && Open(b[i..j])
        ensures j < |b| && IsTail(b[j])
      {
        if i < k {
          FirstIsUncut(b, i, j);
        } else {
          assert b[k..][i - k..j - k] == b[i..j];
        }
      }
    }
  }

  lemma FirstIsUncut(b: seq<Byte>, i: nat, j: nat)
    requires i < CharLength(b) && i + 2 <= j <= |b| && Open(b[i..j])
    ensures j < |b| && IsTail(b[j])
  {
    assert b[i..j][0] == b[i];
  }

  /** What `StringDecoder` produces over all `write` calls and `end`, on any bytes. */
  method DecodeChunks(chunks: seq<seq<Byte>>, last: seq<Byte>) returns (s: seq<Unit>, ghost h: Held)
    ensures Fits(h) && h.need == 0 && s == Streamed(h, chunks + [last])
    ensures NoneCutOff(Flatten(chunks) + last) ==> s == Slice(Flatten(chunks) + last)
    ensures WellFormed8(Flatten(chunks) + last) ==> s == Slice(Flatten(chunks) + last)
  {
    hide Good, Finished, Unfinished, WellFormed8, Slice, HoldsTail, WriteOf, NoneCutOff, Flatten;
    var d := new StringDecoder();
    h := d.State();
    s := [];
    for i := 0 to |chunks|
      invariant d.Valid() && fresh(d) && fresh(d.lastChar)
      invariant Stream(h, chunks[..i]) == (d.State(), s)
    {
      assert chunks[..i + 1][..i] == chunks[..i];
      var t := d.Write(chunks[i]);
      s := s + t;
    }
    assert chunks[..|chunks|] == chunks && (chunks + [last])[..|chunks|] == chunks;
    var t := d.End(last);
    s := s + t;
    FlattenEnd(chunks, last);
    if NoneCutOff(Flatten(chunks) + last) {
      StreamedAsWhole(h, chunks + [last]);
    }
    if WellFormed8(Flatten(chunks) + last) {
      WellFormedIsUncut(Flatten(chunks) + last);
      StreamedAsWhole(h, chunks + [last]);
    }
  }

  lemma FlattenEnd(chunks: seq<seq<Byte>>, last: seq<Byte>)
    ensures Flatten(chunks + [last]) == Flatten(chunks) + last
  {
    assert (chunks + [last])[..|chunks|] == chunks;
  }
}
