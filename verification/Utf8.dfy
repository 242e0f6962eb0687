/** UTF-8 (section 3 of RFC 3629) and UTF-16 as reference encodings of Unicode scalar values. */
module Unicode {
  import opened Bits
  import opened Buffers

  type Unit = x: int | 0 <= x < 0x1_0000
  type Scalar = x: int | 0 <= x < 0xD800 || 0xDFFF < x < 0x11_0000

  const REPLACEMENT: Scalar := 0xFFFD

  predicate IsLead(u: Unit) {
    0xD800 <= u <= 0xDBFF
  }

  predicate IsTrail(u: Unit) {
    0xDC00 <= u <= 0xDFFF
  }

  /** The table of section 3 of RFC 3629. */
  function EncodeScalar(c: Scalar): (s: seq<Byte>)
    ensures 1 <= |s| <= 4
  {
    if c < 0x80 then [c]
    else if c < 0x800 then [0xC0 + c / 0x40, 0x80 + c % 0x40]
    else if c < 0x1_0000 then [0xE0 + c / 0x1000, 0x80 + c / 0x40 % 0x40, 0x80 + c % 0x40]
    else [0xF0 + c / 0x4_0000, 0x80 + c / 0x1000 % 0x40, 0x80 + c / 0x40 % 0x40, 0x80 + c % 0x40]
  }

  function EncodeAll(cs: seq<Scalar>): seq<Byte> {
    if cs == [] then [] else EncodeScalar(cs[0]) + EncodeAll(cs[1..])
  }

  function Utf16(c: Scalar): (s: seq<Unit>)
    ensures 1 <= |s| <= 2
  {
    if c < 0x1_0000 then [c] else [0xD800 + (c - 0x1_0000) / 0x400, 0xDC00 + (c - 0x1_0000) % 0x400]
  }

  function Utf16All(cs: seq<Scalar>): seq<Unit> {
    if cs == [] then [] else Utf16(cs[0]) + Utf16All(cs[1..])
  }

  /** Every surrogate is half of a pair. */
  ghost predicate WellFormed16(u: seq<Unit>) {
    && (forall i :: 0 <= i < |u| && IsLead(u[i]) ==> i + 1 < |u| && IsTrail(u[i + 1]))
    && (forall i :: 0 <= i < |u| && IsTrail(u[i]) ==> i > 0 && IsLead(u[i - 1]))
  }

  predicate IsTail(b: Byte) {
    0x80 <= b <= 0xBF
  }

  /** The length of the character at the head of b by the grammar of section 4 of RFC 3629;
      0 when there is none. */
  function CharLength(b: seq<Byte>): (k: nat)
    ensures k <= |b| && k <= 4
  {
    if b == [] then 0
    else if b[0] <= 0x7F then 1
    else if |b| >= 2 && 0xC2 <= b[0] <= 0xDF && IsTail(b[1]) then 2
    else if |b| >= 3 && IsTail(b[1]) && IsTail(b[2])
      && (b[0] == 0xE0 ==> b[1] >= 0xA0) && (b[0] == 0xED ==> b[1] <= 0x9F) && 0xE0 <= b[0] <= 0xEF then 3
    else if |b| >= 4 && IsTail(b[1]) && IsTail(b[2]) && IsTail(b[3])
      && (b[0] == 0xF0 ==> b[1] >= 0x90) && (b[0] == 0xF4 ==> b[1] <= 0x8F) && 0xF0 <= b[0] <= 0xF4 then 4
    else 0
  }

  predicate WellFormed8(b: seq<Byte>) {
    b == [] || (CharLength(b) > 0 && WellFormed8(b[CharLength(b)..]))
  }

  // ---- the grammar is the image of the table ----

  lemma EncodedHead(c: Scalar, rest: seq<Byte>)
    ensures CharLength(EncodeScalar(c) + rest) == |EncodeScalar(c)|
  {
    var b := EncodeScalar(c) + rest;
    assert b[..|EncodeScalar(c)|] == EncodeScalar(c);
  }

  lemma {:induction false} EncodedIsWellFormed(cs: seq<Scalar>)
    ensures WellFormed8(EncodeAll(cs))
  {
    if cs != [] {
      EncodedHead(cs[0], EncodeAll(cs[1..]));
      EncodedIsWellFormed(cs[1..]);
      assert EncodeAll(cs)[|EncodeScalar(cs[0])|..] == EncodeAll(cs[1..]);
    }
  }

  lemma {:induction false} EncodeAllAppend(cs: seq<Scalar>, ds: seq<Scalar>)
    ensures EncodeAll(cs + ds) == EncodeAll(cs) + EncodeAll(ds)
  {
    if cs == [] {
      assert cs + ds == ds;
    } else {
      EncodeAllAppend(cs[1..], ds);
      assert (cs + ds)[1..] == cs[1..] + ds;
      Associative(EncodeScalar(cs[0]), EncodeAll(cs[1..]), EncodeAll(ds));
      hide EncodeScalar;
    }
  }

  lemma {:induction false} Utf16AllAppend(cs: seq<Scalar>, ds: seq<Scalar>)
    ensures Utf16All(cs + ds) == Utf16All(cs) + Utf16All(ds)
  {
    if cs == [] {
      assert cs + ds == ds;
    } else {
      Utf16AllAppend(cs[1..], ds);
      assert (cs + ds)[1..] == cs[1..] + ds;
      Associative(Utf16(cs[0]), Utf16All(cs[1..]), Utf16All(ds));
      hide Utf16;
    }
  }

  /** A pair of surrogates that touch in a well-formed string belong to one character. */
  lemma {:induction false} Utf16IsWellFormed(cs: seq<Scalar>)
    ensures WellFormed16(Utf16All(cs))
    ensures Utf16All(cs) != [] ==> !IsTrail(Utf16All(cs)[0])
  {
    if cs != [] {
      Utf16IsWellFormed(cs[1..]);
      var h, t := Utf16(cs[0]), Utf16All(cs[1..]);
      var u := h + t;
      forall i | 0 <= i < |u| && IsLead(u[i])
        ensures i + 1 < |u| && IsTrail(u[i + 1])
      {
        if i >= |h| {
          assert IsLead(t[i - |h|]);
        }
      }
      forall i | 0 <= i < |u| && IsTrail(u[i])
        ensures i > 0 && IsLead(u[i - 1])
      {
        if i >= |h| {
          assert IsTrail(t[i - |h|]);
        }
      }
    }
  }
}

/** `utf8ToBytes` and `utf8Slice` of module 287 of the bundle. Masks, shifts and `|` of fields
    that share no bit are written as remainders, quotients and sums. */
module Utf8 {
  import opened Arithmetic
  import opened Bits
  import opened Unicode

  // ---- what utf8ToBytes keeps of a string ----

  function PairScalar(lead: Unit, trail: Unit): Scalar
    requires IsLead(lead) && IsTrail(trail)
  {
    0x1_0000 + (lead as int - 0xD800) * 0x400 + (trail as int - 0xDC00)
  }

  /** The characters of a string, each lone surrogate replaced. */
  function Scalars(u: seq<Unit>): seq<Scalar> {
    if u == [] then []
    else if IsLead(u[0]) && |u| > 1 && IsTrail(u[1]) then
      [PairScalar(u[0], u[1])] + Scalars(u[2..])
    else if IsLead(u[0]) || IsTrail(u[0]) then [REPLACEMENT] + Scalars(u[1..])
    else [u[0]] + Scalars(u[1..])
  }

  predicate EndsInTwoLeads(u: seq<Unit>) {
    |u| >= 2 && IsLead(u[|u| - 1]) && IsLead(u[|u| - 2])
  }

  /** The loop forgets a last lead surrogate that follows another one. */
  function Kept(u: seq<Unit>): seq<Unit> {
    if EndsInTwoLeads(u) then u[..|u| - 1] else u
  }

  /** The source's `t`: how many bytes may still be written. */
  datatype Budget = Infinity | Left(n: int) {
    function Minus(k: nat): Budget {
      if Infinity? then Infinity else Left(n - k)
    }

    predicate Overdrawn() {
      Left? && n < 0
    }
  }

  /** The encoding of the longest run of leading characters that fits. */
  function Fit(cs: seq<Scalar>, t: Budget): seq<Byte>
    decreases |cs|
  {
    if cs == [] then []
    else
      var left := t.Minus(|EncodeScalar(cs[0])|);
      if left.Overdrawn() then [] else EncodeScalar(cs[0]) + Fit(cs[1..], left)
  }

  lemma {:induction false} FitIsLongestPrefix(cs: seq<Scalar>, budget: nat) returns (k: nat)
    ensures k <= |cs| && Fit(cs, Left(budget)) == EncodeAll(cs[..k]) && |EncodeAll(cs[..k])| <= budget
    ensures k < |cs| ==> |EncodeAll(cs[..k + 1])| > budget
  {
    if cs == [] || |EncodeScalar(cs[0])| > budget {
      k := 0;
      if cs != [] {
        assert cs[..1][0] == cs[0];
      }
    } else {
      var j := FitIsLongestPrefix(cs[1..], budget - |EncodeScalar(cs[0])|);
      k := j + 1;
      assert cs[..k][1..] == cs[1..][..j];
      if k < |cs| {
        assert cs[..k + 1][1..] == cs[1..][..j + 1];
      }
    }
  }

  lemma {:induction false} FitUnlimited(cs: seq<Scalar>)
    ensures Fit(cs, Infinity) == EncodeAll(cs)
  {
    if cs != [] {
      FitUnlimited(cs[1..]);
    }
  }

  /** The bytes of a string within a budget; as in the source, budget 0 means no budget. */
  function BytesOf(u: seq<Unit>, units: nat): seq<Byte> {
    Fit(Scalars(Kept(u)), if units == 0 then Infinity else Left(units))
  }

  /** What the loop still has to write at index s when the lead surrogate a is pending (0 is the
      source's null). */
  function Remaining(e: seq<Unit>, s: nat, a: Unit): seq<Scalar>
    requires (if a == 0 then s else s - 1) <= |Kept(e)| && (a != 0 ==> s > 0)
  {
    Scalars(Kept(e)[if a == 0 then s else s - 1..])
  }

  ghost predicate Pending(e: seq<Unit>, s: nat, a: Unit) {
    && s <= |e| && s - 1 <= |Kept(e)|
    && (a == 0 ==> s <= |Kept(e)| && (s < |e| ==> s < |Kept(e)|))
    && (a != 0 ==> s > 0 && a == e[s - 1] && IsLead(a) && (s == |e| ==> EndsInTwoLeads(e)))
  }

  /** What reading e[s] does to what remains, case by case. */
  lemma ReadUnit(e: seq<Unit>, s: nat, a: Unit)
    requires Pending(e, s, a) && s < |e|
    ensures a == 0 && IsTrail(e[s]) ==>
      Pending(e, s + 1, 0) && Remaining(e, s, a) == [REPLACEMENT] + Remaining(e, s + 1, 0)
    ensures a == 0 && IsLead(e[s]) && s + 1 == |e| ==>
      Pending(e, s + 1, 0) && Remaining(e, s, a) == [REPLACEMENT] + Remaining(e, s + 1, 0)
    ensures a == 0 && IsLead(e[s]) && s + 1 < |e| ==>
      Pending(e, s + 1, e[s]) && Remaining(e, s, a) == Remaining(e, s + 1, e[s])
    ensures a != 0 && IsLead(e[s]) ==>
      Pending(e, s + 1, e[s]) && Remaining(e, s, a) == [REPLACEMENT] + Remaining(e, s + 1, e[s])
    ensures a != 0 && IsTrail(e[s]) ==>
      Pending(e, s + 1, 0)
      && Remaining(e, s, a) == [PairScalar(a, e[s])] + Remaining(e, s + 1, 0)
    ensures a != 0 && !IsTrail(e[s]) && !IsLead(e[s]) ==>
      Pending(e, s, 0) && Remaining(e, s, a) == [REPLACEMENT] + Remaining(e, s, 0)
    ensures a == 0 && !IsTrail(e[s]) && !IsLead(e[s]) ==>
      Pending(e, s + 1, 0) && Remaining(e, s, a) == [e[s]] + Remaining(e, s + 1, 0)
  {
    var k := Kept(e);
    var p := if a == 0 then s else s - 1;
    if p < |k| {
      assert k[p..][1..] == k[p + 1..];
      if p + 1 < |k| {
        assert k[p..][1] == k[p + 1] == e[p + 1];
        assert k[p..][2..] == k[p + 2..];
      }
    }
  }

  lemma RemainingEnds(e: seq<Unit>, a: Unit, t: Budget)
    ensures Pending(e, 0, 0) && Remaining(e, 0, 0) == Scalars(Kept(e))
    ensures Pending(e, |e|, a) ==> Fit(Remaining(e, |e|, a), t) == []
  {
    assert Kept(e)[0..] == Kept(e);
  }

  method PushReplacement(o: seq<Byte>, t: Budget) returns (o': seq<Byte>, t': Budget)
    ensures t' == t.Minus(|EncodeScalar(REPLACEMENT)|)
    ensures o' == if t'.Overdrawn() then o else o + EncodeScalar(REPLACEMENT)
  {
    o', t' := o, t.Minus(3);
    if !t'.Overdrawn() {
      o' := o + [239, 191, 189];
    }
  }

  /** One character after surrogates are dealt with; `stop` is the source's `break`. */
  method PushScalar(o: seq<Byte>, t: Budget, r: Scalar) returns (o': seq<Byte>, t': Budget, stop: bool)
    ensures t' == t.Minus(|EncodeScalar(r)|) && stop == t'.Overdrawn()
    ensures o' == if stop then o else o + EncodeScalar(r)
  {
    o', stop := o, false;
    if r < 0x80 {
      t' := t.Minus(1);
      if t'.Overdrawn() {
        return o, t', true;
      }
      o' := o + [r];
    } else if r < 0x800 {
      t' := t.Minus(2);
      if t'.Overdrawn() {
        return o, t', true;
      }
      o' := o + [r / 0x40 + 192, r % 0x40 + 128];
    } else if r < 0x1_0000 {
      t' := t.Minus(3);
      if t'.Overdrawn() {
        return o, t', true;
      }
      o' := o + [r / 0x1000 + 224, r / 0x40 % 0x40 + 128, r % 0x40 + 128];
    } else {
      t' := t.Minus(4);
      if t'.Overdrawn() {
        return o, t', true;
      }
      o' := o + [r / 0x4_0000 + 240, r / 0x1000 % 0x40 + 128, r / 0x40 % 0x40 + 128, r % 0x40 + 128];
    }
  }

  lemma FitPush(o: seq<Byte>, c: Scalar, cs: seq<Scalar>, t: Budget)
    ensures var t' := t.Minus(|EncodeScalar(c)|);
            && (t'.Overdrawn() ==> Fit(cs, t') == [])
            && o + Fit([c] + cs, t) == (if t'.Overdrawn() then o else o + EncodeScalar(c)) + Fit(cs, t')
  {
    assert ([c] + cs)[1..] == cs;
    var t' := t.Minus(|EncodeScalar(c)|);
    if !t'.Overdrawn() {
      assert o + (EncodeScalar(c) + Fit(cs, t')) == (o + EncodeScalar(c)) + Fit(cs, t');
    } else {
      assert o + [] == o;
    }
  }

  method Utf8ToBytes(e: seq<Unit>, units: nat) returns (o: seq<Byte>)
    ensures o == BytesOf(e, units)
  {
    hide Remaining, Scalars, Kept, Fit, EncodeScalar;
    var t := if units == 0 then Infinity else Left(units);
    var n := |e|;
    var a: Unit := 0;
    o := [];
    RemainingEnds(e, a, t);
    var s := 0;
    while s < n
      invariant s <= n && Pending(e, s, a)
      invariant BytesOf(e, units) == o + Fit(Remaining(e, s, a), t)
    {
      var r: int := e[s];
      ReadUnit(e, s, a);
      if 0xD7FF < r < 0xE000 {
        if a == 0 {
          // a lone trail, or a lead that ends the string
          if r > 0xDBFF || s + 1 == n {
            FitPush(o, REPLACEMENT, Remaining(e, s + 1, 0), t);
            o, t := PushReplacement(o, t);
            s := s + 1;
            continue;
          }
          s, a := s + 1, r;
          continue;
        }
        if r < 0xDC00 {
          FitPush(o, REPLACEMENT, Remaining(e, s + 1, r), t);
          o, t := PushReplacement(o, t);
          s, a := s + 1, r;
          continue;
        }
        r := 0x1_0000 + ((a - 0xD800) * 0x400 + (r - 0xDC00));
      } else if a != 0 {
        FitPush(o, REPLACEMENT, Remaining(e, s, 0), t);
        o, t := PushReplacement(o, t);
        ReadUnit(e, s, 0);
      }
      a := 0;
      var stop;
      FitPush(o, r, Remaining(e, s + 1, 0), t);
      o, t, stop := PushScalar(o, t, r);
      s := s + 1;
      if stop {
        return;
      }
    }
    RemainingEnds(e, a, t);
  }

  // ---- utf8Slice ----

  /** The source's switch: the character at the head of b and how many bytes it takes; a byte that
      starts no character gives the replacement character alone. */
  function DecodeHead(b: seq<Byte>): (r: (Scalar, nat))
    requires b != []
    ensures 1 <= r.1 <= |b|
  {
    var t := b[0];
    var s := if t > 239 then 4 else if t > 223 then 3 else if t > 191 then 2 else 1;
    if s > |b| then (REPLACEMENT, 1)
    else if s == 1 then
      if t < 128 then (t, 1) else (REPLACEMENT, 1)
    else if s == 2 then
      var i := (t as int) % 0x20 * 0x40 + b[1] % 0x40;
      if b[1] / 0x40 == 2 && i > 127 then (i, 2) else (REPLACEMENT, 1)
    else if s == 3 then
      var i := (t as int) % 0x10 * 0x1000 + (b[1] as int) % 0x40 * 0x40 + b[2] % 0x40;
      if b[1] / 0x40 == 2 && b[2] / 0x40 == 2 && i > 2047 && (i < 55296 || i > 57343) then (i, 3)
      else (REPLACEMENT, 1)
    else
      var i := (t as int) % 0x10 * 0x4_0000 + (b[1] as int) % 0x40 * 0x1000 + (b[2] as int) % 0x40 * 0x40 + b[3] % 0x40;
      if b[1] / 0x40 == 2 && b[2] / 0x40 == 2 && b[3] / 0x40 == 2 && i > 65535 && i < 1114112 then (i, 4)
      else (REPLACEMENT, 1)
  }

  function Decode(b: seq<Byte>): seq<Scalar> {
    if b == [] then [] else [DecodeHead(b).0] + Decode(b[DecodeHead(b).1..])
  }

  function Slice(b: seq<Byte>): seq<Unit> {
    Utf16All(Decode(b))
  }

  lemma DecodeStep(done: seq<Scalar>, b: seq<Byte>)
    requires b != []
    ensures var (c, k) := DecodeHead(b);
            && done + Decode(b) == (done + [c]) + Decode(b[k..])
            && Utf16All(done + [c]) == Utf16All(done) + Utf16(c)
  {
    var (c, k) := DecodeHead(b);
    assert done + ([c] + Decode(b[k..])) == (done + [c]) + Decode(b[k..]);
    Utf16AllAppend(done, [c]);
    assert Utf16All([c]) == Utf16(c) by { assert [c][1..] == []; }
  }

  method Utf8Slice(e: seq<Byte>, t: nat, r: nat) returns (n: seq<Unit>)
    requires t <= |e|
    ensures n == Slice(e[t..if r < t then t else if r < |e| then r else |e|])
  {
    hide DecodeHead, Decode, Utf16All;
    var end := if |e| < r then |e| else r;
    ghost var b := e[t..if end < t then t else end];
    n := [];
    var a := t;
    ghost var done: seq<Scalar> := [];
    NothingDecoded();
    assert b[0..] == b;
    while a < end
      invariant t <= a <= t + |b|
      invariant Decode(b) == done + Decode(b[a - t..])
      invariant n == Utf16All(done)
    {
      assert e[a..end] == b[a - t..];
      DecodeStep(done, e[a..end]);
      var (o, s) := DecodeHead(e[a..end]);
      assert b[a - t..][s..] == b[a + s - t..];
      done := done + [o];
      if o > 0xFFFF {
        var p := o - 0x1_0000;
        assert p / 0x400 % 0x400 == p / 0x400;
        n := n + [p / 0x400 % 0x400 + 0xD800, 0xDC00 + p % 0x400];
      } else {
        n := n + [o];
      }
      a := a + s;
    }
    assert b[|b|..] == [];
    assert done + [] == done;
  }

  lemma NothingDecoded()
    ensures Decode([]) == [] && Utf16All([]) == []
  {
  }

  // ---- the laws ----

  lemma TailByte(b: Byte)
    ensures IsTail(b) <==> b / 0x40 == 2
    ensures IsTail(b) ==> b == 0x80 + b % 0x40
  {
  }

  lemma LowDigit(w: nat, x: nat, d: nat)
    requires 0 < d && x < d
    ensures (w * d + x) / d == w && (w * d + x) % d == x
  {
    Quotient(w * d + x, d, w, x);
  }

  /** Six-bit digits can be read back. */
  lemma SixBits(w: nat, x: nat, y: nat, z: nat)
    requires x < 0x40 && y < 0x40 && z < 0x40
    ensures var i := w * 0x4_0000 + x * 0x1000 + y * 0x40 + z;
            i / 0x4_0000 == w && i / 0x1000 == w * 0x40 + x && i / 0x1000 % 0x40 == x
            && i / 0x40 % 0x40 == y && i % 0x40 == z
  {
    LowDigit(w * 0x1000 + x * 0x40 + y, z, 0x40);
    LowDigit(w * 0x40 + x, y, 0x40);
    LowDigit(w, x, 0x40);
    LowDigit(w * 0x40 + x, y * 0x40 + z, 0x1000);
    LowDigit(w, x * 0x1000 + y * 0x40 + z, 0x4_0000);
  }

  /** A well-formed head decodes to the character it encodes; any other byte to the replacement. */
  lemma DecodeByGrammar(b: seq<Byte>)
    requires b != []
    ensures var (c, k) := DecodeHead(b);
            if CharLength(b) > 0 then k == CharLength(b) && EncodeScalar(c) == b[..k]
            else c == REPLACEMENT && k == 1
  {
    var t := b[0];
    if t > 239 && |b| >= 4 {
      DecodeFour(b);
    } else if 223 < t <= 239 && |b| >= 3 {
      DecodeThree(b);
    } else if 191 < t <= 223 && |b| >= 2 {
      DecodeTwo(b);
    }
  }

  lemma DecodeTwo(b: seq<Byte>)
    requires |b| >= 2 && 191 < b[0] <= 223
    ensures var (c, k) := DecodeHead(b);
            if CharLength(b) > 0 then k == CharLength(b) && EncodeScalar(c) == b[..k]
            else c == REPLACEMENT && k == 1
  {
    TailByte(b[1]);
    SixBits(0, 0, b[0] % 0x20, b[1] % 0x40);
  }

  lemma DecodeThree(b: seq<Byte>)
    requires |b| >= 3 && 223 < b[0] <= 239
    ensures var (c, k) := DecodeHead(b);
            if CharLength(b) > 0 then k == CharLength(b) && EncodeScalar(c) == b[..k]
            else c == REPLACEMENT && k == 1
  {
    TailByte(b[1]);
    TailByte(b[2]);
    SixBits(0, b[0] % 0x10, b[1] % 0x40, b[2] % 0x40);
    assert b[0] % 0x10 == b[0] - 0xE0;
  }

  lemma DecodeFour(b: seq<Byte>)
    requires |b| >= 4 && 239 < b[0]
    ensures var (c, k) := DecodeHead(b);
            if CharLength(b) > 0 then k == CharLength(b) && EncodeScalar(c) == b[..k]
            else c == REPLACEMENT && k == 1
  {
    TailByte(b[1]);
    TailByte(b[2]);
    TailByte(b[3]);
    SixBits(b[0] % 0x10, b[1] % 0x40, b[2] % 0x40, b[3] % 0x40);
    assert b[0] % 0x10 == b[0] - 0xF0;
  }

  /** Different characters have different encodings. */
  lemma EncodeInjective(c: Scalar, d: Scalar)
    requires EncodeScalar(c) == EncodeScalar(d)
    ensures c == d
  {
    SameDigits(c);
    SameDigits(d);
  }

  lemma SameDigits(c: nat)
    ensures c == c / 0x40 * 0x40 + c % 0x40
    ensures c == c / 0x1000 * 0x1000 + c / 0x40 % 0x40 * 0x40 + c % 0x40
    ensures c == c / 0x4_0000 * 0x4_0000 + c / 0x1000 % 0x40 * 0x1000 + c / 0x40 % 0x40 * 0x40 + c % 0x40
  {
    assert c / 0x1000 == c / 0x40 / 0x40 && c / 0x4_0000 == c / 0x40 / 0x40 / 0x40;
  }

  lemma DecodeEncoded(c: Scalar, rest: seq<Byte>)
    ensures DecodeHead(EncodeScalar(c) + rest) == (c, |EncodeScalar(c)|)
  {
    var b := EncodeScalar(c) + rest;
    EncodedHead(c, rest);
    DecodeByGrammar(b);
    assert b[..|EncodeScalar(c)|] == EncodeScalar(c);
    EncodeInjective(c, DecodeHead(b).0);
  }

  lemma {:induction false} DecodeUndoesEncode(cs: seq<Scalar>)
    ensures Decode(EncodeAll(cs)) == cs
  {
    if cs != [] {
      DecodeEncoded(cs[0], EncodeAll(cs[1..]));
      DecodeUndoesEncode(cs[1..]);
      assert EncodeAll(cs)[|EncodeScalar(cs[0])|..] == EncodeAll(cs[1..]);
    }
  }

  lemma {:induction false} ScalarsUndoesUtf16(cs: seq<Scalar>)
    ensures Scalars(Utf16All(cs)) == cs && !EndsInTwoLeads(Utf16All(cs))
  {
    Utf16IsWellFormed(cs);
    if cs != [] {
      var h, t := Utf16(cs[0]), Utf16All(cs[1..]);
      ScalarsUndoesUtf16(cs[1..]);
      assert (h + t)[|h|..] == t;
    }
  }

  lemma {:induction false} EncodeUndoesDecode(b: seq<Byte>)
    requires WellFormed8(b)
    ensures EncodeAll(Decode(b)) == b
  {
    if b != [] {
      DecodeByGrammar(b);
      EncodeUndoesDecode(b[CharLength(b)..]);
    }
  }

  lemma {:induction false} Utf16UndoesScalars(u: seq<Unit>)
    requires WellFormed16(u)
    ensures Utf16All(Scalars(u)) == u
  {
    if u != [] {
      hide Scalars, Utf16, Utf16All;
      var k := if IsLead(u[0]) then 2 else 1;
      WellFormedHead(u);
      WellFormedSuffix(u, k);
      hide WellFormed16;
      Utf16UndoesScalars(u[k..]);
      if k == 2 {
        PairAhead(u);
      } else {
        UnitAhead(u);
      }
      assert u == u[..k] + u[k..];
    } else {
      assert Scalars(u) == [];
    }
  }

  lemma PairAhead(u: seq<Unit>)
    requires |u| > 1 && IsLead(u[0]) && IsTrail(u[1])
    ensures Utf16All(Scalars(u)) == u[..2] + Utf16All(Scalars(u[2..]))
  {
    hide Utf16, Utf16All;
    hide PairScalar;
    var c := PairScalar(u[0], u[1]);
    PairIsOneScalar(u[0], u[1]);
    Utf16AllCons(c, Scalars(u[2..]));
    assert Scalars(u) == [c] + Scalars(u[2..]);
  }

  lemma UnitAhead(u: seq<Unit>)
    requires u != [] && !IsLead(u[0]) && !IsTrail(u[0])
    ensures Utf16All(Scalars(u)) == u[..1] + Utf16All(Scalars(u[1..]))
  {
    hide Utf16, Utf16All;
    UnitIsOneScalar(u[0]);
    Utf16AllCons(u[0], Scalars(u[1..]));
    assert Scalars(u) == [u[0]] + Scalars(u[1..]);
  }

  lemma Utf16AllCons(c: Scalar, cs: seq<Scalar>)
    ensures Utf16All([c] + cs) == Utf16(c) + Utf16All(cs)
  {
    hide Utf16;
    assert ([c] + cs)[1..] == cs;
  }

  lemma WellFormedHead(u: seq<Unit>)
    requires WellFormed16(u) && u != []
    ensures !IsTrail(u[0]) && (IsLead(u[0]) ==> |u| > 1 && IsTrail(u[1]) && !IsLead(u[1]))
  {
  }

  lemma UnitIsOneScalar(unit: Unit)
    requires !IsLead(unit) && !IsTrail(unit)
    ensures Utf16(unit) == [unit]
  {
  }

  lemma PairIsOneScalar(lead: Unit, trail: Unit)
    requires IsLead(lead) && IsTrail(trail)
    ensures Utf16(PairScalar(lead, trail)) == [lead, trail]
  {
  }

  lemma WellFormedSuffix(u: seq<Unit>, k: nat)
    requires WellFormed16(u) && 1 <= k <= |u| && !IsLead(u[k - 1])
    ensures WellFormed16(u[k..])
  {
    var v := u[k..];
    forall i | 0 <= i < |v| && IsLead(v[i])
      ensures i + 1 < |v| && IsTrail(v[i + 1])
    {
      assert IsLead(u[k + i]);
    }
    forall i | 0 <= i < |v| && IsTrail(v[i])
      ensures i > 0 && IsLead(v[i - 1])
    {
      assert IsTrail(u[k + i]);
    }
  }

  /** Decoding undoes encoding on exactly the well-formed strings. */
  lemma SliceUndoesToBytes(u: seq<Unit>)
    ensures Slice(BytesOf(u, 0)) == u <==> WellFormed16(u)
  {
    var cs := Scalars(Kept(u));
    FitUnlimited(cs);
    DecodeUndoesEncode(cs);
    Utf16IsWellFormed(cs);
    if WellFormed16(u) {
      assert |u| > 0 ==> !IsLead(u[|u| - 1]);
      Utf16UndoesScalars(u);
    }
  }

  /** Encoding undoes decoding on exactly the well-formed byte strings. */
  lemma ToBytesUndoesSlice(b: seq<Byte>)
    ensures BytesOf(Slice(b), 0) == b <==> WellFormed8(b)
  {
    var cs := Decode(b);
    ScalarsUndoesUtf16(cs);
    FitUnlimited(cs);
    EncodedIsWellFormed(cs);
    if WellFormed8(b) {
      EncodeUndoesDecode(b);
    }
  }

  /** Without a budget every surrogate that is not half of a pair becomes one replacement
      character, unless the string ends in two lead surrogates. */
  lemma LoneSurrogatesReplaced(u: seq<Unit>)
    ensures BytesOf(u, 0) == EncodeAll(Scalars(u)) <==> !EndsInTwoLeads(u)
  {
    FitUnlimited(Scalars(Kept(u)));
    if EndsInTwoLeads(u) {
      ScalarsOfLastLead(u);
      EncodeAllAppend(Scalars(Kept(u)), [REPLACEMENT]);
    }
  }

  lemma {:induction false} ScalarsOfLastLead(u: seq<Unit>)
    requires u != [] && IsLead(u[|u| - 1])
    ensures Scalars(u) == Scalars(u[..|u| - 1]) + [REPLACEMENT]
    decreases |u|
  {
    var v := u[..|u| - 1];
    if |u| == 1 {
      assert u[1..] == [] && Scalars([]) == [];
    } else {
      var k := SameFirst(u, v);
      CutBothEnds(u, k);
      hide Scalars;
      ScalarsOfLastLead(u[k..]);
    }
  }

  lemma CutBothEnds(u: seq<Unit>, k: nat)
    requires k < |u|
    ensures u[k..][..|u| - k - 1] == u[..|u| - 1][k..] && u[k..][|u| - k - 1] == u[|u| - 1]
  {
  }

  /** Leaving out a last lead surrogate does not change how a longer string starts. */
  lemma SameFirst(u: seq<Unit>, v: seq<Unit>) returns (k: nat)
    requires |u| > 1 && IsLead(u[|u| - 1]) && v == u[..|u| - 1]
    ensures 1 <= k < |u|
    ensures exists c :: Scalars(u) == [c] + Scalars(u[k..]) && Scalars(v) == [c] + Scalars(v[k..])
  {
    hide PairScalar;
    if IsLead(u[0]) && IsTrail(u[1]) {
      k := 2;
      var c := PairScalar(u[0], u[1]);
      assert Scalars(u) == [c] + Scalars(u[k..]) && Scalars(v) == [c] + Scalars(v[k..]);
    } else {
      k := 1;
      var c := if IsLead(u[0]) || IsTrail(u[0]) then REPLACEMENT else u[0];
      assert Scalars(u) == [c] + Scalars(u[k..]) && Scalars(v) == [c] + Scalars(v[k..]);
    }
  }

  // ---- the laws under a budget ----

  lemma {:induction false} NothingEncoded(cs: seq<Scalar>)
    ensures EncodeAll(cs) == [] <==> cs == []
  {
  }

  lemma NoScalars(u: seq<Unit>)
    ensures Scalars(u) == [] <==> u == []
  {
  }

  /** The output stays within the budget exactly when there is a budget; budget 0 counts as none. */
  lemma BudgetIsKept(u: seq<Unit>, t: nat)
    ensures |BytesOf(u, t)| <= t <==> t > 0 || u == []
  {
    var cs := Scalars(Kept(u));
    if t == 0 {
      FitUnlimited(cs);
      NothingEncoded(cs);
      NoScalars(Kept(u));
    } else {
      var k := FitIsLongestPrefix(cs, t);
    }
  }

  /** `o` is the encoding of the longest run of leading characters that fits. */
  ghost predicate LongestPrefix(cs: seq<Scalar>, t: nat, o: seq<Byte>) {
    exists k :: LongestAt(cs, t, o, k)
  }

  predicate LongestAt(cs: seq<Scalar>, t: nat, o: seq<Byte>, k: nat) {
    k <= |cs| && o == EncodeAll(cs[..k]) && |o| <= t && (k < |cs| ==> |EncodeAll(cs[..k + 1])| > t)
  }

  lemma PrefixIsShorter(cs: seq<Scalar>, k: nat)
    requires k <= |cs|
    ensures |EncodeAll(cs[..k])| <= |EncodeAll(cs)|
  {
    assert cs == cs[..k] + cs[k..];
    EncodeAllAppend(cs[..k], cs[k..]);
  }

  /** Under a budget the output is the longest whole-character prefix that fits, unless the string ends in
      two lead surrogates and all of it would fit: then the last character is missing. */
  lemma BudgetGivesLongestPrefix(u: seq<Unit>, t: nat)
    requires t > 0
    ensures LongestPrefix(Scalars(u), t, BytesOf(u, t))
            <==> !(EndsInTwoLeads(u) && |EncodeAll(Scalars(u))| <= t)
  {
    var cs, kept, o := Scalars(u), Scalars(Kept(u)), BytesOf(u, t);
    var k := FitIsLongestPrefix(kept, t);
    if !EndsInTwoLeads(u) {
      assert LongestAt(cs, t, o, k);
    } else {
      ScalarsOfLastLead(u);
      assert cs == kept + [REPLACEMENT];
      hide Scalars, Kept, Fit, EncodeScalar;
      LastMissing(cs, kept, t, o, k);
    }
  }

  lemma LastMissing(cs: seq<Scalar>, kept: seq<Scalar>, t: nat, o: seq<Byte>, k: nat)
    requires cs == kept + [REPLACEMENT] && LongestAt(kept, t, o, k)
    ensures LongestPrefix(cs, t, o) <==> |EncodeAll(cs)| > t
  {
    assert cs[..k] == kept[..k] && cs[..|cs|] == cs && kept[..|kept|] == kept;
    if |EncodeAll(cs)| > t {
      assert k < |kept| ==> cs[..k + 1] == kept[..k + 1];
      assert LongestAt(cs, t, o, k);
    } else {
      EncodeAllAppend(kept, [REPLACEMENT]);
      assert [REPLACEMENT][1..] == [];
      PrefixIsShorter(kept, k);
      if LongestPrefix(cs, t, o) {
        var j: nat :| LongestAt(cs, t, o, j);
        PrefixIsShorter(cs, if j < |cs| then j + 1 else j);
      }
    }
  }

  /** One letter with budget 0 is written in full. */
  lemma BudgetZeroIsNone()
    ensures BytesOf([0x41], 0) == [0x41]
  {
    assert [0x41][1..] == [] && Kept([0x41]) == [0x41];
    FitUnlimited(Scalars([0x41]));
  }

  /** Two lead surrogates with room for both replacements give one. */
  lemma SecondLeadIsLost()
    ensures BytesOf([0xD800, 0xD800], 6) == [239, 191, 189]
    ensures EncodeAll(Scalars([0xD800, 0xD800])) == [239, 191, 189, 239, 191, 189]
  {
    var u: seq<Unit> := [0xD800, 0xD800];
    assert u[1..] == [0xD800] && u[..1] == [0xD800] && u[1..][1..] == [];
    assert Scalars([0xD800]) == [REPLACEMENT] && Scalars(u) == [REPLACEMENT, REPLACEMENT];
    assert [REPLACEMENT, REPLACEMENT][1..] == [REPLACEMENT] && [REPLACEMENT][1..] == [];
    assert EncodeAll([REPLACEMENT]) == EncodeScalar(REPLACEMENT);
  }
}
