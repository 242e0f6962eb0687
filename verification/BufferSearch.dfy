/** Looking for one byte string in another, from either end. */
module BufferSearch {
  import opened Bits
  import opened Options

  /** No buffer is longer than this. */
  const MAX_LENGTH := 0x7fff_ffff

  predicate Occurs(buf: seq<Byte>, val: seq<Byte>, j: int) {
    0 <= j && j + |val| <= |buf| && buf[j..j + |val|] == val
  }

  predicate Least(buf: seq<Byte>, val: seq<Byte>, from: int, r: int) {
    if r == -1 then forall j :: from <= j < |buf| ==> !Occurs(buf, val, j)
    else from <= r && Occurs(buf, val, r) && forall j :: from <= j < r ==> !Occurs(buf, val, j)
  }

  predicate Greatest(buf: seq<Byte>, val: seq<Byte>, from: int, r: int) {
    if r == -1 then forall j :: 0 <= j <= from ==> !Occurs(buf, val, j)
    else r <= from && Occurs(buf, val, r) && forall j :: r < j <= from ==> !Occurs(buf, val, j)
  }

  lemma Mismatch(buf: seq<Byte>, val: seq<Byte>, j: int, k: nat)
    requires k < |val| && (0 <= j && j + k < |buf| ==> buf[j + k] != val[k])
    ensures !Occurs(buf, val, j)
  {
    if 0 <= j && j + |val| <= |buf| {
      assert buf[j..j + |val|][k] == buf[j + k];
    }
  }

  /** The candidate `found` agrees with `val` up to place i. */
  predicate Agrees(buf: seq<Byte>, val: seq<Byte>, found: int, i: int) {
    0 <= found < i <= |buf| && i - found < |val| && buf[found..i] == val[..i - found]
  }

  lemma AgreesMore(buf: seq<Byte>, val: seq<Byte>, found: int, i: int)
    requires 0 <= found <= i < |buf| && (found == i || Agrees(buf, val, found, i))
    requires i - found < |val| && buf[i] == val[i - found]
    ensures if i - found + 1 == |val| then Occurs(buf, val, found) else Agrees(buf, val, found, i + 1)
  {
    SliceMore(buf, found, i);
    SliceMore(val, 0, i - found);
    assert val[0..|val|] == val;
  }

  lemma SliceMore(s: seq<Byte>, lo: nat, i: nat)
    requires lo <= i < |s|
    ensures s[lo..i + 1] == s[lo..i] + [s[i]]
  {
  }

  /** The forward scan: a mismatch sends it back to the candidate it was matching, and the next turn
      starts behind that. */
  method SearchForward(buf: seq<Byte>, val: seq<Byte>, start: nat) returns (r: int)
    requires val != []
    ensures Least(buf, val, start, r)
  {
    hide Occurs, Agrees;
    var found: int := -1;
    var i: int := start;
    while i < |buf|
      invariant start <= (if found == -1 then i else found) && found <= i
      invariant forall j :: start <= j < (if found == -1 then i else found) && j < |buf| ==> !Occurs(buf, val, j)
      invariant found != -1 ==> 0 <= found < i && i - found < |val| && Agrees(buf, val, found, i)
      decreases |buf| - (if found == -1 then i else found), |buf| - i
    {
      if buf[i] == val[if found == -1 then 0 else i - found] {
        if found == -1 {
          found := i;
        }
        AgreesMore(buf, val, found, i);
        if i - found + 1 == |val| {
          return found;
        }
      } else {
        Mismatch(buf, val, if found == -1 then i else found, if found == -1 then 0 else i - found);
        if found != -1 {
          i := i - (i - found);
        }
        found := -1;
      }
      i := i + 1;
    }
    NoRoom(buf, val);
    r := -1;
  }

  lemma NoRoom(buf: seq<Byte>, val: seq<Byte>)
    ensures forall j :: j + |val| > |buf| ==> !Occurs(buf, val, j)
  {
  }

  method SearchBackward(buf: seq<Byte>, val: seq<Byte>, start: nat) returns (r: int)
    requires val != []
    ensures Greatest(buf, val, start, r)
  {
    var i: int := start;
    if start + |val| > |buf| {
      i := |buf| - |val|;
    }
    while i >= 0
      invariant i <= start && i + |val| <= |buf|
      invariant forall j :: 0 <= j <= start && i < j ==> !Occurs(buf, val, j)
    {
      var found := true;
      var k := 0;
      while k < |val|
        invariant 0 <= k <= |val| && buf[i..i + k] == val[..k]
      {
        if buf[i + k] != val[k] {
          Mismatch(buf, val, i, k);
          found := false;
          break;
        }
        assert buf[i..i + k + 1] == buf[i..i + k] + [buf[i + k]] && val[..k + 1] == val[..k] + [val[k]];
        k := k + 1;
      }
      if found {
        assert val[..|val|] == val;
        return i;
      }
      i := i - 1;
    }
    r := -1;
  }

  /** `arrayIndexOf` on bytes. */
  method ArrayIndexOf(buf: seq<Byte>, val: seq<Byte>, start: nat, forward: bool) returns (r: int)
    requires val != []
    ensures forward ==> Least(buf, val, start, r)
    ensures !forward ==> Greatest(buf, val, start, r)
  {
    if forward {
      r := SearchForward(buf, val, start);
    } else {
      r := SearchBackward(buf, val, start);
    }
  }

  /** Where a search starts: an offset below zero counts from the end, none means the near end. */
  function From(length: nat, offset: Option<int>, forward: bool): int {
    match offset
    case None => if forward then 0 else length - 1
    case Some(o) => if o < 0 then length + o else o
  }

  /** Minus one is the last place, and so on down to the first; without an offset the search starts at the end
      it runs from. */
  lemma FromEnd(length: nat, k: int, forward: bool)
    requires 1 <= k <= length
    ensures From(length, Some(-k), forward) == From(length, Some(length - k), forward) == length - k
    ensures From(length, None, true) == 0 && From(length, None, false) == length - 1
  {
  }

  /** `bidirectionalIndexOf` for a buffer to look for: nothing is found in or of an empty one. */
  method IndexOf(buf: seq<Byte>, val: seq<Byte>, offset: Option<int>, forward: bool) returns (r: int)
    requires |buf| <= MAX_LENGTH
    ensures val == [] ==> r == -1
    ensures val != [] && forward ==>
              Least(buf, val, if From(|buf|, offset, true) < 0 then 0 else From(|buf|, offset, true), r)
    ensures val != [] && !forward ==> Greatest(buf, val, From(|buf|, offset, false), r)
  {
    if |buf| == 0 {
      return -1;
    }
    var o := 0;
    if offset.Some? {
      o := offset.value;
      if o > 0x7fff_ffff {
        o := 0x7fff_ffff;
      } else if o < -0x8000_0000 {
        o := -0x8000_0000;
      }
    } else if !forward {
      o := |buf| - 1;
    }
    if o < 0 {
      o := |buf| + o;
    }
    if o >= |buf| {
      if forward {
        return -1;
      }
      o := |buf| - 1;
    } else if o < 0 {
      if !forward {
        return -1;
      }
      o := 0;
    }
    if |val| == 0 {
      return -1;
    }
    r := ArrayIndexOf(buf, val, o, forward);
  }
}
