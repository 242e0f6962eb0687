/** The list of chunks a readable stream holds back. */
module BufferList {
  import opened Buffers
  import opened Options

  lemma {:induction false} FlattenAppend<T>(xs: seq<seq<T>>, ys: seq<seq<T>>)
    ensures Flatten(xs + ys) == Flatten(xs) + Flatten(ys)
  {
    if ys == [] {
      assert xs + ys == xs;
    } else {
      var n := |ys| - 1;
      FlattenAppend(xs, ys[..n]);
      assert (xs + ys)[..|xs + ys| - 1] == xs + ys[..n];
    }
  }

  lemma FlattenOne<T>(x: seq<T>)
    ensures Flatten([x]) == x
  {
    assert [x][..0] == [];
  }

  lemma FlattenLast<T>(chunks: seq<seq<T>>)
    requires chunks != []
    ensures Flatten(chunks) == Flatten(chunks[..|chunks| - 1]) + chunks[|chunks| - 1]
  {
  }

  lemma FlattenSplit<T>(chunks: seq<seq<T>>, k: nat)
    requires k < |chunks|
    ensures Flatten(chunks) == Flatten(chunks[..k]) + (chunks[k] + Flatten(chunks[k + 1..]))
    ensures Flatten(chunks[..k + 1]) == Flatten(chunks[..k]) + chunks[k]
  {
    FlattenLast(chunks[..k + 1]);
    hide Flatten;
    assert chunks[..k + 1][..k] == chunks[..k];
    FlattenAppend(chunks[..k + 1], chunks[k + 1..]);
    Associative(Flatten(chunks[..k]), chunks[k], Flatten(chunks[k + 1..]));
    assert chunks[..k + 1] + chunks[k + 1..] == chunks;
  }

  lemma Cutting<T>(a: seq<T>, b: seq<T>, c: seq<T>, o: nat)
    requires o <= |b|
    ensures (a + (b + c))[..|a| + o] == a + b[..o] && (a + (b + c))[|a| + o..] == b[o..] + c
  {
  }

  /** Taking `k` chunks and some of the next is taking so much of the whole. */
  lemma FlattenCut<T>(chunks: seq<seq<T>>, k: nat, o: nat)
    requires k < |chunks| && o <= |chunks[k]|
    ensures var n := |Flatten(chunks[..k])| + o;
            && n <= |Flatten(chunks)|
            && Flatten(chunks)[..n] == Flatten(chunks[..k]) + chunks[k][..o]
            && Flatten(chunks)[n..] == chunks[k][o..] + Flatten(chunks[k + 1..])
            && Flatten(chunks)[n..] == Flatten([chunks[k][o..]] + chunks[k + 1..])
            && Flatten(chunks[..k + 1]) == Flatten(chunks[..k]) + chunks[k]
  {
    FlattenSplit(chunks, k);
    FlattenAppend([chunks[k][o..]], chunks[k + 1..]);
    FlattenOne(chunks[k][o..]);
    hide Flatten;
    Cutting(Flatten(chunks[..k]), chunks[k], Flatten(chunks[k + 1..]), o);
  }

  /** What is left of the chunks after `c` of them and `nb` units of the next. */
  function Left<T>(chunks: seq<seq<T>>, c: nat, nb: nat): seq<seq<T>>
    requires c < |chunks| && nb <= |chunks[c]|
  {
    (if nb < |chunks[c]| then [chunks[c][nb..]] else []) + chunks[c + 1..]
  }

  /** The first `c` chunks have been read and `n` of the `n0` units are still to come. */
  ghost predicate Reading<T>(chunks: seq<seq<T>>, c: nat, got: seq<T>, n0: int, n: int) {
    c <= |chunks| && got == Flatten(chunks[..c]) && n == n0 - |got| && n > 0
  }

  /** All units have been read and the rest is left. */
  ghost predicate Divided<T>(chunks: seq<seq<T>>, left: seq<seq<T>>, got: seq<T>, n0: int) {
    0 <= n0 <= |Flatten(chunks)| && got == Flatten(chunks)[..n0] && Flatten(left) == Flatten(chunks)[n0..]
  }

  function Min(a: int, b: int): int {
    if a > b then b else a
  }

  lemma MinIs(a: int, b: int)
    ensures Min(a, b) == if a > b then b else a
  {
  }

  /** One turn of the loops below. */
  lemma ReadNode<T>(chunks: seq<seq<T>>, c: nat, got: seq<T>, n0: int, n: int, nb: int, got': seq<T>)
    requires Reading(chunks, c, got, n0, n) && c < |chunks| && nb == Min(n, |chunks[c]|)
    requires got' == got + chunks[c][..nb]
    ensures nb < n ==> Reading(chunks, c + 1, got', n0, n - nb)
    ensures nb == n ==> Divided(chunks, Left(chunks, c, nb), got', n0)
  {
    FlattenCut(chunks, c, nb);
    hide Flatten;
    if nb == |chunks[c]| {
      assert chunks[c][..nb] == chunks[c] && [] + chunks[c + 1..] == chunks[c + 1..];
      assert chunks[c][nb..] + Flatten(chunks[c + 1..]) == Flatten(chunks[c + 1..]);
    }
  }

  lemma ReadFirst<T>(chunks: seq<seq<T>>, n0: int)
    requires chunks != [] && n0 > |chunks[0]|
    ensures Reading(chunks, 1, chunks[0], n0, n0 - |chunks[0]|)
  {
    assert chunks[..1] == [chunks[0]];
    FlattenOne(chunks[0]);
  }

  lemma ReadAll<T>(chunks: seq<seq<T>>, got: seq<T>, n0: int, n: int)
    requires Reading(chunks, |chunks|, got, n0, n)
    ensures n0 > |Flatten(chunks)|
  {
    assert chunks[..|chunks|] == chunks;
  }

  /** The first `c` chunks, `a` units in all, are in the target as far as it reaches. */
  ghost predicate Filled<T>(chunks: seq<seq<T>>, c: nat, target: seq<T>, a: int) {
    && c <= |chunks| && a == |Flatten(chunks[..c])|
    && if a <= |target| then target[..a] == Flatten(chunks[..c]) else target == Flatten(chunks[..c])[..|target|]
  }

  lemma FillNode<T>(chunks: seq<seq<T>>, c: nat, before: seq<T>, a: int, after: seq<T>)
    requires Filled(chunks, c, before, a) && c < |chunks| && |after| == |before|
    requires if a < |before| then
               var nb := Min(|chunks[c]|, |before| - a);
               after[..a + nb] == before[..a] + chunks[c][..nb]
             else after == before
    ensures a >= 0 && Filled(chunks, c + 1, after, a + |chunks[c]|)
  {
    FlattenCut(chunks, c, 0);
    var whole := Flatten(chunks[..c]) + chunks[c];
    hide Flatten;
    if a < |before| {
      var nb := Min(|chunks[c]|, |before| - a);
      assert before[..a] + chunks[c][..nb] == whole[..a + nb];
      if a + nb < |before| {
        assert whole[..a + nb] == whole;
      } else {
        assert after[..a + nb] == after;
      }
    } else {
      assert whole[..|before|] == Flatten(chunks[..c])[..|before|];
      assert before == before[..|before|];
    }
  }

  /** Copy behind what is there already. */
  method CopyNext<T>(target: array<T>, i: nat, source: seq<T>, c: nat)
    requires i + c <= target.Length && c <= |source|
    modifies target
    ensures target[..i + c] == old(target[..i]) + source[..c]
  {
    Copy(target, i, source, 0, c);
    assert |old(target[..i])| == i;
  }

  class Node<T> {
    var data: seq<T>
    var next: Node?<T>

    constructor (data: seq<T>, next: Node?<T>)
      ensures this.data == data && this.next == next
    {
      this.data := data;
      this.next := next;
    }
  }

  class BufferList<T(0)> {
    var head: Node?<T>
    var tail: Node?<T>
    var length: int
    /** The nodes from head to tail, and what they hold. */
    ghost var spine: seq<Node<T>>
    ghost var chunks: seq<seq<T>>

    ghost predicate Valid()
      reads this, spine
    {
      Linked() && length == |spine|
    }

    ghost predicate Linked()
      reads this`head, this`tail, this`spine, this`chunks, spine
    {
      && (forall i, j :: 0 <= i < j < |spine| ==> spine[i] != spine[j])
      && (if spine == [] then head == null && tail == null else head == spine[0] && tail == spine[|spine| - 1])
      && (forall i, j :: 0 <= i < j < |spine| && j == i + 1 ==> spine[i].next == spine[j])
      && (spine != [] ==> spine[|spine| - 1].next == null)
      && |chunks| == |spine| && (forall i :: 0 <= i < |spine| ==> spine[i].data == chunks[i])
    }

    /** All the bytes or characters held, in order. */
    ghost function Contents(): seq<T>
      reads this`chunks
    {
      Flatten(chunks)
    }

    constructor ()
      ensures Valid() && chunks == []
    {
      head, tail, length, spine, chunks := null, null, 0, [], [];
    }

    method Push(e: seq<T>)
      requires Valid()
      modifies this, spine
      ensures Valid() && spine == old(spine) + [tail] && fresh(tail)
      ensures chunks == old(chunks) + [e]
    {
      var t := new Node(e, null);
      if length > 0 {
        tail.next := t;
      } else {
        head := t;
      }
      tail := t;
      length := length + 1;
      spine := spine + [t];
      chunks := chunks + [e];
    }

    method Unshift(e: seq<T>)
      requires Valid()
      modifies this
      ensures Valid() && spine == [head] + old(spine) && fresh(head)
      ensures chunks == [e] + old(chunks)
    {
      var t := new Node(e, head);
      if length == 0 {
        tail := t;
      }
      head := t;
      length := length + 1;
      spine := [t] + spine;
      chunks := [e] + chunks;
    }

    method Shift() returns (r: Option<seq<T>>)
      requires Valid()
      modifies this
      ensures Valid()
      ensures old(chunks) == [] ==> r == None && chunks == []
      ensures old(chunks) != [] ==> r == Some(old(chunks)[0]) && chunks == old(chunks)[1..] && spine == old(spine)[1..]
    {
      if length == 0 {
        return None;
      }
      r := Some(head.data);
      if length == 1 {
        head, tail := null, null;
      } else {
        head := head.next;
      }
      length := length - 1;
      spine := spine[1..];
      chunks := chunks[1..];
    }

    method Clear()
      modifies this
      ensures Valid() && chunks == []
    {
      head, tail, length, spine, chunks := null, null, 0, [], [];
    }

    lemma At(k: nat)
      requires Linked() && k < |spine|
      ensures spine[k].next == (if k + 1 < |spine| then spine[k + 1] else null)
      ensures |chunks| == |spine| && spine[k].data == chunks[k]
      ensures head == spine[0]
    {
      if k + 1 < |spine| {
        assert spine[k].next == spine[k + 1];
      }
    }

    /** The end of both `_getString` and `_getBuffer`: the list now starts after, or within, the node
        just read from. */
    method Cut(p: Node<T>, nb: nat, ghost k: nat)
      requires Linked() && k < |spine| == |chunks| && spine[k] == p && nb <= |p.data| == |chunks[k]|
      modifies this`head, this`tail, this`spine, this`chunks, p`data
      ensures Linked() && |spine| == old(|spine|) - k - (if nb == old(|p.data|) then 1 else 0)
      ensures chunks == Left(old(chunks), k, nb)
    {
      if nb == |p.data| {
        CutBehind(p, k);
      } else {
        CutWithin(p, nb, k);
      }
    }

    method CutBehind(p: Node<T>, ghost k: nat)
      requires Linked() && k < |spine| == |chunks| && spine[k] == p
      modifies this`head, this`tail, this`spine, this`chunks
      ensures Linked() && spine == old(spine)[k + 1..] && chunks == old(chunks)[k + 1..]
    {
      if p.next != null {
        head := p.next;
      } else {
        head, tail := null, null;
      }
      spine, chunks := spine[k + 1..], chunks[k + 1..];
    }

    method CutWithin(p: Node<T>, nb: nat, ghost k: nat)
      requires Linked() && k < |spine| == |chunks| && spine[k] == p && nb <= |p.data|
      modifies this`head, this`spine, this`chunks, p`data
      ensures Linked() && spine == old(spine)[k..] && chunks == [old(p.data)[nb..]] + old(chunks)[k + 1..]
    {
      head := p;
      p.data := p.data[nb..];
      spine, chunks := spine[k..], [p.data] + chunks[k + 1..];
    }

    /** The first `n` units of a list of strings, more than its first chunk holds. */
    method GetString(n0: nat) returns (ret: seq<T>)
      requires Valid() && spine != [] && |spine[0].data| < n0 <= |Contents()|
      modifies this, spine
      ensures Valid() && ret == old(Contents())[..n0] && Contents() == old(Contents())[n0..]
    {
      ghost var before, nodes := chunks, spine;
      At(0);
      ReadFirst(chunks, n0);
      var p := head;
      var c := 1;
      ret := p.data;
      var n := n0 - |ret|;
      p := p.next;
      while p != null
        invariant 1 <= c <= |spine| == |chunks| && p == if c < |spine| then spine[c] else null
        invariant Linked() && length == |spine| && spine == nodes && chunks == before
        invariant Reading(before, c, ret, n0, n)
        decreases |spine| - c
      {
        hide *;
        At(c);
        var str := p.data;
        var nb := Min(n, |str|);
        MinIs(n, |str|);
        ghost var got := ret;
        if nb == |str| {
          ret := ret + str;
        } else {
          ret := ret + str[..n];
        }
        ReadNode(before, c, got, n0, n, nb, ret);
        n := n - nb;
        if n == 0 {
          Cut(p, nb, c);
          if nb == |str| {
            c := c + 1;
          }
          break;
        }
        c := c + 1;
        p := p.next;
      }
      if n > 0 {
        ReadAll(before, ret, n0, n);
      }
      hide Linked, Left, Flatten;
      Forget(c);
    }

    /** Account for the nodes that are gone. */
    method Forget(c: int)
      requires Linked() && length - c == |spine|
      modifies this`length
      ensures Valid()
    {
      length := length - c;
    }

    /** Copy from a node of the list; the list stays as it is. */
    method CopyNode(t: array<T>, i: nat, p: Node<T>, nb: nat, ghost k: nat)
      requires Linked() && k < |spine| && spine[k] == p && nb <= |p.data| && i + nb <= t.Length
      modifies t
      ensures Linked() && spine == old(spine) && chunks == old(chunks) && length == old(length)
      ensures p.data == old(p.data) && p.next == old(p.next)
      ensures t[..i + nb] == old(t[..i]) + p.data[..nb]
    {
      CopyNext(t, i, p.data, nb);
    }

    /** `copy` of a whole chunk, as far as there is room. */
    method CopyWhole(t: array<T>, a: nat, p: Node<T>, ghost c: nat)
      requires Linked() && c < |spine| == |chunks| && spine[c] == p && p.data == chunks[c]
      requires Filled(chunks, c, t[..], a)
      modifies t
      ensures Linked() && spine == old(spine) && chunks == old(chunks) && length == old(length)
      ensures p.data == old(p.data) && p.next == old(p.next)
      ensures Filled(chunks, c + 1, t[..], a + |p.data|)
    {
      hide *;
      ghost var was := t[..];
      MinIs(|p.data|, t.Length - a);
      if a < t.Length {
        CopyNode(t, a, p, Min(|p.data|, t.Length - a), c);
      }
      FillNode(chunks, c, was, a, t[..]);
    }

    /** The same for a list of buffers: the units are copied into a new one. */
    method GetBuffer(n0: nat) returns (t: array<T>)
      requires Valid() && spine != [] && |spine[0].data| < n0 <= |Contents()|
      modifies this, spine
      ensures Valid() && fresh(t) && t[..] == old(Contents())[..n0] && Contents() == old(Contents())[n0..]
    {
      At(0);
      ReadFirst(chunks, n0);
      var p, nb, c;
      t, p, nb, c := CopyNodes(n0);
      assert p == spine[c] && p in spine;
      hide *;
      var whole := nb == |p.data|;
      Cut(p, nb, c);
      Forget(if whole then c + 1 else c);
    }

    /** One turn of the copy loop of `_getBuffer`. */
    method CopyMore(t: array<T>, p: Node<T>, nb: nat, ghost c: nat, n0: nat, n: nat)
      requires Linked() && c < |spine| == |chunks| && spine[c] == p && p.data == chunks[c]
      requires 0 < n <= n0 == t.Length && Reading(chunks, c, t[..n0 - n], n0, n)
      requires nb == Min(n, |p.data|) && nb <= n && nb <= |p.data|
      modifies t
      ensures Linked() && spine == old(spine) && chunks == old(chunks) && length == old(length)
      ensures p.data == old(p.data) && p.next == old(p.next)
      ensures nb < n ==> Reading(chunks, c + 1, t[..n0 - n + nb], n0, n - nb)
      ensures nb == n ==> Divided(chunks, Left(chunks, c, nb), t[..n0 - n + nb], n0)
    {
      hide *;
      ghost var got := t[..n0 - n];
      CopyNode(t, n0 - n, p, nb, c);
      ReadNode(chunks, c, got, n0, n, nb, t[..n0 - n + nb]);
    }

    /** A new buffer with the first chunk copied. */
    method CopyFirst(n0: nat) returns (t: array<T>)
      requires Linked() && spine != [] && |spine[0].data| < n0
      ensures fresh(t) && t.Length == n0 && |spine| == |chunks| && head == spine[0]
      ensures head.next == if 1 < |spine| then spine[1] else null
      ensures |head.data| < n0 && Reading(chunks, 1, t[..|head.data|], n0, n0 - |head.data|)
    {
      At(0);
      ReadFirst(chunks, n0);
      hide *;
      t := new T[n0];
      CopyNode(t, 0, head, |head.data|, 0);
      assert t[..0] + head.data[..|head.data|] == head.data;
    }

    /** Copy node after node until `n0` units are there; the last ones came from `p`. */
    method CopyNodes(n0: nat) returns (t: array<T>, p: Node<T>, nb: nat, c: nat)
      requires Linked() && spine != [] && |spine[0].data| < n0 <= |Contents()|
      ensures fresh(t) && c < |spine| == |chunks| && p == spine[c] && nb <= |p.data| == |chunks[c]|
      ensures Linked() && Divided(chunks, Left(chunks, c, nb), t[..], n0)
    {
      assert n0 <= |Flatten(chunks)|;
      hide *;
      t := CopyFirst(n0);
      p, nb := head, 0;
      var n := n0 - |p.data|;
      var filled := |p.data|;
      var q := p.next;
      c := 1;
      while q != null
        invariant 1 <= c <= |spine| == |chunks| && q == if c < |spine| then spine[c] else null
        invariant Linked() && 0 < n <= n0 == t.Length && filled == n0 - n
        invariant Reading(chunks, c, t[..filled], n0, n)
        decreases |spine| - c
        modifies t
      {
        At(c);
        p := q;
        MinIs(n, |p.data|);
        nb := Min(n, |p.data|);
        CopyMore(t, p, nb, c, n0, n);
        filled := filled + nb;
        n := n - nb;
        if n == 0 {
          assert t[..] == t[..filled];
          return;
        }
        c := c + 1;
        q := p.next;
      }
      ReadAll(chunks, t[..filled], n0, n);
      assert false;
    }

    /** Take the first units off the first chunk. */
    method Shorten(n: nat)
      requires Valid() && spine != [] && n <= |head.data|
      modifies head`data, this`chunks
      ensures Valid() && chunks == [old(chunks)[0][n..]] + old(chunks)[1..]
    {
      head.data := head.data[n..];
      chunks := [chunks[0][n..]] + chunks[1..];
    }

    /** Take exactly the first `n` units off the list. */
    method Consume(n: nat, strings: bool) returns (r: seq<T>)
      requires Valid() && spine != [] && n <= |Contents()|
      modifies this, spine
      ensures Valid() && r == old(Contents())[..n] && Contents() == old(Contents())[n..]
    {
      FlattenCut(chunks, 0, if n < |chunks[0]| then n else |chunks[0]|);
      assert Flatten(chunks[..0]) == [];
      if n < |head.data| {
        r := head.data[..n];
        Shorten(n);
      } else if n == |head.data| {
        hide Flatten;
        var first := Shift();
        r := first.value;
      } else if strings {
        hide Flatten;
        r := GetString(n);
      } else {
        hide Flatten;
        var t := GetBuffer(n);
        r := t[..];
      }
    }

    /** Copy the chunks one after the other into a new buffer, as far as it reaches. */
    method Concat(size: nat) returns (t: array<T>)
      requires Valid()
      ensures fresh(t) && t.Length == if spine == [] then 0 else size
      ensures t.Length <= |Contents()| ==> t[..] == Contents()[..t.Length]
      ensures t.Length >= |Contents()| ==> t[..|Contents()|] == Contents()
    {
      if length == 0 {
        return new T[0];
      }
      t := new T[size];
      var p := head;
      var a := 0;
      ghost var c := 0;
      while p != null
        invariant 0 <= c <= |spine| == |chunks| && p == if c < |spine| then spine[c] else null
        invariant Linked() && Filled(chunks, c, t[..], a)
        decreases |spine| - c
        modifies t
      {
        hide *;
        At(c);
        CopyWhole(t, a, p, c);
        a := a + |p.data|;
        p := p.next;
        c := c + 1;
      }
      assert chunks[..c] == chunks;
    }
  }
}
