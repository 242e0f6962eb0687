/** The order of `sort.Strings`, and what sorting a set of names gives. */
module StringOrder {
  import opened Arithmetic

  /** `a` is at or before `b`, character by character. */
  predicate AtOrBefore(a: string, b: string)
    decreases a
  {
    a == [] || (b != [] && (a[0] < b[0] || (a[0] == b[0] && AtOrBefore(a[1..], b[1..]))))
  }

  /** At the first difference the smaller character comes first, and a prefix before what it is a prefix of. */
  lemma {:induction false} OrderIsByFirstDifference(a: string, b: string)
    ensures AtOrBefore(a, b) <==> a <= b || exists i :: Differ(a, b, i) && a[i] < b[i]
    decreases a
  {
    if a != [] && b != [] {
      if a[0] == b[0] {
        OrderIsByFirstDifference(a[1..], b[1..]);
        assert a <= b <==> a[1..] <= b[1..] by {
          assert a == [a[0]] + a[1..] && b == [b[0]] + b[1..];
        }
        LaterDifference(a, b);
      } else {
        assert Differ(a, b, 0);
        assert forall i :: Differ(a, b, i) && i > 0 ==> a[..i][0] == b[..i][0];
      }
    }
  }

  /** The strings agree up to place i and not there. */
  predicate Differ(a: string, b: string, i: int) {
    0 <= i < |a| && i < |b| && a[..i] == b[..i] && a[i] != b[i]
  }

  lemma LaterDifference(a: string, b: string)
    requires a != [] && b != [] && a[0] == b[0]
    ensures forall i :: Differ(a, b, i) <==> i > 0 && Differ(a[1..], b[1..], i - 1)
  {
    forall i
      ensures Differ(a, b, i) <==> i > 0 && Differ(a[1..], b[1..], i - 1)
    {
      if 0 < i < |a| && i < |b| {
        assert a[..i] == [a[0]] + a[1..][..i - 1] && b[..i] == [b[0]] + b[1..][..i - 1];
        assert a[1..][..i - 1] == a[..i][1..] && b[1..][..i - 1] == b[..i][1..];
      }
    }
  }

  predicate AllDigits(s: string) {
    forall i :: 0 <= i < |s| ==> '0' <= s[i] <= '9'
  }

  /** The number these digits write. */
  function Number(s: string): nat
    requires AllDigits(s)
  {
    if s == [] then 0 else (s[0] as int - '0' as int) * Pow10(|s| - 1) + Number(s[1..])
  }

  lemma {:induction false} NumberBelow(s: string)
    requires AllDigits(s)
    ensures Number(s) < Pow10(|s|)
  {
    if s != [] {
      NumberBelow(s[1..]);
      Weight(s[0] as int - '0' as int, Pow10(|s| - 1));
    }
  }

  lemma Weight(d: nat, p: nat)
    requires d <= 9
    ensures d * p + p <= 10 * p
  {
  }

  lemma Outweighs(d: nat, e: nat, p: nat)
    requires d < e
    ensures d * p + p <= e * p
  {
    Distributes(d, e - d - 1, p);
  }

  lemma Distributes(d: nat, k: nat, p: nat)
    ensures (d + 1 + k) * p == d * p + p + k * p && k * p >= 0
  {
  }

  /** Ids of equally many digits, time stamps say, stand in the order of the numbers they write. */
  lemma {:induction false} DigitsInOrder(a: string, b: string)
    requires |a| == |b| && AllDigits(a) && AllDigits(b)
    ensures AtOrBefore(a, b) <==> Number(a) <= Number(b)
    decreases a
  {
    if a != [] {
      var d, e, p := a[0] as int - '0' as int, b[0] as int - '0' as int, Pow10(|a| - 1);
      NumberBelow(a[1..]);
      NumberBelow(b[1..]);
      DigitsInOrder(a[1..], b[1..]);
      if d < e {
        Outweighs(d, e, p);
      } else if e < d {
        Outweighs(e, d, p);
      }
    }
  }

  lemma {:induction false} Total(a: string, b: string)
    ensures AtOrBefore(a, b) || AtOrBefore(b, a)
    decreases a
  {
    if a != [] && b != [] && a[0] == b[0] {
      Total(a[1..], b[1..]);
    }
  }

  lemma {:induction false} Antisymmetric(a: string, b: string)
    requires AtOrBefore(a, b) && AtOrBefore(b, a)
    ensures a == b
    decreases a
  {
    if a != [] {
      Antisymmetric(a[1..], b[1..]);
      assert a == [a[0]] + a[1..] && b == [b[0]] + b[1..];
    }
  }

  lemma {:induction false} Transitive(a: string, b: string, c: string)
    requires AtOrBefore(a, b) && AtOrBefore(b, c)
    ensures AtOrBefore(a, c)
    decreases a
  {
    if a != [] && a[0] == b[0] == c[0] {
      Transitive(a[1..], b[1..], c[1..]);
    }
  }

  /** Increasing, so without repetition. */
  predicate Increasing(names: seq<string>) {
    forall i, j :: 0 <= i < j < |names| ==> AtOrBefore(names[i], names[j]) && names[i] != names[j]
  }

  ghost predicate Lists(names: seq<string>, all: set<string>) {
    forall x :: x in names <==> x in all
  }

  /** There is only one increasing list of a set. */
  lemma {:induction false} OneIncreasingList(xs: seq<string>, ys: seq<string>)
    requires Increasing(xs) && Increasing(ys)
    requires forall x :: x in xs <==> x in ys
    ensures xs == ys
  {
    assert |xs| > 0 ==> xs[0] in ys;
    assert |ys| > 0 ==> ys[0] in xs;
    if xs != [] && ys != [] {
      if xs[0] != ys[0] {
        Antisymmetric(xs[0], ys[0]);
      }
      forall x
        ensures x in xs[1..] <==> x in ys[1..]
      {
        Tail(xs, x);
        Tail(ys, x);
      }
      OneIncreasingList(xs[1..], ys[1..]);
    }
  }

  lemma Tail(xs: seq<string>, x: string)
    requires Increasing(xs) && xs != []
    ensures x in xs[1..] <==> x in xs && x != xs[0]
  {
    assert xs == [xs[0]] + xs[1..];
  }

  /** Put a new name in its place. */
  function Insert(x: string, names: seq<string>): (r: seq<string>)
    decreases names
  {
    if names == [] then [x]
    else if AtOrBefore(x, names[0]) then [x] + names
    else [names[0]] + Insert(x, names[1..])
  }

  lemma {:induction false} InsertKeepsIncreasing(x: string, names: seq<string>)
    requires Increasing(names) && x !in names
    ensures Increasing(Insert(x, names))
    ensures forall y :: y in Insert(x, names) <==> y == x || y in names
    decreases names
  {
    if names != [] {
      var r := Insert(x, names);
      if AtOrBefore(x, names[0]) {
        forall i | 1 <= i < |r|
          ensures AtOrBefore(x, r[i]) && r[i] != x
        {
          assert r[i] == names[i - 1];
          Total(names[0], names[0]);
          Transitive(x, names[0], r[i]);
        }
      } else {
        var rest := Insert(x, names[1..]);
        InsertKeepsIncreasing(x, names[1..]);
        Total(x, names[0]);
        forall i | 1 <= i < |r|
          ensures AtOrBefore(names[0], r[i]) && r[i] != names[0]
        {
          assert r[i] == rest[i - 1] && rest[i - 1] in rest;
          if r[i] != x {
            assert r[i] in names[1..];
            Tail(names, r[i]);
          }
        }
        assert names == [names[0]] + names[1..];
      }
    }
  }

  /** `sort.Strings`. */
  function Sort(names: seq<string>): seq<string> {
    if names == [] then [] else Insert(names[0], Sort(names[1..]))
  }

  predicate Distinct(names: seq<string>) {
    forall i, j :: 0 <= i < j < |names| ==> names[i] != names[j]
  }

  lemma {:induction false} SortIncreases(names: seq<string>)
    requires Distinct(names)
    ensures Increasing(Sort(names))
    ensures forall y :: y in Sort(names) <==> y in names
  {
    if names != [] {
      SortIncreases(names[1..]);
      assert names == [names[0]] + names[1..];
      InsertKeepsIncreasing(names[0], Sort(names[1..]));
    }
  }

  lemma {:induction false} SortedExists(all: set<string>) returns (names: seq<string>)
    ensures Increasing(names) && Lists(names, all)
  {
    if all == {} {
      names := [];
    } else {
      var x :| x in all;
      var rest := SortedExists(all - {x});
      InsertKeepsIncreasing(x, rest);
      names := Insert(x, rest);
    }
  }

  /** The increasing list of a set. */
  ghost function Sorted(all: set<string>): (r: seq<string>)
    ensures Increasing(r) && Lists(r, all)
  {
    assert exists names :: Increasing(names) && Lists(names, all) by {
      var names := SortedExists(all);
    }
    var names :| Increasing(names) && Lists(names, all);
    names
  }

  /** Sorted ids of equally many digits run from the least number to the greatest. */
  lemma SortedByNumber(all: set<string>, n: nat, i: nat, j: nat)
    requires i < j < |Sorted(all)| && forall x :: x in all ==> |x| == n && AllDigits(x)
    ensures Sorted(all)[i] in all && Sorted(all)[j] in all
    ensures AllDigits(Sorted(all)[i]) && AllDigits(Sorted(all)[j])
    ensures Number(Sorted(all)[i]) < Number(Sorted(all)[j])
  {
    SortedAt(all, i);
    SortedAt(all, j);
    var a, b := Sorted(all)[i], Sorted(all)[j];
    DigitsInOrder(a, b);
    DigitsInOrder(b, a);
    if AtOrBefore(b, a) {
      Antisymmetric(a, b);
    }
  }

  lemma SortedAt(all: set<string>, i: nat)
    requires i < |Sorted(all)|
    ensures Sorted(all)[i] in all
  {
    assert Sorted(all)[i] in Sorted(all);
  }

  /** Sorting any listing of a set gives that set's increasing list. */
  lemma SortOfListing(names: seq<string>, all: set<string>)
    requires Distinct(names) && Lists(names, all)
    ensures Sort(names) == Sorted(all)
  {
    SortIncreases(names);
    OneIncreasingList(Sort(names), Sorted(all));
  }
}
