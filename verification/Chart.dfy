/** The stargazers chart: monthly points, a round maximum, and where the points are drawn. */
module Chart {
  import opened Arithmetic
  import opened StringOrder

  // ---- the round maximum ----

  /** `len(str(value))`. */
  function Length(value: nat): (n: nat)
    ensures n > 0
  {
    if value < 10 then 1 else 1 + Length(value / 10)
  }

  function FirstAtLeast(candidates: seq<real>, value: int): int {
    if candidates == [] then value
    else if candidates[0] >= value as real then candidates[0].Floor
    else FirstAtLeast(candidates[1..], value)
  }

  /** `_nice_max`. */
  function NiceMax(value: int): int {
    if value <= 10 then 10
    else
      var magnitude := Pow10(Length(value) - 1) as real;
      FirstAtLeast([1.0 * magnitude, 2.0 * magnitude, 2.5 * magnitude, 5.0 * magnitude, 10.0 * magnitude], value)
  }

  /** 10, 20, 25, 50, 100, 200, 250, ... */
  ghost predicate Nice(n: int) {
    exists k: nat :: NiceAt(n, k)
  }

  predicate NiceAt(n: int, k: nat) {
    n == 10 * Pow10(k) || n == 20 * Pow10(k) || n == 25 * Pow10(k) || n == 50 * Pow10(k)
  }

  lemma {:induction false} LengthIs(value: nat)
    requires value > 0
    ensures Pow10(Length(value) - 1) <= value < Pow10(Length(value))
  {
    if value >= 10 {
      LengthIs(value / 10);
    }
  }

  lemma {:induction false} Pow10Grows(j: nat, k: nat)
    requires j < k
    ensures 10 * Pow10(j) <= Pow10(k)
  {
    if j < k - 1 {
      Pow10Grows(j, k - 1);
    }
  }

  lemma Search(a: int, b: int, c: int, d: int, e: int, value: int)
    ensures FirstAtLeast([a as real, b as real, c as real, d as real, e as real], value)
            == if a >= value then a else if b >= value then b else if c >= value then c
               else if d >= value then d else if e >= value then e else value
  {
    var ra, rb, rc, rd, re := a as real, b as real, c as real, d as real, e as real;
    Step(ra, [rb, rc, rd, re], value);
    Step(rb, [rc, rd, re], value);
    Step(rc, [rd, re], value);
    Step(rd, [re], value);
    Step(re, [], value);
    assert [ra] + [rb, rc, rd, re] == [ra, rb, rc, rd, re] && [rb] + [rc, rd, re] == [rb, rc, rd, re];
    assert [rc] + [rd, re] == [rc, rd, re] && [rd] + [re] == [rd, re] && [re] + [] == [re];
  }

  lemma Step(a: real, rest: seq<real>, value: int)
    ensures FirstAtLeast([a] + rest, value) == if a >= value as real then a.Floor else FirstAtLeast(rest, value)
  {
    assert ([a] + rest)[1..] == rest;
  }

  lemma LengthAt(value: int, k: nat)
    requires value > 0 && 10 * Pow10(k) <= value < 100 * Pow10(k)
    ensures Length(value) == k + 2 && Pow10(k + 1) == 10 * Pow10(k)
  {
    var n := Length(value) - 1;
    LengthIs(value);
    if n < k + 1 {
      Pow10Grows(n, k + 1);
    } else if k + 1 < n {
      Pow10Grows(k + 1, n);
    }
  }

  lemma Multiples(p: int, m: real)
    requires m == (10 * p) as real
    ensures 1.0 * m == (10 * p) as real && 2.0 * m == (20 * p) as real && 2.5 * m == (25 * p) as real
    ensures 5.0 * m == (50 * p) as real && 10.0 * m == (100 * p) as real
  {
  }

  /** The search tries five multiples of the power of ten below the value. */
  lemma NiceMaxIs(value: int, k: nat)
    requires value > 10 && 10 * Pow10(k) <= value < 100 * Pow10(k)
    ensures var p := Pow10(k);
            NiceMax(value) == if 10 * p >= value then 10 * p else if 20 * p >= value then 20 * p
                              else if 25 * p >= value then 25 * p else if 50 * p >= value then 50 * p else 100 * p
  {
    LengthAt(value, k);
    var p := Pow10(k);
    hide FirstAtLeast, Pow10, Length;
    Multiples(p, Pow10(Length(value) - 1) as real);
    Search(10 * p, 20 * p, 25 * p, 50 * p, 100 * p, value);
  }

  lemma FindPower(value: int) returns (k: nat)
    requires value >= 10
    ensures 10 * Pow10(k) <= value < 100 * Pow10(k)
  {
    LengthIs(value);
    k := Length(value) - 2;
  }

  /** The round maximum is the least round number that is large enough. */
  lemma NiceMaxIsLeast(value: int, n: int)
    ensures Nice(NiceMax(value)) && value <= NiceMax(value) && 10 <= NiceMax(value)
    ensures Nice(n) && value <= n ==> NiceMax(value) <= n
  {
    assert NiceAt(10, 0);
    if value > 10 {
      var k := FindPower(value);
      NiceMaxIs(value, k);
      assert NiceAt(NiceMax(value), k) || NiceAt(NiceMax(value), k + 1);
      if Nice(n) && value <= n {
        var j: nat :| NiceAt(n, j);
        if j < k {
          Pow10Grows(j, k);
        } else if k < j {
          Pow10Grows(k, j);
        }
      }
    } else if Nice(n) {
      var j: nat :| NiceAt(n, j);
    }
  }

  /** Above 10 it is less than twice the value, so no chart is more than half empty. */
  lemma NiceMaxIsClose(value: int)
    requires value > 10
    ensures value <= NiceMax(value) < 2 * value
  {
    var k := FindPower(value);
    NiceMaxIs(value, k);
  }

  lemma NiceMaxIsMonotone(v: int, w: int)
    requires v <= w
    ensures NiceMax(v) <= NiceMax(w)
  {
    NiceMaxIsLeast(w, 0);
    NiceMaxIsLeast(v, NiceMax(w));
  }

  lemma NiceMaxIsIdempotent(v: int)
    ensures NiceMax(NiceMax(v)) == NiceMax(v)
  {
    NiceMaxIsLeast(v, 0);
    NiceMaxIsLeast(NiceMax(v), NiceMax(v));
  }

  // ---- the monthly points ----

  datatype ChartPoint = ChartPoint(month: string, count: nat)

  /** How many of the months are this one. */
  function Times(months: seq<string>, month: string): nat {
    if months == [] then 0
    else Times(months[..|months| - 1], month) + (if months[|months| - 1] == month then 1 else 0)
  }

  /** How many of the months are this one or earlier. */
  function UpTo(months: seq<string>, month: string): nat {
    if months == [] then 0
    else UpTo(months[..|months| - 1], month) + (if AtOrBefore(months[|months| - 1], month) then 1 else 0)
  }

  ghost predicate Cumulative(months: seq<string>, points: seq<ChartPoint>) {
    && Increasing(Labels(points))
    && Lists(Labels(points), set m | m in months)
    && forall i :: 0 <= i < |points| ==> points[i].count == UpTo(months, points[i].month)
  }

  function Labels(points: seq<ChartPoint>): (r: seq<string>)
    ensures |r| == |points| && forall i :: 0 <= i < |r| ==> r[i] == points[i].month
  {
    seq(|points|, i requires 0 <= i < |points| => points[i].month)
  }

  lemma {:induction false} TimesIsMultiset(months: seq<string>, month: string)
    ensures Times(months, month) == multiset(months)[month]
  {
    if months != [] {
      var init, last := months[..|months| - 1], months[|months| - 1];
      TimesIsMultiset(init, month);
      assert months == init + [last] && multiset(months) == multiset(init) + multiset{last};
    }
  }

  /** From one listed month to the next, the months in between are the next one. */
  lemma {:induction false} UpToNext(months: seq<string>, labels: seq<string>, i: nat)
    requires i < |labels| && Increasing(labels) && forall m :: m in months ==> m in labels
    ensures UpTo(months, labels[i]) == (if i == 0 then 0 else UpTo(months, labels[i - 1])) + Times(months, labels[i])
  {
    if months != [] {
      var n := |months| - 1;
      UpToNext(months[..n], labels, i);
      assert months[n] in labels;
      var j :| 0 <= j < |labels| && labels[j] == months[n];
      OrderIsIndex(labels, j, i);
      if i > 0 {
        OrderIsIndex(labels, j, i - 1);
      }
    }
  }

  lemma OrderIsIndex(labels: seq<string>, j: nat, i: nat)
    requires i < |labels| && j < |labels| && Increasing(labels)
    ensures AtOrBefore(labels[j], labels[i]) <==> j <= i
  {
    if j == i {
      Total(labels[j], labels[i]);
    } else if i < j && AtOrBefore(labels[j], labels[i]) {
      Antisymmetric(labels[i], labels[j]);
    }
  }

  lemma {:induction false} TimesOfMember(months: seq<string>, month: string)
    requires month in months
    ensures Times(months, month) > 0
  {
    var n := |months| - 1;
    if months[n] != month {
      TimesOfMember(months[..n], month);
    }
  }

  /** `build_monthly_points`, the months already taken from the timestamps. */
  method BuildMonthlyPoints(months: seq<string>) returns (points: seq<ChartPoint>)
    ensures Cumulative(months, points)
  {
    var counts := CountMonths(months);
    var labels := SortedMonths(counts);
    var total, i := 0, 0;
    points := [];
    hide Sorted, Times, UpTo;
    while i < |labels|
      invariant 0 <= i <= |labels| && |points| == i
      invariant forall j :: 0 <= j < i ==> points[j] == ChartPoint(labels[j], UpTo(months, labels[j]))
      invariant total == if i == 0 then 0 else UpTo(months, labels[i - 1])
    {
      UpToNext(months, labels, i);
      assert labels[i] in labels;
      total := total + counts[labels[i]];
      points := points + [ChartPoint(labels[i], total)];
      i := i + 1;
    }
    assert Labels(points) == labels;
  }

  method CountMonths(months: seq<string>) returns (counts: map<string, nat>)
    ensures counts.Keys == set m | m in months
    ensures forall m :: m in counts ==> counts[m] == Times(months, m)
  {
    counts := map[];
    var i := 0;
    while i < |months|
      invariant 0 <= i <= |months|
      invariant forall m :: m in counts <==> m in months[..i]
      invariant forall m :: m in counts ==> counts[m] == Times(months[..i], m)
      invariant forall m :: m !in counts ==> Times(months[..i], m) == 0
    {
      var m := months[i];
      assert months[..i + 1][..i] == months[..i] && months[..i + 1] == months[..i] + [m];
      counts := counts[m := (if m in counts then counts[m] else 0) + 1];
      i := i + 1;
    }
    assert months[..i] == months;
  }

  method SortedMonths(counts: map<string, nat>) returns (labels: seq<string>)
    ensures labels == Sorted(counts.Keys)
  {
    labels := [];
    var keys := counts.Keys;
    while keys != {}
      invariant keys <= counts.Keys
      invariant Distinct(labels) && Lists(labels, counts.Keys - keys)
      decreases |keys|
    {
      var k :| k in keys;
      labels := labels + [k];
      keys := keys - {k};
    }
    SortOfListing(labels, counts.Keys);
    labels := Sort(labels);
  }

  /** The counts rise from point to point, and the last counts every star. */
  lemma CountsRise(months: seq<string>, points: seq<ChartPoint>, i: nat)
    requires Cumulative(months, points) && i < |points|
    ensures 0 < points[i].count <= |months|
    ensures i > 0 ==> points[i - 1].count < points[i].count
    ensures i == |points| - 1 ==> points[i].count == |months|
  {
    var labels := Labels(points);
    assert labels[i] in labels;
    UpToNext(months, labels, i);
    TimesOfMember(months, labels[i]);
    UpToAtMost(months, labels[i]);
    if i == |points| - 1 {
      UpToLast(months, labels);
    }
  }

  lemma {:induction false} UpToAtMost(months: seq<string>, month: string)
    ensures UpTo(months, month) <= |months|
  {
    if months != [] {
      UpToAtMost(months[..|months| - 1], month);
    }
  }

  lemma {:induction false} UpToLast(months: seq<string>, labels: seq<string>)
    requires labels != [] && Increasing(labels) && forall m :: m in months ==> m in labels
    ensures UpTo(months, labels[|labels| - 1]) == |months|
  {
    if months != [] {
      var n := |months| - 1;
      UpToLast(months[..n], labels);
      assert months[n] in labels;
      var j :| 0 <= j < |labels| && labels[j] == months[n];
      OrderIsIndex(labels, j, |labels| - 1);
    }
  }

  // ---- the plot ----

  const LEFT := 62.0
  const TOP := 44.0
  const PLOT_WIDTH := 670.0
  const PLOT_HEIGHT := 222.0

  function MaxCount(points: seq<ChartPoint>): nat {
    if points == [] then 0
    else
      var rest := MaxCount(points[..|points| - 1]);
      if points[|points| - 1].count > rest then points[|points| - 1].count else rest
  }

  function XFor(points: seq<ChartPoint>, index: nat): real {
    if |points| <= 1 then LEFT else LEFT + index as real / (|points| - 1) as real * PLOT_WIDTH
  }

  function YFor(maxCount: int, count: int): real
    requires maxCount > 0
  {
    TOP + PLOT_HEIGHT - count as real / maxCount as real * PLOT_HEIGHT
  }

  /** The plot is 670 by 222, its corner at (62, 44): no star is drawn at the bottom, the round maximum at the
      top, the first month at the left, the last at the right, and equal steps are equally far apart. */
  lemma CurveFillsPlot(points: seq<ChartPoint>, m: int, a: int, b: int, i: nat)
    requires m > 0 && |points| > 1
    ensures YFor(m, 0) == 266.0 && YFor(m, m) == 44.0
    ensures YFor(m, a) - YFor(m, a + b) == YFor(m, 0) - YFor(m, b)
    ensures XFor(points, 0) == 62.0 && XFor(points, |points| - 1) == 732.0
    ensures XFor(points, i + 1) - XFor(points, i) == XFor(points, 1) - XFor(points, 0)
  {
    Shares(a as real, b as real, m as real);
    Shares(i as real, 1.0, (|points| - 1) as real);
    assert (a + b) as real == a as real + b as real && (i + 1) as real == i as real + 1.0;
    Scaled(a as real / m as real, b as real / m as real, PLOT_HEIGHT);
    Scaled(i as real / (|points| - 1) as real, 1.0 / (|points| - 1) as real, PLOT_WIDTH);
  }

  lemma Shares(a: real, b: real, n: real)
    requires n > 0.0
    ensures (a + b) / n == a / n + b / n && 0.0 / n == 0.0 && n / n == 1.0
  {
  }

  lemma Scaled(x: real, y: real, z: real)
    ensures (x + y) * z == x * z + y * z
  {
  }

  lemma {:induction false} MaxCountIsMax(points: seq<ChartPoint>, i: nat)
    requires i < |points|
    ensures points[i].count <= MaxCount(points)
  {
    if i < |points| - 1 {
      MaxCountIsMax(points[..|points| - 1], i);
    }
  }

  lemma Fraction(a: real, b: real, c: real)
    requires 0.0 <= a <= b <= c && c > 0.0
    ensures 0.0 <= a / c <= b / c <= 1.0
    ensures a < b ==> a / c < b / c
  {
  }

  /** Every point of the drawn curve is inside the plot, each to the right of and above the one before. */
  lemma CurveStaysInPlot(months: seq<string>, points: seq<ChartPoint>, i: nat)
    requires Cumulative(months, points) && i < |points|
    ensures var top := NiceMax(MaxCount(points));
            && top > 0
            && LEFT <= XFor(points, i) <= LEFT + PLOT_WIDTH
            && TOP <= YFor(top, points[i].count) < TOP + PLOT_HEIGHT
            && (i > 0 ==> XFor(points, i - 1) < XFor(points, i)
                          && YFor(top, points[i].count) < YFor(top, points[i - 1].count))
  {
    var top := NiceMax(MaxCount(points));
    NiceMaxIsLeast(MaxCount(points), 0);
    MaxCountIsMax(points, i);
    CountsRise(months, points, i);
    Fraction(0.0, points[i].count as real, top as real);
    if |points| > 1 {
      Fraction(0.0, i as real, (|points| - 1) as real);
    }
    if i > 0 {
      Fraction(points[i - 1].count as real, points[i].count as real, top as real);
      Fraction((i - 1) as real, i as real, (|points| - 1) as real);
    }
  }
}
