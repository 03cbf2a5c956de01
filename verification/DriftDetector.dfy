/** The two-sample Kolmogorov-Smirnov walk. Its value is the least upper bound of the distances of
    the two empirical distribution functions and of one more distance at every value the samples
    share: the corner where the walk stops advancing both samples at once. */
module DriftDetector {

  function Abs(x: real): real { if x < 0.0 then -x else x }
  function Max(x: real, y: real): real { if y > x then y else x }
  function Min(a: nat, b: nat): nat { if a < b then a else b }

  /** Position `i` of a sample of `n` values as a fraction; an empty sample counts as exhausted. */
  function Fraction(i: nat, n: nat): real { if n == 0 then 1.0 else i as real / n as real }

  function Distance(i: nat, n1: nat, j: nat, n2: nat): real { Abs(Fraction(i, n1) - Fraction(j, n2)) }

  // ---------------------------------------------------------------- counting

  function CountLe(s: seq<real>, x: real): (c: nat)
    ensures c <= |s|
  {
    if s == [] then 0 else (if s[0] <= x then 1 else 0) + CountLe(s[1..], x)
  }

  function CountLt(s: seq<real>, x: real): (c: nat)
    ensures c <= CountLe(s, x)
  {
    if s == [] then 0 else (if s[0] < x then 1 else 0) + CountLt(s[1..], x)
  }

  predicate Sorted(s: seq<real>) { forall i, j | 0 <= i < j < |s| :: s[i] <= s[j] }

  lemma {:induction false} CountLeSorted(s: seq<real>, x: real, k: nat)
    requires Sorted(s) && k < |s|
    ensures CountLe(s, x) > k <==> s[k] <= x
  {
    if k > 0 {
      CountLeSorted(s[1..], x, k - 1);
    } else if s[0] > x && |s| > 1 {
      CountLeSorted(s[1..], x, 0);
    }
  }

  lemma {:induction false} CountLtSorted(s: seq<real>, x: real, k: nat)
    requires Sorted(s) && k < |s|
    ensures CountLt(s, x) > k <==> s[k] < x
  {
    if k > 0 {
      CountLtSorted(s[1..], x, k - 1);
    } else if s[0] >= x && |s| > 1 {
      CountLtSorted(s[1..], x, 0);
    }
  }

  function Insert(y: real, s: seq<real>): (r: seq<real>)
    requires Sorted(s)
    ensures Sorted(r) && multiset(r) == multiset{y} + multiset(s)
    ensures |r| > 0 && r[0] == if s == [] || y <= s[0] then y else s[0]
  {
    if s == [] || y <= s[0] then [y] + s
    else
      var r := Insert(y, s[1..]);
      assert s == [s[0]] + s[1..];
      assert s[0] <= r[0];
      [s[0]] + r
  }

  /** What `std::sort` leaves: the same values in ascending order. */
  function SortedCopy(s: seq<real>): (r: seq<real>)
    ensures Sorted(r) && multiset(r) == multiset(s) && |r| == |s|
  {
    if s == [] then []
    else
      assert s == [s[0]] + s[1..];
      var r := Insert(s[0], SortedCopy(s[1..]));
      assert |multiset(r)| == |r| && |multiset(s)| == |s|;
      r
  }

  lemma {:induction false} CountWithout(s: seq<real>, k: nat, x: real)
    requires k < |s|
    ensures CountLe(s, x) == (if s[k] <= x then 1 else 0) + CountLe(s[..k] + s[k + 1..], x)
    ensures CountLt(s, x) == (if s[k] < x then 1 else 0) + CountLt(s[..k] + s[k + 1..], x)
  {
    var rest := s[..k] + s[k + 1..];
    if k == 0 {
      assert rest == s[1..];
    } else {
      CountWithout(s[1..], k - 1, x);
      assert rest[1..] == s[1..][..k - 1] + s[1..][k..];
    }
  }

  /** Counts do not depend on the order of a sample. */
  lemma {:induction false} CountPermuted(s: seq<real>, t: seq<real>, x: real)
    requires multiset(s) == multiset(t)
    ensures CountLe(s, x) == CountLe(t, x) && CountLt(s, x) == CountLt(t, x) && |s| == |t|
    decreases |s|
  {
    assert |multiset(s)| == |s| && |multiset(t)| == |t|;
    if s != [] {
      assert s[0] in multiset(t);
      var k :| 0 <= k < |t| && t[k] == s[0];
      var rest := t[..k] + t[k + 1..];
      RemovedSame(s, t, k);
      CountPermuted(s[1..], rest, x);
      CountWithout(t, k, x);
    }
  }

  lemma RemovedSame(s: seq<real>, t: seq<real>, k: nat)
    requires multiset(s) == multiset(t) && s != [] && k < |t| && t[k] == s[0]
    ensures multiset(s[1..]) == multiset(t[..k] + t[k + 1..])
  {
    var a, b := t[..k], t[k + 1..];
    assert s == [s[0]] + s[1..];
    assert t == a + [t[k]] + b;
    assert multiset(t) == multiset(a) + multiset{t[k]} + multiset(b);
    assert multiset(s) == multiset{s[0]} + multiset(s[1..]);
    assert multiset(s[1..]) == multiset(s) - multiset{s[0]};
    assert multiset(a + b) == multiset(a) + multiset(b);
  }

  // ---------------------------------------------------------------- distances

  /** Distance of the two empirical distribution functions at `x`. */
  function Gap(s1: seq<real>, s2: seq<real>, x: real): real {
    Distance(CountLe(s1, x), |s1|, CountLe(s2, x), |s2|)
  }

  /** How often both samples can be advanced together at the value `v`. */
  function Paired(s1: seq<real>, s2: seq<real>, v: real): nat {
    Min(CountLe(s1, v) - CountLt(s1, v), CountLe(s2, v) - CountLt(s2, v))
  }

  function Corner(s1: seq<real>, s2: seq<real>, v: real): real {
    var m := Paired(s1, s2, v);
    Distance(CountLt(s1, v) + m, |s1|, CountLt(s2, v) + m, |s2|)
  }

  ghost predicate Bounds(d: real, s1: seq<real>, s2: seq<real>) {
    (forall x :: Gap(s1, s2, x) <= d) && forall v :: Corner(s1, s2, v) <= d
  }

  /** `d` is the least upper bound of all gaps and corners. */
  ghost predicate IsStatistic(d: real, s1: seq<real>, s2: seq<real>) {
    Bounds(d, s1, s2) && forall b :: Bounds(b, s1, s2) ==> d <= b
  }

  // ---------------------------------------------------------------- the walk

  /** The largest distance on the walk from positions `i` and `j` of two sorted samples. */
  function Walk(s1: seq<real>, s2: seq<real>, i: nat, j: nat): (d: real)
    requires i <= |s1| && j <= |s2|
    ensures d >= 0.0
    decreases |s1| + |s2| - i - j
  {
    if i == |s1| && j == |s2| then 0.0
    else
      var here := Distance(i, |s1|, j, |s2|);
      var next := Next(s1, s2, i, j);
      Max(here, Walk(s1, s2, next.0, next.1))
  }

  function Next(s1: seq<real>, s2: seq<real>, i: nat, j: nat): (p: (nat, nat))
    requires i <= |s1| && j <= |s2| && (i < |s1| || j < |s2|)
    ensures i <= p.0 <= |s1| && j <= p.1 <= |s2| && i + j < p.0 + p.1
  {
    if j == |s2| then (i + 1, j)
    else if i == |s1| then (i, j + 1)
    else if s1[i] < s2[j] then (i + 1, j)
    else if s2[j] < s1[i] then (i, j + 1)
    else (i + 1, j + 1)
  }

  /** What the positions of the walk keep: everything consumed of one sample is at most the next
      value of the other, and of the next value no more was consumed from the other sample. */
  predicate OnWalk(s1: seq<real>, s2: seq<real>, i: nat, j: nat) {
    && i <= |s1| && j <= |s2|
    && (i < |s1| && j > 0 ==> s2[j - 1] <= s1[i])
    && (j < |s2| && i > 0 ==> s1[i - 1] <= s2[j])
    && (i < |s1| ==> i - CountLt(s1, s1[i]) >= j - CountLt(s2, s1[i]))
    && (j < |s2| ==> j - CountLt(s2, s2[j]) >= i - CountLt(s1, s2[j]))
  }

  lemma {:induction false} CountBelow(s: seq<real>, x: real)
    ensures CountLt(s, x) <= CountLe(s, x) <= |s|
  {
  }

  lemma LtBetween(s: seq<real>, x: real, k: nat)
    requires Sorted(s) && k <= |s|
    ensures k < |s| && x <= s[k] ==> CountLt(s, x) <= k
    ensures k > 0 && s[k - 1] < x ==> CountLt(s, x) >= k
  {
    if k < |s| { CountLtSorted(s, x, k); }
    if k > 0 { CountLtSorted(s, x, k - 1); }
  }

  lemma AdvanceFirst(s1: seq<real>, s2: seq<real>, i: nat, j: nat)
    requires Sorted(s1) && Sorted(s2) && OnWalk(s1, s2, i, j) && i < |s1| && (j < |s2| ==> s1[i] < s2[j])
    ensures OnWalk(s1, s2, i + 1, j)
  {
    hide CountLt;
    if i + 1 < |s1| {
      LtBetween(s1, s1[i + 1], i + 1);
      LtBetween(s2, s1[i + 1], j);
    }
    if j < |s2| {
      LtBetween(s2, s2[j], j);
      LtBetween(s1, s2[j], i + 1);
    }
  }

  lemma AdvanceBoth(s1: seq<real>, s2: seq<real>, i: nat, j: nat)
    requires Sorted(s1) && Sorted(s2) && OnWalk(s1, s2, i, j) && i < |s1| && j < |s2| && s1[i] == s2[j]
    ensures OnWalk(s1, s2, i + 1, j + 1)
  {
    hide CountLt;
    if i + 1 < |s1| {
      LtBetween(s1, s1[i + 1], i + 1);
      LtBetween(s2, s1[i + 1], j + 1);
    }
    if j + 1 < |s2| {
      LtBetween(s2, s2[j + 1], j + 1);
      LtBetween(s1, s2[j + 1], i + 1);
    }
  }

  lemma Swapped(s1: seq<real>, s2: seq<real>, i: nat, j: nat)
    ensures OnWalk(s1, s2, i, j) <==> OnWalk(s2, s1, j, i)
  {
    hide CountLt;
  }

  lemma StaysOnWalk(s1: seq<real>, s2: seq<real>, i: nat, j: nat)
    requires Sorted(s1) && Sorted(s2) && OnWalk(s1, s2, i, j)
    requires i <= |s1| && j <= |s2| && (i < |s1| || j < |s2|)
    ensures var p := Next(s1, s2, i, j); OnWalk(s1, s2, p.0, p.1)
  {
    hide OnWalk;
    var (i', j') := Next(s1, s2, i, j);
    Swapped(s1, s2, i, j);
    Swapped(s1, s2, i', j');
    if i' > i && j' > j {
      AdvanceBoth(s1, s2, i, j);
    } else if i' > i {
      AdvanceFirst(s1, s2, i, j);
    } else {
      AdvanceFirst(s2, s1, j, i);
    }
  }

  // ---------------------------------------------------------------- the walk meets every gap and corner

  lemma LeAbove(s: seq<real>, x: real, k: nat)
    requires Sorted(s) && k < |s|
    ensures CountLe(s, x) > k <==> s[k] <= x
    ensures CountLt(s, x) > k <==> s[k] < x
  {
    CountLeSorted(s, x, k);
    CountLtSorted(s, x, k);
  }

  /** Stepping on does not pass the position that belongs to `x`. */
  lemma GapAhead(s1: seq<real>, s2: seq<real>, i: nat, j: nat, x: real)
    requires Sorted(s1) && Sorted(s2) && i <= |s1| && j <= |s2| && (i < |s1| || j < |s2|)
    requires CountLe(s1, x) >= i && CountLe(s2, x) >= j && (CountLe(s1, x) > i || CountLe(s2, x) > j)
    ensures var p := Next(s1, s2, i, j); CountLe(s1, x) >= p.0 && CountLe(s2, x) >= p.1
  {
    hide CountLe;
    if i < |s1| { LeAbove(s1, x, i); }
    if j < |s2| { LeAbove(s2, x, j); }
  }

  lemma FullDistance(n1: nat, n2: nat)
    requires n1 > 0 && n2 > 0
    ensures Distance(n1, n1, n2, n2) == 0.0
  {
    assert n1 as real / n1 as real == 1.0;
    assert n2 as real / n2 as real == 1.0;
  }

  lemma {:induction false} GapsBelowWalk(s1: seq<real>, s2: seq<real>, i: nat, j: nat, x: real)
    requires Sorted(s1) && Sorted(s2) && s1 != [] && s2 != []
    requires i <= CountLe(s1, x) && j <= CountLe(s2, x)
    ensures Gap(s1, s2, x) <= Walk(s1, s2, i, j)
    decreases |s1| + |s2| - i - j
  {
    hide Distance, CountLe, Next, Sorted;
    if i == |s1| && j == |s2| {
      FullDistance(|s1|, |s2|);
    } else if i < CountLe(s1, x) || j < CountLe(s2, x) {
      GapAhead(s1, s2, i, j, x);
      var p := Next(s1, s2, i, j);
      GapsBelowWalk(s1, s2, p.0, p.1, x);
    }
  }

  lemma CornerAhead(s1: seq<real>, s2: seq<real>, i: nat, j: nat, v: real)
    requires Sorted(s1) && Sorted(s2) && OnWalk(s1, s2, i, j)
    requires i <= |s1| && j <= |s2| && (i < |s1| || j < |s2|)
    requires var m := Paired(s1, s2, v); var c1, c2 := CountLt(s1, v) + m, CountLt(s2, v) + m;
             c1 >= i && c2 >= j && (c1 > i || c2 > j)
    ensures var m := Paired(s1, s2, v); var p := Next(s1, s2, i, j);
            CountLt(s1, v) + m >= p.0 && CountLt(s2, v) + m >= p.1
  {
    hide CountLt, CountLe;
    if i < |s1| { LeAbove(s1, v, i); }
    if j < |s2| { LeAbove(s2, v, j); }
  }

  lemma {:induction false} CornersBelowWalk(s1: seq<real>, s2: seq<real>, i: nat, j: nat, v: real)
    requires Sorted(s1) && Sorted(s2) && s1 != [] && s2 != []
    requires i <= |s1| && j <= |s2| && OnWalk(s1, s2, i, j)
    requires i <= CountLt(s1, v) + Paired(s1, s2, v) && j <= CountLt(s2, v) + Paired(s1, s2, v)
    ensures Corner(s1, s2, v) <= Walk(s1, s2, i, j)
    decreases |s1| + |s2| - i - j
  {
    hide Distance, CountLe, CountLt, Next, Sorted, OnWalk;
    var m := Paired(s1, s2, v);
    var c1, c2 := CountLt(s1, v) + m, CountLt(s2, v) + m;
    if i == |s1| && j == |s2| {
      FullDistance(|s1|, |s2|);
    } else if i < c1 || j < c2 {
      CornerAhead(s1, s2, i, j, v);
      StaysOnWalk(s1, s2, i, j);
      var p := Next(s1, s2, i, j);
      CornersBelowWalk(s1, s2, p.0, p.1, v);
    }
  }

  // ---------------------------------------------------------------- nothing else on the walk is larger

  lemma Scales(k: nat, m: nat, slope: real)
    requires k <= m && slope >= 0.0
    ensures 0.0 <= k as real * slope <= m as real * slope
  {
  }

  lemma ScalesDown(k: nat, m: nat, slope: real)
    requires k <= m && slope <= 0.0
    ensures m as real * slope <= k as real * slope <= 0.0
  {
  }

  lemma Between(a: real, slope: real, k: nat, m: nat)
    requires k <= m
    ensures Abs(a + k as real * slope) <= Max(Abs(a), Abs(a + m as real * slope))
  {
    if slope >= 0.0 {
      Scales(k, m, slope);
    } else {
      ScalesDown(k, m, slope);
    }
  }

  lemma FractionSum(p: nat, k: nat, n: nat)
    requires n > 0
    ensures Fraction(p + k, n) == Fraction(p, n) + k as real * (1.0 / n as real)
  {
  }

  lemma Distribute(k: real, r1: real, r2: real)
    ensures k * (r1 - r2) == k * r1 - k * r2
  {
  }

  lemma AffineBoth(p: nat, n1: nat, q: nat, n2: nat, k: nat)
    requires n1 > 0 && n2 > 0
    ensures Fraction(p + k, n1) - Fraction(q + k, n2) ==
            Fraction(p, n1) - Fraction(q, n2) + k as real * (1.0 / n1 as real - 1.0 / n2 as real)
  {
    hide Fraction;
    FractionSum(p, k, n1);
    FractionSum(q, k, n2);
    Distribute(k as real, 1.0 / n1 as real, 1.0 / n2 as real);
  }

  lemma LargestAtEnd(d0: real, dk: real, dm: real, slope: real, k: nat, m: nat)
    requires k <= m && dk == d0 + k as real * slope && dm == d0 + m as real * slope
    ensures Abs(dk) <= Max(Abs(d0), Abs(dm))
  {
    Between(d0, slope, k, m);
  }

  /** While both samples advance together the distance is largest at an end of the stretch. */
  lemma ConvexBoth(p: nat, n1: nat, q: nat, n2: nat, k: nat, m: nat)
    requires n1 > 0 && n2 > 0 && k <= m
    ensures Distance(p + k, n1, q + k, n2) <= Max(Distance(p, n1, q, n2), Distance(p + m, n1, q + m, n2))
  {
    hide Fraction, Abs, Max;
    AffineBoth(p, n1, q, n2, k);
    AffineBoth(p, n1, q, n2, m);
    LargestAtEnd(Fraction(p, n1) - Fraction(q, n2), Fraction(p + k, n1) - Fraction(q + k, n2),
                 Fraction(p + m, n1) - Fraction(q + m, n2), 1.0 / n1 as real - 1.0 / n2 as real, k, m);
  }

  /** While only the first sample advances, too. */
  lemma ConvexFirst(p: nat, n1: nat, q: nat, n2: nat, k: nat, m: nat)
    requires n1 > 0 && n2 > 0 && k <= m
    ensures Distance(p + k, n1, q, n2) <= Max(Distance(p, n1, q, n2), Distance(p + m, n1, q, n2))
  {
    hide Fraction, Abs, Max;
    FractionSum(p, k, n1);
    FractionSum(p, m, n1);
    LargestAtEnd(Fraction(p, n1) - Fraction(q, n2), Fraction(p + k, n1) - Fraction(q, n2),
                 Fraction(p + m, n1) - Fraction(q, n2), 1.0 / n1 as real, k, m);
  }

  lemma DistanceSwaps(i: nat, n1: nat, j: nat, n2: nat)
    ensures Distance(i, n1, j, n2) == Distance(j, n2, i, n1)
  {
  }

  lemma PairedSwaps(s1: seq<real>, s2: seq<real>, v: real)
    ensures Paired(s1, s2, v) == Paired(s2, s1, v)
    ensures Corner(s1, s2, v) == Corner(s2, s1, v) && Gap(s1, s2, v) == Gap(s2, s1, v)
  {
    hide Fraction;
  }

  /** The gap just below `v`: no value of either sample lies between `u` and `v`. */
  lemma GapBelow(s1: seq<real>, s2: seq<real>, v: real) returns (u: real)
    requires Sorted(s1) && Sorted(s2)
    ensures u < v && CountLe(s1, u) == CountLt(s1, v) && CountLe(s2, u) == CountLt(s2, v)
  {
    hide CountLt, CountLe;
    var p, q := CountLt(s1, v), CountLt(s2, v);
    CountBelow(s1, v);
    CountBelow(s2, v);
    u := v - 1.0;
    if p > 0 { LeAbove(s1, v, p - 1); if s1[p - 1] > u { u := s1[p - 1]; } }
    if q > 0 { LeAbove(s2, v, q - 1); if s2[q - 1] > u { u := s2[q - 1]; } }
    LeUpTo(s1, u, v);
    LeUpTo(s2, u, v);
  }

  lemma LeUpTo(s: seq<real>, u: real, v: real)
    requires Sorted(s) && u < v
    requires CountLt(s, v) > 0 ==> CountLt(s, v) <= |s| && s[CountLt(s, v) - 1] <= u
    ensures CountLe(s, u) == CountLt(s, v)
  {
    hide CountLt, CountLe;
    var p := CountLt(s, v);
    CountBelow(s, v);
    CountBelow(s, u);
    if p > 0 { LeAbove(s, u, p - 1); }
    if p < |s| { LeAbove(s, u, p); LeAbove(s, v, p); }
  }

  /** A position of the walk at which the first sample holds the smaller next value. */
  lemma FirstBounded(s1: seq<real>, s2: seq<real>, i: nat, j: nat, b: real)
    requires Sorted(s1) && Sorted(s2) && s1 != [] && s2 != [] && Bounds(b, s1, s2)
    requires i < |s1| && j <= |s2| && OnWalk(s1, s2, i, j) && (j < |s2| ==> s1[i] < s2[j])
    ensures Distance(i, |s1|, j, |s2|) <= b
  {
    hide CountLt, CountLe, Fraction, Sorted;
    var v := s1[i];
    var p, q, m := CountLt(s1, v), CountLt(s2, v), Paired(s1, s2, v);
    CountBelow(s2, v);
    LeAbove(s1, v, i);
    if j < |s2| { LeAbove(s2, v, j); }
    if j > 0 { LeAbove(s2, v, j - 1); }
    assert CountLe(s2, v) == j;
    assert p <= i < CountLe(s1, v) && i - p >= j - q;
    assert Corner(s1, s2, v) <= b && Gap(s1, s2, v) <= b;
    ConvexFirst(p + m, |s1|, j, |s2|, i - p - m, CountLe(s1, v) - p - m);
  }

  /** A position at which both samples hold the same next value. */
  lemma BothBounded(s1: seq<real>, s2: seq<real>, i: nat, j: nat, b: real)
    requires Sorted(s1) && Sorted(s2) && s1 != [] && s2 != [] && Bounds(b, s1, s2)
    requires i < |s1| && j < |s2| && OnWalk(s1, s2, i, j) && s1[i] == s2[j]
    ensures Distance(i, |s1|, j, |s2|) <= b
  {
    hide CountLt, CountLe, Fraction, Sorted;
    var v := s1[i];
    var p, q, m := CountLt(s1, v), CountLt(s2, v), Paired(s1, s2, v);
    LeAbove(s1, v, i);
    LeAbove(s2, v, j);
    var u := GapBelow(s1, s2, v);
    assert Corner(s1, s2, v) <= b && Gap(s1, s2, u) <= b;
    ConvexBoth(p, |s1|, q, |s2|, i - p, m);
  }

  lemma {:induction false} WalkBounded(s1: seq<real>, s2: seq<real>, i: nat, j: nat, b: real)
    requires Sorted(s1) && Sorted(s2) && s1 != [] && s2 != [] && Bounds(b, s1, s2)
    requires i <= |s1| && j <= |s2| && OnWalk(s1, s2, i, j)
    ensures Walk(s1, s2, i, j) <= b
    decreases |s1| + |s2| - i - j
  {
    hide Distance, OnWalk, Sorted;
    if i == |s1| && j == |s2| {
      assert Gap(s1, s2, 0.0) <= b;
      NonNegative(CountLe(s1, 0.0), |s1|, CountLe(s2, 0.0), |s2|);
    } else {
      if i < |s1| && j < |s2| && s1[i] == s2[j] {
        BothBounded(s1, s2, i, j, b);
      } else if i < |s1| && (j < |s2| ==> s1[i] < s2[j]) {
        FirstBounded(s1, s2, i, j, b);
      } else {
        BoundsSwap(s1, s2, b);
        Swapped(s1, s2, i, j);
        FirstBounded(s2, s1, j, i, b);
        DistanceSwaps(i, |s1|, j, |s2|);
      }
      StaysOnWalk(s1, s2, i, j);
      var p := Next(s1, s2, i, j);
      WalkBounded(s1, s2, p.0, p.1, b);
    }
  }

  lemma NonNegative(i: nat, n1: nat, j: nat, n2: nat)
    ensures Distance(i, n1, j, n2) >= 0.0
  {
  }

  lemma BoundsSwap(s1: seq<real>, s2: seq<real>, b: real)
    ensures Bounds(b, s1, s2) <==> Bounds(b, s2, s1)
  {
    hide Corner, Gap;
    forall v ensures Corner(s1, s2, v) == Corner(s2, s1, v) && Gap(s1, s2, v) == Gap(s2, s1, v) {
      PairedSwaps(s1, s2, v);
    }
  }

  // ---------------------------------------------------------------- the statistic

  /** The value `ks_statistic` computes. */
  function Statistic(sample1: seq<real>, sample2: seq<real>): real {
    Walk(SortedCopy(sample1), SortedCopy(sample2), 0, 0)
  }

  lemma CountsOfSorted(s: seq<real>, x: real)
    ensures CountLe(SortedCopy(s), x) == CountLe(s, x) && CountLt(SortedCopy(s), x) == CountLt(s, x)
  {
    CountPermuted(SortedCopy(s), s, x);
  }

  lemma SameBounds(s1: seq<real>, s2: seq<real>, t1: seq<real>, t2: seq<real>, b: real)
    requires multiset(s1) == multiset(t1) && multiset(s2) == multiset(t2)
    ensures Bounds(b, s1, s2) <==> Bounds(b, t1, t2)
  {
    hide Distance, CountLe, CountLt;
    forall x ensures Gap(s1, s2, x) == Gap(t1, t2, x) && Corner(s1, s2, x) == Corner(t1, t2, x) {
      CountPermuted(s1, t1, x);
      CountPermuted(s2, t2, x);
    }
  }

  /** The computed value is exactly the least upper bound of the gaps and the corners. */
  lemma StatisticIsLeastBound(sample1: seq<real>, sample2: seq<real>)
    requires sample1 != [] && sample2 != []
    ensures IsStatistic(Statistic(sample1, sample2), sample1, sample2)
  {
    hide Gap, Corner;
    var s1, s2 := SortedCopy(sample1), SortedCopy(sample2);
    var d := Walk(s1, s2, 0, 0);
    forall x ensures Gap(s1, s2, x) <= d { GapsBelowWalk(s1, s2, 0, 0, x); }
    StartsOnWalk(s1, s2);
    forall v ensures Corner(s1, s2, v) <= d { CornersBelowWalk(s1, s2, 0, 0, v); }
    SameBounds(s1, s2, sample1, sample2, d);
    forall b | Bounds(b, sample1, sample2) ensures d <= b {
      SameBounds(s1, s2, sample1, sample2, b);
      WalkBounded(s1, s2, 0, 0, b);
    }
  }

  lemma StartsOnWalk(s1: seq<real>, s2: seq<real>)
    requires Sorted(s1) && Sorted(s2)
    ensures OnWalk(s1, s2, 0, 0)
  {
    if s1 != [] { LtBetween(s1, s1[0], 0); }
    if s2 != [] { LtBetween(s2, s2[0], 0); }
  }

  /** It does not depend on the order of either sample, nor on which sample comes first. */
  lemma StatisticIsSymmetric(s1: seq<real>, s2: seq<real>, t1: seq<real>, t2: seq<real>)
    requires multiset(s1) == multiset(t1) && multiset(s2) == multiset(t2)
    ensures Statistic(t1, t2) == Statistic(s1, s2) == Statistic(s2, s1)
  {
    hide Bounds, Statistic;
    assert |multiset(s1)| == |s1| && |multiset(t1)| == |t1| && |multiset(s2)| == |s2| && |multiset(t2)| == |t2|;
    if s1 == [] || s2 == [] {
      EmptySample(if s1 == [] then s2 else s1);
      EmptySample(if s1 == [] then t2 else t1);
      return;
    }
    StatisticIsLeastBound(s1, s2);
    StatisticIsLeastBound(t1, t2);
    StatisticIsLeastBound(s2, s1);
    forall b ensures (Bounds(b, s1, s2) <==> Bounds(b, t1, t2)) && (Bounds(b, s1, s2) <==> Bounds(b, s2, s1)) {
      SameBounds(s1, s2, t1, t2, b);
      BoundsSwap(s1, s2, b);
    }
  }

  /** It lies between zero and one, for empty samples too. */
  lemma StatisticInUnit(s1: seq<real>, s2: seq<real>)
    ensures 0.0 <= Statistic(s1, s2) <= 1.0
  {
    WalkInUnit(SortedCopy(s1), SortedCopy(s2), 0, 0);
  }

  lemma {:induction false} WalkInUnit(s1: seq<real>, s2: seq<real>, i: nat, j: nat)
    requires i <= |s1| && j <= |s2|
    ensures 0.0 <= Walk(s1, s2, i, j) <= 1.0
    decreases |s1| + |s2| - i - j
  {
    hide Distance;
    if i < |s1| || j < |s2| {
      UnitDistance(i, |s1|, j, |s2|);
      var next := Next(s1, s2, i, j);
      WalkInUnit(s1, s2, next.0, next.1);
    }
  }

  /** With one sample empty the statistic is one, with both it is zero. */
  lemma EmptySample(s: seq<real>)
    ensures Statistic([], s) == Statistic(s, []) == if s == [] then 0.0 else 1.0
  {
    var t := SortedCopy(s);
    assert SortedCopy([]) == [];
    if s != [] {
      WalkInUnit([], t, 0, 0);
      WalkInUnit(t, [], 0, 0);
      assert Distance(0, 0, 0, |t|) == 1.0 && Distance(0, |t|, 0, 0) == 1.0;
    }
  }

  lemma UnitDistance(i: nat, n1: nat, j: nat, n2: nat)
    requires i <= n1 && j <= n2
    ensures Distance(i, n1, j, n2) <= 1.0
  {
    hide Fraction;
    UnitFraction(i, n1);
    UnitFraction(j, n2);
  }

  lemma UnitFraction(i: nat, n: nat)
    requires i <= n
    ensures 0.0 <= Fraction(i, n) <= 1.0
  {
    if n == 0 {
      return;
    }
    Scales(i, n, 1.0 / n as real);
    assert n as real * (1.0 / n as real) == 1.0;
    FractionSum(0, i, n);
  }

  // ---------------------------------------------------------------- when it is the supremum of the gaps

  ghost predicate BoundsGaps(d: real, s1: seq<real>, s2: seq<real>) { forall x :: Gap(s1, s2, x) <= d }

  /** `d` is the supremum of the distance of the two distribution functions. */
  ghost predicate IsSupremum(d: real, s1: seq<real>, s2: seq<real>) {
    BoundsGaps(d, s1, s2) && forall b :: BoundsGaps(b, s1, s2) ==> d <= b
  }

  /** Some gap is at least as large as the corner at `v`. */
  ghost predicate CornerCovered(s1: seq<real>, s2: seq<real>, v: real) {
    exists x :: Corner(s1, s2, v) <= Gap(s1, s2, x)
  }

  /** A value of one of the samples has a gap at least as large as the corner at `v`. */
  predicate CoveredAtValue(s1: seq<real>, s2: seq<real>, v: real) {
    exists x :: x in s1 + s2 && Corner(s1, s2, v) <= Gap(s1, s2, x)
  }

  lemma {:induction false} MemberCounts(s: seq<real>, v: real)
    ensures v in s <==> CountLe(s, v) > CountLt(s, v)
    ensures multiset(s)[v] == CountLe(s, v) - CountLt(s, v)
  {
    if s != [] {
      assert s == [s[0]] + s[1..];
      MemberCounts(s[1..], v);
    }
  }

  lemma GapAt(s: seq<real>, x: real, u: real)
    requires Sorted(s) && u <= x && (CountLe(s, x) > 0 ==> s[CountLe(s, x) - 1] <= u)
    ensures CountLe(s, u) == CountLe(s, x)
  {
    hide CountLe;
    var p := CountLe(s, x);
    if p > 0 { LeAbove(s, u, p - 1); }
    if p < |s| { LeAbove(s, x, p); LeAbove(s, u, p); }
  }

  /** Every gap that is not zero also occurs at a value of one of the samples. */
  lemma GapAtValue(s1: seq<real>, s2: seq<real>, x: real) returns (u: real)
    requires Sorted(s1) && Sorted(s2) && s1 != [] && s2 != []
    ensures u in s1 + s2 && Gap(s1, s2, x) <= Gap(s1, s2, u)
  {
    hide CountLe, Sorted;
    var p, q := CountLe(s1, x), CountLe(s2, x);
    u := s1[0];
    if p > 0 || q > 0 {
      u := if p > 0 && (q == 0 || s2[q - 1] <= s1[p - 1]) then s1[p - 1] else s2[q - 1];
      if p > 0 { LeAbove(s1, x, p - 1); }
      if q > 0 { LeAbove(s2, x, q - 1); }
      GapAt(s1, x, u);
      GapAt(s2, x, u);
    } else {
      NonNegative(CountLe(s1, u), |s1|, CountLe(s2, u), |s2|);
      assert Distance(0, |s1|, 0, |s2|) == 0.0;
    }
  }

  lemma {:induction false} LargestOf(s1: seq<real>, s2: seq<real>, xs: seq<real>) returns (u: real)
    requires xs != []
    ensures u in xs && forall w | w in xs :: Gap(s1, s2, w) <= Gap(s1, s2, u)
  {
    hide Gap;
    u := xs[0];
    if |xs| > 1 {
      var w := LargestOf(s1, s2, xs[1..]);
      if Gap(s1, s2, w) > Gap(s1, s2, u) { u := w; }
    }
  }

  /** The supremum of the gaps is attained. */
  lemma GapAttained(s1: seq<real>, s2: seq<real>) returns (u: real)
    requires s1 != [] && s2 != []
    ensures BoundsGaps(Gap(s1, s2, u), s1, s2) && u in s1 + s2
  {
    hide CountLe, CountLt, Distance, Sorted;
    var t1, t2 := SortedCopy(s1), SortedCopy(s2);
    assert forall x :: x in t1 <==> x in multiset(t1);
    assert forall x :: x in t2 <==> x in multiset(t2);
    u := LargestOf(t1, t2, t1 + t2);
    CountsOfSorted(s1, u);
    CountsOfSorted(s2, u);
    forall x ensures Gap(s1, s2, x) <= Gap(s1, s2, u) {
      CountsOfSorted(s1, x);
      CountsOfSorted(s2, x);
      var w := GapAtValue(t1, t2, x);
    }
  }

  lemma PositionBelow(s1: seq<real>, s2: seq<real>, v: real) returns (u: real)
    ensures CountLe(s1, u) == CountLt(s1, v) && CountLe(s2, u) == CountLt(s2, v)
  {
    hide CountLe, CountLt, Sorted;
    u := GapBelow(SortedCopy(s1), SortedCopy(s2), v);
    CountsOfSorted(s1, v);
    CountsOfSorted(s2, v);
    CountsOfSorted(s1, u);
    CountsOfSorted(s2, u);
  }

  /** A value that only one sample holds has its corner covered by the gap just below it. */
  lemma UnsharedCovered(s1: seq<real>, s2: seq<real>, v: real)
    requires v !in s1 || v !in s2
    ensures CornerCovered(s1, s2, v)
  {
    hide CountLe, CountLt, Distance;
    var u := PositionBelow(s1, s2, v);
    MemberCounts(s1, v);
    MemberCounts(s2, v);
    CountBelow(s1, v);
    CountBelow(s2, v);
    assert Paired(s1, s2, v) == 0;
    assert Corner(s1, s2, v) == Gap(s1, s2, u);
  }

  /** The statistic is never below the supremum of the gaps, and it is that supremum exactly when
      at every shared value the corner of the walk is covered by the gap at some sample value. */
  lemma StatisticIsSupremumIff(s1: seq<real>, s2: seq<real>)
    requires s1 != [] && s2 != []
    ensures BoundsGaps(Statistic(s1, s2), s1, s2)
    ensures IsSupremum(Statistic(s1, s2), s1, s2) <==> forall v | v in s1 && v in s2 :: CoveredAtValue(s1, s2, v)
  {
    hide Gap, Corner, Statistic;
    StatisticIsLeastBound(s1, s2);
    var d := Statistic(s1, s2);
    var u := GapAttained(s1, s2);
    if IsSupremum(d, s1, s2) {
      assert d <= Gap(s1, s2, u);
      forall v ensures CoveredAtValue(s1, s2, v) {
        assert u in s1 + s2 && Corner(s1, s2, v) <= Gap(s1, s2, u);
      }
    }
    if forall v | v in s1 && v in s2 :: CoveredAtValue(s1, s2, v) {
      forall b | BoundsGaps(b, s1, s2) ensures d <= b {
        forall v ensures Corner(s1, s2, v) <= b {
          if v !in s1 || v !in s2 { UnsharedCovered(s1, s2, v); }
          var x :| Corner(s1, s2, v) <= Gap(s1, s2, x);
        }
        assert Bounds(b, s1, s2);
      }
    }
  }

  /** In particular it is the supremum when the samples hold each shared value equally often. */
  lemma EqualTiesGiveSupremum(s1: seq<real>, s2: seq<real>)
    requires s1 != [] && s2 != []
    requires forall v | v in s1 && v in s2 :: multiset(s1)[v] == multiset(s2)[v]
    ensures IsSupremum(Statistic(s1, s2), s1, s2)
  {
    hide CountLe, CountLt, Distance, IsSupremum, Statistic;
    forall v | v in s1 && v in s2 ensures CoveredAtValue(s1, s2, v) {
      MemberCounts(s1, v);
      MemberCounts(s2, v);
      assert v in s1 + s2 && Corner(s1, s2, v) == Gap(s1, s2, v);
    }
    StatisticIsSupremumIff(s1, s2);
  }

  /** Two equal distributions, one sampled twice as often: the statistic is one half, not zero. */
  lemma UnequalTiesOvershoot()
    ensures Statistic([0.0, 0.0], [0.0]) == 0.5
    ensures !IsSupremum(0.5, [0.0, 0.0], [0.0])
  {
    var s1, s2 := [0.0, 0.0], [0.0];
    assert SortedCopy(s2) == s2;
    assert s1[1..] == s2;
    assert SortedCopy(s1) == s1;
    assert Walk(s1, s2, 2, 1) == 0.0;
    assert Walk(s1, s2, 1, 1) == 0.5;
    assert Walk(s1, s2, 0, 0) == 0.5;
    forall x ensures Gap(s1, s2, x) <= 0.0 {
      assert s1[1..][1..] == [] && s2[1..] == [];
      assert CountLe(s2, x) == if x >= 0.0 then 1 else 0;
      assert CountLe(s1, x) == if x >= 0.0 then 2 else 0;
    }
    assert BoundsGaps(0.0, s1, s2);
  }

  // ---------------------------------------------------------------- the program

  lemma Quotients(i: nat, n1: nat, j: nat, n2: nat)
    ensures n1 > 0 && n2 > 0 ==> Distance(i, n1, j, n2) == Abs(i as real / n1 as real - j as real / n2 as real)
    ensures n1 > 0 ==> Distance(i, n1, n2, n2) == Abs(i as real / n1 as real - 1.0)
    ensures n2 > 0 ==> Distance(n1, n1, j, n2) == Abs(1.0 - j as real / n2 as real)
  {
    FullFraction(n1);
    FullFraction(n2);
  }

  lemma FullFraction(n: nat)
    ensures Fraction(n, n) == 1.0
  {
    if n > 0 {
      assert n as real / n as real == 1.0;
    }
  }

  method KsStatistic(sample1: seq<real>, sample2: seq<real>) returns (maxDiff: real)
    ensures maxDiff == Statistic(sample1, sample2)
    ensures sample1 != [] && sample2 != [] ==> IsStatistic(maxDiff, sample1, sample2)
  {
    hide Abs, Distance, IsStatistic, Sorted, SortedCopy;
    var s1, s2 := SortedCopy(sample1), SortedCopy(sample2);
    var n1, n2 := |s1|, |s2|;
    var i, j := 0, 0;
    maxDiff := 0.0;
    while i < n1 && j < n2
      invariant 0 <= i <= n1 && 0 <= j <= n2
      invariant Max(maxDiff, Walk(s1, s2, i, j)) == Walk(s1, s2, 0, 0)
      decreases n1 + n2 - i - j
    {
      Quotients(i, n1, j, n2);
      var diffBefore := Abs(i as real / n1 as real - j as real / n2 as real);
      if diffBefore > maxDiff {
        maxDiff := diffBefore;
      }
      if s1[i] < s2[j] {
        i := i + 1;
      } else if s2[j] < s1[i] {
        j := j + 1;
      } else {
        i, j := i + 1, j + 1;
      }
    }
    while i < n1
      invariant 0 <= i <= n1 && 0 <= j <= n2 && (i == n1 || j == n2)
      invariant Max(maxDiff, Walk(s1, s2, i, j)) == Walk(s1, s2, 0, 0)
    {
      Quotients(i, n1, j, n2);
      var diff := Abs(i as real / n1 as real - 1.0);
      if diff > maxDiff {
        maxDiff := diff;
      }
      i := i + 1;
    }
    while j < n2
      invariant i == n1 && 0 <= j <= n2
      invariant Max(maxDiff, Walk(s1, s2, i, j)) == Walk(s1, s2, 0, 0)
    {
      Quotients(i, n1, j, n2);
      var diff := Abs(1.0 - j as real / n2 as real);
      if diff > maxDiff {
        maxDiff := diff;
      }
      j := j + 1;
    }
    if sample1 != [] && sample2 != [] {
      StatisticIsLeastBound(sample1, sample2);
    }
  }
}
