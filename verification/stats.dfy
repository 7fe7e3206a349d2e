/** The order statistics the dashboard relies on: an ascending sort, numpy's
    default ("linear") quantile and pandas' average-tie percentile rank. */
module Stats {

  predicate Sorted(s: seq<real>) {
    forall i, j :: 0 <= i < j < |s| ==> s[i] <= s[j]
  }

  /** The sum of the first `k` values. */
  function Prefix(s: seq<real>, k: nat): real
    requires k <= |s|
  {
    if k == 0 then 0.0 else Prefix(s, k - 1) + s[k - 1]
  }

  function Sum(s: seq<real>): real {
    Prefix(s, |s|)
  }

  lemma {:induction false} PrefixCons(x: real, s: seq<real>, k: nat)
    requires k <= |s|
    ensures Prefix([x] + s, k + 1) == x + Prefix(s, k)
  {
    if k > 0 {
      PrefixCons(x, s, k - 1);
      assert ([x] + s)[k] == s[k - 1];
    }
  }

  /** The sum splits off its first value. */
  lemma SumCons(x: real, s: seq<real>)
    ensures Sum([x] + s) == x + Sum(s)
  {
    PrefixCons(x, s, |s|);
  }

  // ---------------------------------------------------------------- sorting

  function Insert(x: real, s: seq<real>): (r: seq<real>)
    requires Sorted(s)
    ensures Sorted(r)
    ensures multiset(r) == multiset(s) + multiset{x}
  {
    if s == [] || x <= s[0] then
      [x] + s
    else
      var rest := Insert(x, s[1..]);
      InsertAbove(s[0], x, s[1..], rest);
      assert s == [s[0]] + s[1..];
      [s[0]] + rest
  }

  /** A lower bound of `x` and of `s` bounds any arrangement of them. */
  lemma InsertAbove(m: real, x: real, s: seq<real>, rest: seq<real>)
    requires m <= x && forall i :: 0 <= i < |s| ==> m <= s[i]
    requires multiset(rest) == multiset(s) + multiset{x}
    ensures forall i :: 0 <= i < |rest| ==> m <= rest[i]
  {
    forall i | 0 <= i < |rest| ensures m <= rest[i] {
      assert rest[i] in multiset(rest);
      assert rest[i] == x || rest[i] in multiset(s);
    }
  }

  /** `sort_values`: an ascending permutation of the values. */
  function Sort(s: seq<real>): (r: seq<real>)
    ensures Sorted(r)
    ensures multiset(r) == multiset(s)
    ensures |r| == |s|
  {
    if s == [] then []
    else
      assert s == [s[0]] + s[1..];
      Insert(s[0], Sort(s[1..]))
  }

  /** A sorted sequence is determined by its multiset of values, so sorting is the
      identity on sorted input and the sort of any sample is unique. */
  lemma {:induction false} SortedUnique(a: seq<real>, b: seq<real>)
    requires Sorted(a) && Sorted(b) && multiset(a) == multiset(b)
    ensures a == b
  {
    assert |a| == |b| by {
      assert |a| == |multiset(a)| && |b| == |multiset(b)|;
    }
    if a != [] {
      assert a[0] == b[0] by {
        SortedHead(a, b[0]);
        SortedHead(b, a[0]);
      }
      var ta, tb := a[1..], b[1..];
      assert multiset(ta) == multiset(tb) by {
        MultisetTail(a);
        MultisetTail(b);
      }
      SortedTail(a);
      SortedTail(b);
      SortedUnique(ta, tb);
      assert a == [a[0]] + ta;
    }
  }

  /** The head of a sorted sequence is at most any of its values. */
  lemma SortedHead(a: seq<real>, x: real)
    requires Sorted(a) && x in multiset(a)
    ensures a[0] <= x
  {
    var i :| 0 <= i < |a| && a[i] == x;
  }

  lemma SortedTail(a: seq<real>)
    requires Sorted(a) && a != []
    ensures Sorted(a[1..])
  {
  }

  lemma MultisetTail(a: seq<real>)
    requires a != []
    ensures multiset(a[1..]) == multiset(a) - multiset{a[0]}
  {
    assert a == [a[0]] + a[1..];
  }

  lemma SortSorted(s: seq<real>)
    requires Sorted(s)
    ensures Sort(s) == s
  {
    SortedUnique(Sort(s), s);
  }

  /** The first value of the sort is the minimum and the last the maximum. */
  lemma SortEnds(s: seq<real>)
    requires |s| > 0
    ensures Sort(s)[0] in s && Sort(s)[|s| - 1] in s
    ensures forall i :: 0 <= i < |s| ==> Sort(s)[0] <= s[i] <= Sort(s)[|s| - 1]
  {
    var v := Sort(s);
    assert v[0] in multiset(s) && v[|s| - 1] in multiset(s);
    forall i | 0 <= i < |s| ensures v[0] <= s[i] <= v[|s| - 1] {
      assert s[i] in multiset(v);
    }
  }

  // ---------------------------------------------------------------- quantile

  lemma MulNonNegative(x: real, y: real)
    requires x >= 0.0 && y >= 0.0
    ensures x * y >= 0.0
  {
  }

  lemma ScaleWithin(m: real, q: real)
    requires m >= 0.0 && 0.0 <= q <= 1.0
    ensures 0.0 <= m * q <= m
  {
    MulNonNegative(m, q);
    MulNonNegative(m, 1.0 - q);
    assert m * (1.0 - q) == m - m * q;
  }

  lemma ScaleMonotone(m: real, q1: real, q2: real)
    requires m >= 0.0 && q1 <= q2
    ensures m * q1 <= m * q2
  {
    MulNonNegative(m, q2 - q1);
    assert m * (q2 - q1) == m * q2 - m * q1;
  }

  lemma ScaleBetween(a: real, b: real, t: real)
    requires a <= b && 0.0 <= t <= 1.0
    ensures a <= a + t * (b - a) <= b
  {
    MulNonNegative(t, b - a);
    MulNonNegative(1.0 - t, b - a);
    assert (1.0 - t) * (b - a) == (b - a) - t * (b - a);
  }

  /** Linear interpolation at the virtual index `h` of a sorted sample. */
  function Interpolate(v: seq<real>, h: real): (r: real)
    requires Sorted(v) && 0.0 <= h <= (|v| - 1) as real
    ensures v[h.Floor] <= r
    ensures h.Floor + 1 < |v| ==> r <= v[h.Floor + 1]
    ensures h.Floor + 1 >= |v| ==> r == v[|v| - 1]
  {
    var i := h.Floor;
    if i + 1 < |v| then
      ScaleBetween(v[i], v[i + 1], h - i as real);
      v[i] + (h - i as real) * (v[i + 1] - v[i])
    else
      v[i]
  }

  /** numpy's virtual index (n - 1) * q of probability `q` in a sample of `n`. */
  function VirtualIndex(n: nat, q: real): (h: real)
    requires n > 0 && 0.0 <= q <= 1.0
    ensures 0.0 <= h <= (n - 1) as real
  {
    ScaleWithin((n - 1) as real, q);
    (n - 1) as real * q
  }

  lemma VirtualIndexMonotone(n: nat, q1: real, q2: real)
    requires n > 0 && 0.0 <= q1 <= q2 <= 1.0
    ensures VirtualIndex(n, q1) <= VirtualIndex(n, q2)
  {
    ScaleMonotone((n - 1) as real, q1, q2);
  }

  /** `Series.quantile(q)`: numpy's "linear" method over the sorted values. */
  function Quantile(s: seq<real>, q: real): (r: real)
    requires |s| > 0 && 0.0 <= q <= 1.0
    ensures Sort(s)[0] <= r <= Sort(s)[|s| - 1]
  {
    var v := Sort(s);
    var h := VirtualIndex(|s|, q);
    InterpolateBounds(v, h);
    Interpolate(v, h)
  }

  lemma InterpolateBounds(v: seq<real>, h: real)
    requires Sorted(v) && 0.0 <= h <= (|v| - 1) as real
    ensures v[0] <= Interpolate(v, h) <= v[|v| - 1]
  {
  }

  /** Interpolation moves up with the virtual index. */
  lemma InterpolateMonotone(v: seq<real>, h1: real, h2: real)
    requires Sorted(v) && 0.0 <= h1 <= h2 <= (|v| - 1) as real
    ensures Interpolate(v, h1) <= Interpolate(v, h2)
  {
    var i1, i2 := h1.Floor, h2.Floor;
    if i1 == i2 {
      if i1 + 1 < |v| {
        var d := v[i1 + 1] - v[i1];
        assert (h2 - i1 as real) * d - (h1 - i1 as real) * d == (h2 - h1) * d;
        assert (h2 - h1) * d >= 0.0;
      }
    } else {
      assert i1 < i2;
      assert Interpolate(v, h1) <= v[i1 + 1];
    }
  }

  /** A higher probability never gives a lower quantile. */
  lemma QuantileMonotone(s: seq<real>, q1: real, q2: real)
    requires |s| > 0 && 0.0 <= q1 <= q2 <= 1.0
    ensures Quantile(s, q1) <= Quantile(s, q2)
  {
    VirtualIndexMonotone(|s|, q1, q2);
    InterpolateMonotone(Sort(s), VirtualIndex(|s|, q1), VirtualIndex(|s|, q2));
  }

  /** The quantile lies between the smallest and the largest sample value, so at
      least the maximum is at or above it. */
  lemma QuantileWithinSample(s: seq<real>, q: real)
    requires |s| > 0 && 0.0 <= q <= 1.0
    ensures exists i :: 0 <= i < |s| && s[i] >= Quantile(s, q)
    ensures forall i :: 0 <= i < |s| && s[i] > Quantile(s, q) ==> s[i] > Sort(s)[0]
  {
    SortEnds(s);
    var m := Sort(s)[|s| - 1];
    var i :| 0 <= i < |s| && s[i] == m;
  }

  // ---------------------------------------------------------------- percentile rank

  lemma FractionWithin(a: real, n: real)
    requires 0.0 < a <= n
    ensures 0.0 < a / n * 100.0 <= 100.0
  {
    assert a / n <= 1.0;
  }

  lemma DivideStrict(a: real, b: real, n: real)
    requires a < b && n > 0.0
    ensures a / n < b / n
  {
    assert b / n - a / n == (b - a) / n;
  }

  function CountLess(s: seq<real>, x: real): (r: nat)
    ensures r <= |s|
  {
    if s == [] then 0 else CountLess(s[..|s| - 1], x) + (if s[|s| - 1] < x then 1 else 0)
  }

  function CountEqual(s: seq<real>, x: real): (r: nat)
    ensures r <= |s|
  {
    if s == [] then 0 else CountEqual(s[..|s| - 1], x) + (if s[|s| - 1] == x then 1 else 0)
  }

  /** The values below `x` and those equal to it are disjoint parts of the sample. */
  lemma {:induction false} CountsDisjoint(s: seq<real>, x: real)
    ensures CountLess(s, x) + CountEqual(s, x) <= |s|
    ensures x in s ==> CountEqual(s, x) >= 1
  {
    if s != [] {
      var init := s[..|s| - 1];
      assert s == init + [s[|s| - 1]];
      CountsDisjoint(init, x);
    }
  }

  /** Every value below or equal to `x` is below a larger `y`. */
  lemma {:induction false} CountsBelowLarger(s: seq<real>, x: real, y: real)
    requires x < y
    ensures CountLess(s, x) + CountEqual(s, x) <= CountLess(s, y)
  {
    if s != [] {
      CountsBelowLarger(s[..|s| - 1], x, y);
    }
  }

  /** `rank(pct=True) * 100` of a value of the sample: tied values share the mean
      of the 1-based positions they occupy, divided by the sample size. */
  function PercentileRank(s: seq<real>, x: real): (r: real)
    requires x in s
    ensures 0.0 < r <= 100.0
  {
    CountsDisjoint(s, x);
    var rank := CountLess(s, x) as real + (CountEqual(s, x) as real + 1.0) / 2.0;
    FractionWithin(rank, |s| as real);
    rank / |s| as real * 100.0
  }

  /** A strictly higher value has a strictly higher percentile rank. */
  lemma PercentileStrictlyMonotone(s: seq<real>, x: real, y: real)
    requires x in s && y in s && x < y
    ensures PercentileRank(s, x) < PercentileRank(s, y)
  {
    CountsDisjoint(s, x);
    CountsBelowLarger(s, x, y);
    var n := |s| as real;
    var rx := CountLess(s, x) as real + (CountEqual(s, x) as real + 1.0) / 2.0;
    var ry := CountLess(s, y) as real + (CountEqual(s, y) as real + 1.0) / 2.0;
    assert rx < ry;
    DivideStrict(rx, ry, n);
  }

  function CountGreater(s: seq<real>, x: real): (r: nat)
    ensures r <= |s|
  {
    if s == [] then 0 else CountGreater(s[..|s| - 1], x) + (if s[|s| - 1] > x then 1 else 0)
  }

  /** Every value is below, equal to or above `x`. */
  lemma {:induction false} CountsPartition(s: seq<real>, x: real)
    ensures CountLess(s, x) + CountEqual(s, x) + CountGreater(s, x) == |s|
  {
    if s != [] {
      CountsPartition(s[..|s| - 1], x);
    }
  }

  /** The pairs (x, y) with x from `a`, y from `b` and y < x. */
  function LessPairs(a: seq<real>, b: seq<real>): nat {
    if a == [] then 0 else LessPairs(a[..|a| - 1], b) + CountLess(b, a[|a| - 1])
  }

  /** The pairs (x, y) with x from `a`, y from `b` and y == x. */
  function EqualPairs(a: seq<real>, b: seq<real>): nat {
    if a == [] then 0 else EqualPairs(a[..|a| - 1], b) + CountEqual(b, a[|a| - 1])
  }

  /** The pairs (x, y) with x from `a`, y from `b` and y > x. */
  function GreaterPairs(a: seq<real>, b: seq<real>): nat {
    if a == [] then 0 else GreaterPairs(a[..|a| - 1], b) + CountGreater(b, a[|a| - 1])
  }

  lemma {:induction false} LessPairsEmpty(a: seq<real>)
    ensures LessPairs(a, []) == 0
  {
    if a != [] {
      LessPairsEmpty(a[..|a| - 1]);
    }
  }

  /** One more value `y` in `b` adds the values of `a` above `y`. */
  lemma {:induction false} LessPairsSnoc(a: seq<real>, b: seq<real>, y: real)
    ensures LessPairs(a, b + [y]) == LessPairs(a, b) + CountGreater(a, y)
  {
    assert (b + [y])[..|b|] == b;
    if a != [] {
      LessPairsSnoc(a[..|a| - 1], b, y);
    }
  }

  /** Counting the pairs "y below x" from either side gives the same number. */
  lemma {:induction false} PairsSymmetric(a: seq<real>, b: seq<real>)
    ensures LessPairs(a, b) == GreaterPairs(b, a)
  {
    if b == [] {
      LessPairsEmpty(a);
    } else {
      var init := b[..|b| - 1];
      PairsSymmetric(a, init);
      assert b == init + [b[|b| - 1]];
      LessPairsSnoc(a, init, b[|b| - 1]);
    }
  }

  /** Every pair falls in exactly one of the three kinds. */
  lemma {:induction false} PairsPartition(a: seq<real>, b: seq<real>)
    ensures LessPairs(a, b) + EqualPairs(a, b) + GreaterPairs(a, b) == |a| * |b|
  {
    if a != [] {
      PairsPartition(a[..|a| - 1], b);
      CountsPartition(b, a[|a| - 1]);
      assert |a| * |b| == (|a| - 1) * |b| + |b|;
    }
  }

  lemma AddFractions(a: real, b: real, n: real)
    requires n > 0.0
    ensures a / n + b / n == (a + b) / n
  {
  }

  lemma HalfOfHundred(k: real, n: real)
    requires n > 0.0
    ensures k / 2.0 / n * 100.0 == k * 50.0 / n
  {
    assert k / 2.0 / n * 100.0 == (k / 2.0 * 100.0) / n;
  }

  /** The percentile rank as a count: 50 * (2 * below + equal + 1) / n. */
  lemma PercentileRankCount(s: seq<real>, x: real)
    requires x in s
    ensures PercentileRank(s, x) == (2 * CountLess(s, x) + CountEqual(s, x) + 1) as real * 50.0 / |s| as real
  {
    var k := (2 * CountLess(s, x) + CountEqual(s, x) + 1) as real;
    assert CountLess(s, x) as real + (CountEqual(s, x) as real + 1.0) / 2.0 == k / 2.0;
    HalfOfHundred(k, |s| as real);
  }

  /** The percentile ranks of the values of `t`, each ranked within `s`. */
  function RankTotal(s: seq<real>, t: seq<real>): real
    requires forall i :: 0 <= i < |t| ==> t[i] in s
  {
    if t == [] then 0.0 else RankTotal(s, t[..|t| - 1]) + PercentileRank(s, t[|t| - 1])
  }

  lemma {:induction false} RankTotalCount(s: seq<real>, t: seq<real>)
    requires s != []
    requires forall i :: 0 <= i < |t| ==> t[i] in s
    ensures RankTotal(s, t) == (2 * LessPairs(t, s) + EqualPairs(t, s) + |t|) as real * 50.0 / |s| as real
  {
    var n := |s| as real;
    if t != [] {
      var init, x := t[..|t| - 1], t[|t| - 1];
      RankTotalCount(s, init);
      PercentileRankCount(s, x);
      AddFractions((2 * LessPairs(init, s) + EqualPairs(init, s) + |init|) as real * 50.0,
                   (2 * CountLess(s, x) + CountEqual(s, x) + 1) as real * 50.0, n);
    }
  }

  lemma CancelFactor(m: real, n: real)
    requires n > 0.0
    ensures n * m * 50.0 / n == 50.0 * m
  {
  }

  lemma ProductAsReal(a: nat, b: nat)
    ensures (a * b) as real == a as real * b as real
  {
  }

  /** The closing arithmetic of the rank sum: 2 * below + equal pairs make n * n. */
  lemma RankSumArithmetic(below: nat, equal: nat, n: nat, total: real)
    requires n > 0 && 2 * below + equal == n * n
    requires total == (2 * below + equal + n) as real * 50.0 / n as real
    ensures total == 50.0 * (n + 1) as real
  {
    assert n * (n + 1) == n * n + n;
    var k := 2 * below + equal + n;
    assert k == n * (n + 1);
    ProductAsReal(n, n + 1);
    assert k as real == n as real * (n + 1) as real;
    CancelFactor((n + 1) as real, n as real);
  }

  /** Ties take the average of the ranks they span: over the whole sample the
      percentile ranks add up to 100 * (1 + 2 + ... + n) / n = 50 * (n + 1), the same
      total as for distinct values; a rule giving ties their lowest (or highest)
      rank falls short of (or exceeds) it whenever a value repeats. */
  lemma PercentileRankSum(s: seq<real>)
    requires s != []
    ensures RankTotal(s, s) == 50.0 * (|s| + 1) as real
  {
    RankTotalCount(s, s);
    PairsSymmetric(s, s);
    PairsPartition(s, s);
    RankSumArithmetic(LessPairs(s, s), EqualPairs(s, s), |s|, RankTotal(s, s));
  }

  // ---------------------------------------------------------------- shares

  predicate NonNegative(s: seq<real>) {
    forall i :: 0 <= i < |s| ==> s[i] >= 0.0
  }

  /** The summed values at or above a threshold. */
  function SumAtLeast(s: seq<real>, t: real): real {
    if s == [] then 0.0 else SumAtLeast(s[..|s| - 1], t) + (if s[|s| - 1] >= t then s[|s| - 1] else 0.0)
  }

  /** With non-negative values, the values above a threshold sum to at most the
      total and to at least any one of them. */
  lemma {:induction false} SumAtLeastBounds(s: seq<real>, t: real, i: nat)
    requires NonNegative(s) && i < |s| && s[i] >= t
    ensures s[i] <= SumAtLeast(s, t) <= Sum(s)
  {
    var init := s[..|s| - 1];
    assert Prefix(s, |s| - 1) == Sum(init) by {
      PrefixOfInit(s, |s| - 1);
    }
    if i == |s| - 1 {
      SumAtLeastWithin(init, t);
    } else {
      assert init[i] == s[i];
      SumAtLeastBounds(init, t, i);
    }
  }

  lemma {:induction false} SumAtLeastWithin(s: seq<real>, t: real)
    requires NonNegative(s)
    ensures 0.0 <= SumAtLeast(s, t) <= Sum(s)
  {
    if s != [] {
      var init := s[..|s| - 1];
      PrefixOfInit(s, |s| - 1);
      SumAtLeastWithin(init, t);
    }
  }

  /** The prefix sums of a sequence and of its initial segments agree. */
  lemma {:induction false} PrefixOfInit(s: seq<real>, k: nat)
    requires k <= |s|
    ensures Prefix(s, k) == Sum(s[..k])
  {
    PrefixAgree(s, s[..k], k);
  }

  lemma {:induction false} PrefixAgree(s: seq<real>, u: seq<real>, k: nat)
    requires k <= |s| && k <= |u|
    requires forall i :: 0 <= i < k ==> s[i] == u[i]
    ensures Prefix(s, k) == Prefix(u, k)
  {
    if k > 0 {
      PrefixAgree(s, u, k - 1);
    }
  }

  // ---------------------------------------------------------------- Lorenz curve

  /** The cumulative share of recipients after the first `k` of `n`. */
  function PeopleShare(n: nat, k: nat): real
    requires n > 0
  {
    k as real / n as real
  }

  /** The cumulative share of money after the first `k` values. */
  function MoneyShare(v: seq<real>, k: nat): real
    requires k <= |v| && Sum(v) != 0.0
  {
    Prefix(v, k) / Sum(v)
  }

  /** The recipient shares rise strictly and end at 1. */
  lemma PeopleShareIncreasing(n: nat, j: nat, k: nat)
    requires n > 0 && j < k
    ensures PeopleShare(n, j) < PeopleShare(n, k)
    ensures PeopleShare(n, n) == 1.0
  {
    DivideStrict(j as real, k as real, n as real);
  }

  lemma {:induction false} PrefixMonotone(v: seq<real>, j: nat, k: nat)
    requires NonNegative(v) && j <= k <= |v|
    ensures Prefix(v, j) <= Prefix(v, k)
  {
    if j < k {
      PrefixMonotone(v, j, k - 1);
    }
  }

  /** With non-negative values and a positive total, the money shares never fall
      and end at 1. */
  lemma MoneyShareMonotone(v: seq<real>, j: nat, k: nat)
    requires NonNegative(v) && Sum(v) > 0.0 && j <= k <= |v|
    ensures MoneyShare(v, j) <= MoneyShare(v, k)
    ensures MoneyShare(v, |v|) == 1.0
  {
    PrefixMonotone(v, j, k);
    DivideMonotone(Prefix(v, j), Prefix(v, k), Sum(v));
    assert MoneyShare(v, |v|) == Sum(v) / Sum(v);
  }

  lemma ShareWithin(part: real, total: real)
    requires 0.0 < part <= total
    ensures 0.0 < part / total <= 1.0
  {
    DivideMonotone(part, total, total);
  }

  lemma DivideMonotone(a: real, b: real, n: real)
    requires a <= b && n > 0.0
    ensures a / n <= b / n
  {
    assert b / n - a / n == (b - a) / n;
  }

  /** Each of the first `k` values is at most `m`, so they sum to at most k * m. */
  lemma {:induction false} PrefixAtMost(v: seq<real>, k: nat, m: real)
    requires k <= |v| && forall i :: 0 <= i < k ==> v[i] <= m
    ensures Prefix(v, k) <= k as real * m
  {
    if k > 0 {
      PrefixAtMost(v, k - 1, m);
    }
  }

  /** Each value from position `k` on is at least `m`, so those up to `j` sum to at
      least (j - k) * m. */
  lemma {:induction false} PrefixGrowsAtLeast(v: seq<real>, k: nat, j: nat, m: real)
    requires k <= j <= |v| && forall i :: k <= i < |v| ==> v[i] >= m
    ensures Prefix(v, j) - Prefix(v, k) >= (j - k) as real * m
  {
    if j > k {
      PrefixGrowsAtLeast(v, k, j - 1, m);
    }
  }

  /** For ascending values the first k of n hold at most k / n of the total:
      n * Prefix(k) <= k * Sum. */
  lemma PrefixBelowAverage(v: seq<real>, k: nat)
    requires Sorted(v) && k <= |v|
    ensures |v| as real * Prefix(v, k) <= k as real * Sum(v)
  {
    if k > 0 {
      var n, m := |v| as real, v[k - 1];
      var p, rest := Prefix(v, k), Sum(v) - Prefix(v, k);
      PrefixAtMost(v, k, m);
      PrefixGrowsAtLeast(v, k, |v|, m);
      var d := (|v| - k) as real;
      assert d * p <= d * (k as real * m) by {
        ScaleMonotone(d, p, k as real * m);
      }
      assert k as real * (d * m) <= k as real * rest by {
        ScaleMonotone(k as real, d * m, rest);
      }
      assert n * p == k as real * p + d * p;
      assert d * (k as real * m) == k as real * (d * m);
      assert k as real * Sum(v) == k as real * p + k as real * rest;
    }
  }

  /** The Lorenz curve of ascending values stays on or below the equality line. */
  lemma LorenzBelowEquality(v: seq<real>, k: nat)
    requires Sorted(v) && Sum(v) > 0.0 && k <= |v|
    ensures MoneyShare(v, k) <= PeopleShare(|v|, k)
  {
    PrefixBelowAverage(v, k);
    CrossDivide(Prefix(v, k), Sum(v), k as real, |v| as real);
  }

  lemma CrossDivide(a: real, b: real, c: real, d: real)
    requires b > 0.0 && d > 0.0 && d * a <= c * b
    ensures a / b <= c / d
  {
    assert a / b == (d * a) / (d * b);
    assert c / d == (c * b) / (d * b);
    DivideMonotone(d * a, c * b, d * b);
  }

  /** The shape of the Lorenz curve of ascending positive values: recipient shares
      rise strictly, money shares never fall, both end at 1, and the curve stays
      on or below the equality line. */
  lemma LorenzShape(v: seq<real>)
    requires v != [] && Sorted(v) && forall i :: 0 <= i < |v| ==> v[i] > 0.0
    ensures Sum(v) > 0.0
    ensures forall i, j :: 1 <= i < j <= |v| ==> PeopleShare(|v|, i) < PeopleShare(|v|, j)
    ensures forall i, j :: 1 <= i < j <= |v| ==> MoneyShare(v, i) <= MoneyShare(v, j)
    ensures PeopleShare(|v|, |v|) == 1.0 && MoneyShare(v, |v|) == 1.0
    ensures forall i :: 1 <= i <= |v| ==> MoneyShare(v, i) <= PeopleShare(|v|, i)
  {
    assert Sum(v) >= v[|v| - 1] by {
      assert NonNegative(v);
      PrefixMonotone(v, 0, |v| - 1);
    }
    forall i, j | 1 <= i < j <= |v| ensures PeopleShare(|v|, i) < PeopleShare(|v|, j) {
      PeopleShareIncreasing(|v|, i, j);
    }
    forall i, j | 1 <= i < j <= |v| ensures MoneyShare(v, i) <= MoneyShare(v, j) {
      MoneyShareMonotone(v, i, j);
    }
    PeopleShareIncreasing(|v|, 0, |v|);
    MoneyShareMonotone(v, |v|, |v|);
    forall i | 1 <= i <= |v| ensures MoneyShare(v, i) <= PeopleShare(|v|, i) {
      LorenzBelowEquality(v, i);
    }
  }
}
