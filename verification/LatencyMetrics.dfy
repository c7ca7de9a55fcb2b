/** `BoundedMetrics` of metrics.py: running sums over a sliding window of samples, an anomaly
    test on them and nearest-rank percentiles.  Samples are exact numbers, so the periodic
    recount of the sums, which only fights rounding, changes nothing; the square root is a
    parameter of which nothing is assumed but that it squares back. */
module LatencyMetrics {
  import opened Options
  import opened Sequences

  const MIN_SAMPLES: nat := 30
  const RESYNC_EVERY: nat := 10000

  function Sum(w: seq<real>): real {
    if w == [] then 0.0 else Sum(w[1..]) + w[0]
  }

  function SumSq(w: seq<real>): real {
    if w == [] then 0.0 else SumSq(w[1..]) + w[0] * w[0]
  }

  /** The second pass of the textbook method: the squared distances from `m`. */
  function SumDev(w: seq<real>, m: real): real {
    if w == [] then 0.0 else SumDev(w[1..], m) + (w[0] - m) * (w[0] - m)
  }

  function Mean(w: seq<real>): real
    requires w != []
  {
    Sum(w) / |w| as real
  }

  function Variance(w: seq<real>): real
    requires w != []
  {
    SumDev(w, Mean(w)) / |w| as real
  }

  lemma {:induction false} SumsAppend(w: seq<real>, x: real)
    ensures Sum(w + [x]) == Sum(w) + x && SumSq(w + [x]) == SumSq(w) + x * x
  {
    if w == [] {
      assert w + [x] == [x];
    } else {
      assert (w + [x])[1..] == w[1..] + [x] && (w + [x])[0] == w[0];
      SumsAppend(w[1..], x);
    }
  }

  lemma SumsDrop(w: seq<real>)
    requires w != []
    ensures Sum(w[1..]) == Sum(w) - w[0] && SumSq(w[1..]) == SumSq(w) - w[0] * w[0]
  {
  }

  lemma DevStep(d: real, q: real, s: real, n: real, x: real, m: real)
    requires d == q - 2.0 * (m * s) + n * (m * m)
    ensures d + (x - m) * (x - m) == (q + x * x) - 2.0 * (m * (s + x)) + (n + 1.0) * (m * m)
  {
    assert (x - m) * (x - m) == x * x - 2.0 * (m * x) + m * m;
    assert m * (s + x) == m * s + m * x;
    assert (n + 1.0) * (m * m) == n * (m * m) + m * m;
  }

  /** One more sample `x`, with the sums before and after it by name. */
  lemma DevJoin(d: real, q: real, s: real, n: real, x: real, m: real, d1: real, q1: real, s1: real, n1: real)
    requires d == q - 2.0 * (m * s) + n * (m * m)
    requires d1 == d + (x - m) * (x - m) && q1 == q + x * x && s1 == s + x && n1 == n + 1.0
    ensures d1 == q1 - 2.0 * (m * s1) + n1 * (m * m)
  {
    DevStep(d, q, s, n, x, m);
  }

  lemma SquareNotNegative(x: real)
    ensures x * x >= 0.0
  {
  }

  lemma {:induction false} DevExpands(w: seq<real>, m: real)
    ensures SumDev(w, m) == SumSq(w) - 2.0 * (m * Sum(w)) + |w| as real * (m * m)
  {
    if w == [] {
      NothingSummed(m);
    } else {
      var rest := w[1..];
      DevExpands(rest, m);
      DevJoin(SumDev(rest, m), SumSq(rest), Sum(rest), |rest| as real, w[0], m,
              SumDev(w, m), SumSq(w), Sum(w), |w| as real);
    }
  }

  lemma NothingSummed(m: real)
    ensures SumDev([], m) == SumSq([]) - 2.0 * (m * Sum([])) + 0.0 * (m * m)
  {
  }

  lemma {:induction false} DevNotNegative(w: seq<real>, m: real)
    ensures SumDev(w, m) >= 0.0
  {
    if w != [] {
      DevNotNegative(w[1..], m);
      SquareNotNegative(w[0] - m);
    }
  }

  lemma MeanLaw(s: real, q: real, d: real, n: real, m: real)
    requires n > 0.0 && m == s / n && d == q - 2.0 * (m * s) + n * (m * m)
    ensures q / n - m * m == d / n
  {
    assert s == n * m;
    assert m * s == n * (m * m);
    var u, v := q / n, m * m;
    assert q == u * n;
    assert d == (u - v) * n;
  }

  lemma NotNegative(a: real, n: real)
    requires a >= 0.0 && n > 0.0
    ensures a / n >= 0.0
  {
  }

  lemma VarianceNotNegative(w: seq<real>)
    requires w != []
    ensures Variance(w) >= 0.0
  {
    DevNotNegative(w, Mean(w));
    NotNegative(SumDev(w, Mean(w)), |w| as real);
  }

  function OnePassVariance(w: seq<real>): real
    requires w != []
  {
    SumSq(w) / |w| as real - Mean(w) * Mean(w)
  }

  /** E[x^2] - E[x]^2 is the mean squared deviation, so it needs no clamping. */
  lemma VarianceIsMeanDeviation(w: seq<real>)
    requires w != []
    ensures OnePassVariance(w) == Variance(w)
  {
    DevExpands(w, Mean(w));
    VarianceFrom(w, |w| as real, Mean(w), Sum(w), SumSq(w), SumDev(w, Mean(w)));
  }

  lemma VarianceFrom(w: seq<real>, n: real, m: real, s: real, q: real, d: real)
    requires w != [] && n == |w| as real && m == Mean(w) && s == Sum(w) && q == SumSq(w) && d == SumDev(w, m)
    requires d == q - 2.0 * (m * s) + n * (m * m)
    ensures OnePassVariance(w) == Variance(w)
  {
    assert m == s / n;
    MeanLaw(s, q, d, n, m);
    SameVariance(w, n, m, q, d);
  }

  lemma SameVariance(w: seq<real>, n: real, m: real, q: real, d: real)
    requires w != [] && n == |w| as real && m == Mean(w) && q == SumSq(w) && d == SumDev(w, m)
    requires q / n - m * m == d / n
    ensures OnePassVariance(w) == Variance(w)
  {
  }

  // ---------------------------------------------------------------- anomalies

  function Abs(x: real): real {
    if x < 0.0 then -x else x
  }

  /** Python's `math.sqrt` on positive numbers. */
  ghost predicate IsRoot(root: real -> real) {
    forall x :: x > 0.0 ==> root(x) > 0.0 && root(x) * root(x) == x
  }

  /** The two-pass test: enough samples, some spread, and at least `z` standard deviations
      from the mean, with the deviation never taken. */
  ghost predicate Outlier(w: seq<real>, v: real, z: real) {
    && |w| >= MIN_SAMPLES
    && Variance(w) > 0.0
    && (z <= 0.0 || (v - Mean(w)) * (v - Mean(w)) >= z * z * Variance(w))
  }

  lemma ProductPositive(x: real, y: real)
    requires x > 0.0 && y > 0.0
    ensures x * y > 0.0
  {
  }

  lemma DifferenceOfSquares(a: real, b: real)
    ensures (b - a) * (b + a) == b * b - a * a
  {
  }

  lemma SquaresBelow(a: real, b: real)
    requires 0.0 <= a < b
    ensures a * a < b * b
  {
    ProductPositive(b - a, b + a);
    DifferenceOfSquares(a, b);
  }

  lemma Squares(a: real, b: real)
    requires a >= 0.0 && b >= 0.0
    ensures a >= b <==> a * a >= b * b
  {
    if a < b {
      SquaresBelow(a, b);
    } else if b < a {
      SquaresBelow(b, a);
    }
  }

  lemma Ratio(d: real, std: real, z: real)
    requires std > 0.0 && z > 0.0
    ensures Abs(d / std) >= z <==> d * d >= z * z * (std * std)
  {
    assert d == (d / std) * std;
    var q := d / std;
    assert Abs(d) == Abs(q) * std by {
      if q >= 0.0 {
        assert q * std >= 0.0;
      } else {
        assert q * std < 0.0;
      }
    }
    RatioBound(Abs(q), std, z);
    Squares(Abs(d), z * std);
    assert Abs(d) * Abs(d) == d * d;
    assert (z * std) * (z * std) == z * z * (std * std);
  }

  lemma RatioBound(q: real, std: real, z: real)
    requires std > 0.0
    ensures q >= z <==> q * std >= z * std
  {
  }

  /** What the running sums lead to, given enough samples. */
  ghost function OnePass(w: seq<real>, v: real, z: real, root: real -> real): Report
    requires |w| >= MIN_SAMPLES
  {
    var mean, variance := Mean(w), OnePassVariance(w);
    if variance > 0.0 && root(variance) != 0.0 then
      Report(Abs((v - mean) / root(variance)) >= z, v, mean, root(variance), (v - mean) / root(variance), |w|)
    else Report(false, v, mean, 0.0, 0.0, |w|)
  }

  /** The report is the two-pass method's on the samples `w`. */
  ghost predicate Judges(r: Report, w: seq<real>, v: real, z: real) {
    && r.value == v && r.samples == |w|
    && (r.isAnomaly <==> Outlier(w, v, z))
    && if |w| < MIN_SAMPLES then r.mean == v && r.std == 0.0 && r.z == 0.0 else Measures(r, w, v)
  }

  ghost predicate Measures(r: Report, w: seq<real>, v: real)
    requires w != []
  {
    && r.mean == Mean(w) && r.std >= 0.0 && r.std * r.std == Variance(w)
    && r.z * r.std == if Variance(w) > 0.0 then v - Mean(w) else 0.0
  }

  lemma TestByDeviation(d: real, std: real, s: real, z: real)
    requires std > 0.0 && std * std == s
    ensures Abs(d / std) >= z <==> z <= 0.0 || d * d >= z * z * s
    ensures (d / std) * std == d
  {
    if z > 0.0 {
      Ratio(d, std, z);
    }
  }

  lemma JudgedRight(w: seq<real>, v: real, z: real, root: real -> real)
    requires |w| >= MIN_SAMPLES && IsRoot(root)
    ensures Judges(OnePass(w, v, z, root), w, v, z)
  {
    VarianceIsMeanDeviation(w);
    VarianceNotNegative(w);
    JudgedOn(w, v, z, root, Mean(w), Variance(w));
  }

  lemma JudgedAs(w: seq<real>, v: real, z: real, root: real -> real, mean: real, variance: real, r: Report)
    requires |w| >= MIN_SAMPLES && IsRoot(root) && mean == Mean(w) && variance == OnePassVariance(w)
    requires r == if variance > 0.0
      then Report(Abs((v - mean) / root(variance)) >= z, v, mean, root(variance), (v - mean) / root(variance), |w|)
      else Report(false, v, mean, 0.0, 0.0, |w|)
    ensures Judges(r, w, v, z)
  {
    JudgedRight(w, v, z, root);
  }

  lemma JudgedOn(w: seq<real>, v: real, z: real, root: real -> real, m: real, s: real)
    requires |w| >= MIN_SAMPLES && IsRoot(root)
    requires m == Mean(w) && s == Variance(w) == OnePassVariance(w) && s >= 0.0
    ensures Judges(OnePass(w, v, z, root), w, v, z)
  {
    if s > 0.0 {
      var std, d := root(s), v - m;
      TestByDeviation(d, std, s, z);
      JudgedFrom(w, v, z, m, s, std, d, d / std, Abs(d / std) >= z);
    }
  }

  lemma JudgedFrom(w: seq<real>, v: real, z: real, m: real, s: real, std: real, d: real, q: real, anomaly: bool)
    requires |w| >= MIN_SAMPLES && m == Mean(w) && s == Variance(w) > 0.0
    requires std > 0.0 && std * std == s && d == v - m && q * std == d
    requires anomaly <==> z <= 0.0 || d * d >= z * z * s
    ensures Judges(Report(anomaly, v, m, std, q, |w|), w, v, z)
  {
  }

  // -------------------------------------------------------------- percentiles

  ghost predicate Ascending(s: seq<real>) {
    forall i, j :: 0 <= i < j < |s| ==> s[i] <= s[j]
  }

  function Insert(s: seq<real>, x: real): seq<real> {
    if s == [] || x <= s[0] then [x] + s else [s[0]] + Insert(s[1..], x)
  }

  /** `sorted(w)`. */
  function Sort(w: seq<real>): seq<real> {
    if w == [] then [] else Insert(Sort(w[1..]), w[0])
  }

  /** How many of the samples are at most `u`. */
  function AtMost(w: seq<real>, u: real): nat {
    if w == [] then 0 else AtMost(w[1..], u) + if w[0] <= u then 1 else 0
  }

  lemma {:induction false} InsertContents(s: seq<real>, x: real)
    ensures multiset(Insert(s, x)) == multiset(s) + multiset{x} && |Insert(s, x)| == |s| + 1
  {
    if s != [] && s[0] < x {
      InsertContents(s[1..], x);
      assert s == [s[0]] + s[1..];
    }
  }

  lemma {:induction false} InsertSorts(s: seq<real>, x: real)
    requires Ascending(s)
    ensures Ascending(Insert(s, x))
    ensures Insert(s, x) != [] && Insert(s, x)[0] == if s != [] && s[0] < x then s[0] else x
  {
    if s != [] && s[0] < x {
      var rest := s[1..];
      InsertSorts(rest, x);
      Prepended(s[0], Insert(rest, x));
    }
  }

  lemma Prepended(x: real, s: seq<real>)
    requires Ascending(s) && (s != [] ==> x <= s[0])
    ensures Ascending([x] + s)
  {
    forall i, j | 0 <= i < j < |[x] + s| ensures ([x] + s)[i] <= ([x] + s)[j] {
      if i == 0 && j > 1 {
        assert s[0] <= s[j - 1];
      }
    }
  }

  lemma {:induction false} SortSorts(w: seq<real>)
    ensures Ascending(Sort(w)) && multiset(Sort(w)) == multiset(w) && |Sort(w)| == |w|
  {
    if w != [] {
      SortSorts(w[1..]);
      InsertSorts(Sort(w[1..]), w[0]);
      InsertContents(Sort(w[1..]), w[0]);
      assert w == [w[0]] + w[1..];
    }
  }

  lemma {:induction false} InsertCounts(s: seq<real>, x: real, u: real)
    ensures AtMost(Insert(s, x), u) == AtMost(s, u) + if x <= u then 1 else 0
  {
    if s == [] || x <= s[0] {
      assert ([x] + s)[1..] == s;
    } else {
      InsertCounts(s[1..], x, u);
    }
  }

  lemma {:induction false} SortCounts(w: seq<real>, u: real)
    ensures AtMost(Sort(w), u) == AtMost(w, u)
  {
    if w != [] {
      SortCounts(w[1..], u);
      InsertCounts(Sort(w[1..]), w[0], u);
    }
  }

  /** In ascending order those at most `u` come first. */
  lemma {:induction false} AtMostIsPrefix(s: seq<real>, u: real)
    requires Ascending(s)
    ensures AtMost(s, u) <= |s|
    ensures forall k :: 0 <= k < |s| ==> (s[k] <= u <==> k < AtMost(s, u))
  {
    if s != [] {
      var rest := s[1..];
      AtMostIsPrefix(rest, u);
      assert forall k :: 0 < k < |s| ==> s[k] == rest[k - 1];
      if s[0] > u && rest != [] {
        assert rest[0] > u;
      }
    }
  }

  /** `min(n - 1, max(0, ceil(p / 100 * n) - 1))`. */
  function Rank(p: nat, n: nat): (k: nat)
    requires 0 < n
    ensures k < n
  {
    var up := (p * n + 99) / 100 - 1;
    if up < 0 then 0 else if up > n - 1 then n - 1 else up
  }

  function Percentile(w: seq<real>, p: nat): real
    requires w != []
  {
    SortSorts(w);
    Sort(w)[Rank(p, |w|)]
  }

  /** A percentile is a sample; at least `p` per cent of the samples are at most it, and of
      the samples below it this is true of none. */
  lemma NearestRank(w: seq<real>, p: nat)
    requires w != [] && 0 < p <= 100
    ensures var v := Percentile(w, p);
      && v in w && 100 * AtMost(w, v) >= p * |w|
      && forall u :: u < v ==> 100 * AtMost(w, u) < p * |w|
  {
    var s, k := Sort(w), Rank(p, |w|);
    SortSorts(w);
    var v := Percentile(w, p);
    assert v in multiset(s);
    RankBounds(p, |w|);
    AtMostIsPrefix(s, v);
    SortCounts(w, v);
    forall u | u < v ensures 100 * AtMost(w, u) < p * |w| {
      AtMostIsPrefix(s, u);
      SortCounts(w, u);
      assert AtMost(s, u) <= k;
    }
  }

  lemma RankBounds(p: nat, n: nat)
    requires 0 < n && 0 < p <= 100
    ensures 100 * (Rank(p, n) + 1) >= p * n && 100 * Rank(p, n) < p * n
  {
    assert 0 < p * n <= 100 * n;
  }

  lemma TimesMonotone(p: nat, q: nat, n: nat)
    requires p <= q
    ensures p * n <= q * n
  {
  }

  lemma HundredthsMonotone(a: nat, b: nat)
    requires a <= b
    ensures (a + 99) / 100 <= (b + 99) / 100
  {
  }

  lemma RankMonotone(p: nat, q: nat, n: nat)
    requires 0 < n && p <= q
    ensures Rank(p, n) <= Rank(q, n)
  {
    TimesMonotone(p, q, n);
    HundredthsMonotone(p * n, q * n);
  }

  lemma PercentilesInOrder(w: seq<real>, p: nat, q: nat)
    requires w != [] && p <= q
    ensures Percentile(w, p) <= Percentile(w, q)
  {
    SortSorts(w);
    RankMonotone(p, q, |w|);
  }

  // ------------------------------------------------------------------ object

  datatype Report = Report(isAnomaly: bool, value: real, mean: real, std: real, z: real, samples: nat)

  datatype Snapshot = Snapshot(p50: real, p95: real, p99: real, mean: real, count: nat)

  lemma NewestAppend(all: seq<real>, n: nat, x: real)
    requires n > 0
    ensures var w := Newest(all, n);
      Newest(all + [x], n) == (if |w| == n then w[1..] else w) + [x]
  {
  }

  class BoundedMetrics {
    const capacity: nat
    const zThreshold: real
    const enabled: bool
    const root: real -> real
    var window: seq<real>
    var sum: real
    var sumSq: real
    var sinceResync: nat
    /** Every sample recorded so far. */
    ghost var history: seq<real>

    ghost predicate Valid()
      reads this
    {
      && capacity >= 1 && IsRoot(root)
      && window == Newest(history, capacity)
      && sum == Sum(window) && sumSq == SumSq(window)
      && sinceResync < RESYNC_EVERY
    }

    constructor (size: int, zThreshold: real, enabled: bool, root: real -> real)
      requires IsRoot(root)
      ensures Valid() && history == [] && this.zThreshold == zThreshold && this.enabled == enabled && this.root == root
      ensures capacity == if size < 1 then 1 else size
    {
      this.capacity := if size < 1 then 1 else size;
      this.zThreshold, this.enabled, this.root := zThreshold, enabled, root;
      window, sum, sumSq, sinceResync, history := [], 0.0, 0.0, 0, [];
    }

    /** The running sums give the mean, the spread and the verdict of the two-pass method on
        the newest samples before this one. */
    method Record(v: real) returns (report: Option<Report>)
      requires Valid()
      modifies this`window, this`sum, this`sumSq, this`sinceResync, this`history
      ensures Valid() && history == (if enabled then old(history) + [v] else old(history))
      ensures report.None? <==> !enabled
      ensures report.Some? ==> Judges(report.value, Newest(old(history), capacity), v, zThreshold)
    {
      if !enabled {
        return None;
      }
      var verdict := Judge(v);
      Push(v);
      report := Some(verdict);
    }

    method Judge(v: real) returns (r: Report)
      requires Valid()
      ensures Judges(r, window, v, zThreshold)
    {
      var n := |window|;
      var isAnomaly, mean, std, z := false, v, 0.0, 0.0;
      if n >= MIN_SAMPLES {
        mean := sum / n as real;
        var variance := sumSq / n as real - mean * mean;
        if variance > 0.0 {
          std := root(variance);
          z := (v - mean) / std;
          isAnomaly := Abs(z) >= zThreshold;
        }
        JudgedAs(window, v, zThreshold, root, mean, variance, Report(isAnomaly, v, mean, std, z, n));
      }
      r := Report(isAnomaly, v, mean, std, z, n);
    }

    method Push(v: real)
      requires Valid()
      modifies this`window, this`sum, this`sumSq, this`sinceResync, this`history
      ensures Valid() && history == old(history) + [v]
    {
      NewestAppend(history, capacity, v);
      if |window| == capacity {
        var oldest := window[0];
        SumsDrop(window);
        sum, sumSq := sum - oldest, sumSq - oldest * oldest;
        window := window[1..];
      }
      SumsAppend(window, v);
      window, sum, sumSq := window + [v], sum + v, sumSq + v * v;
      history := history + [v];
      sinceResync := sinceResync + 1;
      if sinceResync >= RESYNC_EVERY {
        sum, sumSq, sinceResync := Sum(window), SumSq(window), 0;
      }
    }

    /** By `NearestRank` and `PercentilesInOrder`, true percentiles in ascending order. */
    method TakeSnapshot() returns (snap: Snapshot)
      requires Valid()
      ensures var w := Newest(history, capacity);
        if w == [] then snap == Snapshot(0.0, 0.0, 0.0, 0.0, 0)
        else snap == Snapshot(Percentile(w, 50), Percentile(w, 95), Percentile(w, 99), Mean(w), |w|)
      ensures snap.p50 <= snap.p95 <= snap.p99
    {
      if window == [] {
        return Snapshot(0.0, 0.0, 0.0, 0.0, 0);
      }
      PercentilesInOrder(window, 50, 95);
      PercentilesInOrder(window, 95, 99);
      snap := Snapshot(Percentile(window, 50), Percentile(window, 95), Percentile(window, 99),
        sum / |window| as real, |window|);
    }
  }
}
