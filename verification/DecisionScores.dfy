/** What each finding contributes to the confidence of a message, and to its decision before the
    caps. */
module DecisionScores {
  import opened Options
  import opened DecisionTail

  /** What the tables and detectors deliver: weights that are not negative, scores in range. */
  ghost predicate Plausible(c: Config, e: Evidence) {
    && NonNegative(c.weights)
    && c.scoreDirect >= 0 && c.contextMax >= 0 && c.scoreUrgency >= 0 && c.scoreIndirect >= 0
    && Unit(e.intentWeight) && Unit(e.academicWeight) && Unit(e.distance)
    && Unit(e.lengthModifier) && Unit(e.negScore) && Unit(e.adScore)
  }

  // ------------------------------------------------------------ arithmetic

  lemma ProductNotNegative(a: real, b: real)
    requires a >= 0.0 && b >= 0.0
    ensures a * b >= 0.0
  {
  }

  lemma ProductPositive(a: real, b: real)
    requires a > 0.0 && b > 0.0
    ensures a * b > 0.0
  {
  }

  lemma ProductMonotone(a: real, b: real, x: real)
    requires a <= b && x >= 0.0
    ensures a * x <= b * x && x * a <= x * b
  {
    ProductNotNegative(b - a, x);
    assert (b - a) * x == b * x - a * x;
  }

  lemma ProductsMonotone(a: real, b: real, x: real, y: real)
    requires 0.0 <= a <= b && 0.0 <= x <= y
    ensures a * x <= b * y
  {
    ProductMonotone(a, b, x);
    ProductMonotone(x, y, b);
  }

  lemma ProductStrict(a: real, b: real, x: real)
    requires a < b && x > 0.0
    ensures a * x < b * x && x * a < x * b
  {
    ProductPositive(b - a, x);
    assert (b - a) * x == b * x - a * x;
  }

  lemma PartOf(x: real, r: real)
    requires x >= 0.0 && Unit(r)
    ensures 0.0 <= x * r <= x
  {
    ProductNotNegative(x, r);
    ProductNotNegative(x, 1.0 - r);
    assert x * (1.0 - r) == x - x * r;
  }

  /** Between 1 and `m`, or between `m` and 1. */
  lemma MixInUnit(m: real, r: real)
    requires Unit(m) && Unit(r)
    ensures Unit(m + (1.0 - m) * r) && m <= m + (1.0 - m) * r
  {
    var rest := 1.0 - m;
    PartOf(rest, r);
  }

  lemma ClampMonotone(a: real, b: real)
    requires a <= b
    ensures Clamp(a) <= Clamp(b)
  {
  }

  // ----------------------------------------------------------- the factors

  /** What is left when advertisement and boost are taken away. */
  ghost function Plain(x: Factors): real {
    x.mixed * x.length * x.denial
  }

  ghost predicate Fair(x: Factors) {
    x.mixed >= 0.0 && Unit(x.length) && 0.0 <= x.denial <= 1.0 && x.ad <= 1.0 && x.boost >= 0.0
  }

  lemma PlainNotNegative(x: Factors)
    requires Fair(x)
    ensures Plain(x) >= 0.0
  {
    ProductNotNegative(x.mixed, x.length);
    ProductNotNegative(x.mixed * x.length, x.denial);
  }

  ghost function Times(a: real, b: real): real {
    a * b
  }

  lemma TotalOf(x: Factors, left: real)
    requires left == Times(Plain(x), x.ad)
    ensures Total(x) == Clamp(left + x.boost)
  {
  }

  lemma TimesMonotone(q: real, b: real, p: real, a: real)
    requires p >= 0.0 && ((q == p && b <= a) || (q <= p && b == a >= 0.0))
    ensures Times(q, b) <= Times(p, a)
  {
    if q == p {
      ProductMonotone(b, a, p);
      assert Times(q, b) == Times(p, b);
    } else {
      ProductMonotone(q, p, a);
      assert Times(q, b) == Times(q, a);
    }
  }

  /** One factor of the total falls and the others stay, or the plain part falls. */
  lemma TotalFalls(x: Factors, y: Factors)
    requires 0.0 <= Plain(y) <= Plain(x) && y.ad <= x.ad && y.boost <= x.boost
    requires Plain(y) == Plain(x) || x.ad == y.ad >= 0.0
    ensures Total(y) <= Total(x)
  {
    var u, v := Times(Plain(x), x.ad), Times(Plain(y), y.ad);
    TotalOf(x, u);
    TotalOf(y, v);
    if Plain(x) == Plain(y) {
      TimesMonotone(Plain(x), y.ad, Plain(x), x.ad);
    } else {
      TimesMonotone(Plain(y), x.ad, Plain(x), x.ad);
    }
    ClampMonotone(v + y.boost, u + x.boost);
  }

  lemma PositiveParts(p: real, a: real)
    requires p >= 0.0 && p * a > 0.0
    ensures p > 0.0 && a > 0.0
  {
    if a <= 0.0 {
      ProductMonotone(a, 0.0, p);
    }
  }

  lemma ClampStrict(u: real, v: real)
    requires v < u && 0.0 < Clamp(u) < 1.0
    ensures Clamp(v) < Clamp(u)
  {
  }

  lemma LeftFalls(p: real, a: real, q: real, b: real)
    requires 0.0 <= q <= p && Times(p, a) > 0.0
    requires (q == p && b < a) || (q < p && b == a)
    ensures Times(q, b) < Times(p, a)
  {
    PositiveParts(p, a);
    if q < p {
      ProductStrict(q, p, a);
      assert Times(q, b) == Times(q, a);
    } else {
      ProductStrict(b, a, p);
      assert Times(q, b) == Times(p, b);
    }
  }

  lemma TotalFallsStrictly(x: Factors, y: Factors)
    requires 0.0 <= Plain(y) <= Plain(x) && 0.0 <= y.boost <= x.boost < Total(x) < 1.0
    requires (Plain(y) == Plain(x) && y.ad < x.ad) || (Plain(y) < Plain(x) && x.ad == y.ad)
    ensures Total(y) < Total(x)
  {
    var u, v := Times(Plain(x), x.ad), Times(Plain(y), y.ad);
    TotalOf(x, u);
    TotalOf(y, v);
    LeftFalls(Plain(x), x.ad, Plain(y), y.ad);
    ClampStrict(u + x.boost, v + y.boost);
  }

  lemma LengthIsFair(m: real, r: real, e: Evidence)
    requires Unit(e.lengthModifier) && m == e.lengthModifier && r == Relief(e.academicWeight)
    ensures Unit(LengthFactor(e)) && e.lengthModifier <= LengthFactor(e)
  {
    assert Unit(r);
    MixInUnit(m, r);
    assert LengthFactor(e) == if e.academicWord.Some? then m + (1.0 - m) * r else m;
  }

  lemma MixedIsFair(c: Config, e: Evidence)
    requires Plausible(c, e)
    ensures Mixed(c, e) >= 0.0
  {
  }

  lemma FactorsAreFair(c: Config, e: Evidence)
    requires Plausible(c, e)
    ensures Fair(FactorsOf(c, e)) && (e.negated ==> FactorsOf(c, e).denial >= 0.3)
  {
    MixedIsFair(c, e);
    LengthIsFair(e.lengthModifier, Relief(e.academicWeight), e);
  }

  // ----------------------------------------------------- the decision by bands

  /** Accept above review above ignore. */
  function Rank(d: Decision): int {
    match d
    case Accept => 2
    case Review => 1
    case Ignore => 0
  }

  /** Before the caps: the thresholds decide, except that a short request without an object is
      looked at in any case. */
  lemma DecisionByThreshold(c: Config, e: Evidence)
    requires c.Valid()
    ensures var o := Lifted(c, e);
      var hinted := e.intentWord.None? && e.isImplicit;
      var short := e.tokens <= 2 || (e.tokens == 3 && (hinted || e.help.Some? || e.helpAnchored))
        || (e.tokens == 4 && hinted);
      if e.academicWord.None? && short then
        && o.decision != Ignore && (o.decision == Review ==> o.confidence >= c.review + 0.05)
        && (o.decision == Accept ==> o.confidence >= c.accept)
      else
        && (o.decision == Accept <==> o.confidence >= c.accept)
        && (o.decision == Review <==> c.review <= o.confidence < c.accept)
        && (o.decision == Ignore <==> o.confidence < c.review)
  {
  }

  /** What a lower total means for the decision. */
  ghost predicate NoBetter(c: Config, o: Outcome, p: Outcome, terse: bool) {
    && Rank(p.decision) <= Rank(o.decision)
    && (!terse ==> p.confidence <= o.confidence)
    && p.confidence <= Higher(o.confidence, c.review + 0.05)
  }

  lemma LowerIsNoBetter(c: Config, e: Evidence, f: Evidence)
    requires c.Valid() && Terse(e) == Terse(f) && Confidence(c, f) <= Confidence(c, e)
    ensures NoBetter(c, Lifted(c, e), Lifted(c, f), Terse(e))
    ensures !Terse(e) ==> Lifted(c, e).confidence == Confidence(c, e)
    ensures !Terse(f) ==> Lifted(c, f).confidence == Confidence(c, f)
  {
  }

  /** The confidence falls where there was any to lose beyond what a template adds. */
  ghost predicate Falls(o: Outcome, p: Outcome, boost: real) {
    boost < o.confidence < 1.0 ==> p.confidence < o.confidence
  }

  // ------------------------------------------------ advertisement and negation

  lemma BoostFalls(e: Evidence, a: real)
    requires e.adScore <= a
    ensures 0.0 <= Boost(e.(adScore := a)) <= Boost(e)
  {
    var f := e.(adScore := a);
    if AdEvident(e) && e.adScore < 0.2 {
      var k :| 0 <= k < |e.adReasons| && Commercial(e.adReasons[k]);
      assert Commercial(f.adReasons[k]);
    }
  }

  lemma AdChanges(c: Config, e: Evidence, a: real)
    ensures var f := e.(adScore := a);
      && FactorsOf(c, f) == FactorsOf(c, e).(ad := 1.0 - a * 1.1, boost := Boost(f)) && Terse(f) == Terse(e)
  {
  }

  /** More of an advertisement never helps a message, and costs it confidence while there is
      any to lose. */
  lemma AdNeverHelps(c: Config, e: Evidence, a: real)
    requires c.Valid() && Plausible(c, e) && e.adScore <= a
    ensures var o, p := Lifted(c, e), Lifted(c, e.(adScore := a));
      NoBetter(c, o, p, Terse(e)) && (!Terse(e) && e.adScore < a ==> Falls(o, p, Boost(e)))
  {
    var f := e.(adScore := a);
    var x, y := FactorsOf(c, e), FactorsOf(c, f);
    AdChanges(c, e, a);
    BoostFalls(e, a);
    FactorsAreFair(c, e);
    PlainNotNegative(x);
    AdTotals(x, y, e.adScore, a);
    LowerIsNoBetter(c, e, f);
  }

  lemma AdTotals(x: Factors, y: Factors, a: real, b: real)
    requires Plain(x) >= 0.0 && a <= b && x.ad == 1.0 - a * 1.1 && y == x.(ad := 1.0 - b * 1.1, boost := y.boost)
    requires 0.0 <= y.boost <= x.boost
    ensures Total(y) <= Total(x)
    ensures a < b && x.boost < Total(x) < 1.0 ==> Total(y) < Total(x)
  {
    TotalFalls(x, y);
    if a < b && x.boost < Total(x) < 1.0 {
      TotalFallsStrictly(x, y);
    }
  }

  lemma NothingLeft(x: Factors)
    requires Plain(x) >= 0.0 && x.ad <= 0.0 && x.boost == 0.0
    ensures Total(x) == 0.0
  {
    TotalOf(x, Times(Plain(x), x.ad));
    ProductMonotone(x.ad, 0.0, Plain(x));
  }

  /** An advertisement of 10/11 or more is never accepted on its own score. */
  lemma AdvertIsRefused(c: Config, e: Evidence)
    requires c.Valid() && Plausible(c, e) && 11.0 * e.adScore >= 10.0
    ensures Lifted(c, e).decision != Accept && Final(c, e, None).decision != Accept
    ensures !Terse(e) ==> Lifted(c, e).decision == Ignore && Lifted(c, e).confidence == 0.0
  {
    var x := FactorsOf(c, e);
    FactorsAreFair(c, e);
    PlainNotNegative(x);
    NothingLeft(x);
    assert Confidence(c, e) == 0.0;
    CappedReasons(Lifted(c, e), ExpertOnly(e));
  }

  lemma NegationChanges(c: Config, e: Evidence, n: real)
    requires e.negated
    ensures var f := e.(negScore := n);
      FactorsOf(c, f) == FactorsOf(c, e).(denial := 1.0 - n * 0.7) && Terse(f) == Terse(e)
  {
    var f := e.(negScore := n);
    assert f.adReasons == e.adReasons && AdEvident(f) == AdEvident(e);
  }

  lemma DenialTotals(x: Factors, y: Factors, n: real, m: real)
    requires Fair(x) && n <= m <= 1.0 && x.denial == 1.0 - n * 0.7 && y == x.(denial := 1.0 - m * 0.7)
    requires x.ad >= 0.0 || x.boost == 0.0
    ensures Total(y) <= Total(x)
    ensures n < m && x.boost < Total(x) < 1.0 ==> Total(y) < Total(x)
  {
    var base := x.mixed * x.length;
    ProductNotNegative(x.mixed, x.length);
    ProductMonotone(y.denial, x.denial, base);
    ProductNotNegative(base, y.denial);
    PlainNotNegative(x);
    if x.ad < 0.0 {
      NothingLeft(x);
      NothingLeft(y);
    } else {
      TotalFalls(x, y);
      if n < m && x.boost < Total(x) < 1.0 {
        DenialFalls(x, y);
      }
    }
  }

  lemma DenialFalls(x: Factors, y: Factors)
    requires Fair(x) && Fair(y) && y == x.(denial := y.denial) && y.denial < x.denial && x.boost < Total(x) < 1.0
    ensures Total(y) < Total(x)
  {
    var base := x.mixed * x.length;
    ProductNotNegative(x.mixed, x.length);
    PlainNotNegative(x);
    PlainNotNegative(y);
    TotalOf(x, Times(Plain(x), x.ad));
    PositiveParts(Plain(x), x.ad);
    PositiveParts(base, x.denial);
    ProductStrict(y.denial, x.denial, base);
    assert y.mixed * y.length == base && y.ad == x.ad && y.boost == x.boost;
    assert Plain(y) == base * y.denial && Plain(x) == base * x.denial;
    TotalFallsStrictly(x, y);
  }

  /** Nor does a stronger negation. */
  lemma NegationNeverHelps(c: Config, e: Evidence, n: real)
    requires c.Valid() && Plausible(c, e) && e.negated && e.negScore <= n <= 1.0
    ensures var o, p := Lifted(c, e), Lifted(c, e.(negScore := n));
      NoBetter(c, o, p, Terse(e)) && (!Terse(e) && e.negScore < n ==> Falls(o, p, Boost(e)))
  {
    var f := e.(negScore := n);
    NegationChanges(c, e, n);
    FactorsAreFair(c, e);
    DenialTotals(FactorsOf(c, e), FactorsOf(c, f), e.negScore, n);
    LowerIsNoBetter(c, e, f);
  }

  // --------------------------------------------------------- stronger findings

  lemma MixedTotals(x: Factors, y: Factors)
    requires Fair(x) && Fair(y) && x.mixed <= y.mixed && x.length <= y.length && x.denial == y.denial
    requires x.ad == y.ad && x.boost == y.boost && (x.ad >= 0.0 || x.boost == 0.0)
    ensures Total(x) <= Total(y)
  {
    PlainNotNegative(x);
    PlainNotNegative(y);
    if x.ad < 0.0 {
      NothingLeft(x);
    } else {
      ProductsMonotone(x.mixed, y.mixed, x.length, y.length);
      ProductMonotone(x.mixed * x.length, y.mixed * y.length, x.denial);
      TotalFalls(y, x);
    }
  }

  lemma DotRises(w: Weights, s: Scores, d: real)
    ensures Dot(w, s.(intent := s.intent + d)) == Dot(w, s) + d * w.intent
    ensures Dot(w, s.(academic := s.academic + d)) == Dot(w, s) + d * w.academic
    ensures Dot(w, s.(grammar := s.grammar + d)) == Dot(w, s) + d * w.grammar
    ensures Dot(w, s.(distance := s.distance + d)) == Dot(w, s) + d * w.distance
    ensures Dot(w, s.(urgency := s.urgency + d)) == Dot(w, s) + d * w.urgency
    ensures Dot(w, s.(context := s.context + d)) == Dot(w, s) + d * w.context
  {
  }

  lemma QuotientRises(a: real, d: real, b: real)
    requires b != 0.0
    ensures (a + d) / b == a / b + d / b
  {
  }

  /** Each score moves the mean by its own weight's share, and by nothing else. */
  lemma EachMeetsItsWeight(w: Weights, s: Scores, d: real)
    ensures WeightedMean(w, s.(intent := s.intent + d)) == WeightedMean(w, s) + d * w.intent / WeightSum(w)
    ensures WeightedMean(w, s.(academic := s.academic + d)) == WeightedMean(w, s) + d * w.academic / WeightSum(w)
    ensures WeightedMean(w, s.(grammar := s.grammar + d)) == WeightedMean(w, s) + d * w.grammar / WeightSum(w)
    ensures WeightedMean(w, s.(distance := s.distance + d)) == WeightedMean(w, s) + d * w.distance / WeightSum(w)
    ensures WeightedMean(w, s.(urgency := s.urgency + d)) == WeightedMean(w, s) + d * w.urgency / WeightSum(w)
    ensures WeightedMean(w, s.(context := s.context + d)) == WeightedMean(w, s) + d * w.context / WeightSum(w)
  {
    DotRises(w, s, d);
    QuotientRises(Dot(w, s), d * w.intent, WeightSum(w));
    QuotientRises(Dot(w, s), d * w.academic, WeightSum(w));
    QuotientRises(Dot(w, s), d * w.grammar, WeightSum(w));
    QuotientRises(Dot(w, s), d * w.distance, WeightSum(w));
    QuotientRises(Dot(w, s), d * w.urgency, WeightSum(w));
    QuotientRises(Dot(w, s), d * w.context, WeightSum(w));
  }

  lemma SumIsPositive(w: Weights)
    requires NonNegative(w)
    ensures WeightSum(w) > 0.0
  {
  }

  lemma MixedRises(c: Config, e: Evidence, f: Evidence)
    requires LegacyScore(c, f) == LegacyScore(c, e) && f.intentWord == e.intentWord && f.isImplicit == e.isImplicit
    requires WeightedMean(c.weights, ScoresOf(e)) <= WeightedMean(c.weights, ScoresOf(f))
    ensures Mixed(c, e) <= Mixed(c, f)
  {
    ClampMonotone(WeightedMean(c.weights, ScoresOf(e)), WeightedMean(c.weights, ScoresOf(f)));
  }

  lemma QuotientMonotone(a: real, b: real, sum: real)
    requires a <= b && sum > 0.0
    ensures a / sum <= b / sum
  {
  }

  lemma TermRises(rest: real, x: real, y: real, w: real)
    requires x <= y && w >= 0.0
    ensures x * w + rest <= y * w + rest
  {
    ProductMonotone(x, y, w);
  }

  lemma IntentDot(w: Weights, s: Scores, x: real)
    requires NonNegative(w) && s.intent <= x
    ensures Dot(w, s) <= Dot(w, s.(intent := x))
  {
    var rest := Dot(w, s.(intent := 0.0));
    TermRises(rest, s.intent, x, w.intent);
    assert Dot(w, s) == s.intent * w.intent + rest && Dot(w, s.(intent := x)) == x * w.intent + rest;
  }

  lemma ObjectDot(w: Weights, s: Scores, x: real)
    requires NonNegative(w) && s.academic <= x
    ensures Dot(w, s) <= Dot(w, s.(academic := x))
  {
    var rest := Dot(w, s.(academic := 0.0));
    TermRises(rest, s.academic, x, w.academic);
    assert Dot(w, s) == s.academic * w.academic + rest && Dot(w, s.(academic := x)) == x * w.academic + rest;
  }

  lemma MeanRises(w: Weights, s: Scores, t: Scores)
    requires NonNegative(w) && Dot(w, s) <= Dot(w, t)
    ensures WeightedMean(w, s) <= WeightedMean(w, t)
  {
    SumIsPositive(w);
    QuotientMonotone(Dot(w, s), Dot(w, t), WeightSum(w));
  }

  lemma IntentRaisesMixed(c: Config, e: Evidence, w: real)
    requires NonNegative(c.weights) && e.intentWeight <= w
    ensures Mixed(c, e) <= Mixed(c, e.(intentWeight := w))
  {
    var s, t := ScoresOf(e), ScoresOf(e.(intentWeight := w));
    IntentDot(c.weights, s, w);
    assert t == s.(intent := w);
    MeanRises(c.weights, s, t);
    RaisedBy(c, e, e.(intentWeight := w), t);
  }

  lemma ObjectRaisesMixed(c: Config, e: Evidence, w: real)
    requires NonNegative(c.weights) && e.academicWeight <= w
    ensures Mixed(c, e) <= Mixed(c, e.(academicWeight := w))
  {
    var s, t := ScoresOf(e), ScoresOf(e.(academicWeight := w));
    ObjectDot(c.weights, s, w);
    assert t == s.(academic := w);
    MeanRises(c.weights, s, t);
    RaisedBy(c, e, e.(academicWeight := w), t);
  }

  lemma RaisedBy(c: Config, e: Evidence, f: Evidence, s: Scores)
    requires f == e.(intentWeight := f.intentWeight) || f == e.(academicWeight := f.academicWeight)
    requires ScoresOf(f) == s && WeightedMean(c.weights, ScoresOf(e)) <= WeightedMean(c.weights, s)
    ensures Mixed(c, e) <= Mixed(c, f)
  {
    MixedRises(c, e, f);
  }

  lemma LengthRises(m: real, r: real, t: real)
    requires Unit(m) && r <= t
    ensures m + (1.0 - m) * r <= m + (1.0 - m) * t
  {
    ProductMonotone(r, t, 1.0 - m);
  }

  lemma ObjectRaisesLength(e: Evidence, w: real)
    requires Unit(e.lengthModifier) && e.academicWeight <= w
    ensures LengthFactor(e) <= LengthFactor(e.(academicWeight := w))
  {
    var r, t := Relief(e.academicWeight), Relief(w);
    ClampMonotone((e.academicWeight - 0.5) / 0.5, (w - 0.5) / 0.5);
    LengthRises(e.lengthModifier, r, t);
  }

  lemma SameElse(e: Evidence, f: Evidence)
    requires f == e.(intentWeight := f.intentWeight) || f == e.(academicWeight := f.academicWeight)
    ensures Boost(f) == Boost(e) && Terse(f) == Terse(e)
  {
    assert f.adReasons == e.adReasons && AdEvident(f) == AdEvident(e);
  }

  lemma HigherIsNoWorse(c: Config, e: Evidence, f: Evidence)
    requires Plausible(c, e) && Plausible(c, f)
    requires f == e.(intentWeight := f.intentWeight) || f == e.(academicWeight := f.academicWeight)
    requires Mixed(c, e) <= Mixed(c, f) && LengthFactor(e) <= LengthFactor(f)
    ensures Confidence(c, e) <= Confidence(c, f)
  {
    FactorsAreFair(c, e);
    FactorsAreFair(c, f);
    SameElse(e, f);
    MixedTotals(FactorsOf(c, e), FactorsOf(c, f));
  }

  /** A stronger intent never lowers the confidence or the decision. */
  lemma StrongerIntent(c: Config, e: Evidence, w: real)
    requires c.Valid() && Plausible(c, e) && e.intentWeight <= w <= 1.0
    ensures NoBetter(c, Lifted(c, e.(intentWeight := w)), Lifted(c, e), Terse(e))
  {
    var f := e.(intentWeight := w);
    IntentRaisesMixed(c, e, w);
    HigherIsNoWorse(c, e, f);
    SameElse(e, f);
    LowerIsNoBetter(c, f, e);
  }

  /** Nor does a stronger object. */
  lemma StrongerObject(c: Config, e: Evidence, w: real)
    requires c.Valid() && Plausible(c, e) && e.academicWeight <= w <= 1.0
    ensures NoBetter(c, Lifted(c, e.(academicWeight := w)), Lifted(c, e), Terse(e))
  {
    var f := e.(academicWeight := w);
    ObjectRaisesMixed(c, e, w);
    ObjectRaisesLength(e, w);
    HigherIsNoWorse(c, e, f);
    SameElse(e, f);
    LowerIsNoBetter(c, f, e);
  }

  // ------------------------------------------------- the confidence in figures

  /** A message of full length without negation, advertisement or boost. */
  ghost predicate Clean(e: Evidence) {
    e.lengthModifier == 1.0 && !e.negated && e.adScore == 0.0 && e.boostMatch.None? && !Terse(e)
  }

  lemma CleanIsMixed(c: Config, e: Evidence)
    requires Clean(e)
    ensures Lifted(c, e).confidence == Clamp(Mixed(c, e))
  {
    var x := FactorsOf(c, e);
    assert x.length == 1.0;
    Ones(x.mixed, x);
  }

  lemma Ones(mixed: real, x: Factors)
    requires x.mixed == mixed && x.length == x.denial == x.ad == 1.0 && x.boost == 0.0
    ensures Total(x) == Clamp(mixed)
  {
  }

  /** Points in a hundred: for a direct request, five for each context word up to a maximum, for
      urgency, and for an indirect or implicit request in place of a direct one. */
  ghost predicate Scored(c: Config, e: Evidence, points: int) {
    points ==
      (if e.intentWord.Some? then c.scoreDirect else if e.isIndirect || e.isImplicit then c.scoreIndirect else 0)
      + (if 5 * e.contextCount <= c.contextMax then 5 * e.contextCount else c.contextMax)
      + (if e.urgencyMarker.Some? then c.scoreUrgency else 0)
  }

  /** The shares of the six weights that the message has earned. */
  ghost predicate Earned(w: Weights, e: Evidence, mean: real) {
    mean == w.intent * e.intentWeight + w.academic * e.academicWeight
      + (if e.grammarMatch || e.help.Some? then w.grammar else 0.0)
      + w.distance * (if e.intentPos.Some? && e.academicPos.Some? then e.distance
                      else if e.intentWord.Some? then 0.5 else 0.0)
      + (if e.urgencyMarker.Some? then w.urgency else 0.0)
      + (if e.contextCount >= 3 then w.context else w.context * (e.contextCount as real / 3.0))
  }

  lemma EarnedIsMean(w: Weights, e: Evidence, mean: real)
    requires WeightTotal(w) == 1.0 && Earned(w, e, mean)
    ensures WeightedMean(w, ScoresOf(e)) == mean
  {
    assert Dot(w, ScoresOf(e)) == mean;
  }

  /** The confidence of a clean message: its points in a hundred; or, scored by distance too, the
      middle between these and the weighted mean, and for an implicit request without an intent
      the mean alone. */
  lemma CleanConfidence(c: Config, e: Evidence, points: int, mean: real)
    requires c.Valid() && Clean(e) && Plausible(c, e) && WeightTotal(c.weights) == 1.0
    requires Scored(c, e, points) && points <= 100 && Earned(c.weights, e, mean)
    ensures 0 <= points && 0.0 <= mean <= 1.0
    ensures 100.0 * Lifted(c, e).confidence ==
      if !c.distanceScoring then points as real
      else if e.intentWord.None? && e.isImplicit then 100.0 * mean
      else (points as real + 100.0 * mean) / 2.0
  {
    CleanIsMixed(c, e);
    EarnedIsMean(c.weights, e, mean);
    MeanNeedsNoClamp(c.weights, ScoresOf(e));
    assert LegacyScore(c, e) == points;
  }

  /** How far the message's length counts: not at all with an object of weight 1, in full with one
      up to one half or with none. */
  ghost predicate Stretched(modifier: real, found: bool, weight: real, length: real) {
    length ==
      if found && weight > 0.5 then modifier + (1.0 - modifier) * (2.0 * weight - 1.0) else modifier
  }

  lemma StretchedIsLength(e: Evidence, length: real)
    requires Unit(e.academicWeight) && Stretched(e.lengthModifier, e.academicWord.Some?, e.academicWeight, length)
    ensures LengthFactor(e) == length
  {
    assert (e.academicWeight - 0.5) / 0.5 == 2.0 * e.academicWeight - 1.0;
  }

  lemma ReliefIs(weight: real)
    requires Unit(weight)
    ensures Relief(weight) == if weight > 0.5 then 2.0 * weight - 1.0 else 0.0
  {
    assert (weight - 0.5) / 0.5 == 2.0 * weight - 1.0;
  }

  /** The message without what its length, a negation or an advertisement take away. */
  function Bare(e: Evidence): Evidence {
    e.(lengthModifier := 1.0, negated := false, adScore := 0.0, boostMatch := None)
  }

  lemma BareFactors(c: Config, e: Evidence)
    ensures FactorsOf(c, Bare(e)) == Factors(Mixed(c, e), 1.0, 1.0, 1.0, 0.0) && Terse(Bare(e)) == Terse(e)
  {
  }

  lemma ProductInUnit(a: real, b: real, d: real, ad: real, left: real)
    requires Unit(a) && Unit(b) && Unit(d) && ad <= 1.0 && left == a * b * d * ad
    ensures left <= 1.0
  {
    UnitProduct(a, b);
    UnitProduct(a * b, d);
    AtMostOne(a * b * d, ad, left);
  }

  lemma UnitProduct(a: real, b: real)
    requires Unit(a) && Unit(b)
    ensures Unit(a * b)
  {
    ProductsMonotone(a, 1.0, b, 1.0);
    ProductNotNegative(a, b);
  }

  lemma AtMostOne(p: real, ad: real, left: real)
    requires Unit(p) && ad <= 1.0 && left == p * ad
    ensures left <= 1.0
  {
    ProductMonotone(ad, 1.0, p);
  }

  lemma Scaled(x: Factors, left: real)
    requires x.boost == 0.0 && Unit(x.mixed) && Unit(x.length) && Unit(x.denial) && x.ad <= 1.0
    requires left == x.mixed * x.length * x.denial * x.ad
    ensures Total(x) == Higher(0.0, left)
  {
    ProductInUnit(x.mixed, x.length, x.denial, x.ad, left);
    TotalOf(x, left);
  }

  lemma SameLeft(a: real, b: real, d: real, ad: real, x: Factors)
    requires x.mixed == a && x.length == b && x.denial == d && x.ad == ad
    ensures x.mixed * x.length * x.denial * x.ad == a * b * d * ad
  {
  }

  lemma LiftedIsConfidence(c: Config, e: Evidence)
    requires !Terse(e)
    ensures Lifted(c, e).confidence == Confidence(c, e)
  {
  }

  /** What its length, a negation and an advertisement leave of a message's confidence: each
      takes its own share, an advertisement 1.1 times its score and a negation 0.7 times. */
  lemma ConfidenceScales(c: Config, e: Evidence, bare: real, length: real, denial: real, ad: real)
    requires Plausible(c, e) && Mixed(c, e) <= 1.0 && !Terse(e) && e.boostMatch.None?
    requires bare == Lifted(c, Bare(e)).confidence
    requires Stretched(e.lengthModifier, e.academicWord.Some?, e.academicWeight, length)
    requires denial == (if e.negated then 1.0 - 0.7 * e.negScore else 1.0) && ad == 1.0 - 1.1 * e.adScore
    ensures Clean(Bare(e)) && Lifted(c, e).confidence == Higher(0.0, bare * length * denial * ad)
  {
    MixedIsFair(c, e);
    BareIsMixed(c, e, Mixed(c, e));
    LiftedIsConfidence(c, e);
    StretchedIsLength(e, length);
    ConfidenceFrom(c, e, bare, length, denial, ad);
  }

  lemma ConfidenceFrom(c: Config, e: Evidence, mixed: real, length: real, denial: real, ad: real)
    requires Plausible(c, e) && e.boostMatch.None? && mixed == Mixed(c, e) <= 1.0 && length == LengthFactor(e)
    requires denial == (if e.negated then 1.0 - 0.7 * e.negScore else 1.0) && ad == 1.0 - 1.1 * e.adScore
    ensures Confidence(c, e) == Higher(0.0, mixed * length * denial * ad)
  {
    FactorsAreFair(c, e);
    ScaledFrom(FactorsOf(c, e), length, denial, ad, mixed);
  }

  lemma ScaledFrom(x: Factors, length: real, denial: real, ad: real, mixed: real)
    requires x == Factors(mixed, length, denial, ad, 0.0) && Unit(mixed) && Unit(length) && Unit(denial) && ad <= 1.0
    ensures Total(x) == Higher(0.0, mixed * length * denial * ad)
  {
    var left := mixed * length * denial * ad;
    SameLeft(mixed, length, denial, ad, x);
    Scaled(x, left);
  }

  lemma BareIsMixed(c: Config, e: Evidence, mixed: real)
    requires mixed == Mixed(c, e) && Unit(mixed) && !Terse(e)
    ensures Clean(Bare(e)) && Lifted(c, Bare(e)).confidence == mixed
  {
    BareFactors(c, e);
    Ones(mixed, FactorsOf(c, Bare(e)));
  }

  /** The reason starts as those of the commercial and the provider detectors do. */
  ghost predicate NamesSeller(reason: string) {
    exists more: string :: reason == "commercial_prefix" + more || reason == "provider_detected" + more
      || reason == "weak_provider_multiple" + more
  }

  lemma SellersAreEvident(e: Evidence)
    ensures AdEvident(e) <==> e.adScore >= 0.2 || exists r :: r in e.adReasons && NamesSeller(r)
  {
    forall r ensures Commercial(r) <==> NamesSeller(r) {
      var a, b, d := "commercial_prefix", "provider_detected", "weak_provider_multiple";
      if a <= r {
        assert r == a + r[|a|..];
      } else if b <= r {
        assert r == b + r[|b|..];
      } else if d <= r {
        assert r == d + r[|d|..];
      }
    }
    if r :| r in e.adReasons && NamesSeller(r) {
      var k :| 0 <= k < |e.adReasons| && e.adReasons[k] == r;
      assert Commercial(e.adReasons[k]);
    }
    if exists k :: 0 <= k < |e.adReasons| && Commercial(e.adReasons[k]) {
      var k :| 0 <= k < |e.adReasons| && Commercial(e.adReasons[k]);
      assert e.adReasons[k] in e.adReasons && NamesSeller(e.adReasons[k]);
    }
  }

  /** A template adds a quarter with a specific object, else a tenth, and nothing to what looks
      like an advertisement. */
  lemma BoostAdds(c: Config, e: Evidence)
    requires c.Valid() && Plausible(c, e) && Mixed(c, e) <= 1.0 && !Terse(e)
    ensures Lifted(c, e).confidence == Lower(1.0, Lifted(c, e.(boostMatch := None)).confidence
      + if e.boostMatch.None? || e.adScore >= 0.2 || (exists r :: r in e.adReasons && NamesSeller(r)) then 0.0
        else if e.academicWord.Some? && e.specific then 0.25 else 0.1)
  {
    SellersAreEvident(e);
    var f := e.(boostMatch := None);
    var x, y := FactorsOf(c, e), FactorsOf(c, f);
    assert y == x.(boost := 0.0) && Terse(f) == Terse(e);
    FactorsAreFair(c, e);
    if x.boost > 0.0 {
      Boosted(x);
    }
  }

  lemma Boosted(x: Factors)
    requires Fair(x) && x.mixed <= 1.0 && x.ad >= 0.0
    ensures Total(x) == Lower(1.0, Total(x.(boost := 0.0)) + x.boost)
  {
    var left := x.mixed * x.length * x.denial * x.ad;
    Scaled(x.(boost := 0.0), left);
    PlainNotNegative(x);
    ProductNotNegative(x.mixed * x.length * x.denial, x.ad);
    TotalOf(x, left);
  }

  // ---------------------------------------------------- one clause on its own

  /** The shares of the weights that a clause has earned. */
  ghost predicate ClauseEarned(w: Weights, p: Clause, mean: real) {
    mean == w.intent * p.intentWeight + w.academic * p.academicWeight + (if p.grammarMatch then w.grammar else 0.0)
      + w.distance * (if p.academic.Some? then p.distance else 0.5) + (if p.urgent then w.urgency else 0.0)
      + (if p.contextCount >= 3 then w.context else w.context * (p.contextCount as real / 3.0))
  }

  /** A clause's confidence: its weighted mean, less what its length and nine tenths of an
      advertisement take away. */
  lemma ClauseInFigures(c: Config, p: Clause, mean: real, length: real, ad: real)
    requires NonNegative(c.weights) && WeightTotal(c.weights) == 1.0 && ClauseEarned(c.weights, p, mean)
    requires Unit(p.intentWeight) && Unit(p.academicWeight) && Unit(p.distance)
    requires Unit(p.lengthModifier) && Unit(p.adScore)
    requires Stretched(p.lengthModifier, p.academic.Some?, p.academicWeight, length) && ad == 1.0 - 0.9 * p.adScore
    ensures ClauseConfidence(c, p) == mean * length * ad
  {
    ClauseMean(c, p, mean);
    ClauseLength(p, length);
    UnitProducts(mean, length, ad);
    ClauseProduct(c, p, mean, length, ad, mean * length * ad);
  }

  lemma ClauseDot(w: Weights, p: Clause, mean: real)
    requires ClauseEarned(w, p, mean)
    ensures Dot(w, ClauseScores(p)) == mean
  {
    var s := ClauseScores(p);
    var a, b, d := w.intent * p.intentWeight, w.academic * p.academicWeight, w.distance * s.distance;
    var g, u := if p.grammarMatch then w.grammar else 0.0, if p.urgent then w.urgency else 0.0;
    var x := if p.contextCount >= 3 then w.context else w.context * (p.contextCount as real / 3.0);
    EarnedInTerms(w, p, mean, a, b, g, d, u, x);
    BoolTerm(p.grammarMatch, w.grammar);
    BoolTerm(p.urgent, w.urgency);
    ContextTerm(w.context, p.contextCount);
    SumOfTerms(w, s, a, b, g, d, u, x);
  }

  lemma EarnedInTerms(w: Weights, p: Clause, mean: real, a: real, b: real, g: real, d: real, u: real, x: real)
    requires ClauseEarned(w, p, mean) && a == w.intent * p.intentWeight && b == w.academic * p.academicWeight
    requires g == (if p.grammarMatch then w.grammar else 0.0) && d == w.distance * ClauseScores(p).distance
    requires u == (if p.urgent then w.urgency else 0.0)
    requires x == if p.contextCount >= 3 then w.context else w.context * (p.contextCount as real / 3.0)
    ensures mean == a + b + g + d + u + x
  {
  }

  lemma SumOfTerms(w: Weights, s: Scores, a: real, b: real, g: real, d: real, u: real, x: real)
    requires a == s.intent * w.intent && b == s.academic * w.academic && g == s.grammar * w.grammar
    requires d == s.distance * w.distance && u == s.urgency * w.urgency && x == s.context * w.context
    ensures Dot(w, s) == a + b + g + d + u + x
  {
  }

  lemma BoolTerm(b: bool, w: real)
    ensures BoolScore(b) * w == if b then w else 0.0
  {
  }

  lemma ContextTerm(w: real, count: nat)
    ensures Lower(count as real / 3.0, 1.0) * w == if count >= 3 then w else w * (count as real / 3.0)
  {
  }

  lemma MeanOfDot(w: Weights, s: Scores, mean: real)
    requires NonNegative(w) && WeightTotal(w) == 1.0 && InRange(s) && Dot(w, s) == mean
    ensures Unit(mean) && Clamp(WeightedMean(w, s)) == mean
  {
    MeanNeedsNoClamp(w, s);
  }

  lemma ClauseMean(c: Config, p: Clause, mean: real)
    requires NonNegative(c.weights) && WeightTotal(c.weights) == 1.0 && ClauseEarned(c.weights, p, mean)
    requires Unit(p.intentWeight) && Unit(p.academicWeight) && Unit(p.distance)
    ensures Unit(mean) && Clamp(WeightedMean(c.weights, ClauseScores(p))) == mean
  {
    var s := ClauseScores(p);
    ClauseDot(c.weights, p, mean);
    assert InRange(s);
    MeanOfDot(c.weights, s, mean);
  }

  lemma ClauseLength(p: Clause, length: real)
    requires Unit(p.academicWeight) && Unit(p.lengthModifier)
    requires Stretched(p.lengthModifier, p.academic.Some?, p.academicWeight, length)
    ensures Unit(length) && length == ClauseFactor(p)
  {
    ReliefIs(p.academicWeight);
    MixInUnit(p.lengthModifier, Relief(p.academicWeight));
  }

  lemma UnitProducts(mean: real, length: real, ad: real)
    requires Unit(mean) && Unit(length) && Unit(ad)
    ensures Unit(mean * length * ad)
  {
    UnitProduct(mean, length);
    UnitProduct(mean * length, ad);
  }

  lemma ClauseProduct(c: Config, p: Clause, mean: real, length: real, ad: real, product: real)
    requires mean == Clamp(WeightedMean(c.weights, ClauseScores(p))) && length == ClauseFactor(p)
    requires ad == 1.0 - p.adScore * 0.9 && product == mean * length * ad && Unit(product)
    ensures ClauseConfidence(c, p) == product
  {
  }

  /** Which clauses may rescue a message. */
  lemma StandsIff(c: Config, p: Clause)
    ensures Stands(c, p) <==>
      !(p.failed || |p.text| <= 3 || p.ignored || p.intent == None || (p.negated && p.negScore > 0.5)
        || p.adScore > 0.5 || p.expertOnly || (p.academic == None && p.tokens <= 2)
        || ClauseConfidence(c, p) < c.accept)
  {
  }

  /** The rescue, if any clause stands, has the highest confidence of those that do, and names
      the first clause that has it. */
  lemma RescueIsBest(c: Config, parts: seq<Clause>, r: Option<Rescue>)
    requires BestClause(c, parts, |parts|, r)
    ensures r == None <==> forall j :: 0 <= j < |parts| ==> !Stands(c, parts[j])
    ensures r.Some? ==> forall j :: 0 <= j < |parts| && Stands(c, parts[j]) ==>
      ClauseConfidence(c, parts[j]) <= r.value.confidence
    ensures r.Some? ==> exists k :: 0 <= k < |parts| && Rescues(c, parts, r.value, k)
  {
    if r.Some? {
      var k :| 0 <= k < |parts| && Leads(c, parts, |parts|, k)
        && r.value == Rescue(ClauseConfidence(c, parts[k]), ClauseReasons(parts[k]));
      assert Rescues(c, parts, r.value, k);
    }
  }

  ghost predicate Rescues(c: Config, parts: seq<Clause>, best: Rescue, k: nat)
    requires k < |parts|
  {
    && Stands(c, parts[k]) && ClauseConfidence(c, parts[k]) == best.confidence
    && ClauseReasons(parts[k]) == best.reasons
    && forall j :: 0 <= j < k && Stands(c, parts[j]) ==> ClauseConfidence(c, parts[j]) < best.confidence
  }

  // ---------------------------------------------------- reasons, caps and rescue

  /** Every finding is given as a reason, and nothing else. */
  lemma ReasonsAreFindings(e: Evidence, r: string)
    ensures r in Reasons(e) <==>
      || r in Listed("intent_verb: ", e.intentWord) || r in Listed("academic_object: ", e.academicWord)
      || r in Listed("urgency: ", e.urgencyMarker) || r in Noted("implicit_request", e.isImplicit)
      || r in Noted("help_anchor", e.helpAnchored) || r in Listed("help_expression: ", e.help)
      || r in Negations(e) || r in Adverts(e) || r in Listed("template_boost: ", e.boostMatch)
  {
  }

  /** And once each. */
  lemma ReasonsAreCounted(e: Evidence)
    ensures |Reasons(e)| ==
      (if e.intentWord.Some? then 1 else 0) + (if e.academicWord.Some? then 1 else 0)
      + (if e.urgencyMarker.Some? then 1 else 0) + (if e.isImplicit then 1 else 0) + (if e.helpAnchored then 1 else 0)
      + (if e.help.Some? then 1 else 0) + (if e.boostMatch.Some? then 1 else 0)
      + (if e.negated then |e.negReasons| else 0) + (if e.adScore > 0.3 then |e.adReasons| else 0)
  {
  }

  /** What the caps do: only an accepted message can be set back, to review, and a reason tells
      why; nothing else changes. */
  lemma CapsSetBack(o: Outcome, expertOnly: bool)
    ensures var p := Capped(o, expertOnly);
      && p.confidence == o.confidence && o.reasons <= p.reasons
      && p.decision == (if o.decision == Accept && (expertOnly || AnyBlocking(o.reasons)) then Review else o.decision)
      && (p.decision == o.decision <==> p.reasons == o.reasons)
  {
    CappedReasons(o, expertOnly);
  }

  /** What a second look does: it raises a message that was not accepted, by a clause that is
      better than the whole, to accept, or to review if there is a blocking reason. */
  lemma RescueRaises(o: Outcome, up: Option<Rescue>)
    ensures var p, raised := Rescued(o, up), o.decision != Accept && up.Some? && o.confidence < up.value.confidence;
      && (!raised ==> p == o)
      && (raised ==>
        && p.confidence == (if up.value.confidence < 1.0 then up.value.confidence else 1.0)
        && o.reasons + up.value.reasons <= p.reasons
        && p.decision == if AnyBlocking(o.reasons + up.value.reasons) then Review else Accept)
  {
  }

  /** Every reason found at first is still given at the end. */
  lemma ReasonsStay(c: Config, e: Evidence, up: Option<Rescue>)
    ensures Reasons(e) <= Final(c, e, up).reasons
  {
    CapsSetBack(Lifted(c, e), ExpertOnly(e));
    RescueRaises(Capped(Lifted(c, e), ExpertOnly(e)), up);
  }
}
