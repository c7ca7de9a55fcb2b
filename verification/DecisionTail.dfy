/** The scoring and decision tail of filter_engine.py: a weighted mean, modifiers, caps and a
    second look at single clauses.  Match results and table values are inputs. */
module DecisionTail {
  import opened Options

  datatype Weights = Weights(intent: real, academic: real, grammar: real, distance: real, urgency: real,
                             context: real)

  datatype Config = Config(weights: Weights, distanceScoring: bool, accept: real, review: real, rescore: bool,
                           scoreDirect: int, contextMax: int, scoreUrgency: int, scoreIndirect: int) {
    /** What loading the configuration checks. */
    predicate Valid() {
      0.0 < review < accept <= 1.0
    }
  }

  function Min(a: int, b: int): int {
    if a < b then a else b
  }

  function Lower(a: real, b: real): real {
    if b < a then b else a
  }

  function Higher(a: real, b: real): real {
    if a < b then b else a
  }

  /** `max(0.0, min(1.0, x))`. */
  function Clamp(x: real): (r: real)
    ensures 0.0 <= r <= 1.0
    ensures 0.0 <= x <= 1.0 ==> r == x
  {
    Higher(0.0, Lower(1.0, x))
  }

  // ------------------------------------------------------- the weighted mean

  datatype Scores = Scores(intent: real, academic: real, grammar: real, distance: real, urgency: real, context: real)

  function WeightTotal(w: Weights): real {
    w.intent + w.academic + w.grammar + w.distance + w.urgency + w.context
  }

  /** `total or 1.0`. */
  function WeightSum(w: Weights): (r: real)
    ensures r != 0.0
  {
    if WeightTotal(w) == 0.0 then 1.0 else WeightTotal(w)
  }

  function Dot(w: Weights, s: Scores): real {
    s.intent * w.intent + s.academic * w.academic + s.grammar * w.grammar
    + s.distance * w.distance + s.urgency * w.urgency + s.context * w.context
  }

  function WeightedMean(w: Weights, s: Scores): real {
    Dot(w, s) / WeightSum(w)
  }

  predicate NonNegative(w: Weights) {
    && w.intent >= 0.0 && w.academic >= 0.0 && w.grammar >= 0.0
    && w.distance >= 0.0 && w.urgency >= 0.0 && w.context >= 0.0
  }

  predicate Unit(x: real) {
    0.0 <= x <= 1.0
  }

  predicate InRange(s: Scores) {
    && Unit(s.intent) && Unit(s.academic) && Unit(s.grammar)
    && Unit(s.distance) && Unit(s.urgency) && Unit(s.context)
  }

  lemma Share(x: real, w: real)
    requires Unit(x) && w >= 0.0
    ensures 0.0 <= x * w <= w
  {
  }

  lemma QuotientInUnit(a: real, b: real)
    requires 0.0 <= a <= b && b > 0.0
    ensures Unit(a / b)
  {
  }

  lemma TwoShares(x: real, w: real, y: real, v: real)
    requires Unit(x) && Unit(y) && w >= 0.0 && v >= 0.0
    ensures 0.0 <= x * w + y * v <= w + v
  {
    Share(x, w);
    Share(y, v);
    Add(x * w, y * v, 0.0, w, v, 0.0, x * w + y * v, w + v);
  }

  lemma Add(a: real, b: real, c: real, x: real, y: real, z: real, dot: real, total: real)
    requires 0.0 <= a <= x && 0.0 <= b <= y && 0.0 <= c <= z
    requires dot == a + b + c && total == x + y + z
    ensures 0.0 <= dot <= total
  {
  }

  lemma DotInRange(w: Weights, s: Scores)
    requires NonNegative(w) && InRange(s)
    ensures 0.0 <= Dot(w, s) <= WeightTotal(w)
  {
    TwoShares(s.intent, w.intent, s.academic, w.academic);
    TwoShares(s.grammar, w.grammar, s.distance, w.distance);
    TwoShares(s.urgency, w.urgency, s.context, w.context);
    Add(s.intent * w.intent + s.academic * w.academic, s.grammar * w.grammar + s.distance * w.distance,
        s.urgency * w.urgency + s.context * w.context,
        w.intent + w.academic, w.grammar + w.distance, w.urgency + w.context, Dot(w, s), WeightTotal(w));
  }

  /** With scores in range the mean is in range, so clamping it changes nothing. */
  lemma MeanNeedsNoClamp(w: Weights, s: Scores)
    requires NonNegative(w) && InRange(s)
    ensures Unit(WeightedMean(w, s)) && Clamp(WeightedMean(w, s)) == WeightedMean(w, s)
  {
    DotInRange(w, s);
    QuotientInUnit(Dot(w, s), WeightSum(w));
  }

  // ------------------------------------------------------------ the evidence

  /** What the searches and detectors found in a message. */
  datatype Evidence = Evidence(
    intentWord: Option<string>, intentPos: Option<int>, intentWeight: real, isImplicit: bool, isIndirect: bool,
    academicWord: Option<string>, academicPos: Option<int>, academicWeight: real, specific: bool, expertOnly: bool,
    contextCount: nat, urgencyMarker: Option<string>, grammarMatch: bool, help: Option<string>, helpAnchored: bool,
    boostMatch: Option<string>, distance: real, tokens: nat, lengthModifier: real,
    negated: bool, negScore: real, negReasons: seq<string>,
    adScore: real, adReasons: seq<string>)

  function BoolScore(b: bool): real {
    if b then 1.0 else 0.0
  }

  function LegacyScore(c: Config, e: Evidence): int {
    (if e.intentWord.Some? then c.scoreDirect else 0)
    + Min(e.contextCount * 5, c.contextMax)
    + (if e.urgencyMarker.Some? then c.scoreUrgency else 0)
    + (if (e.isIndirect || e.isImplicit) && e.intentWord.None? then c.scoreIndirect else 0)
  }

  function DistanceScore(e: Evidence): real {
    if e.intentPos.Some? && e.academicPos.Some? then e.distance
    else if e.intentWord.Some? then 0.5
    else 0.0
  }

  function ScoresOf(e: Evidence): Scores {
    Scores(e.intentWeight, e.academicWeight, BoolScore(e.grammarMatch || e.help.Some?), DistanceScore(e),
           BoolScore(e.urgencyMarker.Some?), Lower(e.contextCount as real / 3.0, 1.0))
  }

  function Mixed(c: Config, e: Evidence): real {
    var legacy := LegacyScore(c, e) as real / 100.0;
    if !c.distanceScoring then legacy
    else
      var weighted := Clamp(WeightedMean(c.weights, ScoresOf(e)));
      if e.intentWord.None? && e.isImplicit then weighted else (legacy + weighted) / 2.0
  }

  function Relief(academicWeight: real): real {
    Clamp((academicWeight - 0.5) / 0.5)
  }

  function LengthFactor(e: Evidence): real {
    if e.academicWord.Some? then e.lengthModifier + (1.0 - e.lengthModifier) * Relief(e.academicWeight)
      else e.lengthModifier
  }

  /** A reason that names a commercial prefix or a provider. */
  predicate Commercial(reason: string) {
    "commercial_prefix" <= reason || "provider_detected" <= reason || "weak_provider_multiple" <= reason
  }

  /** Enough of an advertisement for a template to earn nothing. */
  predicate AdEvident(e: Evidence) {
    e.adScore >= 0.2 || exists k :: 0 <= k < |e.adReasons| && Commercial(e.adReasons[k])
  }

  predicate Specific(e: Evidence) {
    e.academicWord.Some? && e.specific
  }

  function Boost(e: Evidence): real {
    if e.boostMatch.None? || AdEvident(e) then 0.0 else if Specific(e) then 0.25 else 0.1
  }

  /** What the confidence is multiplied from, and what is added. */
  datatype Factors = Factors(mixed: real, length: real, denial: real, ad: real, boost: real)

  function FactorsOf(c: Config, e: Evidence): Factors {
    Factors(Mixed(c, e), LengthFactor(e), if e.negated then 1.0 - e.negScore * 0.7 else 1.0,
            1.0 - e.adScore * 1.1, Boost(e))
  }

  function Total(x: Factors): (r: real)
    ensures Unit(r)
  {
    Clamp(x.mixed * x.length * x.denial * x.ad + x.boost)
  }

  /** The confidence before any cap. */
  function Confidence(c: Config, e: Evidence): (r: real)
    ensures Unit(r)
  {
    Total(FactorsOf(c, e))
  }

  // ----------------------------------------------------------------- reasons

  /** A reason that says the message reports a solution or denies a request. */
  predicate Blocking(reason: string) {
    "resolution_phrase_with_new_request" <= reason || "post_clause_with_new_request" <= reason
  }

  predicate AnyBlocking(reasons: seq<string>) {
    exists k :: 0 <= k < |reasons| && Blocking(reasons[k])
  }

  function Listed(prefix: string, word: Option<string>): seq<string> {
    if word.Some? then [prefix + word.value] else []
  }

  function Noted(reason: string, found: bool): seq<string> {
    if found then [reason] else []
  }

  function Negations(e: Evidence): seq<string> {
    if e.negated then e.negReasons else []
  }

  function Adverts(e: Evidence): seq<string> {
    if e.adScore > 0.3 then e.adReasons else []
  }

  function Reasons(e: Evidence): seq<string> {
    Listed("intent_verb: ", e.intentWord) + Listed("academic_object: ", e.academicWord)
    + Listed("urgency: ", e.urgencyMarker)
    + Noted("implicit_request", e.isImplicit)
    + Noted("help_anchor", e.helpAnchored)
    + Listed("help_expression: ", e.help)
    + Negations(e)
    + Adverts(e)
    + Listed("template_boost: ", e.boostMatch)
  }

  /** A detector said that the message reports a solution or denies a request. */
  predicate Flagged(e: Evidence) {
    (e.negated && AnyBlocking(e.negReasons)) || (e.adScore > 0.3 && AnyBlocking(e.adReasons))
  }

  lemma BlockingJoin(a: seq<string>, b: seq<string>)
    ensures AnyBlocking(a + b) <==> AnyBlocking(a) || AnyBlocking(b)
  {
    if AnyBlocking(a) {
      var k :| 0 <= k < |a| && Blocking(a[k]);
      assert (a + b)[k] == a[k];
    }
    if AnyBlocking(b) {
      var k :| 0 <= k < |b| && Blocking(b[k]);
      assert (a + b)[|a| + k] == b[k];
    }
    if AnyBlocking(a + b) {
      var k :| 0 <= k < |a + b| && Blocking((a + b)[k]);
      assert k < |a| ==> (a + b)[k] == a[k];
      assert k >= |a| ==> (a + b)[k] == b[k - |a|];
    }
  }

  /** Every blocking reason starts with one of two letters. */
  lemma HarmlessStart(reason: string)
    requires reason != [] && reason[0] != 'r' && reason[0] != 'p'
    ensures !Blocking(reason) && !AnyBlocking([reason])
  {
    assert "resolution_phrase_with_new_request"[0] == 'r' && "post_clause_with_new_request"[0] == 'p';
  }

  lemma ListedIsHarmless(prefix: string, word: Option<string>)
    requires prefix != [] && prefix[0] != 'r' && prefix[0] != 'p'
    ensures !AnyBlocking(Listed(prefix, word))
  {
    if word.Some? {
      HarmlessStart(prefix + word.value);
    }
  }

  lemma ReasonsBlockIffFlagged(e: Evidence)
    ensures AnyBlocking(Reasons(e)) <==> Flagged(e)
  {
    var a := Listed("intent_verb: ", e.intentWord) + Listed("academic_object: ", e.academicWord);
    var b := a + Listed("urgency: ", e.urgencyMarker);
    var d := b + Noted("implicit_request", e.isImplicit);
    var f := d + Noted("help_anchor", e.helpAnchored);
    var g := f + Listed("help_expression: ", e.help);
    var h := g + Negations(e);
    var i := h + Adverts(e);
    HarmlessParts(e);
    BlockingJoin(Listed("intent_verb: ", e.intentWord), Listed("academic_object: ", e.academicWord));
    BlockingJoin(a, Listed("urgency: ", e.urgencyMarker));
    BlockingJoin(b, Noted("implicit_request", e.isImplicit));
    BlockingJoin(d, Noted("help_anchor", e.helpAnchored));
    BlockingJoin(f, Listed("help_expression: ", e.help));
    BlockingJoin(g, Negations(e));
    BlockingJoin(h, Adverts(e));
    BlockingJoin(i, Listed("template_boost: ", e.boostMatch));
  }

  lemma HarmlessParts(e: Evidence)
    ensures !AnyBlocking(Listed("intent_verb: ", e.intentWord))
      && !AnyBlocking(Listed("academic_object: ", e.academicWord))
    ensures !AnyBlocking(Listed("urgency: ", e.urgencyMarker)) && !AnyBlocking(Listed("help_expression: ", e.help))
    ensures !AnyBlocking(Listed("template_boost: ", e.boostMatch))
    ensures !AnyBlocking(["implicit_request"]) && !AnyBlocking(["help_anchor"])
  {
    ListedIsHarmless("intent_verb: ", e.intentWord);
    ListedIsHarmless("academic_object: ", e.academicWord);
    ListedIsHarmless("urgency: ", e.urgencyMarker);
    ListedIsHarmless("help_expression: ", e.help);
    ListedIsHarmless("template_boost: ", e.boostMatch);
    HarmlessStart("implicit_request");
    HarmlessStart("help_anchor");
  }

  // --------------------------------------------------- one clause on its own

  /** What the searches found in one clause; `failed` when they raised an error. */
  datatype Clause = Clause(
    text: string, failed: bool, ignored: bool, intent: Option<string>, intentWeight: real,
    negated: bool, negScore: real, adScore: real,
    academic: Option<string>, academicWeight: real, expertOnly: bool,
    grammarMatch: bool, distance: real, urgent: bool, contextCount: nat, tokens: nat, lengthModifier: real)

  datatype Rescue = Rescue(confidence: real, reasons: seq<string>)

  function ClauseScores(p: Clause): Scores {
    Scores(p.intentWeight, p.academicWeight, BoolScore(p.grammarMatch),
           if p.academic.Some? then p.distance else 0.5, BoolScore(p.urgent), Lower(p.contextCount as real / 3.0, 1.0))
  }

  function ClauseFactor(p: Clause): real {
    if p.academic.Some? then p.lengthModifier + (1.0 - p.lengthModifier) * Relief(p.academicWeight)
    else p.lengthModifier
  }

  function ClauseConfidence(c: Config, p: Clause): (r: real)
    ensures Unit(r)
  {
    Clamp(Clamp(WeightedMean(c.weights, ClauseScores(p))) * ClauseFactor(p) * (1.0 - p.adScore * 0.9))
  }

  function ClauseReasons(p: Clause): seq<string> {
    ["clause_rescore: " + p.text[..Min(|p.text|, 40)]]
      + Listed("clause_intent: ", p.intent) + Listed("clause_object: ", p.academic)
  }

  /** The clause stands as a request of its own. */
  predicate Stands(c: Config, p: Clause) {
    && !p.failed && |p.text| >= 4 && !p.ignored && p.intent.Some?
    && !(p.negated && p.negScore > 0.5) && p.adScore <= 0.5 && !p.expertOnly
    && !(p.tokens <= 2 && p.academic.None?)
    && ClauseConfidence(c, p) >= c.accept
  }

  /** Clause `k` is the first of those that stand with the highest confidence. */
  ghost predicate Leads(c: Config, parts: seq<Clause>, n: nat, k: nat)
    requires k < n <= |parts|
  {
    && Stands(c, parts[k])
    && (forall j :: 0 <= j < n && Stands(c, parts[j]) ==>
      ClauseConfidence(c, parts[j]) <= ClauseConfidence(c, parts[k]))
    && forall j :: 0 <= j < k && Stands(c, parts[j]) ==> ClauseConfidence(c, parts[j]) < ClauseConfidence(c, parts[k])
  }

  ghost predicate BestClause(c: Config, parts: seq<Clause>, n: nat, r: Option<Rescue>)
    requires n <= |parts|
  {
    match r
    case None => forall j :: 0 <= j < n ==> !Stands(c, parts[j])
    case Some(best) =>
      exists k :: 0 <= k < n && Leads(c, parts, n, k)
        && best == Rescue(ClauseConfidence(c, parts[k]), ClauseReasons(parts[k]))
  }

  lemma NextClause(c: Config, parts: seq<Clause>, n: nat, r: Option<Rescue>)
    requires n < |parts| && BestClause(c, parts, n, r)
    ensures var p := parts[n];
      if Stands(c, p) && (r.None? || ClauseConfidence(c, p) > r.value.confidence)
      then BestClause(c, parts, n + 1, Some(Rescue(ClauseConfidence(c, p), ClauseReasons(p))))
      else BestClause(c, parts, n + 1, r)
  {
    if Stands(c, parts[n]) && (r.None? || ClauseConfidence(c, parts[n]) > r.value.confidence) {
      assert Leads(c, parts, n + 1, n);
    } else if r.Some? {
      var k :| 0 <= k < n && Leads(c, parts, n, k)
        && r.value == Rescue(ClauseConfidence(c, parts[k]), ClauseReasons(parts[k]));
      assert Leads(c, parts, n + 1, k);
    }
  }

  /** The clauses that stand are compared, and the first best is taken; a message of one
      clause has nothing to look at again. */
  method ClauseRescore(c: Config, parts: seq<Clause>) returns (r: Option<Rescue>)
    requires c.Valid()
    ensures if |parts| <= 1 then r == None else BestClause(c, parts, |parts|, r)
  {
    r := None;
    if |parts| <= 1 {
      return;
    }
    for n := 0 to |parts|
      invariant BestClause(c, parts, n, r)
    {
      NextClause(c, parts, n, r);
      var p := parts[n];
      if p.failed || |p.text| < 4 || p.ignored || p.intent.None? || (p.negated && p.negScore > 0.5)
        || p.adScore > 0.5 || p.expertOnly
      {
        continue;
      }
      var confidence := ClauseConfidence(c, p);
      if p.tokens <= 2 && p.academic.None? {
        continue;
      }
      if confidence >= c.accept && (r.None? || confidence > r.value.confidence) {
        r := Some(Rescue(confidence, ClauseReasons(p)));
      }
    }
  }

  // ---------------------------------------------------------- the decision

  datatype Decision = Accept | Review | Ignore

  datatype Outcome = Outcome(confidence: real, decision: Decision, reasons: seq<string>)

  function Band(c: Config, confidence: real): Decision {
    if confidence >= c.accept then Accept else if confidence >= c.review then Review else Ignore
  }

  /** A short request without an object is worth a look whatever its score. */
  predicate Terse(e: Evidence) {
    e.academicWord.None? &&
    (e.tokens <= 2 || (e.tokens == 3 && (e.help.Some? || e.helpAnchored))
      || (e.intentWord.None? && e.isImplicit && e.tokens <= 4))
  }

  function Lifted(c: Config, e: Evidence): Outcome {
    var base := Confidence(c, e);
    if Band(c, base) != Accept && Terse(e) then Outcome(Higher(base, c.review + 0.05), Review, Reasons(e))
    else Outcome(base, Band(c, base), Reasons(e))
  }

  predicate ExpertOnly(e: Evidence) {
    e.academicWord.Some? && e.expertOnly && !Specific(e)
  }

  function Capped(o: Outcome, expertOnly: bool): Outcome {
    var a := if o.decision == Accept && expertOnly
             then o.(decision := Review, reasons := o.reasons + ["capped: expert_only_context"]) else o;
    if a.decision == Accept && AnyBlocking(a.reasons)
    then a.(decision := Review, reasons := a.reasons + ["capped: resolution_with_new_request"]) else a
  }

  function Rescued(o: Outcome, up: Option<Rescue>): Outcome {
    if o.decision == Accept || up.None? || up.value.confidence <= o.confidence then o
    else
      var reasons := o.reasons + up.value.reasons;
      if AnyBlocking(reasons)
      then Outcome(Lower(1.0, up.value.confidence), Review, reasons + ["capped: rescore_respects_resolution_ceiling"])
      else Outcome(Lower(1.0, up.value.confidence), Accept, reasons)
  }

  function Final(c: Config, e: Evidence, up: Option<Rescue>): Outcome {
    Rescued(Capped(Lifted(c, e), ExpertOnly(e)), up)
  }

  /** What a second look can bring: nothing, or a confidence that alone is enough. */
  ghost predicate RescueOk(c: Config, up: Option<Rescue>) {
    up.Some? ==> c.accept <= up.value.confidence <= 1.0 && !AnyBlocking(up.value.reasons)
  }

  lemma ClauseReasonsAreHarmless(p: Clause)
    ensures !AnyBlocking(ClauseReasons(p))
  {
    var a := ["clause_rescore: " + p.text[..Min(|p.text|, 40)]];
    HarmlessStart(a[0]);
    ListedIsHarmless("clause_intent: ", p.intent);
    ListedIsHarmless("clause_object: ", p.academic);
    BlockingJoin(a, Listed("clause_intent: ", p.intent));
    BlockingJoin(a + Listed("clause_intent: ", p.intent), Listed("clause_object: ", p.academic));
  }

  lemma BestClauseIsOk(c: Config, parts: seq<Clause>, r: Option<Rescue>)
    requires BestClause(c, parts, |parts|, r)
    ensures RescueOk(c, r)
  {
    if r.Some? {
      var k :| 0 <= k < |parts| && Leads(c, parts, |parts|, k)
        && r.value == Rescue(ClauseConfidence(c, parts[k]), ClauseReasons(parts[k]));
      ClauseReasonsAreHarmless(parts[k]);
    }
  }

  lemma CappedReasons(o: Outcome, expertOnly: bool)
    ensures AnyBlocking(Capped(o, expertOnly).reasons) <==> AnyBlocking(o.reasons)
    ensures Capped(o, expertOnly).confidence == o.confidence
    ensures Capped(o, expertOnly).decision == Accept <==> o.decision == Accept && !expertOnly && !AnyBlocking(o.reasons)
  {
    HarmlessStart("capped: expert_only_context");
    HarmlessStart("capped: resolution_with_new_request");
    BlockingJoin(o.reasons, ["capped: expert_only_context"]);
    BlockingJoin(o.reasons, ["capped: resolution_with_new_request"]);
    BlockingJoin(o.reasons + ["capped: expert_only_context"], ["capped: resolution_with_new_request"]);
  }

  /** The reason starts as those of the resolution or of the after-post detector do. */
  ghost predicate Denies(reason: string) {
    exists more: string ::
      reason == "resolution_phrase_with_new_request" + more || reason == "post_clause_with_new_request" + more
  }

  lemma BlockingIff(reasons: seq<string>)
    ensures AnyBlocking(reasons) <==> exists r :: r in reasons && Denies(r)
  {
    forall r ensures Blocking(r) <==> Denies(r) {
      var a, b := "resolution_phrase_with_new_request", "post_clause_with_new_request";
      if a <= r {
        assert r == a + r[|a|..];
      } else if b <= r {
        assert r == b + r[|b|..];
      }
    }
    if AnyBlocking(reasons) {
      var k :| 0 <= k < |reasons| && Blocking(reasons[k]);
      assert reasons[k] in reasons && Denies(reasons[k]);
    }
  }

  /** When a message is accepted: no detector flagged it, and either its own confidence is
      enough and its object is not an expert-only one, or one clause alone is enough and
      better than the whole. */
  lemma AcceptedIff(c: Config, e: Evidence, up: Option<Rescue>)
    requires c.Valid() && RescueOk(c, up)
    ensures Final(c, e, up).decision == Accept <==>
      !Flagged(e) && ((Confidence(c, e) >= c.accept && !(e.academicWord.Some? && e.expertOnly && !e.specific))
                      || (up.Some? && up.value.confidence > Lifted(c, e).confidence))
    ensures Flagged(e) <==> exists r :: r in Reasons(e) && Denies(r)
  {
    ReasonsBlockIffFlagged(e);
    BlockingIff(Reasons(e));
    var lifted := Lifted(c, e);
    CappedReasons(lifted, ExpertOnly(e));
    var capped := Capped(lifted, ExpertOnly(e));
    if up.Some? {
      BlockingJoin(capped.reasons, up.value.reasons);
    }
  }

  /** An accepted message reaches the threshold and carries no blocking reason. */
  lemma AcceptedIsSafe(c: Config, e: Evidence, up: Option<Rescue>)
    requires c.Valid() && RescueOk(c, up) && Final(c, e, up).decision == Accept
    ensures Final(c, e, up).confidence >= c.accept && forall r :: r in Final(c, e, up).reasons ==> !Denies(r)
  {
    CappedReasons(Lifted(c, e), ExpertOnly(e));
    BlockingIff(Final(c, e, up).reasons);
  }

  /** The confidence stays between 0 and 1 except for a short message under a review
      threshold above 0.95, which the configuration allows. */
  lemma ConfidenceInUnitIff(c: Config, e: Evidence, up: Option<Rescue>)
    requires c.Valid() && RescueOk(c, up)
    ensures Unit(Final(c, e, up).confidence) <==> !(c.review > 0.95 && Terse(e) && Confidence(c, e) < c.accept)
  {
    CappedReasons(Lifted(c, e), ExpertOnly(e));
  }

  /** Such a case: a review threshold of 0.97 and one word without an object. */
  lemma ConfidenceAboveOne()
    ensures var c := Config(Weights(0.0, 0.0, 0.0, 0.0, 0.0, 0.0), false, 0.99, 0.97, false, 0, 0, 0, 0);
      var e := Evidence(Some("x"), Some(0), 0.7, false, false, None, None, 0.0, false, false, 0, None, false,
                        None, false, None, 0.0, 1, 1.0, false, 0.0, [], 0.0, []);
      c.Valid() && Final(c, e, None).confidence == 1.02
  {
    var c := Config(Weights(0.0, 0.0, 0.0, 0.0, 0.0, 0.0), false, 0.99, 0.97, false, 0, 0, 0, 0);
    var e := Evidence(Some("x"), Some(0), 0.7, false, false, None, None, 0.0, false, false, 0, None, false,
                      None, false, None, 0.0, 1, 1.0, false, 0.0, [], 0.0, []);
    assert LegacyScore(c, e) == 0;
    assert FactorsOf(c, e) == Factors(0.0, 1.0, 1.0, 1.0, 0.0);
    TerseIsLifted(c, e, FactorsOf(c, e));
  }

  /** A message that scores nothing but is looked at all the same. */
  lemma TerseIsLifted(c: Config, e: Evidence, x: Factors)
    requires c.Valid() && Terse(e) && x == FactorsOf(c, e) == Factors(0.0, 1.0, 1.0, 1.0, 0.0)
    ensures Final(c, e, None).confidence == c.review + 0.05
  {
    assert Total(x) == 0.0;
    CappedReasons(Lifted(c, e), ExpertOnly(e));
  }

  class FilterResult {
    var valid: bool
    var confidence: real
    var decision: Decision
    var reasons: seq<string>

    constructor ()
      ensures !valid && confidence == 0.0 && decision == Ignore && reasons == []
    {
      valid, confidence, decision, reasons := false, 0.0, Ignore, [];
    }

    function View(): Outcome
      reads this
    {
      Outcome(confidence, decision, reasons)
    }

    method Score(c: Config, e: Evidence)
      modifies this
      ensures View() == Lifted(c, e)
    {
      confidence, reasons := Confidence(c, e), Reasons(e);
      decision := Band(c, confidence);
      if decision != Accept && Terse(e) {
        confidence, decision := Higher(confidence, c.review + 0.05), Review;
      }
    }

    method Cap(expertOnly: bool)
      modifies this
      ensures View() == Capped(old(View()), expertOnly)
    {
      if decision == Accept && expertOnly {
        decision, reasons := Review, reasons + ["capped: expert_only_context"];
      }
      if decision == Accept && AnyBlocking(reasons) {
        decision, reasons := Review, reasons + ["capped: resolution_with_new_request"];
      }
    }

    method Raise(up: Option<Rescue>)
      requires decision != Accept
      modifies this
      ensures View() == Rescued(old(View()), up)
    {
      if up.Some? && up.value.confidence > confidence {
        confidence := Lower(1.0, up.value.confidence);
        decision, reasons := Accept, reasons + up.value.reasons;
        if AnyBlocking(reasons) {
          decision, reasons := Review, reasons + ["capped: rescore_respects_resolution_ceiling"];
        }
      }
    }

    /** Fills in the result step by step; `up` is what the second look brought, if any. */
    method Decide(c: Config, e: Evidence, parts: seq<Clause>) returns (ghost up: Option<Rescue>)
      requires c.Valid()
      modifies this
      ensures RescueOk(c, up)
      ensures if c.rescore && |parts| > 1 && Capped(Lifted(c, e), ExpertOnly(e)).decision != Accept
        then BestClause(c, parts, |parts|, up) else up == None
      ensures View() == Final(c, e, up)
      ensures valid <==> decision == Accept
    {
      Score(c, e);
      Cap(ExpertOnly(e));
      up := None;
      if c.rescore && decision != Accept {
        var rescue := ClauseRescore(c, parts);
        up := rescue;
        if |parts| > 1 {
          BestClauseIsOk(c, parts, rescue);
        }
        Raise(rescue);
      }
      valid := decision == Accept;
    }
  }
}
