/** Compatibility scores (packages/compatibility/src/scoring.ts) and readiness (packages/compatibility/src/readiness.ts).
    Numbers are reals: the rounding modelled is the rounding the code asks for. */
module Scoring {
  import opened Options
  import opened Rounding
  import opened Sequences

  datatype Category = CONTRACTS | RPC | TOKENS | ORACLES | PROTOCOLS | CROSS_CHAIN | FRONTEND | CONFIGURATION

  const CATEGORIES: seq<Category> :=
    [CONTRACTS, RPC, TOKENS, ORACLES, PROTOCOLS, CROSS_CHAIN, FRONTEND, CONFIGURATION]

  datatype FindingStatus = PASS | WARNING | BLOCKER | UNKNOWN

  datatype Finding = Finding(category: Category, status: FindingStatus)

  datatype Confidence = HIGH | MEDIUM | LOW

  datatype Counts = Counts(pass: nat, warning: nat, blocker: nat, unknown: nat)

  datatype CategoryScore = CategoryScore(category: Category, applicable: bool, weight: real, score: Option<real>, counts: Counts)

  datatype Scores = Scores(score: int, coverage: int, confidence: Confidence, categories: seq<CategoryScore>, counts: Counts)

  // ----- what the code computes with -----

  function CoverageConfidence(coverage: int): Confidence {
    if coverage >= 85 then HIGH else if coverage >= 50 then MEDIUM else LOW
  }

  function SoloWeight(c: Category): real {
    match c
    case RPC => 20.0
    case PROTOCOLS | CROSS_CHAIN => 10.0
    case _ => 15.0
  }

  function BaseWeight(c: Category, applicable: set<Category>): (w: real)
    ensures if c in applicable then 7.0 <= w <= 20.0 else w == 0.0
  {
    if c !in applicable then 0.0
    else if {FRONTEND, CONFIGURATION} <= applicable && c == FRONTEND then 8.0
    else if {FRONTEND, CONFIGURATION} <= applicable && c == CONFIGURATION then 7.0
    else SoloWeight(c)
  }

  function Factor(status: FindingStatus): real {
    match status
    case PASS => 1.0
    case WARNING => 0.7
    case _ => 0.0
  }

  function WithStatus(findings: seq<Finding>, status: FindingStatus): nat {
    |Filter((f: Finding) => f.status == status, findings)|
  }

  function CountByStatus(findings: seq<Finding>): Counts {
    Counts(WithStatus(findings, PASS), WithStatus(findings, WARNING), WithStatus(findings, BLOCKER),
           WithStatus(findings, UNKNOWN))
  }

  function Items(findings: seq<Finding>, c: Category): seq<Finding> {
    Filter((f: Finding) => f.category == c, findings)
  }

  function Known(items: seq<Finding>): seq<Finding> {
    Filter((f: Finding) => f.status != UNKNOWN, items)
  }

  function FactorSum(items: seq<Finding>): real {
    if items == [] then 0.0 else FactorSum(items[..|items| - 1]) + Factor(items[|items| - 1].status)
  }

  predicate Scored(findings: seq<Finding>, c: Category) {
    Known(Items(findings, c)) != []
  }

  function Applicable(findings: seq<Finding>): set<Category> {
    set c: Category | Items(findings, c) != []
  }

  function SumOver(f: Category -> real, cs: seq<Category>): real {
    if cs == [] then 0.0 else SumOver(f, cs[..|cs| - 1]) + f(cs[|cs| - 1])
  }

  function RawWeight(findings: seq<Finding>): Category -> real {
    c => if Scored(findings, c) then BaseWeight(c, Applicable(findings)) else 0.0
  }

  function WeightSum(findings: seq<Finding>): real {
    SumOver(RawWeight(findings), CATEGORIES)
  }

  function Times(x: real, y: real): real {
    x * y
  }

  function Percent(part: real, whole: real): real
    requires whole > 0.0
  {
    part / whole * 100.0
  }

  /** The share of a category, in percent. */
  function Share(findings: seq<Finding>, c: Category): real {
    if Scored(findings, c) && WeightSum(findings) > 0.0 then Percent(RawWeight(findings)(c), WeightSum(findings)) else 0.0
  }

  function Mean(items: seq<Finding>): real {
    var known := Known(items);
    if known == [] then 0.0 else FactorSum(known) / |known| as real
  }

  function To2(x: real): real {
    Round(x * 100.0) as real / 100.0
  }

  function To3(x: real): real {
    Round(x * 1000.0) as real / 1000.0
  }

  function CategoryScoreOf(findings: seq<Finding>, c: Category): CategoryScore {
    var items := Items(findings, c);
    CategoryScore(c, items != [], To2(Share(findings, c)),
                  if Scored(findings, c) then Some(To3(Mean(items))) else None, CountByStatus(items))
  }

  function Contribution(findings: seq<Finding>): Category -> real {
    c => if Scored(findings, c) then Times(To2(Share(findings, c)), To3(Mean(Items(findings, c)))) else 0.0
  }

  predicate AnyKnown(findings: seq<Finding>) {
    exists c :: c in CATEGORIES && Scored(findings, c)
  }

  function Score(findings: seq<Finding>): int {
    if AnyKnown(findings) then Round(SumOver(Contribution(findings), CATEGORIES))
    else if findings != [] then 0
    else 100
  }

  function CoverageFrom(total: nat, unknown: nat): int {
    if total == 0 then 100 else Round(Percent((total - unknown) as real, total as real))
  }

  function Coverage(findings: seq<Finding>): int {
    CoverageFrom(|findings|, CountByStatus(findings).unknown)
  }

  function ScoresOf(findings: seq<Finding>): Scores {
    Scores(Score(findings), Coverage(findings), CoverageConfidence(Coverage(findings)),
           seq(|CATEGORIES|, i requires 0 <= i < |CATEGORIES| => CategoryScoreOf(findings, CATEGORIES[i])),
           CountByStatus(findings))
  }

  // ----- sums over the categories -----

  lemma {:induction false} SumMonotone(f: Category -> real, g: Category -> real, cs: seq<Category>)
    requires forall c :: c in cs ==> f(c) <= g(c)
    ensures SumOver(f, cs) <= SumOver(g, cs)
  {
    if cs != [] {
      SumMonotone(f, g, cs[..|cs| - 1]);
      assert cs[|cs| - 1] in cs;
    }
  }

  lemma {:induction false} SumScaled(f: Category -> real, g: Category -> real, k: real, cs: seq<Category>)
    requires forall c :: c in cs ==> f(c) == g(c) * k
    ensures SumOver(f, cs) == SumOver(g, cs) * k
  {
    if cs != [] {
      SumScaled(f, g, k, cs[..|cs| - 1]);
      assert cs[|cs| - 1] in cs;
      var x, y := SumOver(g, cs[..|cs| - 1]), g(cs[|cs| - 1]);
      assert (x + y) * k == x * k + y * k;
    } else {
      assert 0.0 * k == 0.0;
    }
  }

  /** Two sums whose terms differ by at most a constant, and by a part of a third term. */
  lemma {:induction false} SumsNear(f: Category -> real, g: Category -> real, e: Category -> real, d: real, k: real, cs: seq<Category>)
    requires forall c :: c in cs ==> -(d + k * e(c)) <= f(c) - g(c) <= d + k * e(c)
    ensures var bound := d * |cs| as real + k * SumOver(e, cs);
            -bound <= SumOver(f, cs) - SumOver(g, cs) <= bound
  {
    if cs != [] {
      var before, c := cs[..|cs| - 1], cs[|cs| - 1];
      SumsNear(f, g, e, d, k, before);
      var n, x, sum := |before| as real, SumOver(e, before), SumOver(f, before) - SumOver(g, before);
      var y, term := e(c), f(c) - g(c);
      assert |cs| as real == n + 1.0 && SumOver(e, cs) == x + y && SumOver(f, cs) - SumOver(g, cs) == sum + term;
      assert c in cs && -(d + k * y) <= term <= d + k * y;
      hide *;
      NearStep(d, k, n, x, y, sum, term);
    } else {
      assert d * 0.0 == 0.0 && k * 0.0 == 0.0;
    }
  }

  lemma NearStep(d: real, k: real, n: real, x: real, y: real, sum: real, term: real)
    requires -(d * n + k * x) <= sum <= d * n + k * x && -(d + k * y) <= term <= d + k * y
    ensures -(d * (n + 1.0) + k * (x + y)) <= sum + term <= d * (n + 1.0) + k * (x + y)
  {
    assert k * (x + y) == k * x + k * y;
    assert d * (n + 1.0) == d * n + d;
  }

  lemma {:induction false} TermInSum(f: Category -> real, cs: seq<Category>, c: Category)
    requires c in cs && forall x :: x in cs ==> f(x) >= 0.0
    ensures SumOver(f, cs) >= f(c)
  {
    var before := cs[..|cs| - 1];
    assert cs[|cs| - 1] in cs && cs == before + [cs[|cs| - 1]];
    if c in before {
      TermInSum(f, before, c);
    } else {
      SumMonotone(_ => 0.0, f, before);
      SumZero(before);
    }
  }

  lemma {:induction false} SumZero(cs: seq<Category>)
    ensures SumOver(_ => 0.0, cs) == 0.0
  {
    if cs != [] {
      SumZero(cs[..|cs| - 1]);
    }
  }

  // ----- the exact score -----

  /** How many findings of this category have this status. */
  function Number(findings: seq<Finding>, c: Category, status: FindingStatus): nat {
    multiset(findings)[Finding(c, status)]
  }

  function KnownNumber(findings: seq<Finding>, c: Category): nat {
    Number(findings, c, PASS) + Number(findings, c, WARNING) + Number(findings, c, BLOCKER)
  }

  function ExactSum(findings: seq<Finding>, c: Category): real {
    Number(findings, c, PASS) as real + 0.7 * Number(findings, c, WARNING) as real
  }

  /** The mean of the severity factors of the known findings of a category. */
  function ExactMean(findings: seq<Finding>, c: Category): real {
    if KnownNumber(findings, c) == 0 then 0.0
    else ExactSum(findings, c) / KnownNumber(findings, c) as real
  }

  /** Some finding, known or not, is of this category. */
  predicate Applies(findings: seq<Finding>, c: Category) {
    KnownNumber(findings, c) + Number(findings, c, UNKNOWN) > 0
  }

  /** The documented weight of a category that takes part: front end and configuration share 15. */
  function ExactWeight(findings: seq<Finding>): Category -> real {
    c =>
      if KnownNumber(findings, c) == 0 then 0.0
      else
        match c
        case CONTRACTS => 15.0
        case RPC => 20.0
        case TOKENS => 15.0
        case ORACLES => 15.0
        case PROTOCOLS => 10.0
        case CROSS_CHAIN => 10.0
        case FRONTEND => if Applies(findings, CONFIGURATION) then 8.0 else 15.0
        case CONFIGURATION => if Applies(findings, FRONTEND) then 7.0 else 15.0
  }

  function ExactProduct(findings: seq<Finding>): Category -> real {
    c => Times(ExactWeight(findings)(c), ExactMean(findings, c))
  }

  /** The weighted mean, in percent, without any rounding. */
  function ExactScore(findings: seq<Finding>): real
    requires SumOver(ExactWeight(findings), CATEGORIES) > 0.0
  {
    Percent(SumOver(ExactProduct(findings), CATEGORIES), SumOver(ExactWeight(findings), CATEGORIES))
  }

  lemma {:induction false} WithStatusOf(findings: seq<Finding>, c: Category, status: FindingStatus)
    ensures WithStatus(Items(findings, c), status) == Number(findings, c, status)
  {
    var inCategory, hasStatus := (f: Finding) => f.category == c, (f: Finding) => f.status == status;
    if findings != [] {
      var before, last := findings[..|findings| - 1], findings[|findings| - 1];
      WithStatusOf(before, c, status);
      assert findings == before + [last];
      FilterAppend(inCategory, before, [last]);
      FilterAppend(hasStatus, Items(before, c), Filter(inCategory, [last]));
    }
  }

  lemma ItemsLast(before: seq<Finding>, last: Finding, c: Category)
    ensures Items(before + [last], c) == Items(before, c) + if last.category == c then [last] else []
    ensures Known(Items(before + [last], c)) ==
            Known(Items(before, c)) + if last.category == c && last.status != UNKNOWN then [last] else []
  {
    FilterAppend((f: Finding) => f.category == c, before, [last]);
    FilterAppend((f: Finding) => f.status != UNKNOWN, Items(before, c), if last.category == c then [last] else []);
  }

  lemma FactorSumLast(items: seq<Finding>, last: Finding)
    ensures FactorSum(items + [last]) == FactorSum(items) + Factor(last.status)
  {
    assert (items + [last])[..|items|] == items;
  }

  lemma NumberLast(before: seq<Finding>, last: Finding, c: Category)
    ensures forall s :: Number(before + [last], c, s) ==
                        Number(before, c, s) + if last.category == c && last.status == s then 1 else 0
  {
  }

  lemma {:induction false} KnownItems(findings: seq<Finding>, c: Category)
    ensures |Known(Items(findings, c))| == KnownNumber(findings, c)
    ensures FactorSum(Known(Items(findings, c))) ==
            ExactSum(findings, c)
  {
    if findings != [] {
      var before, last := findings[..|findings| - 1], findings[|findings| - 1];
      assert findings == before + [last];
      KnownItems(before, c);
      KnownItemsLast(before, last, c);
    }
  }

  lemma KnownItemsLast(before: seq<Finding>, last: Finding, c: Category)
    requires |Known(Items(before, c))| == KnownNumber(before, c)
    requires FactorSum(Known(Items(before, c))) == ExactSum(before, c)
    ensures var after := before + [last];
            && |Known(Items(after, c))| == KnownNumber(after, c)
            && FactorSum(Known(Items(after, c))) == ExactSum(after, c)
  {
    ItemsLast(before, last, c);
    NumberLast(before, last, c);
    FactorSumLast(Known(Items(before, c)), last);
    hide Items, Known, FactorSum, Number;
    var known := Known(Items(before, c));
    if last.category == c && last.status != UNKNOWN {
      assert Known(Items(before + [last], c)) == known + [last];
    } else {
      assert Known(Items(before + [last], c)) == known;
    }
  }

  lemma {:induction false} ItemsNumber(findings: seq<Finding>, c: Category)
    ensures |Items(findings, c)| == KnownNumber(findings, c) + Number(findings, c, UNKNOWN)
  {
    if findings != [] {
      var before, last := findings[..|findings| - 1], findings[|findings| - 1];
      assert findings == before + [last];
      ItemsNumber(before, c);
      ItemsLast(before, last, c);
      NumberLast(before, last, c);
      hide Items, Number;
    }
  }

  lemma MeanOf(findings: seq<Finding>, c: Category)
    ensures Mean(Items(findings, c)) == ExactMean(findings, c)
    ensures Scored(findings, c) <==> KnownNumber(findings, c) > 0
    ensures c in Applicable(findings) <==> Applies(findings, c)
  {
    KnownItems(findings, c);
    ItemsNumber(findings, c);
    hide Items, Known, FactorSum;
  }

  lemma WeightOf(findings: seq<Finding>, c: Category)
    ensures RawWeight(findings)(c) == ExactWeight(findings)(c)
  {
    MeanOf(findings, c);
    MeanOf(findings, FRONTEND);
    MeanOf(findings, CONFIGURATION);
    hide Scored, Applicable, Mean, ExactMean, Number, KnownNumber;
    assert KnownNumber(findings, c) > 0 ==> Applies(findings, c);
  }

  /** The code's means and weights are the exact ones. */
  lemma MeansAndWeights(findings: seq<Finding>)
    ensures forall c :: Mean(Items(findings, c)) == ExactMean(findings, c)
    ensures forall c :: RawWeight(findings)(c) == ExactWeight(findings)(c)
    ensures forall c :: Scored(findings, c) <==> KnownNumber(findings, c) > 0
  {
    hide *;
    forall c: Category
      ensures Mean(Items(findings, c)) == ExactMean(findings, c)
      ensures RawWeight(findings)(c) == ExactWeight(findings)(c)
      ensures Scored(findings, c) <==> KnownNumber(findings, c) > 0
    {
      MeanOf(findings, c);
      WeightOf(findings, c);
    }
  }

  // ----- bounds -----

  lemma {:induction false} FactorSumBounds(items: seq<Finding>)
    ensures 0.0 <= FactorSum(items) <= |items| as real
  {
    if items != [] {
      FactorSumBounds(items[..|items| - 1]);
    }
  }

  lemma MeanBounds(items: seq<Finding>)
    ensures 0.0 <= Mean(items) <= 1.0
  {
    FactorSumBounds(Known(items));
  }

  lemma Rounding3(x: real)
    requires 0.0 <= x <= 1.0
    ensures 0.0 <= To3(x) <= 1.0 && -0.0005 <= To3(x) - x <= 0.0005
  {
    RoundInteger(0);
    RoundInteger(1000);
    RoundMonotone(0.0, x * 1000.0);
    RoundMonotone(x * 1000.0, 1000.0);
    RoundNear(x * 1000.0);
  }

  lemma Rounding2(x: real)
    requires 0.0 <= x
    ensures 0.0 <= To2(x) && -0.005 <= To2(x) - x <= 0.005
  {
    RoundInteger(0);
    RoundMonotone(0.0, x * 100.0);
    RoundNear(x * 100.0);
  }

  lemma PercentNonnegative(part: real, whole: real)
    requires part >= 0.0 && whole > 0.0
    ensures Percent(part, whole) >= 0.0
  {
    assert part / whole >= 0.0;
  }

  lemma RawWeightBounds(findings: seq<Finding>, c: Category)
    ensures RawWeight(findings)(c) >= 0.0
    ensures Scored(findings, c) ==> RawWeight(findings)(c) >= 7.0
  {
    if Scored(findings, c) {
      ScoredIsApplicable(findings, c);
    }
  }

  lemma SharesAreNonnegative(findings: seq<Finding>, c: Category)
    ensures Share(findings, c) >= 0.0
  {
    RawWeightBounds(findings, c);
    hide Percent, Scored, WeightSum, BaseWeight;
    if Scored(findings, c) && WeightSum(findings) > 0.0 {
      PercentNonnegative(RawWeight(findings)(c), WeightSum(findings));
    }
  }

  function ShareOf(findings: seq<Finding>): Category -> real {
    c => Share(findings, c)
  }

  lemma WeightSumPositive(findings: seq<Finding>)
    ensures WeightSum(findings) > 0.0 <==> AnyKnown(findings)
  {
    forall c
      ensures RawWeight(findings)(c) >= 0.0 && (Scored(findings, c) ==> RawWeight(findings)(c) >= 7.0)
    {
      RawWeightBounds(findings, c);
    }
    if AnyKnown(findings) {
      var c :| c in CATEGORIES && Scored(findings, c);
      hide Scored, BaseWeight, SumOver;
      TermInSum(RawWeight(findings), CATEGORIES, c);
    } else {
      hide BaseWeight, SumOver;
      SumMonotone(RawWeight(findings), _ => 0.0, CATEGORIES);
      SumZero(CATEGORIES);
    }
  }

  /** The shares of the categories that take part add up to 100. */
  lemma SharesSum(findings: seq<Finding>)
    requires AnyKnown(findings)
    ensures SumOver(ShareOf(findings), CATEGORIES) == 100.0
  {
    WeightSumPositive(findings);
    var w := WeightSum(findings);
    hide Scored, BaseWeight, SumOver, Percent, AnyKnown;
    forall c
      ensures ShareOf(findings)(c) == RawWeight(findings)(c) * (100.0 / w)
    {
      Proportion(RawWeight(findings)(c), w);
    }
    Proportion(w, w);
    SumScaled(ShareOf(findings), RawWeight(findings), 100.0 / w, CATEGORIES);
  }

  lemma Proportion(raw: real, w: real)
    requires w > 0.0
    ensures Percent(raw, w) == raw * (100.0 / w)
    ensures Percent(w, w) == 100.0 && 0.0 * (100.0 / w) == 0.0
  {
  }

  lemma ScoredIsApplicable(findings: seq<Finding>, c: Category)
    requires Scored(findings, c)
    ensures c in Applicable(findings)
  {
  }

  function ExactContribution(findings: seq<Finding>): Category -> real {
    c => Times(Share(findings, c), Mean(Items(findings, c)))
  }

  lemma TimesMonotone(x: real, y: real, k: real)
    requires x <= y && 0.0 <= k
    ensures Times(x, k) <= Times(y, k) && Times(k, x) <= Times(k, y)
  {
  }

  lemma TimesNear(x: real, y: real, d: real, k: real)
    requires -d <= x - y <= d && 0.0 <= k
    ensures -Times(d, k) <= Times(x, k) - Times(y, k) <= Times(d, k)
    ensures -Times(d, k) <= Times(k, x) - Times(k, y) <= Times(d, k)
  {
    assert Times(x - y, k) == Times(x, k) - Times(y, k) && Times(-d, k) == -Times(d, k);
    assert Times(k, x) == Times(x, k) && Times(k, y) == Times(y, k);
    hide Times;
    TimesMonotone(x - y, d, k);
    TimesMonotone(-d, x - y, k);
  }

  lemma TimesFraction(x: real, k: real)
    requires 0.0 <= x && 0.0 <= k <= 1.0
    ensures 0.0 <= Times(x, k) <= x
  {
    assert Times(x, 0.0) == 0.0 && Times(x, 1.0) == x;
    hide Times;
    TimesMonotone(0.0, k, x);
    TimesMonotone(k, 1.0, x);
  }

  /** Rounding the share to two decimals and the mean to three changes the product by little. */
  lemma TermNear(share: real, weight: real, mean: real, value: real)
    requires 0.0 <= share && 0.0 <= value <= 1.0
    requires -0.005 <= weight - share <= 0.005 && -0.0005 <= value - mean <= 0.0005
    ensures var bound := 0.005 + 0.0005 * share; -bound <= Times(weight, value) - Times(share, mean) <= bound
  {
    assert Times(0.005, value) <= 0.005 && Times(0.0005, share) == 0.0005 * share;
    hide Times;
    TimesNear(weight, share, 0.005, value);
    TimesNear(value, mean, 0.0005, share);
  }

  lemma ContributionNear(findings: seq<Finding>, c: Category)
    ensures var bound := 0.005 + 0.0005 * Share(findings, c);
            -bound <= Contribution(findings)(c) - ExactContribution(findings)(c) <= bound
    ensures 0.0 <= Contribution(findings)(c) <= To2(Share(findings, c))
  {
    var share, mean := Share(findings, c), Mean(Items(findings, c));
    SharesAreNonnegative(findings, c);
    MeanBounds(Items(findings, c));
    Rounding2(share);
    Rounding3(mean);
    assert Times(0.0, mean) == 0.0;
    hide Scored, Mean, Items, To2, To3, Times, Percent, WeightSum;
    if Scored(findings, c) {
      hide Share;
      TermNear(share, To2(share), mean, To3(mean));
      TimesFraction(To2(share), To3(mean));
    }
  }

  function Weights(findings: seq<Finding>): Category -> real {
    c => To2(Share(findings, c))
  }

  lemma WeightsNear(findings: seq<Finding>, cs: seq<Category>)
    ensures var bound := 0.005 * |cs| as real;
            -bound <= SumOver(Weights(findings), cs) - SumOver(ShareOf(findings), cs) <= bound
  {
    hide SumOver, Share, To2;
    forall c
      ensures -0.005 <= Weights(findings)(c) - ShareOf(findings)(c) <= 0.005
    {
      SharesAreNonnegative(findings, c);
      Rounding2(Share(findings, c));
    }
    SumsNear(Weights(findings), ShareOf(findings), ShareOf(findings), 0.005, 0.0, cs);
  }

  lemma WeightsSum(findings: seq<Finding>)
    requires AnyKnown(findings)
    ensures 99.96 <= SumOver(Weights(findings), CATEGORIES) <= 100.04
  {
    assert |CATEGORIES| == 8;
    hide *;
    SharesSum(findings);
    WeightsNear(findings, CATEGORIES);
  }

  lemma SumsEqual(f: Category -> real, g: Category -> real, cs: seq<Category>)
    requires forall c :: f(c) == g(c)
    ensures SumOver(f, cs) == SumOver(g, cs)
  {
    SumMonotone(f, g, cs);
    SumMonotone(g, f, cs);
  }

  lemma WeightsAreExact(findings: seq<Finding>)
    ensures WeightSum(findings) == SumOver(ExactWeight(findings), CATEGORIES)
  {
    MeansAndWeights(findings);
    hide RawWeight, ExactWeight, SumOver;
    SumsEqual(RawWeight(findings), ExactWeight(findings), CATEGORIES);
  }

  lemma ShareTimes(raw: real, w: real, mean: real)
    requires w > 0.0
    ensures Times(Percent(raw, w), mean) == Times(raw, mean) * (100.0 / w)
    ensures Times(0.0, mean) == 0.0 && 0.0 * (100.0 / w) == 0.0
  {
    var k := 100.0 / w;
    assert Percent(raw, w) == raw * k;
    assert raw * k * mean == raw * mean * k;
  }

  lemma ShareOfRaw(findings: seq<Finding>, c: Category)
    requires WeightSum(findings) > 0.0
    ensures Share(findings, c) == Percent(RawWeight(findings)(c), WeightSum(findings))
  {
    hide Scored, WeightSum, BaseWeight;
    assert Percent(0.0, WeightSum(findings)) == 0.0;
  }

  lemma ExactTerm(findings: seq<Finding>, c: Category)
    requires WeightSum(findings) > 0.0
    ensures ExactContribution(findings)(c) == ExactProduct(findings)(c) * (100.0 / WeightSum(findings))
  {
    hide Scored, WeightSum, Mean, Items, RawWeight, ExactWeight, ExactMean, Percent, Times, Share;
    MeansAndWeights(findings);
    ShareOfRaw(findings, c);
    ShareTimes(RawWeight(findings)(c), WeightSum(findings), ExactMean(findings, c));
    assert ExactContribution(findings)(c) == Times(Share(findings, c), Mean(Items(findings, c)));
  }

  lemma ContributionsAreExact(findings: seq<Finding>)
    requires AnyKnown(findings)
    ensures SumOver(ExactWeight(findings), CATEGORIES) > 0.0
    ensures SumOver(ExactContribution(findings), CATEGORIES) == ExactScore(findings)
  {
    WeightSumPositive(findings);
    WeightsAreExact(findings);
    var w := WeightSum(findings);
    hide AnyKnown, SumOver, WeightSum, Percent, ExactContribution, ExactProduct, ExactWeight;
    forall c
      ensures ExactContribution(findings)(c) == ExactProduct(findings)(c) * (100.0 / w)
    {
      ExactTerm(findings, c);
    }
    SumScaled(ExactContribution(findings), ExactProduct(findings), 100.0 / w, CATEGORIES);
    Proportion(SumOver(ExactProduct(findings), CATEGORIES), w);
  }

  // ----- what the score promises -----

  lemma ContributionsNearOver(findings: seq<Finding>, cs: seq<Category>)
    ensures var bound := 0.005 * |cs| as real + 0.0005 * SumOver(ShareOf(findings), cs);
            -bound <= SumOver(Contribution(findings), cs) - SumOver(ExactContribution(findings), cs) <= bound
  {
    hide SumOver, Contribution, ExactContribution, Share;
    forall c
      ensures var bound := 0.005 + 0.0005 * ShareOf(findings)(c);
              -bound <= Contribution(findings)(c) - ExactContribution(findings)(c) <= bound
    {
      ContributionNear(findings, c);
    }
    SumsNear(Contribution(findings), ExactContribution(findings), ShareOf(findings), 0.005, 0.0005, cs);
  }

  lemma ContributionsNear(findings: seq<Finding>)
    requires AnyKnown(findings)
    ensures -0.09 <= SumOver(Contribution(findings), CATEGORIES) - SumOver(ExactContribution(findings), CATEGORIES) <= 0.09
  {
    assert |CATEGORIES| == 8;
    hide *;
    SharesSum(findings);
    ContributionsNearOver(findings, CATEGORIES);
  }

  /** When anything is known, the score is within 0.59 of the exact weighted mean, for all three layers of rounding. */
  lemma ScoreNearExact(findings: seq<Finding>)
    requires AnyKnown(findings)
    ensures SumOver(ExactWeight(findings), CATEGORIES) > 0.0
    ensures -0.59 <= Score(findings) as real - ExactScore(findings) <= 0.59
  {
    ContributionsAreExact(findings);
    ContributionsNear(findings);
    RoundNear(SumOver(Contribution(findings), CATEGORIES));
    hide AnyKnown, SumOver, Contribution, ExactContribution, ExactScore, Round;
  }

  lemma WeightedInRange(findings: seq<Finding>)
    requires AnyKnown(findings)
    ensures 0.0 <= SumOver(Contribution(findings), CATEGORIES) <= 100.04
  {
    WeightsSum(findings);
    forall c
      ensures 0.0 <= Contribution(findings)(c) <= Weights(findings)(c)
    {
      ContributionNear(findings, c);
    }
    hide AnyKnown, SumOver, Contribution, Weights;
    SumMonotone(Contribution(findings), Weights(findings), CATEGORIES);
    SumMonotone(_ => 0.0, Contribution(findings), CATEGORIES);
    SumZero(CATEGORIES);
  }

  lemma {:induction false} FilterLength<T>(p: T -> bool, s: seq<T>)
    ensures |Filter(p, s)| <= |s|
  {
    if s != [] {
      FilterLength(p, s[1..]);
    }
  }

  lemma CoverageInRange(findings: seq<Finding>)
    ensures 0 <= Coverage(findings) <= 100
    ensures WithStatus(findings, UNKNOWN) == 0 ==> Coverage(findings) == 100
  {
    FilterLength((f: Finding) => f.status == UNKNOWN, findings);
    if findings != [] {
      var known, n := (|findings| - WithStatus(findings, UNKNOWN)) as real, |findings| as real;
      hide WithStatus;
      PercentBounds(known, n);
      RoundInteger(0);
      RoundInteger(100);
      RoundMonotone(0.0, Percent(known, n));
      RoundMonotone(Percent(known, n), 100.0);
    }
  }

  lemma PercentBounds(part: real, whole: real)
    requires 0.0 <= part <= whole && whole > 0.0
    ensures 0.0 <= Percent(part, whole) <= 100.0 && Percent(whole, whole) == 100.0
  {
    assert 0.0 <= part / whole <= 1.0;
  }

  /** The score and the coverage are whole numbers from 0 to 100, although rounded weights may add up to more. */
  lemma ScoreInRange(findings: seq<Finding>)
    ensures 0 <= Score(findings) <= 100 && 0 <= Coverage(findings) <= 100
  {
    CoverageInRange(findings);
    if AnyKnown(findings) {
      WeightedInRange(findings);
      var weighted := SumOver(Contribution(findings), CATEGORIES);
      hide AnyKnown, SumOver, Contribution, Coverage;
      RoundInteger(0);
      RoundMonotone(0.0, weighted);
      RoundMonotone(weighted, 100.04);
      assert Round(100.04) == 100;
    }
  }

  // ----- changing a finding -----

  function Raised(findings: seq<Finding>, i: nat, status: FindingStatus): seq<Finding>
    requires i < |findings|
  {
    findings[i := findings[i].(status := status)]
  }

  lemma RaisedNumber(findings: seq<Finding>, i: nat, status: FindingStatus, c: Category)
    requires i < |findings| && findings[i].status != status
    ensures var after := Raised(findings, i, status);
            forall s :: Number(after, c, s) == Number(findings, c, s)
                        - (if c == findings[i].category && s == findings[i].status then 1 else 0)
                        + (if c == findings[i].category && s == status then 1 else 0)
  {
    var after := Raised(findings, i, status);
    assert multiset(after) == multiset(findings) - multiset{findings[i]} + multiset{after[i]};
  }

  lemma QuotientMonotone(x: real, y: real, n: real)
    requires x <= y && n > 0.0
    ensures x / n <= y / n
  {
  }

  lemma RaisedSums(findings: seq<Finding>, i: nat, status: FindingStatus, c: Category)
    requires i < |findings| && findings[i].status != status && findings[i].status != UNKNOWN && status != UNKNOWN
    requires Factor(findings[i].status) <= Factor(status)
    ensures var after := Raised(findings, i, status);
            && KnownNumber(after, c) == KnownNumber(findings, c)
            && Number(after, c, UNKNOWN) == Number(findings, c, UNKNOWN)
            && ExactSum(findings, c) <= ExactSum(after, c)
  {
    RaisedNumber(findings, i, status, c);
    hide Number, Raised;
    var after, from := Raised(findings, i, status), findings[i].status;
    if c == findings[i].category {
      assert Number(after, c, from) == Number(findings, c, from) - 1;
      assert Number(after, c, status) == Number(findings, c, status) + 1;
    }
  }

  lemma RaisedMean(findings: seq<Finding>, i: nat, status: FindingStatus, c: Category)
    requires i < |findings| && findings[i].status != status && findings[i].status != UNKNOWN && status != UNKNOWN
    requires Factor(findings[i].status) <= Factor(status)
    ensures var after := Raised(findings, i, status);
            && KnownNumber(after, c) == KnownNumber(findings, c)
            && Number(after, c, UNKNOWN) == Number(findings, c, UNKNOWN)
            && ExactMean(findings, c) <= ExactMean(after, c)
  {
    RaisedSums(findings, i, status, c);
    var after := Raised(findings, i, status);
    hide Number, Raised, KnownNumber, Factor;
    if KnownNumber(findings, c) > 0 {
      QuotientMonotone(ExactSum(findings, c), ExactSum(after, c), KnownNumber(findings, c) as real);
    }
  }

  lemma SameWeights(f: seq<Finding>, g: seq<Finding>)
    requires forall c :: KnownNumber(f, c) == KnownNumber(g, c) && Number(f, c, UNKNOWN) == Number(g, c, UNKNOWN)
    ensures forall c :: (Scored(f, c) <==> Scored(g, c)) && RawWeight(f)(c) == RawWeight(g)(c)
  {
    MeansAndWeights(f);
    MeansAndWeights(g);
    hide *;
    forall c: Category
      ensures ExactWeight(f)(c) == ExactWeight(g)(c)
    {
      SameWeight(f, g, c);
    }
  }

  lemma SameWeight(f: seq<Finding>, g: seq<Finding>, c: Category)
    requires forall c :: KnownNumber(f, c) == KnownNumber(g, c) && Number(f, c, UNKNOWN) == Number(g, c, UNKNOWN)
    ensures ExactWeight(f)(c) == ExactWeight(g)(c)
  {
    hide KnownNumber, Number;
  }

  /** Two lists of findings with the same known and unknown numbers give every category the same share. */
  lemma SameShares(f: seq<Finding>, g: seq<Finding>)
    requires forall c :: KnownNumber(f, c) == KnownNumber(g, c) && Number(f, c, UNKNOWN) == Number(g, c, UNKNOWN)
    ensures forall c :: (Scored(f, c) <==> Scored(g, c)) && Share(f, c) == Share(g, c)
    ensures AnyKnown(f) <==> AnyKnown(g)
  {
    SameWeights(f, g);
    hide KnownNumber, Number, Scored, SumOver, RawWeight, Percent;
    SumsEqual(RawWeight(f), RawWeight(g), CATEGORIES);
  }

  lemma Rounding3Monotone(x: real, y: real)
    requires x <= y
    ensures To3(x) <= To3(y)
  {
    RoundMonotone(x * 1000.0, y * 1000.0);
  }

  lemma RaisedContribution(f: seq<Finding>, g: seq<Finding>, c: Category)
    requires (Scored(f, c) <==> Scored(g, c)) && Share(f, c) == Share(g, c)
    requires Mean(Items(f, c)) <= Mean(Items(g, c))
    ensures Contribution(f)(c) <= Contribution(g)(c)
  {
    SharesAreNonnegative(f, c);
    Rounding2(Share(f, c));
    Rounding3Monotone(Mean(Items(f, c)), Mean(Items(g, c)));
    hide Share, Scored, Mean, Items, To2, To3, Times;
    TimesMonotone(To3(Mean(Items(f, c))), To3(Mean(Items(g, c))), To2(Share(f, c)));
  }

  /** Raising a known finding, from BLOCKER towards PASS, never lowers the score. */
  lemma RaisingNeverLowers(findings: seq<Finding>, i: nat, status: FindingStatus)
    requires i < |findings| && findings[i].status != UNKNOWN && status != UNKNOWN
    requires Factor(findings[i].status) <= Factor(status)
    ensures Score(findings) <= Score(Raised(findings, i, status))
  {
    var after := Raised(findings, i, status);
    if findings[i].status == status {
      assert after == findings;
    } else {
      forall c: Category
        ensures KnownNumber(after, c) == KnownNumber(findings, c)
        ensures Number(after, c, UNKNOWN) == Number(findings, c, UNKNOWN)
        ensures ExactMean(findings, c) <= ExactMean(after, c)
      {
        RaisedMean(findings, i, status, c);
      }
      assert findings != [] && after != [];
      RaisedScore(findings, after);
    }
  }

  lemma RaisedScore(f: seq<Finding>, g: seq<Finding>)
    requires f != [] && g != []
    requires forall c :: KnownNumber(f, c) == KnownNumber(g, c) && Number(f, c, UNKNOWN) == Number(g, c, UNKNOWN)
    requires forall c :: ExactMean(f, c) <= ExactMean(g, c)
    ensures Score(f) <= Score(g)
  {
    SameShares(f, g);
    MeansAndWeights(f);
    MeansAndWeights(g);
    hide KnownNumber, Number, Applies, ExactMean, SumOver, Contribution, AnyKnown, Share, Scored, Mean, RawWeight, ExactWeight;
    forall c
      ensures Contribution(f)(c) <= Contribution(g)(c)
    {
      RaisedContribution(f, g, c);
    }
    SumMonotone(Contribution(f), Contribution(g), CATEGORIES);
    RoundMonotone(SumOver(Contribution(f), CATEGORIES), SumOver(Contribution(g), CATEGORIES));
  }

  // ----- order and totals -----

  lemma SameCategoryScore(f: seq<Finding>, g: seq<Finding>, c: Category)
    requires multiset(f) == multiset(g)
    requires (Scored(f, c) <==> Scored(g, c)) && Share(f, c) == Share(g, c) && Mean(Items(f, c)) == Mean(Items(g, c))
    ensures CategoryScoreOf(f, c) == CategoryScoreOf(g, c) && Contribution(f)(c) == Contribution(g)(c)
  {
    hide Scored, Share, Mean, Items, To2, To3, WithStatus;
    ItemsNumber(f, c);
    ItemsNumber(g, c);
    forall s: FindingStatus
      ensures WithStatus(Items(f, c), s) == WithStatus(Items(g, c), s)
    {
      WithStatusOf(f, c, s);
      WithStatusOf(g, c, s);
    }
  }

  function NumberOf(findings: seq<Finding>, s: FindingStatus): Category -> real {
    c => Number(findings, c, s) as real
  }

  /** The counts of the categories add up to the counts of the whole. */
  lemma {:induction false} StatusTotals(findings: seq<Finding>, s: FindingStatus)
    ensures WithStatus(findings, s) as real == SumOver(NumberOf(findings, s), CATEGORIES)
  {
    if findings == [] {
      hide SumOver;
      SumsEqual(NumberOf(findings, s), _ => 0.0, CATEGORIES);
      SumZero(CATEGORIES);
    } else {
      var before, last := findings[..|findings| - 1], findings[|findings| - 1];
      assert findings == before + [last];
      StatusTotals(before, s);
      FilterAppend((f: Finding) => f.status == s, before, [last]);
      hide SumOver;
      TotalLast(before, last, s);
    }
  }

  lemma AllCategories(c: Category)
    ensures c in CATEGORIES && Distinct(CATEGORIES)
  {
    assert CATEGORIES[0] == CONTRACTS && CATEGORIES[1] == RPC && CATEGORIES[2] == TOKENS && CATEGORIES[3] == ORACLES;
    assert CATEGORIES[4] == PROTOCOLS && CATEGORIES[5] == CROSS_CHAIN;
    assert CATEGORIES[6] == FRONTEND && CATEGORIES[7] == CONFIGURATION;
  }

  lemma TotalLast(before: seq<Finding>, last: Finding, s: FindingStatus)
    ensures SumOver(NumberOf(before + [last], s), CATEGORIES) ==
            SumOver(NumberOf(before, s), CATEGORIES) + if last.status == s then 1.0 else 0.0
  {
    var after := before + [last];
    forall c: Category
      ensures NumberOf(after, s)(c) == NumberOf(before, s)(c) + if c == last.category && last.status == s then 1.0 else 0.0
    {
      NumberLast(before, last, c);
    }
    AllCategories(last.category);
    hide Number, NumberOf, SumOver, Distinct;
    OneMore(NumberOf(before, s), NumberOf(after, s), last.category, if last.status == s then 1.0 else 0.0, CATEGORIES);
  }

  lemma {:induction false} OneMore(f: Category -> real, g: Category -> real, c: Category, d: real, cs: seq<Category>)
    requires Distinct(cs) && forall x :: g(x) == f(x) + if x == c then d else 0.0
    ensures SumOver(g, cs) == SumOver(f, cs) + if c in cs then d else 0.0
  {
    if cs != [] {
      OneMore(f, g, c, d, cs[..|cs| - 1]);
      assert cs == cs[..|cs| - 1] + [cs[|cs| - 1]];
    }
  }

  lemma SameExactMeans(f: seq<Finding>, g: seq<Finding>)
    requires multiset(f) == multiset(g)
    ensures forall c :: KnownNumber(f, c) == KnownNumber(g, c) && Number(f, c, UNKNOWN) == Number(g, c, UNKNOWN)
    ensures forall c :: ExactMean(f, c) == ExactMean(g, c)
  {
  }

  lemma SameMeans(f: seq<Finding>, g: seq<Finding>)
    requires multiset(f) == multiset(g)
    ensures forall c :: Mean(Items(f, c)) == Mean(Items(g, c))
    ensures forall c :: (Scored(f, c) <==> Scored(g, c)) && Share(f, c) == Share(g, c)
    ensures AnyKnown(f) <==> AnyKnown(g)
  {
    hide *;
    SameExactMeans(f, g);
    SameShares(f, g);
    MeansAndWeights(f);
    MeansAndWeights(g);
  }

  lemma SameTotals(f: seq<Finding>, g: seq<Finding>)
    requires multiset(f) == multiset(g)
    ensures |f| == |g| && CountByStatus(f) == CountByStatus(g) && Coverage(f) == Coverage(g)
  {
    assert |multiset(f)| == |f| && |multiset(g)| == |g|;
    forall s: FindingStatus
      ensures WithStatus(f, s) == WithStatus(g, s)
    {
      StatusTotals(f, s);
      StatusTotals(g, s);
      hide SumOver, WithStatus;
      SumsEqual(NumberOf(f, s), NumberOf(g, s), CATEGORIES);
    }
  }

  /** The result does not depend on the order of the findings. */
  lemma OrderIrrelevant(f: seq<Finding>, g: seq<Finding>)
    requires multiset(f) == multiset(g)
    ensures ScoresOf(f) == ScoresOf(g)
  {
    SameMeans(f, g);
    SameTotals(f, g);
    hide Mean, Items, Scored, Share, AnyKnown, SumOver, Contribution, CategoryScoreOf, CountByStatus, Coverage;
    forall c
      ensures CategoryScoreOf(f, c) == CategoryScoreOf(g, c) && Contribution(f)(c) == Contribution(g)(c)
    {
      SameCategoryScore(f, g, c);
    }
    SumsEqual(Contribution(f), Contribution(g), CATEGORIES);
    assert ScoresOf(f).categories == ScoresOf(g).categories;
  }

  // ----- what the reported numbers mean -----

  /** `x` is the nearest whole number to `y`, the upper one of two. */
  predicate Nearest(x: int, y: real) {
    -0.5 < x as real - y <= 0.5
  }

  /** `x` is `y` rounded to the nearest multiple of one part of the scale, `n` parts. */
  predicate Rounds(n: int, x: real, y: real, scale: real)
    requires scale > 0.0
  {
    x == n as real / scale && Nearest(n, y * scale)
  }

  /** How many findings have a status, counted category by category. */
  function Total(findings: seq<Finding>, s: FindingStatus): real {
    SumOver(NumberOf(findings, s), CATEGORIES)
  }

  /** The coverage is the percentage of known findings, and names the confidence. */
  ghost predicate CoverageMeaning(findings: seq<Finding>, scores: Scores) {
    && (findings == [] ==> scores.coverage == 100)
    && (findings != [] ==>
          Nearest(scores.coverage, 100.0 * (|findings| as real - Total(findings, UNKNOWN)) / |findings| as real))
    && (scores.confidence == HIGH <==> scores.coverage >= 85)
    && (scores.confidence == MEDIUM <==> 50 <= scores.coverage < 85)
    && (scores.confidence == LOW <==> scores.coverage < 50)
  }

  /** The row of a category. */
  ghost predicate RowMeaning(findings: seq<Finding>, c: Category, row: CategoryScore) {
    && row.category == c
    && (row.applicable <==> exists f :: f in findings && f.category == c)
    && (row.score.None? <==> KnownNumber(findings, c) == 0)
    && (row.score.Some? ==> exists n: int :: Rounds(n, row.score.value, ExactMean(findings, c), 1000.0))
    && (KnownNumber(findings, c) == 0 ==> row.weight == 0.0)
    && (KnownNumber(findings, c) > 0 ==>
          && SumOver(ExactWeight(findings), CATEGORIES) > 0.0
          && exists n: int ::
               Rounds(n, row.weight, Percent(ExactWeight(findings)(c), SumOver(ExactWeight(findings), CATEGORIES)), 100.0))
    && row.counts == Counts(Number(findings, c, PASS), Number(findings, c, WARNING), Number(findings, c, BLOCKER),
                            Number(findings, c, UNKNOWN))
  }

  function RowProduct(scores: Scores): Category -> real
    requires |scores.categories| == 8
  {
    (c: Category) =>
      var row := scores.categories[match c
        case CONTRACTS => 0 case RPC => 1 case TOKENS => 2 case ORACLES => 3
        case PROTOCOLS => 4 case CROSS_CHAIN => 5 case FRONTEND => 6 case CONFIGURATION => 7];
      if row.score.Some? then Times(row.weight, row.score.value) else 0.0
  }

  lemma RowOf(findings: seq<Finding>, c: Category)
    ensures RowMeaning(findings, c, CategoryScoreOf(findings, c))
  {
    MeanOf(findings, c);
    ItemsMeaning(findings, c);
    ItemCounts(findings, c);
    WeightRow(findings, c);
    MeanRow(Mean(Items(findings, c)));
    hide Items, Mean, ExactMean, CountByStatus, Number, KnownNumber, Share, ExactWeight, SumOver, Percent, To2, To3, Scored, Rounds;
  }

  lemma ItemCounts(findings: seq<Finding>, c: Category)
    ensures CountByStatus(Items(findings, c)) == Counts(Number(findings, c, PASS), Number(findings, c, WARNING),
                                                        Number(findings, c, BLOCKER), Number(findings, c, UNKNOWN))
  {
    WithStatusOf(findings, c, PASS);
    WithStatusOf(findings, c, WARNING);
    WithStatusOf(findings, c, BLOCKER);
    WithStatusOf(findings, c, UNKNOWN);
  }

  lemma MeanRow(mean: real)
    ensures exists n: int :: Rounds(n, To3(mean), mean, 1000.0)
  {
    RoundNear(mean * 1000.0);
    assert Rounds(Round(mean * 1000.0), To3(mean), mean, 1000.0);
  }

  lemma ItemsMeaning(findings: seq<Finding>, c: Category)
    ensures Items(findings, c) != [] <==> exists f :: f in findings && f.category == c
  {
    forall f
      ensures f in Items(findings, c) <==> f in findings && f.category == c
    {
      FilterMembers((f: Finding) => f.category == c, findings, f);
    }
    hide Items;
    if f :| f in findings && f.category == c {
      assert f in Items(findings, c);
    }
    if Items(findings, c) != [] {
      assert Items(findings, c)[0] in Items(findings, c);
    }
  }

  lemma WeightRow(findings: seq<Finding>, c: Category)
    ensures KnownNumber(findings, c) == 0 ==> To2(Share(findings, c)) == 0.0
    ensures KnownNumber(findings, c) > 0 ==>
              && SumOver(ExactWeight(findings), CATEGORIES) > 0.0
              && exists n: int ::
                   Rounds(n, To2(Share(findings, c)), Percent(ExactWeight(findings)(c), SumOver(ExactWeight(findings), CATEGORIES)), 100.0)
  {
    MeanOf(findings, c);
    WeightOf(findings, c);
    WeightsAreExact(findings);
    WeightSumPositive(findings);
    AllCategories(c);
    RoundInteger(0);
    hide Scored, RawWeight, ExactWeight, SumOver, WeightSum, Percent, Round, Mean, ExactMean;
    if KnownNumber(findings, c) > 0 {
      var share := Percent(ExactWeight(findings)(c), SumOver(ExactWeight(findings), CATEGORIES));
      assert Share(findings, c) == share;
      RoundNear(share * 100.0);
      var n := Round(share * 100.0);
      assert Rounds(n, To2(share), share, 100.0);
    }
  }

  /** What every reported number is: by the numbers of findings of each category and status, and the documented weights. */
  lemma ScoresMeaning(findings: seq<Finding>)
    ensures var scores := ScoresOf(findings);
            && CoverageMeaning(findings, scores)
            && |scores.categories| == 8
            && (forall i :: 0 <= i < 8 ==> RowMeaning(findings, CATEGORIES[i], scores.categories[i]))
            && scores.counts.pass as real == Total(findings, PASS) && scores.counts.warning as real == Total(findings, WARNING)
            && scores.counts.blocker as real == Total(findings, BLOCKER)
            && scores.counts.unknown as real == Total(findings, UNKNOWN)
            && (if exists c :: KnownNumber(findings, c) > 0 then Nearest(scores.score, SumOver(RowProduct(scores), CATEGORIES))
                else if findings != [] then scores.score == 0
                else scores.score == 100)
  {
    CoverageOf(findings);
    StatusTotals(findings, PASS);
    StatusTotals(findings, WARNING);
    StatusTotals(findings, BLOCKER);
    StatusTotals(findings, UNKNOWN);
    ScoreOf(findings);
    hide RowMeaning, CategoryScoreOf, SumOver, WithStatus, Score, Coverage, RowProduct, CoverageConfidence, CoverageMeaning;
    forall i | 0 <= i < 8
      ensures RowMeaning(findings, CATEGORIES[i], ScoresOf(findings).categories[i])
    {
      RowOf(findings, CATEGORIES[i]);
    }
  }

  lemma CoverageOf(findings: seq<Finding>)
    ensures CoverageMeaning(findings, ScoresOf(findings))
  {
    StatusTotals(findings, UNKNOWN);
    hide WithStatus, SumOver, CategoryScoreOf, Score, Round;
    if findings != [] {
      var known, n := (|findings| - WithStatus(findings, UNKNOWN)) as real, |findings| as real;
      RoundNear(Percent(known, n));
      assert Percent(known, n) == 100.0 * known / n;
    }
  }

  lemma SomeKnown(findings: seq<Finding>)
    ensures AnyKnown(findings) <==> exists c :: KnownNumber(findings, c) > 0
  {
    MeansAndWeights(findings);
    hide Scored, KnownNumber, Mean, ExactMean, RawWeight, ExactWeight;
    if c :| KnownNumber(findings, c) > 0 {
      AllCategories(c);
    }
  }

  lemma RowProductOf(findings: seq<Finding>, c: Category)
    ensures RowProduct(ScoresOf(findings))(c) == Contribution(findings)(c)
  {
    hide To2, To3, Share, Mean, Items, Scored, Score, Coverage, CountByStatus, CoverageConfidence, Times;
    assert CATEGORIES[0] == CONTRACTS && CATEGORIES[1] == RPC && CATEGORIES[2] == TOKENS && CATEGORIES[3] == ORACLES;
    assert CATEGORIES[4] == PROTOCOLS && CATEGORIES[5] == CROSS_CHAIN;
    assert CATEGORIES[6] == FRONTEND && CATEGORIES[7] == CONFIGURATION;
  }

  lemma ScoreOf(findings: seq<Finding>)
    ensures var score := Score(findings);
            if exists c :: KnownNumber(findings, c) > 0 then
              Nearest(score, SumOver(RowProduct(ScoresOf(findings)), CATEGORIES))
            else if findings != [] then score == 0
            else score == 100
  {
    SomeKnown(findings);
    hide AnyKnown, KnownNumber, SumOver, Contribution, RowProduct, CategoryScoreOf, Coverage, CoverageConfidence, CountByStatus;
    forall c
      ensures RowProduct(ScoresOf(findings))(c) == Contribution(findings)(c)
    {
      RowProductOf(findings, c);
    }
    SumsEqual(RowProduct(ScoresOf(findings)), Contribution(findings), CATEGORIES);
    RoundNear(SumOver(Contribution(findings), CATEGORIES));
  }

  // ----- readiness -----

  datatype Readiness = BLOCKED | INSUFFICIENT_DATA | REVIEW_REQUIRED | READY

  function DetermineReadiness(counts: Counts, coverage: int): Readiness {
    if counts.blocker > 0 then BLOCKED
    else if counts.unknown > 0 && coverage < 50 then INSUFFICIENT_DATA
    else if counts.warning > 0 then REVIEW_REQUIRED
    else if counts.unknown > 0 then INSUFFICIENT_DATA
    else READY
  }

  function ReadinessOf(findings: seq<Finding>): Readiness {
    DetermineReadiness(ScoresOf(findings).counts, ScoresOf(findings).coverage)
  }

  lemma {:induction false} NoneWithStatus(findings: seq<Finding>, s: FindingStatus)
    ensures WithStatus(findings, s) == 0 <==> forall f :: f in findings ==> f.status != s
  {
    if findings != [] {
      NoneWithStatus(findings[1..], s);
      assert findings == [findings[0]] + findings[1..];
    }
  }

  /** The documented rules: blockers win; then too little known; then warnings; then anything unknown. A project is ready
      exactly when every finding is a pass. */
  lemma ReadinessMeaning(findings: seq<Finding>)
    ensures var readiness, coverage := ReadinessOf(findings), ScoresOf(findings).coverage;
            && (readiness == BLOCKED <==> HasStatus(findings, BLOCKER))
            && (readiness == INSUFFICIENT_DATA <==>
                  !HasStatus(findings, BLOCKER) && HasStatus(findings, UNKNOWN) && (coverage < 50 || !HasStatus(findings, WARNING)))
            && (readiness == REVIEW_REQUIRED <==>
                  !HasStatus(findings, BLOCKER) && HasStatus(findings, WARNING) && (HasStatus(findings, UNKNOWN) ==> coverage >= 50))
            && (readiness == READY <==> forall f :: f in findings ==> f.status == PASS)
  {
    NoneWithStatus(findings, WARNING);
    NoneWithStatus(findings, BLOCKER);
    NoneWithStatus(findings, UNKNOWN);
    hide WithStatus, Coverage, Score;
    assert forall f :: f in findings ==> f.status in {PASS, WARNING, BLOCKER, UNKNOWN};
  }

  ghost predicate HasStatus(findings: seq<Finding>, s: FindingStatus) {
    exists f :: f in findings && f.status == s
  }

  lemma PassMean(findings: seq<Finding>, c: Category)
    requires forall f :: f in findings ==> f.status == PASS
    ensures Scored(findings, c) ==> Mean(Items(findings, c)) == 1.0
  {
    KnownItems(findings, c);
    assert Number(findings, c, WARNING) == 0 && Number(findings, c, BLOCKER) == 0;
    hide Items, Known, FactorSum, Number;
  }

  lemma PassContribution(findings: seq<Finding>, c: Category)
    requires forall f :: f in findings ==> f.status == PASS
    ensures Contribution(findings)(c) == Weights(findings)(c)
  {
    PassMean(findings, c);
    RoundInteger(1000);
    RoundInteger(0);
    assert To3(1.0) == 1.0 && To2(0.0) == 0.0;
    assert Times(To2(Share(findings, c)), 1.0) == To2(Share(findings, c));
    hide Scored, Mean, Items, To2, To3, Times, WeightSum, Percent;
  }

  /** A ready project has the full score, full coverage and high confidence, for all the rounding of its weights. */
  lemma ReadyIsPerfect(findings: seq<Finding>)
    requires ReadinessOf(findings) == READY
    ensures var scores := ScoresOf(findings);
            scores.score == 100 && scores.coverage == 100 && scores.confidence == HIGH
  {
    ReadinessMeaning(findings);
    CoverageInRange(findings);
    assert Coverage(findings) == 100;
    if AnyKnown(findings) {
      WeightsSum(findings);
      forall c
        ensures Contribution(findings)(c) == Weights(findings)(c)
      {
        PassContribution(findings, c);
      }
      hide AnyKnown, SumOver, Contribution, Weights, Coverage;
      SumsEqual(Contribution(findings), Weights(findings), CATEGORIES);
      FullScore(SumOver(Weights(findings), CATEGORIES));
    } else if findings != [] {
      SomethingKnown(findings);
    }
  }

  lemma FullScore(x: real)
    requires 99.96 <= x <= 100.04
    ensures Round(x) == 100
  {
  }

  lemma SomethingKnown(findings: seq<Finding>)
    requires findings != [] && findings[0].status == PASS
    ensures AnyKnown(findings)
  {
    var c := findings[0].category;
    KnownItems(findings, c);
    assert findings[0] == Finding(c, PASS) && c in CATEGORIES;
    hide Items, Known, FactorSum;
  }

  /** All findings unknown: no score and low confidence, not a perfect score. */
  lemma AllUnknown(findings: seq<Finding>)
    requires findings != [] && forall f :: f in findings ==> f.status == UNKNOWN
    ensures Score(findings) == 0
  {
    forall c
      ensures !Scored(findings, c)
    {
      KnownItems(findings, c);
      assert forall s :: s != UNKNOWN ==> Number(findings, c, s) == 0;
      hide Items, Known, FactorSum, Number;
    }
  }

  // ----- the computation -----

  method GroupByCategory(findings: seq<Finding>) returns (byCategory: map<Category, seq<Finding>>)
    ensures forall c :: c in byCategory && byCategory[c] == Items(findings, c)
  {
    byCategory := map[];
    for i := 0 to |CATEGORIES|
      invariant forall k :: 0 <= k < i ==> CATEGORIES[k] in byCategory && byCategory[CATEGORIES[k]] == []
    {
      byCategory := byCategory[CATEGORIES[i] := []];
    }
    forall c: Category
      ensures c in byCategory && byCategory[c] == []
    {
      AllCategories(c);
    }
    for i := 0 to |findings|
      invariant forall c :: c in byCategory && byCategory[c] == Items(findings[..i], c)
    {
      var category := findings[i].category;
      assert findings[..i + 1] == findings[..i] + [findings[i]];
      forall c: Category
        ensures Items(findings[..i + 1], c) == Items(findings[..i], c) + if category == c then [findings[i]] else []
      {
        ItemsLast(findings[..i], findings[i], c);
      }
      byCategory := byCategory[category := byCategory[category] + [findings[i]]];
    }
    assert findings[..|findings|] == findings;
  }

  function ScoredCategories(findings: seq<Finding>, cs: seq<Category>): seq<Category> {
    Filter((c: Category) => Scored(findings, c), cs)
  }

  lemma ScoredNext(findings: seq<Finding>, i: nat)
    requires i < |CATEGORIES|
    ensures ScoredCategories(findings, CATEGORIES[..i + 1]) ==
            ScoredCategories(findings, CATEGORIES[..i]) + if Scored(findings, CATEGORIES[i]) then [CATEGORIES[i]] else []
  {
    assert CATEGORIES[..i + 1] == CATEGORIES[..i] + [CATEGORIES[i]];
    hide Scored;
    FilterAppend((c: Category) => Scored(findings, c), CATEGORIES[..i], [CATEGORIES[i]]);
  }

  method Participants(findings: seq<Finding>, byCategory: map<Category, seq<Finding>>)
    returns (applicable: set<Category>, scored: seq<Category>)
    requires forall c :: c in byCategory && byCategory[c] == Items(findings, c)
    ensures applicable == Applicable(findings) && scored == ScoredCategories(findings, CATEGORIES)
  {
    applicable, scored := {}, [];
    for i := 0 to |CATEGORIES|
      invariant forall c :: c in applicable <==> c in CATEGORIES[..i] && Items(findings, c) != []
      invariant scored == ScoredCategories(findings, CATEGORIES[..i])
    {
      var category := CATEGORIES[i];
      var items := byCategory[category];
      assert CATEGORIES[..i + 1] == CATEGORIES[..i] + [category];
      ScoredNext(findings, i);
      if |items| > 0 {
        applicable := applicable + {category};
      }
      if |Known(items)| > 0 {
        scored := scored + [category];
      }
    }
    assert CATEGORIES[..|CATEGORIES|] == CATEGORIES;
    forall c: Category { AllCategories(c); }
  }

  lemma {:induction false} SumFiltered(p: Category -> bool, f: Category -> real, cs: seq<Category>)
    requires forall c :: !p(c) ==> f(c) == 0.0
    ensures SumOver(f, Filter(p, cs)) == SumOver(f, cs)
  {
    if cs != [] {
      var before, last := cs[..|cs| - 1], cs[|cs| - 1];
      assert cs == before + [last];
      SumFiltered(p, f, before);
      FilterAppend(p, before, [last]);
      var kept := Filter(p, before);
      assert kept + [] == kept;
      assert (kept + [last])[..|kept|] == kept;
    }
  }

  lemma ScoredSums(findings: seq<Finding>)
    ensures SumOver(RawWeight(findings), ScoredCategories(findings, CATEGORIES)) == WeightSum(findings)
    ensures forall c :: c in ScoredCategories(findings, CATEGORIES) <==> Scored(findings, c)
    ensures forall c :: c in ScoredCategories(findings, CATEGORIES) ==>
                          RawWeight(findings)(c) == BaseWeight(c, Applicable(findings))
  {
    hide Scored, BaseWeight, Applicable, SumOver, Filter;
    var p := (c: Category) => Scored(findings, c);
    SumFiltered(p, RawWeight(findings), CATEGORIES);
    forall c: Category
      ensures c in ScoredCategories(findings, CATEGORIES) <==> Scored(findings, c)
    {
      FilterMembers(p, CATEGORIES, c);
      AllCategories(c);
    }
  }

  method Weigh(findings: seq<Finding>, applicable: set<Category>, scored: seq<Category>)
    returns (rawWeights: map<Category, real>, weightSum: real)
    requires applicable == Applicable(findings) && scored == ScoredCategories(findings, CATEGORIES)
    ensures forall c :: c in rawWeights <==> Scored(findings, c)
    ensures forall c :: c in rawWeights ==> rawWeights[c] == RawWeight(findings)(c)
    ensures weightSum == WeightSum(findings)
  {
    ScoredSums(findings);
    hide Scored, ScoredCategories, Applicable, BaseWeight, RawWeight, WeightSum;
    rawWeights, weightSum := map[], 0.0;
    for i := 0 to |scored|
      invariant forall c :: c in rawWeights <==> c in scored[..i]
      invariant forall c :: c in rawWeights ==> rawWeights[c] == RawWeight(findings)(c)
      invariant weightSum == SumOver(RawWeight(findings), scored[..i])
    {
      assert scored[i] in scored && scored[..i + 1] == scored[..i] + [scored[i]] && scored[..i + 1][..i] == scored[..i];
      var weight := BaseWeight(scored[i], applicable);
      rawWeights := rawWeights[scored[i] := weight];
      weightSum := weightSum + weight;
    }
    assert scored[..|scored|] == scored;
  }

  /** One row of the result. */
  function Row(items: seq<Finding>, c: Category, participates: bool, raw: real, weightSum: real): CategoryScore
    requires participates ==> weightSum > 0.0
  {
    var known := Known(items);
    CategoryScore(c, items != [], To2(if participates then Percent(raw, weightSum) else 0.0),
                  if known == [] then None else Some(To3(FactorSum(known) / |known| as real)), CountByStatus(items))
  }

  lemma RowIsCategoryScore(findings: seq<Finding>, c: Category, raw: real)
    requires Scored(findings, c) ==> raw == RawWeight(findings)(c)
    ensures Row(Items(findings, c), c, Scored(findings, c) && WeightSum(findings) > 0.0, raw, WeightSum(findings))
            == CategoryScoreOf(findings, c)
  {
  }

  method Rows(findings: seq<Finding>, byCategory: map<Category, seq<Finding>>, scored: seq<Category>,
              rawWeights: map<Category, real>, weightSum: real)
    returns (categories: seq<CategoryScore>)
    requires forall c :: c in byCategory && byCategory[c] == Items(findings, c)
    requires forall c :: c in scored <==> Scored(findings, c)
    requires forall c :: c in rawWeights <==> Scored(findings, c)
    requires forall c :: c in rawWeights ==> rawWeights[c] == RawWeight(findings)(c)
    requires weightSum == WeightSum(findings)
    ensures |categories| == |CATEGORIES|
    ensures forall k :: 0 <= k < |CATEGORIES| ==> categories[k] == CategoryScoreOf(findings, CATEGORIES[k])
  {
    hide Scored, RawWeight, WeightSum, CategoryScoreOf, Row, Items;
    categories := [];
    for i := 0 to |CATEGORIES|
      invariant |categories| == i
      invariant forall k :: 0 <= k < i ==> categories[k] == CategoryScoreOf(findings, CATEGORIES[k])
    {
      var c := CATEGORIES[i];
      var raw := if c in rawWeights then rawWeights[c] else 0.0;
      RowIsCategoryScore(findings, c, raw);
      categories := categories + [Row(byCategory[c], c, c in scored && weightSum > 0.0, raw, weightSum)];
    }
  }

  lemma SomeScored(findings: seq<Finding>, scored: seq<Category>)
    requires forall c :: c in scored <==> Scored(findings, c)
    ensures |scored| > 0 <==> AnyKnown(findings)
  {
    hide Scored;
    if |scored| > 0 {
      AllCategories(scored[0]);
      assert scored[0] in scored;
    }
  }

  lemma SumNext(f: Category -> real, i: nat)
    requires i < |CATEGORIES|
    ensures SumOver(f, CATEGORIES[..i + 1]) == SumOver(f, CATEGORIES[..i]) + f(CATEGORIES[i])
  {
    assert CATEGORIES[..i + 1][..i] == CATEGORIES[..i];
  }

  method WeightedSum(findings: seq<Finding>, categories: seq<CategoryScore>, scored: seq<Category>) returns (weighted: real)
    requires |categories| == |CATEGORIES|
    requires forall k :: 0 <= k < |CATEGORIES| ==> categories[k] == CategoryScoreOf(findings, CATEGORIES[k])
    requires forall c :: c in scored <==> Scored(findings, c)
    ensures weighted == SumOver(Contribution(findings), CATEGORIES)
  {
    assert SumOver(Contribution(findings), CATEGORIES[..0]) == 0.0;
    hide Scored, SumOver, To2, To3, Share, Mean, Items;
    weighted := 0.0;
    for i := 0 to |categories|
      invariant weighted == SumOver(Contribution(findings), CATEGORIES[..i])
    {
      SumNext(Contribution(findings), i);
      var category := categories[i];
      if category.score.Some? && category.category in scored {
        weighted := weighted + Times(category.weight, category.score.value);
      }
    }
    assert CATEGORIES[..|CATEGORIES|] == CATEGORIES;
  }

  lemma RowsAreAll(findings: seq<Finding>, categories: seq<CategoryScore>)
    requires |categories| == |CATEGORIES|
    requires forall k :: 0 <= k < |CATEGORIES| ==> categories[k] == CategoryScoreOf(findings, CATEGORIES[k])
    ensures categories == ScoresOf(findings).categories
  {
    hide CategoryScoreOf;
  }

  method FinalScore(findings: seq<Finding>, categories: seq<CategoryScore>, scored: seq<Category>, weightSum: real)
    returns (score: int)
    requires |categories| == |CATEGORIES|
    requires forall k :: 0 <= k < |CATEGORIES| ==> categories[k] == CategoryScoreOf(findings, CATEGORIES[k])
    requires forall c :: c in scored <==> Scored(findings, c)
    requires weightSum == WeightSum(findings)
    ensures score == Score(findings)
  {
    WeightSumPositive(findings);
    SomeScored(findings, scored);
    hide Scored, WeightSum, CategoryScoreOf, AnyKnown, SumOver, Contribution, Round;
    score := 100;
    if |scored| > 0 && weightSum > 0.0 {
      var weighted := WeightedSum(findings, categories, scored);
      score := Round(weighted);
    } else if |findings| > 0 {
      score := 0;
    }
  }

  /** Groups the findings by category, weighs the categories in which anything is known, and averages. */
  method ScoreFindings(findings: seq<Finding>) returns (scores: Scores)
    ensures scores == ScoresOf(findings)
  {
    var counts := CountByStatus(findings);
    var coverage := CoverageFrom(|findings|, counts.unknown);
    var byCategory := GroupByCategory(findings);
    var applicable, scored := Participants(findings, byCategory);
    var rawWeights, weightSum := Weigh(findings, applicable, scored);
    ScoredSums(findings);
    hide Scored, RawWeight, WeightSum, CategoryScoreOf, ScoredCategories, Items, CoverageFrom, CountByStatus, Applicable, Score;
    var categories := Rows(findings, byCategory, scored, rawWeights, weightSum);
    RowsAreAll(findings, categories);
    var score := FinalScore(findings, categories, scored, weightSum);
    scores := Scores(score, coverage, CoverageConfidence(coverage), categories, counts);
  }
}
