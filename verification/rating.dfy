/** `calculate_rating` (utils.py) and the rating label the web handler attaches to it
    (config.py). The four security probes are opaque booleans here; the answers are the
    questionnaire checkboxes, 1 for yes and 0 for no. */
module Rating {
  import opened Text

  /** The results of `security_checks`, in the order of the dict it returns. */
  datatype Checks = Checks(root: bool, videoGroup: bool, ufwPort: bool, authEnabled: bool)
  {
    /** `checks.values()`. */
    function Values(): seq<bool> {
      [root, videoGroup, ufwPort, authEnabled]
    }
  }

  /** How many of the checks passed. */
  function Count(bs: seq<bool>): (r: nat)
    ensures r <= |bs|
  {
    if |bs| == 0 then 0 else (if bs[0] then 1 else 0) + Count(bs[1..])
  }

  /** `sum(user_answers)`. */
  function Sum(xs: seq<int>): int {
    if |xs| == 0 then 0 else xs[0] + Sum(xs[1..])
  }

  function Min(a: int, b: int): int {
    if a <= b then a else b
  }

  /** Every answer is a checkbox value: 0 or 1. */
  predicate Binary(xs: seq<int>) {
    forall j :: 0 <= j < |xs| ==> xs[j] == 0 || xs[j] == 1
  }

  /** No answer is negative. */
  predicate NonNegative(xs: seq<int>) {
    forall j :: 0 <= j < |xs| ==> xs[j] >= 0
  }

  lemma {:induction false} SumNonNegative(xs: seq<int>)
    ensures NonNegative(xs) ==> Sum(xs) >= 0
  {
    if |xs| > 0 && NonNegative(xs) {
      assert NonNegative(xs[1..]);
      SumNonNegative(xs[1..]);
    }
  }

  /** Checkbox answers sum to at most their number. */
  lemma {:induction false} SumBinary(xs: seq<int>)
    requires Binary(xs)
    ensures 0 <= Sum(xs) <= |xs|
  {
    if |xs| > 0 {
      SumBinary(xs[1..]);
    }
  }

  /** All answers yes: the sum is the number of answers. */
  lemma {:induction false} SumAllYes(xs: seq<int>)
    requires forall j :: 0 <= j < |xs| ==> xs[j] == 1
    ensures Sum(xs) == |xs|
  {
    if |xs| > 0 {
      SumAllYes(xs[1..]);
    }
  }

  lemma {:induction false} SumMonotone(a: seq<int>, b: seq<int>)
    requires |a| == |b|
    requires forall j :: 0 <= j < |a| ==> a[j] <= b[j]
    ensures Sum(a) <= Sum(b)
  {
    if |a| > 0 {
      SumMonotone(a[1..], b[1..]);
    }
  }

  lemma {:induction false} CountMonotone(a: seq<bool>, b: seq<bool>)
    requires |a| == |b|
    requires forall j :: 0 <= j < |a| ==> a[j] ==> b[j]
    ensures Count(a) <= Count(b)
  {
    if |a| > 0 {
      CountMonotone(a[1..], b[1..]);
    }
  }

  /** The divisor `len(user_answers) or 1`. */
  function Divisor(answers: seq<int>): (n: nat)
    ensures n >= 1
  {
    if |answers| == 0 then 1 else |answers|
  }

  /** The points one yes is worth: `100 // n` once the base score reaches 50, `50 // n`
      below it. Python's `//` and Dafny's `/` agree on these positive operands. */
  function Unit(score: int, answers: seq<int>): (u: nat) {
    if score < 50 then 50 / Divisor(answers) else 100 / Divisor(answers)
  }

  /** `calculate_rating(checks, user_answers)`: 25 points per passed check, plus the sum of
      the answers times the unit for that base score, capped at 100. The cap holds for any
      answers; the floor of 0 needs answers that are not negative. */
  function Rating(checks: seq<bool>, answers: seq<int>): (r: int)
    ensures r <= 100
    ensures NonNegative(answers) ==> 0 <= r
  {
    var score := 25 * Count(checks);
    SumNonNegative(answers);
    Min(score + Sum(answers) * Unit(score, answers), 100)
  }

  /** With no answers (the initial page load) the rating is the base score alone, a multiple
      of 25. */
  lemma {:induction false} RatingWithoutAnswers(checks: seq<bool>)
    ensures Rating(checks, []) == Min(25 * Count(checks), 100)
    ensures |checks| <= 4 ==> Rating(checks, []) == 25 * Count(checks)
  {
  }

  /** A low base score (at most one passed check) caps what the answers can add at 50, so
      the questionnaire alone never reaches the High band. */
  lemma {:induction false} LowBaseNeverHigh(checks: seq<bool>, answers: seq<int>)
    requires Count(checks) <= 1
    requires Binary(answers)
    ensures Rating(checks, answers) <= 25 * Count(checks) + 50
    ensures Rating(checks, answers) < 80
  {
    var n := Divisor(answers);
    var u := 50 / n;
    SumBinary(answers);
    assert n * u <= 50;
    assert Sum(answers) * u <= n * u by {
      MulMonotone(Sum(answers), n, u);
    }
  }

  lemma MulMonotone(a: int, b: int, u: nat)
    requires a <= b
    ensures a * u <= b * u
  {
  }

  /** With at least two passed checks, answering yes to every question (up to 100 of
      them) earns the full 100. */
  lemma {:induction false} AllYesWithGoodBaseIsFull(checks: seq<bool>, answers: seq<int>)
    requires Count(checks) >= 2
    requires 1 <= |answers| <= 100
    requires forall j :: 0 <= j < |answers| ==> answers[j] == 1
    ensures Rating(checks, answers) == 100
  {
    var n := |answers|;
    SumAllYes(answers);
    assert Unit(25 * Count(checks), answers) == 100 / n;
    if n <= 50 {
      assert n * (100 / n) >= 50;
    } else {
      assert 100 / n == 1;
    }
  }

  /** Saying yes to more questions never lowers the rating. */
  lemma {:induction false} RatingMonotoneInAnswers(checks: seq<bool>, a: seq<int>, b: seq<int>)
    requires |a| == |b|
    requires forall j :: 0 <= j < |a| ==> a[j] <= b[j]
    ensures Rating(checks, a) <= Rating(checks, b)
  {
    SumMonotone(a, b);
    var score := 25 * Count(checks);
    assert Unit(score, a) == Unit(score, b);
    MulMonotone(Sum(a), Sum(b), Unit(score, a));
  }

  /** Passing more checks never lowers the rating, including across the jump of the unit at
      a base score of 50. */
  lemma {:induction false} RatingMonotoneInChecks(a: seq<bool>, b: seq<bool>, answers: seq<int>)
    requires |a| == |b|
    requires forall j :: 0 <= j < |a| ==> a[j] ==> b[j]
    requires NonNegative(answers)
    ensures Rating(a, answers) <= Rating(b, answers)
  {
    CountMonotone(a, b);
    SumNonNegative(answers);
    UnitMonotone(25 * Count(a), 25 * Count(b), answers);
    MulMonotoneFactor(Sum(answers), Unit(25 * Count(a), answers), Unit(25 * Count(b), answers));
  }

  /** A higher base score never gets a smaller unit. */
  lemma {:induction false} UnitMonotone(s: int, t: int, answers: seq<int>)
    requires s <= t
    ensures Unit(s, answers) <= Unit(t, answers)
  {
  }

  lemma MulMonotoneFactor(k: int, u: int, v: int)
    requires k >= 0 && u <= v
    ensures k * u <= k * v
  {
  }

  /** The two figures worked through by hand: no passed check with three yes answers gives
      48, and four passed checks with three no answers give 100. */
  lemma {:induction false} RatingExamples()
    ensures Rating([false, false, false, false], [1, 1, 1]) == 48
    ensures Rating([true, true, true, true], [0, 0, 0]) == 100
  {
    assert Count([false, false, false, false]) == 0;
    assert Sum([1, 1, 1]) == 3;
    assert Count([true, true, true, true]) == 4;
  }

  /** The band a rating falls in. */
  datatype Label = Low | Moderate | High

  function LabelOf(r: int): (l: Label)
    ensures l == Low <==> r < 50
    ensures l == High <==> r >= 80
  {
    if r < 50 then Low else if r < 80 then Moderate else High
  }

  /** A higher rating is never in a lower band. */
  lemma {:induction false} LabelMonotone(r: int, s: int)
    requires r <= s
    ensures LabelOf(r) == High ==> LabelOf(s) == High
    ensures LabelOf(s) == Low ==> LabelOf(r) == Low
  {
  }

  function RatingHead(r: int): string {
    "Security Rating: " + IntStr(r) + "/100"
  }

  /** The wording of each band on the configuration page. */
  function PageSuffix(l: Label): string {
    match l
    case Low => " (Low - improve settings below)"
    case Moderate => " (Moderate - consider additional measures)"
    case High => " (High - well secured)"
  }

  /** The wording of each band on the result page. */
  function ResultSuffix(l: Label): string {
    match l
    case Low => " (Low - improve settings)"
    case Moderate => " (Moderate - consider additional measures)"
    case High => " (High - good job)"
  }

  /** The message the configuration page shows above the form: the rating, then the
      wording of its band. */
  function PageMessage(r: int): (m: string)
    ensures m == RatingHead(r) + PageSuffix(LabelOf(r))
  {
    if r < 50 then RatingHead(r) + " (Low - improve settings below)"
    else if r < 80 then RatingHead(r) + " (Moderate - consider additional measures)"
    else RatingHead(r) + " (High - well secured)"
  }

  /** The message the result page shows after a configuration is applied: the rating, then
      the wording of its band. */
  function ResultMessage(r: int): (m: string)
    ensures m == RatingHead(r) + ResultSuffix(LabelOf(r))
  {
    if r < 50 then RatingHead(r) + " (Low - improve settings)"
    else if r < 80 then RatingHead(r) + " (Moderate - consider additional measures)"
    else RatingHead(r) + " (High - good job)"
  }

  /** Both pages band a rating with the same thresholds: the two messages start with the
      same rating, and they coincide exactly in the Moderate band, the one band both pages
      word alike. */
  lemma {:induction false} MessagesShareThresholds(r: int)
    ensures PageMessage(r)[..|RatingHead(r)|] == ResultMessage(r)[..|RatingHead(r)|]
    ensures PageMessage(r) == ResultMessage(r) <==> LabelOf(r) == Moderate
  {
    var h := RatingHead(r);
    assert PageMessage(r)[..|h|] == h;
    assert ResultMessage(r)[..|h|] == h;
    if LabelOf(r) != Moderate {
      assert |PageSuffix(LabelOf(r))| != |ResultSuffix(LabelOf(r))|;
      assert |PageMessage(r)| != |ResultMessage(r)|;
    }
  }

  /** The rating the configuration page shows on load: the probes alone. */
  lemma {:induction false} PageRatingIsQuarters(c: Checks)
    ensures Rating(c.Values(), []) == 25 * Count(c.Values())
    ensures Rating(c.Values(), []) in {0, 25, 50, 75, 100}
  {
    RatingWithoutAnswers(c.Values());
  }
}
