/**
 * Bayesian Knowledge Tracing and Elo arithmetic. Every operation is a pure function of its
 * arguments; probabilities are exact reals.
 */
module BktService {
  import opened Wrappers
  import opened KnowledgeGraphModel
  import opened UserMasteryModel

  const MASTERY_THRESHOLD: real := 0.90
  const LEARNING_THRESHOLD: real := 0.40
  const DEFAULT_K: int := 32
  const DEFAULT_TOLERANCE: int := 50

  /** The ValueError raised for an input outside [0, 1], naming the offending parameter. */
  datatype ProbError = InvalidProbability(param: string, value: real)

  predicate InUnit(x: real) {
    0.0 <= x <= 1.0
  }

  // ---------------------------------------------------------------- posterior

  function Numerator(P_L: Prob, is_correct: bool, P_G: Prob, P_S: Prob): real {
    if is_correct then P_L * (1.0 - P_S) else P_L * P_S
  }

  function Denominator(P_L: Prob, is_correct: bool, P_G: Prob, P_S: Prob): real {
    if is_correct then P_L * (1.0 - P_S) + (1.0 - P_L) * P_G
    else P_L * P_S + (1.0 - P_L) * (1.0 - P_G)
  }

  /** P(knew | answer) for validated inputs; a zero denominator gives 0. */
  function PosteriorOf(P_L: Prob, is_correct: bool, P_G: Prob, P_S: Prob): (r: Prob)
    ensures Denominator(P_L, is_correct, P_G, P_S) == 0.0 ==> r == 0.0
    ensures Denominator(P_L, is_correct, P_G, P_S) != 0.0 ==>
      r * Denominator(P_L, is_correct, P_G, P_S) == Numerator(P_L, is_correct, P_G, P_S)
  {
    var num := Numerator(P_L, is_correct, P_G, P_S);
    var den := Denominator(P_L, is_correct, P_G, P_S);
    assert 0.0 <= num <= den by {
      MulNonneg(1.0 - P_L, P_G);
      MulNonneg(1.0 - P_L, 1.0 - P_G);
      MulNonneg(P_L, 1.0 - P_S);
      MulNonneg(P_L, P_S);
    }
    if den == 0.0 then 0.0 else DivInUnit(num, den); num / den
  }

  lemma MulNonneg(a: real, b: real)
    requires 0.0 <= a && 0.0 <= b
    ensures 0.0 <= a * b
  {
  }

  lemma MulLe(a: real, b: real, c: real)
    requires 0.0 <= a && b <= c
    ensures a * b <= a * c
  {
    MulNonneg(a, c - b);
    assert a * c - a * b == a * (c - b);
  }

  lemma MulCancel(a: real, b: real, c: real)
    requires 0.0 < c && b * c <= a * c
    ensures b <= a
  {
  }

  /** r = p * q / d is at most p when q <= d. */
  lemma RatioAtMost(p: real, q: real, d: real, r: real)
    requires 0.0 <= p && q <= d && 0.0 < d && r * d == p * q
    ensures r <= p
  {
    MulLe(p, q, d);
    MulCancel(p, r, d);
  }

  /** r = p * q / d is at least p when d <= q. */
  lemma RatioAtLeast(p: real, q: real, d: real, r: real)
    requires 0.0 <= p && d <= q && 0.0 < d && r * d == p * q
    ensures r >= p
  {
    MulLe(p, d, q);
    MulCancel(r, p, d);
  }

  lemma DivInUnit(num: real, den: real)
    requires 0.0 <= num <= den && den != 0.0
    ensures 0.0 <= num / den <= 1.0
  {
  }

  /** `calculate_posterior`: validates P_L, then P_G, then P_S, and applies Bayes' rule. */
  function CalculatePosterior(P_L: real, is_correct: bool, P_G: real, P_S: real): (r: Result<real, ProbError>)
    ensures r.Ok? <==> InUnit(P_L) && InUnit(P_G) && InUnit(P_S)
    ensures !InUnit(P_L) ==> r == Err(InvalidProbability("P_L", P_L))
    ensures InUnit(P_L) && !InUnit(P_G) ==> r == Err(InvalidProbability("P_G", P_G))
    ensures InUnit(P_L) && InUnit(P_G) && !InUnit(P_S) ==> r == Err(InvalidProbability("P_S", P_S))
    ensures r.Ok? ==> InUnit(r.value) && r.value == PosteriorOf(P_L, is_correct, P_G, P_S)
  {
    if !InUnit(P_L) then Err(InvalidProbability("P_L", P_L))
    else if !InUnit(P_G) then Err(InvalidProbability("P_G", P_G))
    else if !InUnit(P_S) then Err(InvalidProbability("P_S", P_S))
    else Ok(PosteriorOf(P_L, is_correct, P_G, P_S) as real)
  }

  /** The generative model BKT inverts: prior on "knew", and the answer's likelihood. */
  function Prior(knew: bool, P_L: Prob): real {
    if knew then P_L else 1.0 - P_L
  }

  function Likelihood(is_correct: bool, knew: bool, P_G: Prob, P_S: Prob): real {
    if knew then (if is_correct then 1.0 - P_S else P_S)
    else (if is_correct then P_G else 1.0 - P_G)
  }

  function Evidence(P_L: Prob, is_correct: bool, P_G: Prob, P_S: Prob): real {
    Prior(true, P_L) * Likelihood(is_correct, true, P_G, P_S)
      + Prior(false, P_L) * Likelihood(is_correct, false, P_G, P_S)
  }

  /** The posterior is Bayes' rule applied to the guess/slip observation model. */
  lemma PosteriorIsBayes(P_L: Prob, is_correct: bool, P_G: Prob, P_S: Prob)
    ensures Evidence(P_L, is_correct, P_G, P_S) == 0.0 ==> PosteriorOf(P_L, is_correct, P_G, P_S) == 0.0
    ensures Evidence(P_L, is_correct, P_G, P_S) != 0.0 ==>
      PosteriorOf(P_L, is_correct, P_G, P_S)
        == Prior(true, P_L) * Likelihood(is_correct, true, P_G, P_S) / Evidence(P_L, is_correct, P_G, P_S)
  {
    if is_correct {
      assert Evidence(P_L, true, P_G, P_S) == P_L * (1.0 - P_S) + (1.0 - P_L) * P_G;
      assert Prior(true, P_L) * Likelihood(true, true, P_G, P_S) == P_L * (1.0 - P_S);
    } else {
      assert Evidence(P_L, false, P_G, P_S) == P_L * P_S + (1.0 - P_L) * (1.0 - P_G);
      assert Prior(true, P_L) * Likelihood(false, true, P_G, P_S) == P_L * P_S;
    }
  }

  /** Certainty is kept: P_L = 0 stays 0, and P_L = 1 stays 1 unless the answer is impossible. */
  lemma PosteriorExtremes(is_correct: bool, P_G: Prob, P_S: Prob)
    ensures PosteriorOf(0.0, is_correct, P_G, P_S) == 0.0
    ensures Denominator(1.0, is_correct, P_G, P_S) != 0.0 ==> PosteriorOf(1.0, is_correct, P_G, P_S) == 1.0
    ensures Denominator(1.0, is_correct, P_G, P_S) == 0.0 ==> PosteriorOf(1.0, is_correct, P_G, P_S) == 0.0
  {
    var d0 := Denominator(0.0, is_correct, P_G, P_S);
    if d0 != 0.0 {
      assert Numerator(0.0, is_correct, P_G, P_S) == 0.0;
      ProductZero(PosteriorOf(0.0, is_correct, P_G, P_S), d0);
    }
    var d := Denominator(1.0, is_correct, P_G, P_S);
    if d != 0.0 {
      assert d == Numerator(1.0, is_correct, P_G, P_S);
      ProductSelf(PosteriorOf(1.0, is_correct, P_G, P_S), d);
    }
  }

  lemma ProductZero(r: real, d: real)
    requires d != 0.0 && r * d == 0.0
    ensures r == 0.0
  {
  }

  lemma ProductSelf(r: real, d: real)
    requires d != 0.0 && r * d == d
    ensures r == 1.0
  {
    assert (r - 1.0) * d == r * d - d;
    ProductZero(r - 1.0, d);
  }

  /**
   * When guessing and slipping are no likelier than chance together (P_G + P_S <= 1), a correct
   * answer never lowers the belief that the skill was known and an incorrect one never raises it.
   * A correct answer the model deems impossible (zero denominator, as with P_S = 1 and P_G = 0)
   * resets the posterior to 0, so the first clause excludes it.
   */
  lemma PosteriorDirection(P_L: Prob, P_G: Prob, P_S: Prob)
    requires P_G + P_S <= 1.0
    ensures Denominator(P_L, true, P_G, P_S) != 0.0 ==> PosteriorOf(P_L, true, P_G, P_S) >= P_L
    ensures PosteriorOf(P_L, false, P_G, P_S) <= P_L
  {
    if Denominator(P_L, true, P_G, P_S) != 0.0 {
      CorrectRaises(P_L, P_G, P_S);
    }
    if Denominator(P_L, false, P_G, P_S) != 0.0 {
      IncorrectLowers(P_L, P_G, P_S);
    }
  }

  lemma CorrectRaises(P_L: Prob, P_G: Prob, P_S: Prob)
    requires P_G + P_S <= 1.0 && Denominator(P_L, true, P_G, P_S) != 0.0
    ensures PosteriorOf(P_L, true, P_G, P_S) >= P_L
  {
    var dc := Denominator(P_L, true, P_G, P_S);
    var r := PosteriorOf(P_L, true, P_G, P_S);
    CorrectEvidenceBound(P_L, P_G, P_S);
    RatioAtLeast(P_L, 1.0 - P_S, dc, r);
  }

  lemma IncorrectLowers(P_L: Prob, P_G: Prob, P_S: Prob)
    requires P_G + P_S <= 1.0 && Denominator(P_L, false, P_G, P_S) != 0.0
    ensures PosteriorOf(P_L, false, P_G, P_S) <= P_L
  {
    var di := Denominator(P_L, false, P_G, P_S);
    var r := PosteriorOf(P_L, false, P_G, P_S);
    IncorrectEvidenceBound(P_L, P_G, P_S);
    RatioAtMost(P_L, P_S, di, r);
  }

  lemma CorrectEvidenceBound(pl: real, pg: real, ps: real)
    requires 0.0 <= pl <= 1.0 && 0.0 <= pg && 0.0 <= ps <= 1.0 && pg + ps <= 1.0
    ensures 0.0 <= pl * (1.0 - ps) + (1.0 - pl) * pg <= 1.0 - ps
  {
    MulNonneg(pl, 1.0 - ps);
    MulNonneg(1.0 - pl, pg);
    MulLe(1.0 - pl, pg, 1.0 - ps);
    assert pl * (1.0 - ps) + (1.0 - pl) * (1.0 - ps) == 1.0 - ps;
  }

  lemma IncorrectEvidenceBound(pl: real, pg: real, ps: real)
    requires 0.0 <= pl <= 1.0 && 0.0 <= pg <= 1.0 && 0.0 <= ps && pg + ps <= 1.0
    ensures 0.0 <= ps <= pl * ps + (1.0 - pl) * (1.0 - pg)
  {
    MulNonneg(pl, ps);
    MulNonneg(1.0 - pl, 1.0 - pg);
    MulLe(1.0 - pl, ps, 1.0 - pg);
    assert pl * ps + (1.0 - pl) * ps == ps;
  }

  // ---------------------------------------------------------------- mastery update

  function Clamp01(x: real): real {
    if x < 0.0 then 0.0 else if x > 1.0 then 1.0 else x
  }

  /** P(L_new) for validated inputs: knew it, or learned it with probability P_T; clamped. */
  function MasteryAfter(P_knew: Prob, P_T: Prob): (r: Prob) {
    var v := P_knew + (1.0 - P_knew) * P_T;
    Clamp01(v)
  }

  /**
   * The mastery update never forgets: the result is at least P_knew, equals 1 when P_knew = 1
   * and P_T when P_knew = 0, and the clamp never changes the unclamped value.
   */
  lemma MasteryAfterProperties(P_knew: Prob, P_T: Prob)
    ensures MasteryAfter(P_knew, P_T) == P_knew + (1.0 - P_knew) * P_T
    ensures MasteryAfter(P_knew, P_T) >= P_knew
    ensures MasteryAfter(P_knew, P_T) >= P_T
    ensures P_knew == 1.0 ==> MasteryAfter(P_knew, P_T) == 1.0
    ensures P_knew == 0.0 ==> MasteryAfter(P_knew, P_T) == P_T
  {
    var v := P_knew + (1.0 - P_knew) * P_T;
    MulNonneg(1.0 - P_knew, P_T);
    MulLe(1.0 - P_knew, P_T, 1.0);
    MulNonneg(P_knew, 1.0 - P_T);
    assert v - P_T == P_knew * (1.0 - P_T);
  }

  /** `update_mastery`: validates P_L_old, P_knew, P_T (in that order), then updates. */
  function UpdateMastery(P_L_old: real, P_knew: real, P_T: real): (r: Result<real, ProbError>)
    ensures r.Ok? <==> InUnit(P_L_old) && InUnit(P_knew) && InUnit(P_T)
    ensures !InUnit(P_L_old) ==> r == Err(InvalidProbability("P_L_old", P_L_old))
    ensures InUnit(P_L_old) && !InUnit(P_knew) ==> r == Err(InvalidProbability("P_knew", P_knew))
    ensures InUnit(P_L_old) && InUnit(P_knew) && !InUnit(P_T) ==> r == Err(InvalidProbability("P_T", P_T))
    ensures r.Ok? ==> InUnit(r.value) && r.value == MasteryAfter(P_knew, P_T)
  {
    if !InUnit(P_L_old) then Err(InvalidProbability("P_L_old", P_L_old))
    else if !InUnit(P_knew) then Err(InvalidProbability("P_knew", P_knew))
    else if !InUnit(P_T) then Err(InvalidProbability("P_T", P_T))
    else Ok(MasteryAfter(P_knew, P_T) as real)
  }

  // ---------------------------------------------------------------- status

  /** `determine_mastery_status`: >= 0.90 mastered, >= 0.40 learning, else locked. */
  function DetermineMasteryStatus(P_L: real): MasteryStatus {
    if P_L >= MASTERY_THRESHOLD then Mastered
    else if P_L >= LEARNING_THRESHOLD then Learning
    else Locked
  }

  function StatusRank(s: MasteryStatus): nat {
    match s
    case Locked => 0
    case Learning => 1
    case Mastered => 2
  }

  /** Each status holds on exactly its band of P_L, and more mastery never gives a lower status. */
  lemma StatusBands(p: real, q: real)
    ensures DetermineMasteryStatus(p) == Mastered <==> p >= 0.90
    ensures DetermineMasteryStatus(p) == Learning <==> 0.40 <= p < 0.90
    ensures DetermineMasteryStatus(p) == Locked <==> p < 0.40
    ensures p <= q ==> StatusRank(DetermineMasteryStatus(p)) <= StatusRank(DetermineMasteryStatus(q))
    ensures DetermineMasteryStatus(0.40) == Learning && DetermineMasteryStatus(0.3999) == Locked
    ensures DetermineMasteryStatus(0.90) == Mastered && DetermineMasteryStatus(0.8999) == Learning
  {
  }

  // ---------------------------------------------------------------- full update

  datatype BktUpdate = BktUpdate(
    P_L_old: real,
    P_knew: real,
    P_L_new: real,
    mastery_status_old: MasteryStatus,
    mastery_status_new: MasteryStatus,
    mastery_change: real,
    is_correct: bool)

  /** `full_bkt_update`: posterior, then mastery update, then both statuses and the change. */
  function FullBktUpdate(P_L_old: real, is_correct: bool, P_T: real, P_G: real, P_S: real): (r: Result<BktUpdate, ProbError>)
    ensures r.Ok? <==> InUnit(P_L_old) && InUnit(P_T) && InUnit(P_G) && InUnit(P_S)
    ensures r.Err? ==> r.error == (if CalculatePosterior(P_L_old, is_correct, P_G, P_S).Err?
      then CalculatePosterior(P_L_old, is_correct, P_G, P_S).error
      else InvalidProbability("P_T", P_T))
    ensures r.Ok? ==>
      var u := r.value;
      && u.P_L_old == P_L_old
      && u.P_knew == PosteriorOf(P_L_old, is_correct, P_G, P_S)
      && u.P_L_new == MasteryAfter(u.P_knew as Prob, P_T)
      && InUnit(u.P_L_new)
      && u.mastery_change == u.P_L_new - P_L_old
      && u.mastery_status_old == DetermineMasteryStatus(P_L_old)
      && u.mastery_status_new == DetermineMasteryStatus(u.P_L_new)
      && u.is_correct == is_correct
  {
    match CalculatePosterior(P_L_old, is_correct, P_G, P_S)
    case Err(e) => Err(e)
    case Ok(knew) =>
      match UpdateMastery(P_L_old, knew, P_T)
      case Err(e) => Err(e)
      case Ok(next) =>
        Ok(BktUpdate(P_L_old, knew, next, DetermineMasteryStatus(P_L_old),
                     DetermineMasteryStatus(next), next - P_L_old, is_correct))
  }

  /** One correct-or-incorrect BKT step on validated parameters. */
  function Step(P_L: Prob, is_correct: bool, P_T: Prob, P_G: Prob, P_S: Prob): Prob {
    MasteryAfter(PosteriorOf(P_L, is_correct, P_G, P_S), P_T)
  }

  /** Under P_G + P_S <= 1 a correct answer never lowers P_L. */
  lemma CorrectAnswerNeverLowersMastery(P_L: Prob, P_T: Prob, P_G: Prob, P_S: Prob)
    requires P_G + P_S <= 1.0
    ensures Denominator(P_L, true, P_G, P_S) != 0.0 ==> Step(P_L, true, P_T, P_G, P_S) >= P_L
  {
    PosteriorDirection(P_L, P_G, P_S);
    MasteryAfterProperties(PosteriorOf(P_L, true, P_G, P_S), P_T);
  }

  /** A first correct answer under the default parameters: P_L rises from 0.10 to 5/14, still locked. */
  lemma FirstCorrectAnswerFromDefaults()
    ensures FullBktUpdate(0.10, true, 0.10, 0.25, 0.10).Ok?
    ensures var u := FullBktUpdate(0.10, true, 0.10, 0.25, 0.10).value;
      u.P_L_new == 5.0 / 14.0 && u.P_L_new > 0.10
      && u.mastery_status_old == Locked && u.mastery_status_new == Locked
  {
    var post := PosteriorOf(0.10, true, 0.25, 0.10);
    assert Denominator(0.10, true, 0.25, 0.10) == 0.315;
    assert post * 0.315 == 0.09;
    assert post == 2.0 / 7.0;
  }

  /** `n` correct answers in a row with P_T = 0.10, P_G = 0.25, P_S = 0.05. */
  function CorrectStreak(p: Prob, n: nat): Prob
    decreases n
  {
    if n == 0 then p else CorrectStreak(Step(p, true, 0.10, 0.25, 0.05), n - 1)
  }

  /** One correct step with those parameters lifts P_L above 0.9 * lo + 0.1 for posterior bound lo. */
  lemma StreakStepBound(p: Prob, a: real, lo: real)
    requires 0.0 < a <= p && 0.0 <= lo <= 1.0
    requires 0.95 * a >= lo * (0.7 * a + 0.25)
    ensures Step(p, true, 0.10, 0.25, 0.05) >= 0.9 * lo + 0.1
  {
    var post := PosteriorOf(p, true, 0.25, 0.05);
    var den := Denominator(p, true, 0.25, 0.05);
    assert den == 0.7 * p + 0.25;
    assert post * den == 0.95 * p;
    assert 0.95 * p >= lo * den by {
      assert 0.95 * (p - a) >= lo * 0.7 * (p - a) by {
        assert lo * 0.7 <= 0.95;
        assert p - a >= 0.0;
      }
    }
    assert post >= lo;
    MasteryAfterProperties(post, 0.10);
  }

  lemma {:induction false} StreakNeverDrops(p: Prob, n: nat)
    ensures CorrectStreak(p, n) >= p
    decreases n
  {
    if n > 0 {
      assert Denominator(p, true, 0.25, 0.05) == 0.7 * p + 0.25;
      CorrectAnswerNeverLowersMastery(p, 0.10, 0.25, 0.05);
      StreakNeverDrops(Step(p, true, 0.10, 0.25, 0.05), n - 1);
    }
  }

  /** From P_L = 0.10, a hundred correct answers (P_T 0.10, P_G 0.25, P_S 0.05) pass 0.95. */
  lemma CorrectStreakConverges()
    ensures CorrectStreak(0.10, 100) > 0.95
  {
    var p1 := Step(0.10, true, 0.10, 0.25, 0.05);
    StreakStepBound(0.10, 0.10, 0.29);
    var p2 := Step(p1, true, 0.10, 0.25, 0.05);
    StreakStepBound(p1, 0.361, 0.68);
    var p3 := Step(p2, true, 0.10, 0.25, 0.05);
    StreakStepBound(p2, 0.712, 0.90);
    var p4 := Step(p3, true, 0.10, 0.25, 0.05);
    StreakStepBound(p3, 0.91, 0.97);
    assert p4 > 0.95;
    assert CorrectStreak(0.10, 100) == CorrectStreak(p1, 99);
    assert CorrectStreak(p1, 99) == CorrectStreak(p2, 98);
    assert CorrectStreak(p2, 98) == CorrectStreak(p3, 97);
    assert CorrectStreak(p3, 97) == CorrectStreak(p4, 96);
    StreakNeverDrops(p4, 96);
  }

  // ---------------------------------------------------------------- Elo

  /**
   * What the model assumes of `10 ** x`: 10**0 = 1, it is positive, and 10**(-x) is its
   * reciprocal. The exponential itself is a parameter of the Elo operations.
   */
  ghost predicate Pow10Laws(pow10: real -> real) {
    && pow10(0.0) == 1.0
    && (forall x :: pow10(x) > 0.0)
    && (forall x :: pow10(-x) * pow10(x) == 1.0)
  }

  /** A stand-in for `10 ** x` that is not the exponential but obeys the same three laws. */
  function ReciprocalLine(x: real): (r: real)
    ensures r > 0.0
  {
    if x >= 0.0 then 1.0 + x else 1.0 / (1.0 - x)
  }

  /** The laws are consistent: `ReciprocalLine` meets them, so no Elo contract is vacuous. */
  lemma Pow10LawsConsistent()
    ensures Pow10Laws(ReciprocalLine)
  {
    forall x: real ensures ReciprocalLine(-x) * ReciprocalLine(x) == 1.0 {
      ReciprocalLineInverse(x);
    }
  }

  lemma ReciprocalLineInverse(x: real)
    ensures ReciprocalLine(-x) * ReciprocalLine(x) == 1.0
  {
    if x > 0.0 {
      assert ReciprocalLine(-x) == 1.0 / (1.0 + x);
      assert ReciprocalLine(x) == 1.0 + x;
    } else if x < 0.0 {
      assert ReciprocalLine(-x) == 1.0 - x;
      assert ReciprocalLine(x) == 1.0 / (1.0 - x);
    }
  }

  /** `1 / (1 + 10 ** ((opponent - own) / 400))`: the expected score of the first rating. */
  function ExpectedScore(pow10: real -> real, own: int, opponent: int): real
    requires Pow10Laws(pow10)
  {
    1.0 / (1.0 + pow10((opponent - own) as real / 400.0))
  }

  /** Expected scores lie strictly between 0 and 1, sum to 1 across the pair, and are 1/2 when equal. */
  lemma ExpectedScoreLaws(pow10: real -> real, a: int, b: int)
    requires Pow10Laws(pow10)
    ensures 0.0 < ExpectedScore(pow10, a, b) < 1.0
    ensures ExpectedScore(pow10, a, b) + ExpectedScore(pow10, b, a) == 1.0
    ensures ExpectedScore(pow10, a, a) == 0.5
  {
    var x := (b - a) as real / 400.0;
    assert (a - b) as real / 400.0 == -x;
    var t := pow10(x);
    var u := pow10(-x);
    assert t > 0.0 && u * t == 1.0;
    assert ExpectedScore(pow10, b, a) == 1.0 / (1.0 + u);
    assert 1.0 / (1.0 + t) + 1.0 / (1.0 + u) == 1.0 by {
      assert (1.0 + t) * u == u + 1.0;
    }
    assert 0.0 < 1.0 / (1.0 + t) < 1.0;
    assert (a - a) as real / 400.0 == 0.0;
  }

  /** Python's `round`: the nearest integer, ties to the even one. */
  function RoundHalfEven(x: real): (r: int)
    ensures -0.5 <= r as real - x <= 0.5
    ensures (r as real - x == 0.5 || x - r as real == 0.5) ==> r % 2 == 0
  {
    var f := x.Floor;
    var d := x - f as real;
    if d < 0.5 then f
    else if d > 0.5 then f + 1
    else if f % 2 == 0 then f else f + 1
  }

  /** The unrounded rating changes of student and question. */
  function EloDeltas(pow10: real -> real, student_elo: int, question_elo: int, is_correct: bool, K: int): (real, real)
    requires Pow10Laws(pow10)
  {
    var expected_student := ExpectedScore(pow10, student_elo, question_elo);
    var expected_question := 1.0 - expected_student;
    var actual_student := if is_correct then 1.0 else 0.0;
    var actual_question := 1.0 - actual_student;
    (K as real * (actual_student - expected_student), K as real * (actual_question - expected_question))
  }

  /** The paired update is zero-sum before rounding, and the question's expectation equals its own score. */
  lemma EloZeroSum(pow10: real -> real, s: int, q: int, is_correct: bool, K: int)
    requires Pow10Laws(pow10)
    ensures EloDeltas(pow10, s, q, is_correct, K).0 + EloDeltas(pow10, s, q, is_correct, K).1 == 0.0
    ensures 1.0 - ExpectedScore(pow10, s, q) == ExpectedScore(pow10, q, s)
  {
    ExpectedScoreLaws(pow10, s, q);
  }

  /** `max(0, int(round(x)))` */
  function FlooredRound(x: real): nat {
    var r := RoundHalfEven(x);
    if r < 0 then 0 else r
  }

  /** `update_elo`: both new ratings, each rounded half-to-even and floored at 0. */
  function UpdateElo(pow10: real -> real, student_elo: int, question_elo: int, is_correct: bool, K: int): (r: (nat, nat))
    requires Pow10Laws(pow10)
    ensures K >= 0 && is_correct ==> r.0 >= student_elo && r.1 <= Max0(question_elo)
    ensures K >= 0 && !is_correct ==> r.0 <= Max0(student_elo) && r.1 >= question_elo
    ensures K >= 0 ==> r.0 <= Max0(student_elo + K) && r.1 <= Max0(question_elo + K)
    ensures K >= 0 ==> r.0 >= student_elo - K && r.1 >= question_elo - K
  {
    var d := EloDeltas(pow10, student_elo, question_elo, is_correct, K);
    EloDeltaBounds(pow10, student_elo, question_elo, is_correct, K);
    (FlooredRound(student_elo as real + d.0), FlooredRound(question_elo as real + d.1))
  }

  /**
   * The two changes are opposite; with K >= 0 each is at most K in size; with K > 0 the student
   * gains exactly when the answer is correct, and with K = 0 nothing changes.
   */
  lemma EloDeltaBounds(pow10: real -> real, s: int, q: int, is_correct: bool, K: int)
    requires Pow10Laws(pow10)
    ensures var d := EloDeltas(pow10, s, q, is_correct, K);
      && d.1 == -d.0
      && (K >= 0 ==> -(K as real) <= d.0 <= K as real)
      && (K > 0 ==> (is_correct <==> d.0 > 0.0))
      && (K == 0 ==> d.0 == 0.0)
  {
    ExpectedScoreLaws(pow10, s, q);
    var e := ExpectedScore(pow10, s, q);
    if K >= 0 {
      assert 0.0 <= K as real * (1.0 - e) <= K as real;
      assert 0.0 <= K as real * e <= K as real;
    }
    if K > 0 {
      assert K as real * (1.0 - e) > 0.0;
      assert K as real * e > 0.0;
    }
  }

  function Max0(x: int): nat {
    if x < 0 then 0 else x
  }

  /** Two equal 1200 ratings with K = 32 and a correct answer give (1216, 1184). */
  lemma EloEqualRatingsExample(pow10: real -> real)
    requires Pow10Laws(pow10)
    ensures UpdateElo(pow10, 1200, 1200, true, 32) == (1216, 1184)
  {
    ExpectedScoreLaws(pow10, 1200, 1200);
    assert RoundHalfEven(1216.0) == 1216;
    assert RoundHalfEven(1184.0) == 1184;
  }

  /** `calculate_elo_range`: the inclusive window [max(0, e - t), e + t]. */
  function CalculateEloRange(student_elo: int, tolerance: int): (r: (int, int))
    ensures r.0 >= 0 && r.1 == student_elo + tolerance
    ensures r.0 == student_elo - tolerance || (r.0 == 0 && student_elo - tolerance < 0)
    ensures tolerance >= 0 && student_elo >= 0 ==> r.0 <= student_elo <= r.1
    ensures r.0 == Max0(student_elo - tolerance)
  {
    (if student_elo - tolerance > 0 then student_elo - tolerance else 0, student_elo + tolerance)
  }
}
