/** The CVSS 3.1 base score of the calculator (sections 5, 6 and 7.1 and Appendix A of the
    CVSS v3.1 specification), over exact reals, and the server's severity bands. */
module Cvss31 {

  // ----- metrics and weights ------------------------------------------------------------

  datatype AttackVector = Network | Adjacent | Local | Physical
  datatype Complexity = LowComplexity | HighComplexity
  datatype Privileges = NoPrivileges | LowPrivileges | HighPrivileges
  datatype Interaction = NoInteraction | Required
  datatype Scope = Unchanged | Changed
  datatype Effect = NoEffect | LowEffect | HighEffect

  datatype Metrics = Metrics(
    av: AttackVector, ac: Complexity, pr: Privileges, ui: Interaction,
    s: Scope, c: Effect, i: Effect, a: Effect)

  function AvWeight(v: AttackVector): real {
    match v case Network => 0.85 case Adjacent => 0.62 case Local => 0.55 case Physical => 0.2
  }

  function AcWeight(v: Complexity): real {
    match v case LowComplexity => 0.77 case HighComplexity => 0.44
  }

  function PrWeight(s: Scope, v: Privileges): real {
    match v
    case NoPrivileges => 0.85
    case LowPrivileges => if s == Unchanged then 0.62 else 0.68
    case HighPrivileges => if s == Unchanged then 0.27 else 0.5
  }

  function UiWeight(v: Interaction): real {
    match v case NoInteraction => 0.85 case Required => 0.62
  }

  function EffectWeight(v: Effect): real {
    match v case NoEffect => 0.0 case LowEffect => 0.22 case HighEffect => 0.56
  }

  // ----- the formula --------------------------------------------------------------------

  function Pow(x: real, n: nat): real {
    if n == 0 then 1.0 else x * Pow(x, n - 1)
  }

  const EXPONENT: nat := 15

  /** The impact sub-score of three effect weights. */
  function SubScore(c: real, i: real, a: real): real { 1.0 - (1.0 - c) * (1.0 - i) * (1.0 - a) }

  function Iss(m: Metrics): real { SubScore(EffectWeight(m.c), EffectWeight(m.i), EffectWeight(m.a)) }

  function Impact(s: Scope, iss: real): real {
    if s == Unchanged then 6.42 * iss else 7.52 * (iss - 0.029) - 3.25 * Pow(iss - 0.02, EXPONENT)
  }

  function Exploitability(av: real, ac: real, pr: real, ui: real): real {
    8.22 * av * ac * pr * ui
  }

  function Min(x: real, y: real): real { if x <= y then x else y }

  /** Math.round(n * 100000): the nearest integer, halves upwards. */
  function Scaled(n: real): int { (n * 100000.0 + 0.5).Floor }

  /** The integer-based round-up of Appendix A. */
  function RoundUp(n: real): real {
    var x := Scaled(n);
    if x % 10000 == 0 then x as real / 100000.0
    else (x as real / 10000.0 + 1.0).Floor as real / 10.0
  }

  function Combine(s: Scope, impact: real, exploitability: real): real {
    if impact <= 0.0 then 0.0
    else if s == Unchanged then RoundUp(Min(impact + exploitability, 10.0))
    else RoundUp(Min(1.08 * (impact + exploitability), 10.0))
  }

  function ExploitabilityOf(m: Metrics): real {
    Exploitability(AvWeight(m.av), AcWeight(m.ac), PrWeight(m.s, m.pr), UiWeight(m.ui))
  }

  function BaseScore(m: Metrics): real {
    Combine(m.s, Impact(m.s, Iss(m)), ExploitabilityOf(m))
  }

  // ----- round-up -----------------------------------------------------------------------

  function Tenths(k: int): real { k as real / 10.0 }

  /** r is the smallest multiple of one tenth that is not below x. */
  ghost predicate IsCeilTenth(r: real, x: real) {
    (exists k :: r == Tenths(k)) && x <= r && (forall k :: x <= Tenths(k) ==> r <= Tenths(k))
  }

  lemma RoundUpTenths(n: real) returns (k: int)
    ensures RoundUp(n) == Tenths(k) && 10000 * (k - 1) < Scaled(n) <= 10000 * k
  {
    var x := Scaled(n);
    if x % 10000 == 0 {
      k := x / 10000;
      assert x as real == k as real * 10000.0;
    } else {
      var q := x / 10000;
      assert x == 10000 * q + x % 10000;
      assert q as real < x as real / 10000.0 < q as real + 1.0;
      k := q + 1;
      assert (x as real / 10000.0 + 1.0).Floor == k;
    }
  }

  /** The round-up is the least tenth above the input rounded to five decimals. */
  lemma RoundUpIsCeiling(n: real)
    ensures IsCeilTenth(RoundUp(n), Scaled(n) as real / 100000.0)
  {
    var k := RoundUpTenths(n);
    var x := Scaled(n) as real;
    assert x / 100000.0 <= Tenths(k);
    forall j | x / 100000.0 <= Tenths(j) ensures Tenths(k) <= Tenths(j) {
      assert x <= (10000 * j) as real;
      assert Scaled(n) <= 10000 * j;
    }
  }

  lemma RoundUpMonotone(n: real, m: real)
    requires n <= m
    ensures RoundUp(n) <= RoundUp(m)
  {
    var j := RoundUpTenths(n);
    var k := RoundUpTenths(m);
    assert Scaled(n) <= Scaled(m);
    assert j <= k;
  }

  lemma RoundUpFixesTenths(k: int)
    ensures RoundUp(Tenths(k)) == Tenths(k)
  {
    assert Scaled(Tenths(k)) == 10000 * k;
    var j := RoundUpTenths(Tenths(k));
  }

  /** Sharp bounds for every real, and exactly when the result falls below the input. */
  lemma RoundUpBounds(n: real)
    ensures n - 0.000005 < RoundUp(n) <= n + 0.099995
    ensures RoundUp(n) < n <==> exists k :: Tenths(k) < n < Tenths(k) + 0.000005
  {
    var k := RoundUpTenths(n);
    assert Scaled(n) as real <= n * 100000.0 + 0.5 < Scaled(n) as real + 1.0;
    assert (10000 * (k - 1) + 1) as real <= Scaled(n) as real <= (10000 * k) as real;
    assert RoundUp(n) < n ==> Tenths(k) < n < Tenths(k) + 0.000005;
    if j :| Tenths(j) < n < Tenths(j) + 0.000005 {
      assert Scaled(n) == 10000 * j;
      assert j == k;
    }
  }

  // ----- powers -------------------------------------------------------------------------

  lemma MulLe(a: real, b: real, c: real, d: real)
    requires 0.0 <= a <= b && 0.0 <= c <= d
    ensures 0.0 <= a * c <= b * d
  {}

  lemma {:induction false} UnitPow(x: real, n: nat)
    requires 0.0 <= x <= 1.0
    ensures 0.0 <= Pow(x, n) <= 1.0
  {
    if n > 0 {
      UnitPow(x, n - 1);
      MulLe(x, 1.0, Pow(x, n - 1), 1.0);
    }
  }

  /** n * d, by addition. */
  function Times(n: nat, d: real): real { if n == 0 then 0.0 else Times(n - 1, d) + d }

  /** Between 0 and 1 the n-th power has slope at most n. */
  lemma UnitSlope(x: real, y: real, n: nat)
    requires 0.0 <= x <= y <= 1.0
    ensures 0.0 <= Pow(y, n) - Pow(x, n) <= Times(n, y - x)
  {
    var (p, q, bound) := (1.0, 1.0, 0.0);
    for i := 0 to n
      invariant p == Pow(x, i) && q == Pow(y, i) && bound == Times(i, y - x)
      invariant 0.0 <= p <= 1.0 && 0.0 <= q - p <= bound
    {
      UnitStep(x, y, p, q, x * p, y * q, bound);
      UnitPow(x, i + 1);
      NextPow(x, i + 1, p);
      NextPow(y, i + 1, q);
      p, q, bound := x * p, y * q, bound + (y - x);
    }
  }

  lemma NextPow(x: real, n: nat, p: real)
    requires n > 0 && p == Pow(x, n - 1)
    ensures Pow(x, n) == x * p
  {}

  lemma UnitStep(x: real, y: real, p: real, q: real, p': real, q': real, bound: real)
    requires 0.0 <= x <= y <= 1.0 && 0.0 <= p <= 1.0 && 0.0 <= q - p <= bound && p' == x * p && q' == y * q
    ensures 0.0 <= q' - p' <= bound + (y - x)
  {
    assert y * q - x * p == y * (q - p) + p * (y - x);
    MulLe(y, 1.0, q - p, q - p);
    MulLe(p, 1.0, y - x, y - x);
  }

  lemma {:induction false} TimesIsProduct(n: nat, d: real)
    ensures Times(n, d) == n as real * d
  {
    if n > 0 {
      TimesIsProduct(n - 1, d);
      assert n as real * d == (n - 1) as real * d + d;
    }
  }

  lemma {:induction false} PowProduct(x: real, y: real, n: nat)
    ensures Pow(x * y, n) == Pow(x, n) * Pow(y, n)
  {
    if n > 0 {
      PowProduct(x, y, n - 1);
      Rearrange(x, y, Pow(x, n - 1), Pow(y, n - 1));
    }
  }

  lemma Rearrange(x: real, y: real, p: real, q: real)
    ensures (x * y) * (p * q) == (x * p) * (y * q)
  {}

  /** From 0 to 0.829 the 15th power has slope below 2. */
  lemma SlopeBelowTwo(x: real, y: real)
    requires 0.0 <= x <= y <= 0.829
    ensures Pow(y, EXPONENT) - Pow(x, EXPONENT) <= 2.0 * (y - x)
  {
    UnitSlope(x / 0.829, y / 0.829, EXPONENT);
    TimesIsProduct(EXPONENT, y / 0.829 - x / 0.829);
    ScaledPow(x);
    ScaledPow(y);
  }

  const POW_829 := 0.829 * 0.829 * 0.829 * 0.829 * 0.829 * 0.829 * 0.829 * 0.829
                   * 0.829 * 0.829 * 0.829 * 0.829 * 0.829 * 0.829 * 0.829

  lemma ScaledPow(x: real)
    ensures Pow(x, EXPONENT) == POW_829 * Pow(x / 0.829, EXPONENT) && 0.06 < POW_829 < 0.0602
  {
    PowProduct(0.829, x / 0.829, EXPONENT);
    Pow15(0.829);
    assert 0.829 * (x / 0.829) == x;
  }

  /** ... and, the exponent being odd, from -0.829 to 0.829. */
  lemma SlopeBelowTwoAround(x: real, y: real)
    requires -0.829 <= x <= y <= 0.829
    ensures Pow(y, EXPONENT) - Pow(x, EXPONENT) <= 2.0 * (y - x)
  {
    PowNegated(x);
    PowNegated(y);
    assert Pow(0.0, EXPONENT) == 0.0;
    if x >= 0.0 {
      SlopeBelowTwo(x, y);
    } else if y <= 0.0 {
      SlopeBelowTwo(-y, -x);
    } else {
      SlopeBelowTwo(0.0, y);
      SlopeBelowTwo(0.0, -x);
    }
  }

  lemma PowNegated(x: real)
    ensures Pow(-x, EXPONENT) == -Pow(x, EXPONENT)
  {
    PowProduct(-1.0, x, EXPONENT);
    Pow15(-1.0);
    assert -1.0 * x == -x;
  }

  lemma Pow15(x: real)
    ensures var x2 := x * x; var x4 := x2 * x2; var x8 := x4 * x4;
      Pow(x, EXPONENT - 1) == x8 * x4 * x2 && Pow(x, EXPONENT) == x * (x8 * x4 * x2)
  {
    var x2 := x * x;
    var x4 := x2 * x2;
    var x8 := x4 * x4;
    PowChain(x, x2, x4, x8, x8 * x4, x8 * x4 * x2);
  }

  lemma PowChain(x: real, x2: real, x4: real, x8: real, x12: real, x14: real)
    requires x2 == x * x && x4 == x2 * x2 && x8 == x4 * x4 && x12 == x8 * x4 && x14 == x12 * x2
    ensures Pow(x, 14) == x14 && Pow(x, 15) == x * x14
  {
    assert Pow(x, 1) == x * Pow(x, 0) == x;
    PowSum(x, 1, x, 1, x);
    PowSum(x, 2, x2, 2, x2);
    PowSum(x, 4, x4, 4, x4);
    PowSum(x, 8, x8, 4, x4);
    PowSum(x, 12, x12, 2, x2);
    PowSum(x, 1, x, 14, x14);
  }

  lemma PowSum(x: real, m: nat, p: real, n: nat, q: real)
    requires Pow(x, m) == p && Pow(x, n) == q
    ensures Pow(x, m + n) == p * q
  {
    PowAdd(x, m, n);
  }

  lemma {:induction false} PowAdd(x: real, m: nat, n: nat)
    ensures Pow(x, m + n) == Pow(x, m) * Pow(x, n)
  {
    if m > 0 {
      PowAdd(x, m - 1, n);
      assert Pow(x, m + n) == x * Pow(x, m - 1 + n);
    }
  }

  // ----- impact and exploitability -------------------------------------------------------

  /** Changed-scope impact is strictly increasing on the real sub-scores from -0.809 to 0.849,
      which include every one from 0 to 0.849. */
  lemma ChangedImpactIncreases(x: real, y: real)
    requires -0.809 <= x < y <= 0.849
    ensures Impact(Changed, x) < Impact(Changed, y)
  {
    SlopeBelowTwoAround(x - 0.02, y - 0.02);
    var (p, q) := (Pow(x - 0.02, EXPONENT), Pow(y - 0.02, EXPONENT));
    assert Impact(Changed, x) == 7.52 * (x - 0.029) - 3.25 * p;
    assert Impact(Changed, y) == 7.52 * (y - 0.029) - 3.25 * q;
  }

  const ISS_HHL := 0.848992
  const ISS_HHH := 0.914816

  /** The one step beyond 0.849 that eight metrics can take: from HHL to HHH. */
  lemma ChangedImpactLastStep()
    ensures Impact(Changed, ISS_HHL) < Impact(Changed, ISS_HHH)
  {
    Pow15(ISS_HHL - 0.02);
    Pow15(ISS_HHH - 0.02);
  }

  /** Outside that interval the formula is not monotone: it peaks before HHH, and it falls from
      -1 to -0.9, where no sub-score lies. */
  lemma ChangedImpactPeaks()
    ensures ISS_HHL < 0.895 < ISS_HHH && Impact(Changed, 0.895) > Impact(Changed, ISS_HHH)
    ensures Impact(Changed, -1.0) > Impact(Changed, -0.9)
  {
    Pow15(-1.02);
    Pow15(-0.92);
    Pow15(0.875);
    Pow15(ISS_HHH - 0.02);
  }

  lemma ExploitabilityMonotone(av: real, ac: real, pr: real, ui: real, av': real, ac': real, pr': real, ui': real)
    requires 0.0 <= av <= av' && 0.0 <= ac <= ac' && 0.0 <= pr <= pr' && 0.0 <= ui <= ui'
    ensures 0.0 <= Exploitability(av, ac, pr, ui) <= Exploitability(av', ac', pr', ui')
  {}

  // ----- the score ----------------------------------------------------------------------

  function AvRank(v: AttackVector): int {
    match v case Physical => 0 case Local => 1 case Adjacent => 2 case Network => 3
  }

  function AcRank(v: Complexity): int { if v == LowComplexity then 1 else 0 }

  function PrRank(v: Privileges): int {
    match v case HighPrivileges => 0 case LowPrivileges => 1 case NoPrivileges => 2
  }

  function UiRank(v: Interaction): int { if v == NoInteraction then 1 else 0 }
  function EffectRank(v: Effect): int { match v case NoEffect => 0 case LowEffect => 1 case HighEffect => 2 }

  /** n is at least as severe as m in every metric, with the same scope. */
  predicate NoLessSevere(m: Metrics, n: Metrics) {
    && m.s == n.s
    && AvRank(m.av) <= AvRank(n.av) && AcRank(m.ac) <= AcRank(n.ac)
    && PrRank(m.pr) <= PrRank(n.pr) && UiRank(m.ui) <= UiRank(n.ui)
    && EffectRank(m.c) <= EffectRank(n.c) && EffectRank(m.i) <= EffectRank(n.i) && EffectRank(m.a) <= EffectRank(n.a)
  }

  lemma IssLevels(m: Metrics)
    ensures 0.0 <= Iss(m) <= ISS_HHL || (Iss(m) == ISS_HHH && m.c == m.i == m.a == HighEffect)
    ensures Iss(m) < 0.2 ==> m.c == m.i == m.a == NoEffect && Iss(m) == 0.0
  {
  }

  lemma SubScoreMonotone(c: real, i: real, a: real, c': real, i': real, a': real)
    requires 0.0 <= c <= c' <= 1.0 && 0.0 <= i <= i' <= 1.0 && 0.0 <= a <= a' <= 1.0
    ensures 0.0 <= SubScore(c, i, a) <= SubScore(c', i', a') <= 1.0
  {
    MulLe(1.0 - c', 1.0 - c, 1.0 - i', 1.0 - i);
    MulLe((1.0 - c') * (1.0 - i'), (1.0 - c) * (1.0 - i), 1.0 - a', 1.0 - a);
    MulLe(1.0 - c, 1.0, 1.0 - i, 1.0);
    MulLe((1.0 - c) * (1.0 - i), 1.0, 1.0 - a, 1.0);
  }

  /** Impact is monotone in all real weights from 0 to 1: everywhere for unchanged scope, and up
      to the sub-score 0.849 for changed scope. */
  lemma WeightedImpactMonotone(s: Scope, c: real, i: real, a: real, c': real, i': real, a': real)
    requires 0.0 <= c <= c' <= 1.0 && 0.0 <= i <= i' <= 1.0 && 0.0 <= a <= a' <= 1.0
    requires s == Unchanged || SubScore(c', i', a') <= 0.849
    ensures Impact(s, SubScore(c, i, a)) <= Impact(s, SubScore(c', i', a'))
  {
    var (x, y) := (SubScore(c, i, a), SubScore(c', i', a'));
    SubScoreMonotone(c, i, a, c', i', a');
    if s == Changed && x < y { ChangedImpactIncreases(x, y); }
  }

  lemma IssMonotone(m: Metrics, n: Metrics)
    requires NoLessSevere(m, n)
    ensures Iss(m) <= Iss(n)
  {
    SubScoreMonotone(EffectWeight(m.c), EffectWeight(m.i), EffectWeight(m.a), EffectWeight(n.c), EffectWeight(n.i),
      EffectWeight(n.a));
  }

  /** On the levels of the metrics impact is monotone for both scopes, HHH included. */
  lemma ImpactMonotone(m: Metrics, n: Metrics)
    requires NoLessSevere(m, n)
    ensures Impact(m.s, Iss(m)) <= Impact(n.s, Iss(n))
  {
    IssMonotone(m, n);
    IssLevels(m);
    IssLevels(n);
    if m.s == Changed && Iss(m) < Iss(n) {
      if Iss(n) <= ISS_HHL {
        ChangedImpactIncreases(Iss(m), Iss(n));
      } else {
        if Iss(m) < ISS_HHL { ChangedImpactIncreases(Iss(m), ISS_HHL); }
        ChangedImpactLastStep();
      }
    }
  }

  lemma CombineMonotone(s: Scope, f: real, d: real, g: real, e: real)
    requires f <= g && 0.0 <= d <= e
    ensures Combine(s, f, d) <= Combine(s, g, e)
  {
    if f > 0.0 {
      RoundUpMonotone(Min(f + d, 10.0), Min(g + e, 10.0));
      RoundUpMonotone(Min(1.08 * (f + d), 10.0), Min(1.08 * (g + e), 10.0));
    } else if g > 0.0 {
      var n := if s == Unchanged then g + e else 1.08 * (g + e);
      RoundUpMonotone(0.0, Min(n, 10.0));
      RoundUpFixesTenths(0);
    }
  }

  lemma CombineRange(s: Scope, f: real, e: real) returns (k: int)
    requires (f <= 0.0 || f >= 0.1) && e >= 0.0
    ensures 0.0 <= Combine(s, f, e) <= 10.0 && Combine(s, f, e) == Tenths(k)
    ensures Combine(s, f, e) == 0.0 <==> f <= 0.0
  {
    if f <= 0.0 {
      k := 0;
    } else {
      var base := Min(if s == Unchanged then f + e else 1.08 * (f + e), 10.0);
      RoundUpMonotone(0.1, base);
      RoundUpMonotone(base, 10.0);
      RoundUpFixesTenths(1);
      RoundUpFixesTenths(100);
      k := RoundUpTenths(base);
    }
  }

  lemma ExploitabilityOfMonotone(m: Metrics, n: Metrics)
    requires NoLessSevere(m, n)
    ensures 0.0 <= ExploitabilityOf(m) <= ExploitabilityOf(n)
  {
    ExploitabilityMonotone(AvWeight(m.av), AcWeight(m.ac), PrWeight(m.s, m.pr), UiWeight(m.ui),
                           AvWeight(n.av), AcWeight(n.ac), PrWeight(n.s, n.pr), UiWeight(n.ui));
  }

  /** For a fixed scope, making any metrics more severe never lowers the score. */
  lemma ScoreMonotone(m: Metrics, n: Metrics)
    requires NoLessSevere(m, n)
    ensures BaseScore(m) <= BaseScore(n)
  {
    ImpactMonotone(m, n);
    ExploitabilityOfMonotone(m, n);
    CombineMonotone(m.s, Impact(m.s, Iss(m)), ExploitabilityOf(m), Impact(n.s, Iss(n)), ExploitabilityOf(n));
  }

  /** Every score is a multiple of one tenth between 0 and 10, and it is 0 exactly when the
      three impact metrics are all None. */
  lemma ScoreRange(m: Metrics)
    ensures 0.0 <= BaseScore(m) <= 10.0 && exists k :: BaseScore(m) == Tenths(k)
    ensures BaseScore(m) == 0.0 <==> m.c == m.i == m.a == NoEffect
  {
    ImpactSign(m);
    ExploitabilityOfMonotone(m, m);
    var k := CombineRange(m.s, Impact(m.s, Iss(m)), ExploitabilityOf(m));
  }

  lemma ImpactSign(m: Metrics)
    ensures if m.c == m.i == m.a == NoEffect then Impact(m.s, Iss(m)) <= 0.0 else Impact(m.s, Iss(m)) >= 0.1
  {
    IssLevels(m);
    if m.s == Changed { ChangedImpactSign(Iss(m)); }
  }

  lemma ChangedImpactSign(iss: real)
    requires iss == 0.0 || 0.2 <= iss <= ISS_HHL || iss == ISS_HHH
    ensures if iss == 0.0 then Impact(Changed, iss) <= 0.0 else Impact(Changed, iss) >= 0.1
  {
    ChangedImpactLow();
    if 0.2 < iss <= ISS_HHL { ChangedImpactIncreases(0.2, iss); }
    ChangedImpactIncreases(0.2, ISS_HHL);
    ChangedImpactLastStep();
  }

  lemma ChangedImpactLow()
    ensures Impact(Changed, 0.0) <= 0.0 && Impact(Changed, 0.2) >= 0.1
  {
    Pow15(0.0 - 0.02);
    Pow15(0.2 - 0.02);
  }

  lemma RoundsTo(n: real, k: int)
    requires Tenths(k - 1) + 0.000005 <= n <= Tenths(k)
    ensures RoundUp(n) == Tenths(k)
  {
    var j := RoundUpTenths(n);
    assert 10000 * (k - 1) < Scaled(n) <= 10000 * k;
  }

  /** The score of a vector, metrics in the order of the vector string. */
  predicate Scores(av: AttackVector, ac: Complexity, pr: Privileges, ui: Interaction, s: Scope, c: Effect, i: Effect,
    a: Effect, tenths: int)
  {
    BaseScore(Metrics(av, ac, pr, ui, s, c, i, a)) == Tenths(tenths)
  }

  /** Three well-known vectors: 9.8, 6.1 and 1.8. */
  lemma ScoreExamples()
    ensures Scores(Network, LowComplexity, NoPrivileges, NoInteraction, Unchanged, HighEffect, HighEffect, HighEffect,
      98)
    ensures Scores(Network, LowComplexity, NoPrivileges, Required, Changed, LowEffect, LowEffect, NoEffect, 61)
    ensures Scores(Local, HighComplexity, HighPrivileges, Required, Unchanged, LowEffect, NoEffect, NoEffect, 18)
  {
    RoundsTo(6.42 * ISS_HHH + Exploitability(0.85, 0.77, 0.85, 0.85), 98);
    RoundsTo(6.42 * 0.22 + Exploitability(0.55, 0.44, 0.27, 0.62), 18);
    SmallPow();
    ChangedTo(0.3916, 0.85, 0.77, 0.85, 0.62, 61);
  }

  /** The rounding of a changed-scope score, from its sub-score and four weights. */
  lemma ChangedTo(iss: real, av: real, ac: real, pr: real, ui: real, k: int)
    requires 0.0 < Impact(Changed, iss) && k <= 100
    requires var n := 1.08 * (Impact(Changed, iss) + Exploitability(av, ac, pr, ui));
      Tenths(k - 1) + 0.000005 <= n <= Tenths(k)
    ensures Combine(Changed, Impact(Changed, iss), Exploitability(av, ac, pr, ui)) == Tenths(k)
  {
    RoundsTo(1.08 * (Impact(Changed, iss) + Exploitability(av, ac, pr, ui)), k);
  }

  /** Six vectors of unchanged scope ... */
  lemma UnchangedScores()
    ensures Scores(Adjacent, LowComplexity, NoPrivileges, NoInteraction, Unchanged, HighEffect, HighEffect, HighEffect,
      88)
    ensures Scores(Physical, HighComplexity, NoPrivileges, NoInteraction, Unchanged, NoEffect, HighEffect, HighEffect,
      57)
    ensures Scores(Network, LowComplexity, LowPrivileges, NoInteraction, Unchanged, NoEffect, HighEffect, HighEffect,
      81)
    ensures Scores(Local, LowComplexity, HighPrivileges, NoInteraction, Unchanged, NoEffect, NoEffect, HighEffect, 44)
    ensures Scores(Physical, LowComplexity, HighPrivileges, NoInteraction, Unchanged, NoEffect, NoEffect, LowEffect, 18)
    ensures Scores(Network, LowComplexity, LowPrivileges, NoInteraction, Unchanged, LowEffect, HighEffect, HighEffect,
      83)
  {
    RoundsTo(6.42 * ISS_HHH + Exploitability(0.62, 0.77, 0.85, 0.85), 88);
    RoundsTo(6.42 * 0.8064 + Exploitability(0.2, 0.44, 0.85, 0.85), 57);
    RoundsTo(6.42 * 0.8064 + Exploitability(0.85, 0.77, 0.62, 0.85), 81);
    RoundsTo(6.42 * 0.56 + Exploitability(0.55, 0.77, 0.27, 0.85), 44);
    RoundsTo(6.42 * 0.22 + Exploitability(0.2, 0.77, 0.27, 0.85), 18);
    RoundsTo(6.42 * ISS_HHL + Exploitability(0.85, 0.77, 0.62, 0.85), 83);
  }

  /** ... and four of changed scope.  Between them they use every weight, and a change of 0.01
      in any one weight changes one of the ten scores. */
  lemma ChangedScores()
    ensures Scores(Network, LowComplexity, LowPrivileges, Required, Changed, LowEffect, HighEffect, HighEffect, 89)
    ensures Scores(Local, HighComplexity, LowPrivileges, Required, Changed, NoEffect, LowEffect, HighEffect, 61)
    ensures Scores(Adjacent, LowComplexity, HighPrivileges, NoInteraction, Changed, NoEffect, LowEffect, HighEffect, 69)
    ensures Scores(Network, LowComplexity, HighPrivileges, NoInteraction, Changed, HighEffect, HighEffect, HighEffect,
      91)
  {
    LowPrivilegesChanged();
    HighPrivilegesChanged();
  }

  lemma LowPrivilegesChanged()
    ensures Scores(Network, LowComplexity, LowPrivileges, Required, Changed, LowEffect, HighEffect, HighEffect, 89)
    ensures Scores(Local, HighComplexity, LowPrivileges, Required, Changed, NoEffect, LowEffect, HighEffect, 61)
  {
    ThreePowers();
    ChangedTo(ISS_HHL, 0.85, 0.77, 0.68, 0.62, 89);
    ChangedTo(0.6568, 0.55, 0.44, 0.68, 0.62, 61);
  }

  lemma HighPrivilegesChanged()
    ensures Scores(Adjacent, LowComplexity, HighPrivileges, NoInteraction, Changed, NoEffect, LowEffect, HighEffect, 69)
    ensures Scores(Network, LowComplexity, HighPrivileges, NoInteraction, Changed, HighEffect, HighEffect, HighEffect,
      91)
  {
    ThreePowers();
    ChangedTo(0.6568, 0.62, 0.77, 0.5, 0.85, 69);
    ChangedTo(ISS_HHH, 0.85, 0.77, 0.5, 0.85, 91);
  }

  lemma SmallPow()
    ensures 0.0 <= Pow(0.3916 - 0.02, EXPONENT) < 0.00001
  {
    Pow15(0.3916 - 0.02);
  }

  lemma ThreePowers()
    ensures 0.0011 < Pow(0.6568 - 0.02, EXPONENT) < 0.0012
    ensures 0.06 < Pow(ISS_HHL - 0.02, EXPONENT) < 0.0601
    ensures 0.1888 < Pow(ISS_HHH - 0.02, EXPONENT) < 0.1889
  {
    Pow15(0.6568 - 0.02);
    Pow15(ISS_HHL - 0.02);
    Pow15(ISS_HHH - 0.02);
  }
}
