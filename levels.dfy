/** The level calculators: total points to a level under the TRIANGULAR,
    QUADRATIC and LINEAR formulas, and the points between levels.

    Three copies exist. `service/progress/LevelCalculatorServiceImpl` and
    `service/level/LevelCalculatorServiceImpl` compute the same levels and differ
    only in the int-typed linear gap of the latter. Their three named formulas are
    guarded (a total <= 0 is level 1); the fallback `1 + total / 1000` is not, so
    a total of -1000 or less is level 0 or below there. `service/level/LevelCalculatorImpl`
    has no guards at all.

    The source computes TRIANGULAR and QUADRATIC levels with `Math.sqrt` on
    doubles; here the level is the exact integer solution of the same threshold
    inequalities, computed with an integer square root. */
module Levels {
  import opened Common

  datatype Formula = Triangular | Quadratic | Linear | Unknown

  /** The configuration properties `leveling.formula`, `.base`, `.increment`. */
  datatype LevelConfig = LevelConfig(formula: string, base: int, increment: int)

  /** The field initialisers: TRIANGULAR, base 500, increment 200. */
  const DefaultConfig: LevelConfig := LevelConfig("TRIANGULAR", 500, 200)

  /** The configuration the model assumes of a deployment: a positive base and
      a non-negative increment. The source checks neither. With base <= 0 it
      does not fail: the guarded TRIANGULAR and QUADRATIC levels come out as 1
      through the double arithmetic (an infinite or NaN root), and LINEAR still
      ends when the increment is positive. Those configurations are not modelled. */
  predicate ValidConfig(cfg: LevelConfig)
  {
    cfg.base > 0 && cfg.increment >= 0
  }

  // ---------------------------------------------------------------------------
  // Choosing the formula: `formula.toUpperCase()` and a switch on three names.

  /** The upper case of a character, for every character whose Java upper case is
      a single ASCII letter (a-z, dotless i, long s). Every other character has an
      upper case that is not an ASCII letter, or a multi-letter one that occurs in
      none of the three names, so it cannot make a name match. */
  function UpperChar(c: char): char
  {
    if 'a' <= c <= 'z' then (c as int - 32) as char
    else if c == '\U{131}' then 'I'
    else if c == '\U{17F}' then 'S'
    else c
  }

  /** Upper-cases a name: no lower-case ASCII letter is left, and a character
      that has no upper-case form here is kept in its place. */
  function ToUpper(s: string): (u: string)
    ensures |u| == |s|
    ensures forall i | 0 <= i < |u| :: !('a' <= u[i] <= 'z') && u[i] != '\U{131}' && u[i] != '\U{17F}'
    ensures forall i | 0 <= i < |s| && UpperChar(s[i]) == s[i] :: u[i] == s[i]
  {
    seq(|s|, i requires 0 <= i < |s| => UpperChar(s[i]))
  }

  function ParseFormula(s: string): Formula
  {
    var u := ToUpper(s);
    if u == "TRIANGULAR" then Triangular
    else if u == "QUADRATIC" then Quadratic
    else if u == "LINEAR" then Linear
    else Unknown
  }

  /** Upper-casing twice is upper-casing once. */
  lemma ToUpperIdempotent(s: string)
    ensures ToUpper(ToUpper(s)) == ToUpper(s)
  {
  }

  /** The choice ignores case: upper-casing the name first changes nothing. */
  lemma ParseFormulaIgnoresCase(s: string)
    ensures ParseFormula(ToUpper(s)) == ParseFormula(s)
  {
    ToUpperIdempotent(s);
  }

  lemma ParseFormulaExamples()
    ensures ParseFormula("linear") == Linear
    ensures ParseFormula("Quadratic") == Quadratic
    ensures ParseFormula("TRIANGULAR") == Triangular
    ensures ParseFormula("cubic") == Unknown
  {
    assert ToUpper("linear") == "LINEAR";
    assert ToUpper("Quadratic") == "QUADRATIC";
    assert ToUpper("TRIANGULAR") == "TRIANGULAR";
    assert ToUpper("cubic") == "CUBIC";
  }

  // ---------------------------------------------------------------------------
  // Integer arithmetic the level proofs share.

  /** floor(sqrt(n)), by halving the bit length. */
  function Isqrt(n: nat): (r: nat)
    ensures r * r <= n < (r + 1) * (r + 1)
  {
    if n == 0 then 0
    else
      var h := Isqrt(n / 4);
      IsqrtStep(n, h);
      if (2 * h + 1) * (2 * h + 1) <= n then 2 * h + 1 else 2 * h
  }

  lemma IsqrtStep(n: nat, h: nat)
    requires h * h <= n / 4 < (h + 1) * (h + 1)
    ensures (2 * h) * (2 * h) <= n < (2 * h + 2) * (2 * h + 2)
  {
    assert (2 * h) * (2 * h) == 4 * (h * h);
    assert (2 * h + 2) * (2 * h + 2) == 4 * ((h + 1) * (h + 1));
  }

  lemma MulLeftMono(b: int, x: int, y: int)
    requires b >= 0 && x <= y
    ensures b * x <= b * y
  {
  }

  lemma SquareMono(x: int, y: int)
    requires 0 <= x <= y
    ensures x * x <= y * y
  {
    MulLeftMono(x, x, y);
    MulLeftMono(y, x, y);
  }

  /** k(k+1) is even, so the source's halvings are exact. */
  lemma ConsecutiveProductEven(k: int)
    ensures (k * (k + 1)) % 2 == 0
  {
    var h := k / 2;
    if k % 2 == 0 {
      assert k == 2 * h;
      DoubleFactor(h, k + 1);
    } else {
      assert k + 1 == 2 * (h + 1);
      DoubleFactor(h + 1, k);
      assert k * (k + 1) == (2 * (h + 1)) * k;
    }
  }

  lemma DoubleFactor(a: int, b: int)
    ensures ((2 * a) * b) % 2 == 0
  {
    assert (2 * a) * b == 2 * (a * b);
  }

  /** The three names as the configuration spells them, and a name that is none of them. */
  lemma CanonicalNames()
    ensures ParseFormula("TRIANGULAR") == Triangular
    ensures ParseFormula("QUADRATIC") == Quadratic
    ensures ParseFormula("LINEAR") == Linear
    ensures ParseFormula("UNKNOWN") == Unknown
  {
    assert ToUpper("TRIANGULAR") == "TRIANGULAR";
    assert ToUpper("QUADRATIC") == "QUADRATIC";
    assert ToUpper("LINEAR") == "LINEAR";
    assert ToUpper("UNKNOWN") == "UNKNOWN";
  }

  // ---------------------------------------------------------------------------
  // Thresholds: the points at which each level starts.

  /** LINEAR: the points that level k+1 starts at. Each level costs the increment
      more than the one before: base, base + increment, base + 2 increment, ... */
  function LinearThreshold(base: int, increment: int, k: nat): int
  {
    if k == 0 then 0 else LinearThreshold(base, increment, k - 1) + base + increment * (k - 1)
  }

  /** S(k) = k·base + increment·k(k−1)/2. */
  lemma {:induction false} LinearThresholdClosedForm(base: int, increment: int, k: nat)
    ensures 2 * LinearThreshold(base, increment, k) == 2 * k * base + increment * k * (k - 1)
  {
    if k > 0 {
      LinearThresholdClosedForm(base, increment, k - 1);
      assert increment * k * (k - 1) == increment * (k - 1) * (k - 2) + 2 * (increment * (k - 1));
    }
  }

  lemma {:induction false} LinearThresholdMono(base: int, increment: int, k: nat, j: nat)
    requires base > 0 && increment >= 0 && k < j
    ensures LinearThreshold(base, increment, k) < LinearThreshold(base, increment, j)
    decreases j
  {
    assert increment * (j - 1) >= 0;
    if k < j - 1 {
      LinearThresholdMono(base, increment, k, j - 1);
    }
  }

  /** The points at which level L (>= 1) starts under a named formula:
      base·L(L−1)/2, base·(L−1)², and S(L−1). */
  function Threshold(f: Formula, base: int, increment: int, L: nat): int
    requires L >= 1
  {
    match f
    case Triangular => base * ((L - 1) * L / 2)
    case Quadratic => base * (L - 1) * (L - 1)
    case Linear => LinearThreshold(base, increment, L - 1)
    case Unknown => 0
  }

  /** L is the level of total t: t lies in L's band of points. */
  predicate InBand(f: Formula, base: int, increment: int, t: int, L: nat)
  {
    L >= 1 && Threshold(f, base, increment, L) <= t < Threshold(f, base, increment, L + 1)
  }

  lemma TriangularThresholdDoubled(base: int, L: nat)
    requires L >= 1
    ensures 2 * Threshold(Triangular, base, 0, L) == base * (L - 1) * L
  {
    ConsecutiveProductEven(L - 1);
    assert (L - 1) * L == 2 * ((L - 1) * L / 2);
  }

  /** Twice the triangular number of L − 1 strictly grows with L. */
  lemma ConsecutiveProductMono(L: nat, M: nat)
    requires 1 <= L < M
    ensures (L - 1) * L < (M - 1) * M
  {
    MulLeftMono(L - 1, L, M);
    MulLeftMono(M, L - 1, M - 1);
  }

  lemma TriangularHalfMono(L: nat, M: nat)
    requires 1 <= L < M
    ensures (L - 1) * L / 2 < (M - 1) * M / 2
  {
    ConsecutiveProductEven(L - 1);
    ConsecutiveProductEven(M - 1);
    ConsecutiveProductMono(L, M);
  }

  lemma MulLeftStrict(b: int, x: int, y: int)
    requires b > 0 && x < y
    ensures b * x < b * y
  {
    MulLeftMono(b, x + 1, y);
  }

  lemma TriangularThresholdMono(base: int, L: nat, M: nat)
    requires base > 0 && 1 <= L < M
    ensures Threshold(Triangular, base, 0, L) < Threshold(Triangular, base, 0, M)
  {
    TriangularHalfMono(L, M);
    MulLeftStrict(base, (L - 1) * L / 2, (M - 1) * M / 2);
  }

  lemma QuadraticThresholdMono(base: int, L: nat, M: nat)
    requires base > 0 && 1 <= L < M
    ensures Threshold(Quadratic, base, 0, L) < Threshold(Quadratic, base, 0, M)
  {
    SquareMono(L - 1, M - 2);
    assert (M - 1) * (M - 1) == (M - 2) * (M - 2) + 2 * M - 3;
    MulLeftMono(base, (L - 1) * (L - 1) + 1, (M - 1) * (M - 1));
    assert base * (M - 1) * (M - 1) == base * ((M - 1) * (M - 1));
    assert base * (L - 1) * (L - 1) == base * ((L - 1) * (L - 1));
  }

  /** Later levels start at more points. */
  lemma {:induction false} ThresholdStrictlyIncreasing(f: Formula, base: int, increment: int, L: nat, M: nat)
    requires f != Unknown && base > 0 && increment >= 0
    requires 1 <= L < M
    ensures Threshold(f, base, increment, L) < Threshold(f, base, increment, M)
  {
    match f
    case Triangular => TriangularThresholdMono(base, L, M);
    case Quadratic => QuadraticThresholdMono(base, L, M);
    case Linear => LinearThresholdMono(base, increment, L - 1, M - 1);
  }

  /** The band of a total is unique: at most one level contains it. */
  lemma BandIsUnique(f: Formula, base: int, increment: int, t: int, L: nat, M: nat)
    requires f != Unknown && base > 0 && increment >= 0
    requires InBand(f, base, increment, t, L) && InBand(f, base, increment, t, M)
    ensures L == M
  {
    if L < M {
      if L + 1 < M { ThresholdStrictlyIncreasing(f, base, increment, L + 1, M); }
    } else if M < L {
      if M + 1 < L { ThresholdStrictlyIncreasing(f, base, increment, M + 1, L); }
    }
  }

  // ---------------------------------------------------------------------------
  // The three formulas, as the guarded calculators compute them.

  /** `calculateTriangular`: L = floor((−1 + sqrt(1 + 8·total/base))/2) + 1, that is
      the L with base·L(L−1)/2 <= total < base·L(L+1)/2; 1 for a total <= 0. */
  function TriangularLevel(base: int, t: int): (L: int)
    requires base > 0
    ensures L >= 1
    ensures t <= 0 ==> L == 1
  {
    if t <= 0 then 1
    else
      var m := (8 * t + base) / base;
      var s := Isqrt(m);
      TriangularRoot(base, t, m, s);
      (s + 1) / 2
  }

  /** The triangular level is the L with base·L(L−1)/2 <= total < base·L(L+1)/2. */
  lemma TriangularLevelBounds(base: int, t: int)
    requires base > 0 && t >= 0
    ensures var L := TriangularLevel(base, t);
      base * (L - 1) * L <= 2 * t < base * L * (L + 1)
  {
    if t > 0 {
      var m := (8 * t + base) / base;
      TriangularRoot(base, t, m, Isqrt(m));
    }
  }

  lemma TriangularRoot(base: int, t: int, m: nat, s: nat)
    requires base > 0 && t > 0 && m == (8 * t + base) / base
    requires s * s <= m < (s + 1) * (s + 1)
    ensures (s + 1) / 2 >= 1
    ensures base * ((s + 1) / 2 - 1) * ((s + 1) / 2) <= 2 * t
    ensures 2 * t < base * ((s + 1) / 2) * ((s + 1) / 2 + 1)
  {
    var L := (s + 1) / 2;
    assert base * m <= 8 * t + base < base * (m + 1);
    assert m >= 1 by { assert 8 * t + base >= base; }
    assert s >= 1;
    SquareMono(2 * L - 1, s);
    TriangularLower(base, t, m, L);
    SquareMono(s + 1, 2 * L + 1);
    TriangularUpper(base, t, m, L);
  }

  lemma TriangularLower(base: int, t: int, m: int, L: int)
    requires base > 0 && L >= 1 && base * m <= 8 * t + base
    requires (2 * L - 1) * (2 * L - 1) <= m
    ensures base * (L - 1) * L <= 2 * t
  {
    var x := (L - 1) * L;
    assert (2 * L - 1) * (2 * L - 1) == 4 * x + 1;
    MulLeftMono(base, 4 * x + 1, m);
    assert base * (4 * x + 1) == 4 * (base * x) + base;
    assert base * x == base * (L - 1) * L;
  }

  lemma TriangularUpper(base: int, t: int, m: int, L: int)
    requires base > 0 && 8 * t + base < base * (m + 1)
    requires m + 1 <= (2 * L + 1) * (2 * L + 1)
    ensures 2 * t < base * L * (L + 1)
  {
    var x := L * (L + 1);
    assert (2 * L + 1) * (2 * L + 1) == 4 * x + 1;
    MulLeftMono(base, m + 1, 4 * x + 1);
    assert base * (4 * x + 1) == 4 * (base * x) + base;
    assert base * x == base * L * (L + 1);
  }

  /** `calculateQuadratic`: L = floor(sqrt(total/base)) + 1, that is the L with
      base·(L−1)² <= total < base·L²; 1 for a total <= 0. */
  function QuadraticLevel(base: int, t: int): (L: int)
    requires base > 0
    ensures L >= 1
    ensures t <= 0 ==> L == 1
  {
    if t <= 0 then 1 else Isqrt(t / base) + 1
  }

  /** The quadratic level is the L with base·(L−1)² <= total < base·L². */
  lemma QuadraticLevelBounds(base: int, t: int)
    requires base > 0 && t >= 0
    ensures var L := QuadraticLevel(base, t);
      base * (L - 1) * (L - 1) <= t < base * L * L
  {
    if t > 0 {
      QuadraticRoot(base, t, t / base, Isqrt(t / base));
    }
  }

  lemma QuadraticRoot(base: int, t: int, q: nat, s: nat)
    requires base > 0 && t > 0 && q == t / base
    requires s * s <= q < (s + 1) * (s + 1)
    ensures base * s * s <= t < base * (s + 1) * (s + 1)
  {
    assert base * q <= t < base * (q + 1);
    MulLeftMono(base, s * s, q);
    MulLeftMono(base, q + 1, (s + 1) * (s + 1));
  }

  /** The least level k >= from whose next threshold S(k) exceeds the total:
      the level `calculateLinear`'s loop stops at. */
  function LinearSearch(base: int, increment: int, t: int, from: nat): (L: nat)
    requires base > 0 && increment >= 0
    ensures L >= from && t < LinearThreshold(base, increment, L)
    ensures forall j | from <= j < L :: LinearThreshold(base, increment, j) <= t
    decreases t - LinearThreshold(base, increment, from)
  {
    LinearThresholdMono(base, increment, from, from + 1);
    if t < LinearThreshold(base, increment, from) then from
    else LinearSearch(base, increment, t, from + 1)
  }

  /** The while loop of `calculateLinear`, which all three copies share:
      add the cost of each level to `sum` until it passes the total. */
  method LinearLoop(base: int, increment: int, t: int) returns (L: int)
    requires base > 0 && increment >= 0
    ensures L == LinearSearch(base, increment, t, 0)
  {
    var level := 1;
    var sum := 0;
    while sum <= t
      invariant level >= 1
      invariant sum == LinearThreshold(base, increment, level - 1)
      invariant LinearSearch(base, increment, t, 0) == LinearSearch(base, increment, t, level - 1)
      decreases t - sum
    {
      LinearThresholdMono(base, increment, level - 1, level);
      sum := sum + base + increment * (level - 1);
      level := level + 1;
    }
    L := level - 1;
  }

  // ---------------------------------------------------------------------------
  // `calculateLevel` of the guarded copies.

  /** The level of a total, as both guarded copies compute it. */
  function LevelOf(cfg: LevelConfig, t: int): int
    requires ValidConfig(cfg)
  {
    match ParseFormula(cfg.formula)
    case Triangular => TriangularLevel(cfg.base, t)
    case Quadratic => QuadraticLevel(cfg.base, t)
    case Linear => if t <= 0 then 1 else LinearSearch(cfg.base, cfg.increment, t, 0)
    case Unknown => 1 + JavaDiv(t, 1000)
  }

  /** `calculateLevel`: dispatch on the upper-cased formula name. */
  method CalculateLevel(cfg: LevelConfig, t: int) returns (L: int)
    requires ValidConfig(cfg)
    ensures L == LevelOf(cfg, t)
  {
    var f := ParseFormula(cfg.formula);
    match f {
      case Triangular => L := TriangularLevel(cfg.base, t);
      case Quadratic => L := QuadraticLevel(cfg.base, t);
      case Linear =>
        if t <= 0 {
          L := 1;
        } else {
          L := LinearLoop(cfg.base, cfg.increment, t);
        }
      case Unknown => L := 1 + JavaDiv(t, 1000);
    }
  }

  /** Under a named formula a total <= 0 is level 1 and every level is >= 1. */
  lemma NamedFormulaLevelAtLeastOne(cfg: LevelConfig, t: int)
    requires ValidConfig(cfg) && ParseFormula(cfg.formula) != Unknown
    ensures LevelOf(cfg, t) >= 1
    ensures t <= 0 ==> LevelOf(cfg, t) == 1
  {
    if ParseFormula(cfg.formula) == Linear && t > 0 {
      var L := LevelOf(cfg, t);
      assert LinearThreshold(cfg.base, cfg.increment, 0) <= t;
    }
  }

  /** Under a named formula a total >= 0 lies in the band of its level, and in
      no other band: the level is the unique L with
      threshold(L) <= total < threshold(L + 1). */
  lemma LevelIsBand(cfg: LevelConfig, t: int, M: nat)
    requires ValidConfig(cfg) && ParseFormula(cfg.formula) != Unknown && t >= 0
    ensures LevelOf(cfg, t) >= 1
    ensures InBand(ParseFormula(cfg.formula), cfg.base, cfg.increment, t, LevelOf(cfg, t))
    ensures InBand(ParseFormula(cfg.formula), cfg.base, cfg.increment, t, M) ==> M == LevelOf(cfg, t)
  {
    var f := ParseFormula(cfg.formula);
    var L := LevelOf(cfg, t);
    NamedFormulaLevelAtLeastOne(cfg, t);
    match f {
      case Triangular => TriangularInBand(cfg.base, cfg.increment, t);
      case Quadratic => QuadraticInBand(cfg.base, cfg.increment, t);
      case Linear => LinearInBand(cfg.base, cfg.increment, t);
    }
    if InBand(f, cfg.base, cfg.increment, t, M) {
      BandIsUnique(f, cfg.base, cfg.increment, t, L, M);
    }
  }

  lemma TriangularInBand(base: int, increment: int, t: int)
    requires base > 0 && t >= 0
    ensures InBand(Triangular, base, increment, t, TriangularLevel(base, t))
  {
    var L := TriangularLevel(base, t);
    TriangularLevelBounds(base, t);
    TriangularThresholdDoubled(base, L);
    TriangularThresholdDoubled(base, L + 1);
    assert Threshold(Triangular, base, increment, L) == Threshold(Triangular, base, 0, L);
    assert Threshold(Triangular, base, increment, L + 1) == Threshold(Triangular, base, 0, L + 1);
  }

  lemma QuadraticInBand(base: int, increment: int, t: int)
    requires base > 0 && t >= 0
    ensures InBand(Quadratic, base, increment, t, QuadraticLevel(base, t))
  {
    var L := QuadraticLevel(base, t);
    QuadraticLevelBounds(base, t);
    assert Threshold(Quadratic, base, increment, L + 1) == base * L * L;
  }

  lemma LinearInBand(base: int, increment: int, t: int)
    requires base > 0 && increment >= 0 && t >= 0
    ensures InBand(Linear, base, increment, t, if t <= 0 then 1 else LinearSearch(base, increment, t, 0))
  {
    if t == 0 {
      assert LinearThreshold(base, increment, 1) == base;
    } else {
      assert LinearThreshold(base, increment, 0) <= t;
    }
  }

  /** Levels the calculator tests expect, derived from the band property. */
  lemma TriangularLevelExamples()
    ensures LevelOf(LevelConfig("TRIANGULAR", 1000, 200), 2999) == 2
    ensures LevelOf(LevelConfig("TRIANGULAR", 1000, 200), 3000) == 3
  {
    var cfg := LevelConfig("TRIANGULAR", 1000, 200);
    CanonicalNames();
    assert InBand(Triangular, 1000, 200, 2999, 2);
    LevelIsBand(cfg, 2999, 2);
    assert InBand(Triangular, 1000, 200, 3000, 3);
    LevelIsBand(cfg, 3000, 3);
  }

  lemma QuadraticLevelExamples()
    ensures LevelOf(LevelConfig("QUADRATIC", 200, 200), 1800) == 4
    ensures LevelOf(LevelConfig("QUADRATIC", 300, 200), 2700) == 4
  {
    CanonicalNames();
    LevelIsBand(LevelConfig("QUADRATIC", 200, 200), 1800, 4);
    LevelIsBand(LevelConfig("QUADRATIC", 300, 200), 2700, 4);
  }

  lemma LinearLevelExamples()
    ensures LevelOf(LevelConfig("LINEAR", 1000, 200), 2200) == 3
    ensures LevelOf(LevelConfig("LINEAR", 1000, 200), 3599) == 3
  {
    CanonicalNames();
    assert LinearThreshold(1000, 200, 2) == 2200;
    assert LinearThreshold(1000, 200, 3) == 3600;
    LevelIsBand(LevelConfig("LINEAR", 1000, 200), 2200, 3);
    LevelIsBand(LevelConfig("LINEAR", 1000, 200), 3599, 3);
  }

  lemma FallbackLevelExamples()
    ensures LevelOf(LevelConfig("UNKNOWN", 500, 200), 9999) == 10
    ensures LevelOf(LevelConfig("UNKNOWN", 500, 200), -100) == 1
  {
    CanonicalNames();
  }

  /** Gaps the calculator tests expect. */
  lemma PointsToNextExamples()
    ensures PointsToNextLevel(LevelConfig("TRIANGULAR", 1000, 200), 10) == 11000
    ensures PointsToNextLevel(LevelConfig("QUADRATIC", 200, 200), 3) == 1400
    ensures PointsToNextLevel(LevelConfig("LINEAR", 1000, 200), 5) == 2000
    ensures PointsToNextLevel(LevelConfig("UNKNOWN", 500, 200), 50) == 1000
  {
    CanonicalNames();
  }

  /** Unknown formula names fall back to 1 + total/1000 with Java's truncating
      division: every total above −1000, negative ones included, stays on level 1
      up to 999 points. */
  lemma FallbackLevel(cfg: LevelConfig, t: int)
    requires ValidConfig(cfg) && ParseFormula(cfg.formula) == Unknown
    ensures -1000 < t < 1000 ==> LevelOf(cfg, t) == 1
    ensures t >= 0 ==> 1000 * (LevelOf(cfg, t) - 1) <= t < 1000 * LevelOf(cfg, t)
    ensures t <= -1000 ==> LevelOf(cfg, t) <= 0
  {
  }

  // ---------------------------------------------------------------------------
  // `calculateLevel` of `service/level/LevelCalculatorImpl`, which has no guards.

  /** Without the `total <= 0` guards: a negative total makes LINEAR's loop body
      never run (level 0); QUADRATIC takes the root of a negative number, NaN,
      which `(int)` turns into 0 (level 1); TRIANGULAR's root argument
      1 + 8·total/base is NaN-producing below 0 (level 1) and otherwise in [0, 1),
      where the floor of a number in [−0.5, 0) is −1 (level 0). */
  function LevelOfUnguarded(cfg: LevelConfig, t: int): int
    requires ValidConfig(cfg)
  {
    match ParseFormula(cfg.formula)
    case Triangular =>
      if t >= 0 then TriangularLevel(cfg.base, t)
      else if 8 * t >= -cfg.base then 0
      else 1
    case Quadratic => if t >= 0 then QuadraticLevel(cfg.base, t) else 1
    case Linear => LinearSearch(cfg.base, cfg.increment, t, 0)
    case Unknown => 1 + JavaDiv(t, 1000)
  }

  method CalculateLevelUnguarded(cfg: LevelConfig, t: int) returns (L: int)
    requires ValidConfig(cfg)
    ensures L == LevelOfUnguarded(cfg, t)
  {
    var f := ParseFormula(cfg.formula);
    match f {
      case Triangular =>
        if t >= 0 {
          L := TriangularLevel(cfg.base, t);
        } else if 8 * t >= -cfg.base {
          L := 0;
        } else {
          L := 1;
        }
      case Quadratic =>
        if t >= 0 {
          L := QuadraticLevel(cfg.base, t);
        } else {
          L := 1;
        }
      case Linear => L := LinearLoop(cfg.base, cfg.increment, t);
      case Unknown => L := 1 + JavaDiv(t, 1000);
    }
  }

  /** For totals >= 0 the unguarded copy agrees with the guarded ones. */
  lemma UnguardedAgreesOnNonNegative(cfg: LevelConfig, t: int)
    requires ValidConfig(cfg) && t >= 0
    ensures LevelOfUnguarded(cfg, t) == LevelOf(cfg, t)
  {
    if ParseFormula(cfg.formula) == Linear && t == 0 {
      assert LinearThreshold(cfg.base, cfg.increment, 1) == cfg.base;
      assert LinearThreshold(cfg.base, cfg.increment, 0) <= t;
    }
  }

  /** A negative total under LINEAR is level 0 in the unguarded copy (its loop
      body never runs), where the guarded copies give 1. */
  lemma UnguardedLinearNegativeIsZero(cfg: LevelConfig, t: int)
    requires ValidConfig(cfg) && ParseFormula(cfg.formula) == Linear && t < 0
    ensures LevelOfUnguarded(cfg, t) == 0
    ensures LevelOf(cfg, t) == 1
  {
  }

  /** A slightly negative total under TRIANGULAR is level 0 in the unguarded copy. */
  lemma UnguardedTriangularSmallNegativeIsZero(cfg: LevelConfig, t: int)
    requires ValidConfig(cfg) && ParseFormula(cfg.formula) == Triangular
    requires -cfg.base <= 8 * t < 0
    ensures LevelOfUnguarded(cfg, t) == 0
    ensures LevelOf(cfg, t) == 1
  {
  }

  // ---------------------------------------------------------------------------
  // `pointsToNextLevel`.

  /** `calculateTriangularToNext`: base(L+1)(L+2)/2 − base·L(L+1)/2 in long. */
  function TriangularToNext(base: int, L: int): (r: int)
    ensures r == base * (L + 1)
  {
    ConsecutiveProductEven(L);
    ConsecutiveProductEven(L + 1);
    assert base * L * (L + 1) == 2 * (base * (L * (L + 1) / 2));
    assert base * (L + 1) * (L + 2) == 2 * (base * ((L + 1) * (L + 2) / 2));
    JavaDiv(base * (L + 1) * (L + 2), 2) - JavaDiv(base * L * (L + 1), 2)
  }

  /** `calculateQuadraticToNext`: base(L+1)² − base·L² in long. */
  function QuadraticToNext(base: int, L: int): (r: int)
    ensures r == base * (2 * L + 1)
  {
    assert (L + 1) * (L + 1) == L * L + 2 * L + 1;
    base * (L + 1) * (L + 1) - base * L * L
  }

  /** `calculateLinearToNext` of the progress copy: base + (long) increment·L. */
  function LinearToNext(base: int, increment: int, L: int): int
  {
    base + increment * L
  }

  /** `calculateLinearToNext` of the two `service/level` copies: the same sum in
      32-bit int arithmetic, widened to long only after it has wrapped. */
  function LinearToNextInt(base: int, increment: int, L: int): (r: int)
    ensures -TwoTo31 <= r < TwoTo31
  {
    Wrap32(base + Wrap32(increment * L))
  }

  /** `pointsToNextLevel` of the progress copy. */
  function PointsToNextLevel(cfg: LevelConfig, L: int): int
  {
    match ParseFormula(cfg.formula)
    case Triangular => TriangularToNext(cfg.base, L)
    case Quadratic => QuadraticToNext(cfg.base, L)
    case Linear => LinearToNext(cfg.base, cfg.increment, L)
    case Unknown => 1000
  }

  /** `pointsToNextLevel` of `service/level/LevelCalculatorServiceImpl` and of
      `service/level/LevelCalculatorImpl`. */
  function PointsToNextLevelInt(cfg: LevelConfig, L: int): int
  {
    match ParseFormula(cfg.formula)
    case Triangular => TriangularToNext(cfg.base, L)
    case Quadratic => QuadraticToNext(cfg.base, L)
    case Linear => LinearToNextInt(cfg.base, cfg.increment, L)
    case Unknown => 1000
  }

  /** The closed forms: base(L+1), base(2L+1), base + increment·L, and 1000. */
  lemma PointsToNextClosedForms(cfg: LevelConfig, L: int)
    ensures var f := ParseFormula(cfg.formula);
      && (f == Triangular ==> PointsToNextLevel(cfg, L) == cfg.base * (L + 1))
      && (f == Quadratic ==> PointsToNextLevel(cfg, L) == cfg.base * (2 * L + 1))
      && (f == Linear ==> PointsToNextLevel(cfg, L) == cfg.base + cfg.increment * L)
      && (f == Unknown ==> PointsToNextLevel(cfg, L) == 1000)
  {
  }

  /** What "to next level" measures: for level L it is the width of the band of
      level L + 1 (from threshold(L+1) to threshold(L+2)), not of L's own band. */
  lemma PointsToNextIsWidthOfFollowingBand(cfg: LevelConfig, L: nat)
    requires ValidConfig(cfg) && ParseFormula(cfg.formula) != Unknown && L >= 1
    ensures var f := ParseFormula(cfg.formula);
      PointsToNextLevel(cfg, L)
        == Threshold(f, cfg.base, cfg.increment, L + 2) - Threshold(f, cfg.base, cfg.increment, L + 1)
  {
    var f, b, inc := ParseFormula(cfg.formula), cfg.base, cfg.increment;
    match f
    case Triangular =>
      TriangularThresholdDoubled(b, L + 1);
      TriangularThresholdDoubled(b, L + 2);
      assert (L + 1) * (L + 2) == L * (L + 1) + 2 * (L + 1);
    case Quadratic =>
      assert (L + 1) * (L + 1) == L * L + 2 * L + 1;
    case Linear =>
  }

  /** The int-typed gap equals the long one while the sum fits in an int. */
  lemma LinearToNextIntAgreesInRange(base: int, increment: int, L: int)
    requires -TwoTo31 <= increment * L < TwoTo31
    requires -TwoTo31 <= base + increment * L < TwoTo31
    ensures LinearToNextInt(base, increment, L) == LinearToNext(base, increment, L)
  {
  }

  /** The two `pointsToNextLevel` copies differ only in the LINEAR gap, and only
      once its int arithmetic overflows. */
  lemma PointsToNextIntAgrees(cfg: LevelConfig, L: int)
    ensures ParseFormula(cfg.formula) != Linear ==> PointsToNextLevelInt(cfg, L) == PointsToNextLevel(cfg, L)
    ensures -TwoTo31 <= cfg.increment * L < TwoTo31 && -TwoTo31 <= cfg.base + cfg.increment * L < TwoTo31
            ==> PointsToNextLevelInt(cfg, L) == PointsToNextLevel(cfg, L)
  {
    if ParseFormula(cfg.formula) == Linear && -TwoTo31 <= cfg.increment * L < TwoTo31
       && -TwoTo31 <= cfg.base + cfg.increment * L < TwoTo31 {
      LinearToNextIntAgreesInRange(cfg.base, cfg.increment, L);
    }
  }

  /** With the default base and increment, level 10 737 416 overflows the int
      sum: the two copies then report gaps 2^32 apart. */
  lemma LinearToNextIntOverflows()
    ensures LinearToNext(500, 200, 10737416) == 2147483700
    ensures LinearToNextInt(500, 200, 10737416) == -2147483596
  {
  }
}
