/** The AIPACK risk valence: a weighted score of thirteen signals, over exact reals. */
module RiskValence {

  const SIGNALS := 13

  type Signals = s: seq<real> | |s| == SIGNALS witness seq(SIGNALS, i => 0.0)
  type Weights = w: seq<int> | |w| == SIGNALS witness seq(SIGNALS, i => 0)

  datatype Band = Green | Yellow | Orange | Red

  datatype Outcome = Score(score: int, band: Band) | WeightsInvalid

  function Level(b: Band): nat {
    match b case Green => 0 case Yellow => 1 case Orange => 2 case Red => 3
  }

  function Sum(w: Weights, n: nat): int
    requires n <= SIGNALS
  {
    if n == 0 then 0 else Sum(w, n - 1) + w[n - 1]
  }

  function Raw(s: Signals, w: Weights, n: nat): real
    requires n <= SIGNALS
  {
    if n == 0 then 0.0 else Raw(s, w, n - 1) + s[n - 1] * w[n - 1] as real
  }

  /** Conversion to int drops the fraction, toward zero. */
  function Trunc(x: real): int {
    if x >= 0.0 then x.Floor else -((-x).Floor)
  }

  function ScoreOf(s: Signals, w: Weights): int {
    var t := Trunc(Raw(s, w, SIGNALS));
    if t > 100 then 100 else t
  }

  const THRESHOLDS: seq<(int, Band)> := [(24, Green), (49, Yellow), (74, Orange), (100, Red)]

  /** The band of a score by its interval; scores outside the table fall into the outer bands. */
  method BandForScore(score: int) returns (b: Band)
    ensures b == BandOf(score)
    ensures b == Green <==> score <= 24
    ensures b == Yellow <==> 25 <= score <= 49
    ensures b == Orange <==> 50 <= score <= 74
    ensures b == Red <==> 75 <= score
  {
    var i := 0;
    while i < |THRESHOLDS|
      invariant 0 <= i <= |THRESHOLDS|
      invariant forall j :: 0 <= j < i ==> score > THRESHOLDS[j].0
    {
      assert i == 0 || i == 1 || i == 2 || i == 3;
      assert i > 0 ==> score > THRESHOLDS[i - 1].0;
      if score <= THRESHOLDS[i].0 { return THRESHOLDS[i].1; }
      i := i + 1;
    }
    assert score > THRESHOLDS[2].0;
    return Red;
  }

  function BandOf(score: int): Band {
    if score <= 24 then Green else if score <= 49 then Yellow else if score <= 74 then Orange else Red
  }

  /** Fails exactly on weights that do not sum to 100. */
  method Compute(s: Signals, w: Weights) returns (r: Outcome)
    ensures r.WeightsInvalid? <==> Sum(w, SIGNALS) != 100
    ensures r.Score? ==> r.score == ScoreOf(s, w) && r.band == BandOf(r.score)
  {
    var sum, i := 0, 0;
    while i < SIGNALS
      invariant 0 <= i <= SIGNALS && sum == Sum(w, i)
    {
      sum, i := sum + w[i], i + 1;
    }
    if sum != 100 { return WeightsInvalid; }
    var raw := 0.0;
    i := 0;
    while i < SIGNALS
      invariant 0 <= i <= SIGNALS && raw == Raw(s, w, i)
    {
      assert Raw(s, w, i + 1) == Raw(s, w, i) + s[i] * w[i] as real;
      raw := raw + s[i] * w[i] as real;
      i := i + 1;
    }
    var score := Trunc(raw);
    if score > 100 { score := 100; }
    var band := BandForScore(score);
    r := Score(score, band);
  }

  // ---- What the score is -----------------------------------------------------------------------------------

  /** One signal at `c`, the others at zero. */
  function Only(k: nat, c: real): Signals
    requires k < SIGNALS
  {
    seq(SIGNALS, i => if i == k then c else 0.0)
  }

  lemma {:induction false} RawOfOnly(k: nat, c: real, w: Weights, n: nat)
    requires k < SIGNALS && n <= SIGNALS
    ensures Raw(Only(k, c), w, n) == if k < n then c * w[k] as real else 0.0
  {
    if n > 0 { RawOfOnly(k, c, w, n - 1); }
  }

  function Plus(s: Signals, t: Signals): Signals {
    seq(SIGNALS, i requires 0 <= i < SIGNALS => s[i] + t[i])
  }

  /** The raw score is linear: it adds up over signals, and a single signal counts with its own weight. */
  lemma {:induction false} RawAdds(s: Signals, t: Signals, w: Weights, n: nat)
    requires n <= SIGNALS
    ensures Raw(Plus(s, t), w, n) == Raw(s, w, n) + Raw(t, w, n)
  {
    if n > 0 {
      RawAdds(s, t, w, n - 1);
      Distributes(s[n - 1], t[n - 1], w[n - 1] as real);
    }
  }

  lemma Distributes(a: real, b: real, x: real)
    ensures (a + b) * x == a * x + b * x
  {
  }

  /** The score is the raw value without its fraction, toward zero, and at most 100. */
  lemma ScoreExactly(s: Signals, w: Weights)
    ensures var raw, score := Raw(s, w, SIGNALS), ScoreOf(s, w);
            && (raw >= 101.0 ==> score == 100)
            && (0.0 <= raw < 101.0 ==> score as real <= raw < score as real + 1.0)
            && (raw < 0.0 ==> score as real - 1.0 < raw <= score as real)
  {
    hide Raw;
  }

  // ---- Range and monotonicity ------------------------------------------------------------------------------------

  ghost predicate Normalised(s: Signals) {
    forall i :: 0 <= i < SIGNALS ==> 0.0 <= s[i] <= 1.0
  }

  ghost predicate NonNegative(w: Weights) {
    forall i :: 0 <= i < SIGNALS ==> w[i] >= 0
  }

  ghost predicate AtMost(s: Signals, t: Signals) {
    forall i :: 0 <= i < SIGNALS ==> s[i] <= t[i]
  }

  lemma TimesWeight(a: real, b: real, w: int)
    requires a <= b && w >= 0
    ensures a * w as real <= b * w as real
  {
  }

  lemma {:induction false} RawMonotone(s: Signals, t: Signals, w: Weights, n: nat)
    requires n <= SIGNALS && NonNegative(w) && AtMost(s, t)
    ensures Raw(s, w, n) <= Raw(t, w, n)
  {
    if n > 0 {
      RawMonotone(s, t, w, n - 1);
      TimesWeight(s[n - 1], t[n - 1], w[n - 1]);
    }
  }

  lemma {:induction false} RawOfConstant(s: Signals, c: real, w: Weights, n: nat)
    requires n <= SIGNALS && forall i :: 0 <= i < SIGNALS ==> s[i] == c
    ensures Raw(s, w, n) == c * Sum(w, n) as real
  {
    if n > 0 { RawOfConstant(s, c, w, n - 1); }
  }

  lemma TruncMonotone(x: real, y: real)
    requires x <= y
    ensures Trunc(x) <= Trunc(y)
  {
  }

  /** Raising any signals never lowers the score or the band. */
  lemma ScoreMonotone(s: Signals, t: Signals, w: Weights)
    requires NonNegative(w) && AtMost(s, t)
    ensures ScoreOf(s, w) <= ScoreOf(t, w) && Level(BandOf(ScoreOf(s, w))) <= Level(BandOf(ScoreOf(t, w)))
  {
    RawMonotone(s, t, w, SIGNALS);
    TruncMonotone(Raw(s, w, SIGNALS), Raw(t, w, SIGNALS));
  }

  /** Over normalised signals the score is a percentage, and the clamp at 100 never acts. */
  lemma ScoreInRange(s: Signals, w: Weights)
    requires NonNegative(w) && Sum(w, SIGNALS) == 100 && Normalised(s)
    ensures 0 <= ScoreOf(s, w) <= 100 && ScoreOf(s, w) == Trunc(Raw(s, w, SIGNALS))
  {
    var none: Signals, all: Signals := seq(SIGNALS, i => 0.0), seq(SIGNALS, i => 1.0);
    RawMonotone(none, s, w, SIGNALS); RawMonotone(s, all, w, SIGNALS);
    RawOfConstant(none, 0.0, w, SIGNALS); RawOfConstant(all, 1.0, w, SIGNALS);
  }

  // ---- The condition on the weights is exact -----------------------------------------------------------------------

  /** Scores of normalised signals stay in range exactly for non-negative weights. */
  lemma RangeExactly(w: Weights)
    requires Sum(w, SIGNALS) == 100
    ensures NonNegative(w) <==> forall s: Signals :: Normalised(s) ==> 0 <= ScoreOf(s, w) <= 100
  {
    hide ScoreOf, Raw;
    if NonNegative(w) {
      forall s: Signals | Normalised(s) ensures 0 <= ScoreOf(s, w) <= 100 { ScoreInRange(s, w); }
    } else {
      var k :| 0 <= k < SIGNALS && w[k] < 0;
      assert Normalised(Only(k, 1.0));
      ScoreOfOnly(k, w);
    }
  }

  lemma ScoreOfOnly(k: nat, w: Weights)
    requires k < SIGNALS && w[k] < 0
    ensures ScoreOf(Only(k, 1.0), w) == w[k]
  {
    RawOfOnly(k, 1.0, w, SIGNALS);
  }

  lemma ScoreOfNone(w: Weights)
    ensures ScoreOf(seq(SIGNALS, i => 0.0), w) == 0
  {
    RawOfConstant(seq(SIGNALS, i => 0.0), 0.0, w, SIGNALS);
  }

  /** Scores of normalised signals are monotone exactly for non-negative weights. */
  lemma MonotoneExactly(w: Weights)
    ensures NonNegative(w) <==>
              forall s: Signals, t: Signals :: Normalised(s) && Normalised(t) && AtMost(s, t) ==>
                  ScoreOf(s, w) <= ScoreOf(t, w)
  {
    hide ScoreOf, Raw;
    if NonNegative(w) {
      forall s: Signals, t: Signals | Normalised(s) && Normalised(t) && AtMost(s, t)
        ensures ScoreOf(s, w) <= ScoreOf(t, w)
      {
        ScoreMonotone(s, t, w);
      }
    } else {
      var k :| 0 <= k < SIGNALS && w[k] < 0;
      var none: Signals := seq(SIGNALS, i => 0.0);
      assert Normalised(none) && Normalised(Only(k, 1.0)) && AtMost(none, Only(k, 1.0));
      ScoreOfOnly(k, w);
      ScoreOfNone(w);
    }
  }
}
