/**
 * The rule-based scorer: normalise six payload values into [0, 1], combine
 * them into physical and environmental group scores, add an anomaly boost,
 * clamp, scale to 0..100 and name the level.
 */
module ThreatModel {
  import opened Wrappers
  import opened Frames
  import opened Config

  /** `float(value)` raised: the value under `key` is neither missing nor a number. */
  datatype ScoreError = NotANumber(key: string)

  /** The six normalised inputs. */
  datatype Norms = Norms(wind: real, wave: real, tide: real, turbidity: real, chlorophyll: real, sst: real)

  /** The `components` entry of an assessment (before its 4-digit rounding). */
  datatype Components = Components(physicalScore: real, envScore: real, anomalyIndicator: real)

  /** The scorer's result dict, without its explanation text. */
  datatype Assessment = Assessment(
    score: int,
    threatLevel: string,
    components: Components,
    simplePeak: bool,
    rawParams: Payload)

  /** The payload keys the scorer reads, in the order it normalises them. */
  const ScoredKeys: seq<string> := ["wind_speed_m_s", "wave_height_m", "tide_level_m", "turbidity_ntu", "chlorophyll", "sst"]

  /** A largest normalised input above this gives the full anomaly boost. */
  const PeakCutoff: real := 0.95

  /** `payload.get(key)`: an absent key reads as `None`. */
  function Get(p: Payload, key: string): (c: Cell)
    ensures key in p ==> c == p[key]
    ensures key !in p ==> IsMissing(c)
  {
    if key in p then p[key] else Null
  }

  /** Reading a key after writing one sees the written cell exactly when the keys agree. */
  lemma GetAfterUpdate(p: Payload, k: string, v: Cell, key: string)
    ensures Get(p[k := v], key) == if key == k then v else Get(p, key)
  {
  }

  /** Values the scorer accepts: missing, NaN or a number. */
  predicate Scorable(c: Cell) {
    c.Null? || c.NaN? || c.Num?
  }

  function Min(a: real, b: real): real {
    if b < a then b else a
  }

  function Max(a: real, b: real): real {
    if b > a then b else a
  }

  /** `max(0.0, min(1.0, x))`. */
  function Clamp01(x: real): (c: real)
    ensures 0.0 <= c <= 1.0
    ensures 0.0 <= x <= 1.0 ==> c == x
    ensures x < 0.0 ==> c == 0.0
    ensures x > 1.0 ==> c == 1.0
  {
    Max(0.0, Min(1.0, x))
  }

  /** The configured clip range of a key, `(0.0, 1.0)` when it has none. */
  function ClipOf(clips: map<string, ClipRange>, key: string): (r: ClipRange)
    ensures key in clips ==> r == clips[key]
    ensures key !in clips ==> r.lo == 0.0 && r.hi == 1.0
  {
    if key in clips then clips[key] else ClipRange(0.0, 1.0)
  }

  /** The legacy clip table configures every scored key, so the default range is never used. */
  lemma LegacyClipsCoverScoredKeys()
    ensures forall k :: k in ScoredKeys ==> k in LegacyClips && ClipOf(LegacyClips, k) == LegacyClips[k]
  {
  }

  /** Clip `v` into the range and rescale linearly; a zero-width range divides by one. */
  function Normalize(r: ClipRange, v: real): (n: real)
    ensures 0.0 <= n <= 1.0
    ensures r.lo == r.hi ==> n == 0.0
  {
    var clipped := Max(r.lo, Min(r.hi, v));
    var denom := if r.hi - r.lo != 0.0 then r.hi - r.lo else 1.0;
    if r.lo < r.hi then
      UnitQuotient(clipped - r.lo, denom);
      (clipped - r.lo) / denom
    else
      assert clipped == r.lo;
      (clipped - r.lo) / denom
  }

  lemma UnitQuotient(x: real, d: real)
    requires 0.0 <= x <= d && d > 0.0
    ensures 0.0 <= x / d <= 1.0
  {
    QuotientMonotone(0.0, x, d);
    QuotientMonotone(x, d, d);
  }

  /** Over a non-empty range, normalisation never decreases as the value grows. */
  lemma NormalizeMonotone(r: ClipRange, a: real, b: real)
    requires a <= b
    ensures Normalize(r, a) <= Normalize(r, b)
  {
    if r.lo < r.hi {
      var ca := Max(r.lo, Min(r.hi, a));
      var cb := Max(r.lo, Min(r.hi, b));
      QuotientMonotone(ca - r.lo, cb - r.lo, r.hi - r.lo);
    }
  }

  lemma QuotientMonotone(x: real, y: real, d: real)
    requires x <= y && d > 0.0
    ensures x / d <= y / d
  {
    assert y / d - x / d == (y - x) / d;
  }

  /** Values at or below the range give 0, at or above it give 1. */
  lemma NormalizeSaturates(r: ClipRange, v: real)
    requires r.lo < r.hi
    ensures v <= r.lo ==> Normalize(r, v) == 0.0
    ensures v >= r.hi ==> Normalize(r, v) == 1.0
  {
  }

  /** `_clip_and_norm`: missing or NaN gives 0; any other non-number raises. */
  function ClipAndNorm(clips: map<string, ClipRange>, value: Cell, key: string): (r: Result<real, ScoreError>)
    ensures r.Success? <==> Scorable(value)
    ensures IsMissing(value) ==> r == Success(0.0)
    ensures r.Success? ==> 0.0 <= r.value <= 1.0
    ensures key !in clips && value.Num? ==> r == Success(Clamp01(value.x))
  {
    match value
    case Null => Success(0.0)
    case NaN => Success(0.0)
    case Num(x) => Success(Normalize(ClipOf(clips, key), x))
    case Text(_) => Failure(NotANumber(key))
    case Time(_) => Failure(NotANumber(key))
  }

  /** The normalised inputs as a list, in the scorer's order. */
  function NormList(n: Norms): seq<real> {
    [n.wind, n.wave, n.tide, n.turbidity, n.chlorophyll, n.sst]
  }

  predicate InUnit(n: Norms) {
    forall x :: x in NormList(n) ==> 0.0 <= x <= 1.0
  }

  /** Normalise the six inputs in order; the first non-number raises. */
  function NormalizePayload(clips: map<string, ClipRange>, p: Payload): (r: Result<Norms, ScoreError>)
    ensures r.Success? <==> forall k :: k in ScoredKeys ==> Scorable(Get(p, k))
    ensures r.Success? ==> InUnit(r.value)
  {
    var wind := ClipAndNorm(clips, Get(p, "wind_speed_m_s"), "wind_speed_m_s");
    var wave := ClipAndNorm(clips, Get(p, "wave_height_m"), "wave_height_m");
    var tide := ClipAndNorm(clips, Get(p, "tide_level_m"), "tide_level_m");
    var turbidity := ClipAndNorm(clips, Get(p, "turbidity_ntu"), "turbidity_ntu");
    var chlorophyll := ClipAndNorm(clips, Get(p, "chlorophyll"), "chlorophyll");
    var sst := ClipAndNorm(clips, Get(p, "sst"), "sst");
    if wind.Failure? then Failure(wind.error)
    else if wave.Failure? then Failure(wave.error)
    else if tide.Failure? then Failure(tide.error)
    else if turbidity.Failure? then Failure(turbidity.error)
    else if chlorophyll.Failure? then Failure(chlorophyll.error)
    else if sst.Failure? then Failure(sst.error)
    else Success(Norms(wind.value, wave.value, tide.value, turbidity.value, chlorophyll.value, sst.value))
  }

  /** The normalised inputs are the six `_clip_and_norm` results, in the scorer's key order. */
  lemma NormalizePayloadFields(clips: map<string, ClipRange>, p: Payload)
    requires NormalizePayload(clips, p).Success?
    ensures forall i :: 0 <= i < |ScoredKeys| ==>
      ClipAndNorm(clips, Get(p, ScoredKeys[i]), ScoredKeys[i]) == Success(NormList(NormalizePayload(clips, p).value)[i])
  {
  }

  /** The largest element of a non-empty list. */
  function MaxOf(s: seq<real>): (m: real)
    requires |s| > 0
    ensures m in s
    ensures forall x :: x in s ==> x <= m
  {
    if |s| == 1 then s[0]
    else
      var rest := MaxOf(s[1..]);
      assert forall x :: x in s ==> x == s[0] || x in s[1..];
      Max(s[0], rest)
  }

  /** The sum of the physical breakdown weights (wind, wave, tide). */
  function PhysicalShare(w: LegacyWeights): real {
    w.wind + w.wave + w.tide
  }

  /** The sum of the environmental breakdown weights (turbidity, chlorophyll, sst). */
  function EnvShare(w: LegacyWeights): real {
    w.turbidity + w.chlorophyll + w.sst
  }

  /** The largest raw score non-negative weights allow on inputs in [0, 1]. */
  function RawCeiling(w: LegacyWeights): real {
    w.physical * PhysicalShare(w) + w.env * EnvShare(w) + w.anomaly
  }

  /** The physical group: wind, wave and tide, each times its breakdown weight. */
  function PhysicalScore(w: LegacyWeights, n: Norms): real {
    w.wind * n.wind + w.wave * n.wave + w.tide * n.tide
  }

  /** The environmental group: turbidity, chlorophyll and sst, each times its breakdown weight. */
  function EnvScore(w: LegacyWeights, n: Norms): real {
    w.turbidity * n.turbidity + w.chlorophyll * n.chlorophyll + w.sst * n.sst
  }

  /**
   * The anomaly boost for largest normalised input `m`: the full anomaly
   * weight above the cutoff, else a third of `m` times it.
   */
  function Boost(anomaly: real, m: real): real {
    anomaly * (if m > PeakCutoff then 1.0 else m / 3.0)
  }

  /** The two weighted groups. */
  function Base(w: LegacyWeights, n: Norms): real {
    w.physical * PhysicalScore(w, n) + w.env * EnvScore(w, n)
  }

  /** The score before clamping: the weighted groups plus the anomaly boost. */
  function RawScore(w: LegacyWeights, n: Norms): real {
    Base(w, n) + Boost(w.anomaly, MaxOf(NormList(n)))
  }

  /** Python's `round`: the nearest integer, ties to the even one. */
  function RoundHalfEven(x: real): (n: int)
    ensures x - 0.5 <= n as real <= x + 0.5
    ensures (n as real - x == 0.5 || x - n as real == 0.5) ==> n % 2 == 0
  {
    var f := x.Floor;
    var d := x - f as real;
    if d < 0.5 then f
    else if d > 0.5 then f + 1
    else if f % 2 == 0 then f
    else f + 1
  }

  /** Rounding never reverses the order of two values. */
  lemma RoundHalfEvenMonotone(a: real, b: real)
    requires a <= b
    ensures RoundHalfEven(a) <= RoundHalfEven(b)
  {
  }

  /** The integer score 0..100 of the clamped raw score. */
  function Score100(w: LegacyWeights, n: Norms): (s: int)
    ensures 0 <= s <= 100
  {
    RoundHalfEven(Clamp01(RawScore(w, n)) * 100.0)
  }

  /**
   * `_map_score_to_level`: the first level whose inclusive range holds the
   * score; past the table, "SAFE" for negative scores and "DANGER" otherwise.
   */
  function MapScoreToLevel(levels: seq<LevelRange>, score: int): (r: string)
    ensures forall i :: 0 <= i < |levels| && InLevel(levels[i], score) && (forall j :: 0 <= j < i ==> !InLevel(levels[j], score)) ==> r == levels[i].name
    ensures !Covers(levels, score) ==> r == (if score < 0 then "SAFE" else "DANGER")
  {
    if |levels| == 0 then (if score < 0 then "SAFE" else "DANGER")
    else if InLevel(levels[0], score) then levels[0].name
    else
      var r := MapScoreToLevel(levels[1..], score);
      assert forall i :: 1 <= i < |levels| ==> levels[1..][i - 1] == levels[i];
      assert !Covers(levels, score) ==> !Covers(levels[1..], score);
      r
  }

  /** `calculate_threat_score`, without the explanation text. */
  function CalculateThreatScore(cfg: LegacyConfig, p: Payload): (r: Result<Assessment, ScoreError>)
    ensures r.Success? <==> forall k :: k in ScoredKeys ==> Scorable(Get(p, k))
    ensures r.Success? ==> 0 <= r.value.score <= 100
    ensures r.Success? ==> r.value.threatLevel == MapScoreToLevel(cfg.thresholds, r.value.score)
    ensures r.Success? ==> r.value.rawParams == p
    ensures r.Success? ==> 0.0 <= r.value.components.anomalyIndicator <= 1.0
    ensures r.Success? ==> r.value.simplePeak == (r.value.components.anomalyIndicator > PeakCutoff)
    ensures r.Success? ==>
      && NormalizePayload(cfg.clips, p).Success?
      && var n := NormalizePayload(cfg.clips, p).value;
      && r.value.components == Components(PhysicalScore(cfg.weights, n), EnvScore(cfg.weights, n), MaxOf(NormList(n)))
      && r.value.score == Score100(cfg.weights, n)
  {
    match NormalizePayload(cfg.clips, p)
    case Failure(e) => Failure(e)
    case Success(n) =>
      var m := MaxOf(NormList(n));
      var s := Score100(cfg.weights, n);
      Success(Assessment(
        s,
        MapScoreToLevel(cfg.thresholds, s),
        Components(PhysicalScore(cfg.weights, n), EnvScore(cfg.weights, n), m),
        m > PeakCutoff,
        p))
  }

  // ---------------------------------------------------------------------
  // Properties of the scorer

  /** The boost is the full anomaly weight exactly above the cutoff, and never more. */
  lemma BoostFullExactlyAbovePeak(anomaly: real, m: real)
    requires anomaly > 0.0 && 0.0 <= m <= 1.0
    ensures Boost(anomaly, m) <= anomaly
    ensures Boost(anomaly, m) == anomaly <==> m > PeakCutoff
  {
    if m <= PeakCutoff {
      assert m / 3.0 < 1.0;
      assert anomaly * (m / 3.0) < anomaly * 1.0;
    }
  }

  /**
   * `simple_peak` is raised exactly when some scored input normalises to
   * more than 0.95.
   */
  lemma SimplePeakIffSomeInputAbove(cfg: LegacyConfig, p: Payload)
    requires CalculateThreatScore(cfg, p).Success?
    ensures CalculateThreatScore(cfg, p).value.simplePeak <==>
      exists k :: k in ScoredKeys && ClipAndNorm(cfg.clips, Get(p, k), k).Success? && ClipAndNorm(cfg.clips, Get(p, k), k).value > PeakCutoff
  {
    var n := NormalizePayload(cfg.clips, p).value;
    var l := NormList(n);
    var m := MaxOf(l);
    NormalizePayloadFields(cfg.clips, p);
    if m > PeakCutoff {
      var i :| 0 <= i < |l| && l[i] == m;
      var k := ScoredKeys[i];
      assert ClipAndNorm(cfg.clips, Get(p, k), k) == Success(m);
    } else {
      forall k | k in ScoredKeys && ClipAndNorm(cfg.clips, Get(p, k), k).Success?
        ensures ClipAndNorm(cfg.clips, Get(p, k), k).value <= PeakCutoff
      {
        var i :| 0 <= i < |ScoredKeys| && ScoredKeys[i] == k;
        assert l[i] in l;
      }
    }
  }

  /**
   * A payload whose six scored values are all absent, `None` or NaN scores 0,
   * is no simple peak, and takes the level of score 0.
   */
  lemma MissingInputsScoreZero(cfg: LegacyConfig, p: Payload)
    requires forall k :: k in ScoredKeys ==> IsMissing(Get(p, k))
    ensures CalculateThreatScore(cfg, p).Success?
    ensures CalculateThreatScore(cfg, p).value.score == 0
    ensures !CalculateThreatScore(cfg, p).value.simplePeak
    ensures CalculateThreatScore(cfg, p).value.components == Components(0.0, 0.0, 0.0)
    ensures CalculateThreatScore(cfg, p).value.threatLevel == MapScoreToLevel(cfg.thresholds, 0)
  {
    var n := NormalizePayload(cfg.clips, p).value;
    assert n == Norms(0.0, 0.0, 0.0, 0.0, 0.0, 0.0);
    ZeroNormsRawZero(cfg.weights);
  }

  /** All-zero inputs give a raw score of 0 under any weights. */
  lemma ZeroNormsRawZero(w: LegacyWeights)
    ensures RawScore(w, Norms(0.0, 0.0, 0.0, 0.0, 0.0, 0.0)) == 0.0
    ensures PhysicalScore(w, Norms(0.0, 0.0, 0.0, 0.0, 0.0, 0.0)) == 0.0
    ensures EnvScore(w, Norms(0.0, 0.0, 0.0, 0.0, 0.0, 0.0)) == 0.0
    ensures MaxOf(NormList(Norms(0.0, 0.0, 0.0, 0.0, 0.0, 0.0))) == 0.0
    ensures Score100(w, Norms(0.0, 0.0, 0.0, 0.0, 0.0, 0.0)) == 0
  {
    var z := Norms(0.0, 0.0, 0.0, 0.0, 0.0, 0.0);
    assert MaxOf(NormList(z)) == 0.0;
    assert w.wind * 0.0 == 0.0 && w.wave * 0.0 == 0.0 && w.tide * 0.0 == 0.0;
    assert w.turbidity * 0.0 == 0.0 && w.chlorophyll * 0.0 == 0.0 && w.sst * 0.0 == 0.0;
    assert PhysicalScore(w, z) == 0.0 && EnvScore(w, z) == 0.0;
    assert w.physical * 0.0 == 0.0 && w.env * 0.0 == 0.0 && w.anomaly * 0.0 == 0.0;
    assert Base(w, z) == 0.0 && Boost(w.anomaly, 0.0) == 0.0;
    assert Clamp01(0.0) * 100.0 == 0.0 && RoundHalfEven(0.0) == 0;
  }

  /** The legacy level of each score: SAFE 0..30, WATCH 31..60, WARNING 61..80, DANGER 81..100. */
  lemma LegacyLevelBands(s: int)
    ensures s <= 30 ==> MapScoreToLevel(LegacyThresholds, s) == "SAFE"
    ensures 31 <= s <= 60 ==> MapScoreToLevel(LegacyThresholds, s) == "WATCH"
    ensures 61 <= s <= 80 ==> MapScoreToLevel(LegacyThresholds, s) == "WARNING"
    ensures 81 <= s ==> MapScoreToLevel(LegacyThresholds, s) == "DANGER"
  {
    var t := LegacyThresholds;
    if s < 0 || s > 100 {
      assert !Covers(t, s);
    } else if s <= 30 {
      assert InLevel(t[0], s);
    } else if s <= 60 {
      assert InLevel(t[1], s) && !InLevel(t[0], s);
    } else if s <= 80 {
      assert InLevel(t[2], s) && !InLevel(t[0], s) && !InLevel(t[1], s);
    } else {
      assert InLevel(t[3], s) && !InLevel(t[0], s) && !InLevel(t[1], s) && !InLevel(t[2], s);
    }
  }

  /** With the legacy constants, a payload without readings is SAFE. */
  lemma MissingInputsAreSafe(p: Payload)
    requires forall k :: k in ScoredKeys ==> IsMissing(Get(p, k))
    ensures CalculateThreatScore(Legacy, p).Success?
    ensures CalculateThreatScore(Legacy, p).value.score == 0
    ensures CalculateThreatScore(Legacy, p).value.threatLevel == "SAFE"
  {
    MissingInputsScoreZero(Legacy, p);
    LegacyLevelBands(0);
  }

  /** All weights of a configuration are non-negative. */
  predicate NonNegativeWeights(w: LegacyWeights) {
    && w.physical >= 0.0 && w.env >= 0.0 && w.anomaly >= 0.0
    && w.wind >= 0.0 && w.wave >= 0.0 && w.tide >= 0.0
    && w.turbidity >= 0.0 && w.chlorophyll >= 0.0 && w.sst >= 0.0
  }

  /** Every normalised input of `a` is at most the matching one of `b`. */
  predicate NormsLe(a: Norms, b: Norms) {
    && a.wind <= b.wind && a.wave <= b.wave && a.tide <= b.tide
    && a.turbidity <= b.turbidity && a.chlorophyll <= b.chlorophyll && a.sst <= b.sst
  }

  lemma MaxOfNormsMonotone(a: Norms, b: Norms)
    requires NormsLe(a, b)
    ensures MaxOf(NormList(a)) <= MaxOf(NormList(b))
  {
    var m := MaxOf(NormList(a));
    var la, lb := NormList(a), NormList(b);
    assert exists i :: 0 <= i < 6 && la[i] == m;
    var i :| 0 <= i < 6 && la[i] == m;
    assert la[i] <= lb[i];
    assert lb[i] in lb;
  }

  lemma ScaleMonotone(c: real, x: real, y: real)
    requires c >= 0.0 && x <= y
    ensures c * x <= c * y
  {
    assert c * y - c * x == c * (y - x);
  }

  /** A non-negative factor keeps a value between 0 and a bound. */
  lemma ScaleBetween(c: real, x: real, hi: real)
    requires c >= 0.0 && 0.0 <= x <= hi
    ensures 0.0 <= c * x <= c * hi
  {
    assert c * hi - c * x == c * (hi - x);
  }

  /** Each of the six normalised inputs of a unit `Norms` lies in [0, 1]. */
  lemma UnitNorms(n: Norms)
    requires InUnit(n)
    ensures && 0.0 <= n.wind <= 1.0 && 0.0 <= n.wave <= 1.0 && 0.0 <= n.tide <= 1.0
            && 0.0 <= n.turbidity <= 1.0 && 0.0 <= n.chlorophyll <= 1.0 && 0.0 <= n.sst <= 1.0
  {
    var l := NormList(n);
    assert l[0] in l && l[1] in l && l[2] in l && l[3] in l && l[4] in l && l[5] in l;
  }

  /** With non-negative weights and inputs in [0, 1], the physical group lies between 0 and its share. */
  lemma PhysicalScoreBounds(w: LegacyWeights, n: Norms)
    requires NonNegativeWeights(w) && InUnit(n)
    ensures 0.0 <= PhysicalScore(w, n) <= PhysicalShare(w)
  {
    UnitNorms(n);
    ScaleBetween(w.wind, n.wind, 1.0);
    ScaleBetween(w.wave, n.wave, 1.0);
    ScaleBetween(w.tide, n.tide, 1.0);
    var x, y, z := w.wind * n.wind, w.wave * n.wave, w.tide * n.tide;
    assert 0.0 <= x <= w.wind && 0.0 <= y <= w.wave && 0.0 <= z <= w.tide;
    assert PhysicalScore(w, n) == x + y + z;
  }

  /** With non-negative weights and inputs in [0, 1], the environmental group lies between 0 and its share. */
  lemma EnvScoreBounds(w: LegacyWeights, n: Norms)
    requires NonNegativeWeights(w) && InUnit(n)
    ensures 0.0 <= EnvScore(w, n) <= EnvShare(w)
  {
    UnitNorms(n);
    ScaleBetween(w.turbidity, n.turbidity, 1.0);
    ScaleBetween(w.chlorophyll, n.chlorophyll, 1.0);
    ScaleBetween(w.sst, n.sst, 1.0);
    var x, y, z := w.turbidity * n.turbidity, w.chlorophyll * n.chlorophyll, w.sst * n.sst;
    assert 0.0 <= x <= w.turbidity && 0.0 <= y <= w.chlorophyll && 0.0 <= z <= w.sst;
    assert EnvScore(w, n) == x + y + z;
  }

  /** The boost never exceeds the anomaly weight, and is the whole weight above the cutoff. */
  lemma BoostBounds(anomaly: real, m: real)
    requires anomaly >= 0.0 && 0.0 <= m <= 1.0
    ensures 0.0 <= Boost(anomaly, m) <= anomaly
    ensures m > PeakCutoff ==> Boost(anomaly, m) == anomaly
  {
    ScaleBetween(anomaly, m / 3.0, 1.0);
  }

  /** The weighted groups lie between 0 and the weighted group shares. */
  lemma BaseBounds(w: LegacyWeights, n: Norms)
    requires NonNegativeWeights(w) && InUnit(n)
    ensures 0.0 <= Base(w, n) <= w.physical * PhysicalShare(w) + w.env * EnvShare(w)
  {
    PhysicalScoreBounds(w, n);
    EnvScoreBounds(w, n);
    ScaleBetween(w.physical, PhysicalScore(w, n), PhysicalShare(w));
    ScaleBetween(w.env, EnvScore(w, n), EnvShare(w));
  }

  /** The raw score lies between 0 and `RawCeiling`. */
  lemma RawScoreBounds(w: LegacyWeights, n: Norms)
    requires NonNegativeWeights(w) && InUnit(n)
    ensures 0.0 <= RawScore(w, n) <= RawCeiling(w)
  {
    BaseBounds(w, n);
    var m := MaxOf(NormList(n));
    assert 0.0 <= m <= 1.0;
    BoostBounds(w.anomaly, m);
  }

  lemma BoostMonotone(anomaly: real, ma: real, mb: real)
    requires anomaly >= 0.0 && 0.0 <= ma <= mb <= 1.0
    ensures Boost(anomaly, ma) <= Boost(anomaly, mb)
  {
    var fa := if ma > PeakCutoff then 1.0 else ma / 3.0;
    var fb := if mb > PeakCutoff then 1.0 else mb / 3.0;
    assert fa <= fb;
    ScaleMonotone(anomaly, fa, fb);
  }

  lemma GroupScoresMonotone(w: LegacyWeights, a: Norms, b: Norms)
    requires NonNegativeWeights(w) && NormsLe(a, b)
    ensures PhysicalScore(w, a) <= PhysicalScore(w, b)
    ensures EnvScore(w, a) <= EnvScore(w, b)
  {
    ScaleMonotone(w.wind, a.wind, b.wind);
    ScaleMonotone(w.wave, a.wave, b.wave);
    ScaleMonotone(w.tide, a.tide, b.tide);
    ScaleMonotone(w.turbidity, a.turbidity, b.turbidity);
    ScaleMonotone(w.chlorophyll, a.chlorophyll, b.chlorophyll);
    ScaleMonotone(w.sst, a.sst, b.sst);
  }

  lemma BaseMonotone(w: LegacyWeights, a: Norms, b: Norms)
    requires NonNegativeWeights(w) && NormsLe(a, b)
    ensures Base(w, a) <= Base(w, b)
  {
    GroupScoresMonotone(w, a, b);
    var pa, pb := PhysicalScore(w, a), PhysicalScore(w, b);
    var ea, eb := EnvScore(w, a), EnvScore(w, b);
    ScaleMonotone(w.physical, pa, pb);
    ScaleMonotone(w.env, ea, eb);
  }

  lemma RawScoreMonotone(w: LegacyWeights, a: Norms, b: Norms)
    requires NonNegativeWeights(w) && InUnit(a) && InUnit(b) && NormsLe(a, b)
    ensures RawScore(w, a) <= RawScore(w, b)
  {
    BaseMonotone(w, a, b);
    var ma, mb := MaxOf(NormList(a)), MaxOf(NormList(b));
    MaxOfNormsMonotone(a, b);
    assert 0.0 <= ma <= 1.0 && 0.0 <= mb <= 1.0;
    BoostMonotone(w.anomaly, ma, mb);
  }

  lemma Score100Monotone(w: LegacyWeights, a: Norms, b: Norms)
    requires NonNegativeWeights(w) && InUnit(a) && InUnit(b) && NormsLe(a, b)
    ensures Score100(w, a) <= Score100(w, b)
  {
    RawScoreMonotone(w, a, b);
    var ca, cb := Clamp01(RawScore(w, a)), Clamp01(RawScore(w, b));
    assert ca <= cb;
    ScaleMonotone(100.0, ca, cb);
    RoundHalfEvenMonotone(ca * 100.0, cb * 100.0);
  }

  /** Setting one scored key to a larger number raises that input alone. */
  lemma NormalizePayloadMonotone(clips: map<string, ClipRange>, p: Payload, key: string, a: real, b: real)
    requires key in ScoredKeys && a <= b
    requires NormalizePayload(clips, p[key := Num(a)]).Success?
    ensures NormalizePayload(clips, p[key := Num(b)]).Success?
    ensures NormsLe(NormalizePayload(clips, p[key := Num(a)]).value, NormalizePayload(clips, p[key := Num(b)]).value)
  {
    var pa, pb := p[key := Num(a)], p[key := Num(b)];
    forall k | k in ScoredKeys ensures Scorable(Get(pb, k)) {
      if k != key { assert Get(pb, k) == Get(pa, k); }
    }
    NormalizedInputMonotone(clips, p, key, a, b, 0);
    NormalizedInputMonotone(clips, p, key, a, b, 1);
    NormalizedInputMonotone(clips, p, key, a, b, 2);
    NormalizedInputMonotone(clips, p, key, a, b, 3);
    NormalizedInputMonotone(clips, p, key, a, b, 4);
    NormalizedInputMonotone(clips, p, key, a, b, 5);
  }

  /** One normalised input after the update: the updated key's grows, the others stay. */
  lemma NormalizedInputMonotone(clips: map<string, ClipRange>, p: Payload, key: string, a: real, b: real, i: int)
    requires a <= b && 0 <= i < |ScoredKeys|
    requires NormalizePayload(clips, p[key := Num(a)]).Success? && NormalizePayload(clips, p[key := Num(b)]).Success?
    ensures NormList(NormalizePayload(clips, p[key := Num(a)]).value)[i] <= NormList(NormalizePayload(clips, p[key := Num(b)]).value)[i]
  {
    var k := ScoredKeys[i];
    NormalizePayloadFields(clips, p[key := Num(a)]);
    NormalizePayloadFields(clips, p[key := Num(b)]);
    if k == key {
      NormalizeMonotone(ClipOf(clips, key), a, b);
    } else {
      GetAfterUpdate(p, key, Num(a), k);
      GetAfterUpdate(p, key, Num(b), k);
    }
  }

  /**
   * With non-negative weights, raising one scored value while the rest of the
   * payload stays fixed never lowers the score.
   */
  lemma ScoreMonotone(cfg: LegacyConfig, p: Payload, key: string, a: real, b: real)
    requires NonNegativeWeights(cfg.weights)
    requires key in ScoredKeys && a <= b
    requires CalculateThreatScore(cfg, p[key := Num(a)]).Success?
    ensures CalculateThreatScore(cfg, p[key := Num(b)]).Success?
    ensures CalculateThreatScore(cfg, p[key := Num(a)]).value.score <= CalculateThreatScore(cfg, p[key := Num(b)]).value.score
  {
    NormalizePayloadMonotone(cfg.clips, p, key, a, b);
    var na := NormalizePayload(cfg.clips, p[key := Num(a)]).value;
    var nb := NormalizePayload(cfg.clips, p[key := Num(b)]).value;
    Score100Monotone(cfg.weights, na, nb);
  }

  /** Under the legacy weights the ceiling is 0.55 * 0.55 + 0.35 * 0.35 + 0.10 = 0.525. */
  lemma LegacyRawCeiling()
    ensures NonNegativeWeights(Legacy.weights)
    ensures PhysicalShare(Legacy.weights) == 0.55 && EnvShare(Legacy.weights) == 0.35
    ensures RawCeiling(Legacy.weights) == 0.525
  {
  }

  lemma LegacyRawScoreBound(n: Norms)
    requires InUnit(n)
    ensures RawScore(Legacy.weights, n) <= 0.525
  {
    LegacyRawCeiling();
    RawScoreBounds(Legacy.weights, n);
  }

  /**
   * Under the legacy constants the raw score never exceeds 0.525, because the
   * group weights multiply breakdowns that already carry them; the score is
   * therefore at most 53 and the level never passes WATCH.
   */
  lemma LegacyLevelNeverAboveWatch(p: Payload)
    requires CalculateThreatScore(Legacy, p).Success?
    ensures CalculateThreatScore(Legacy, p).value.score <= 53
    ensures CalculateThreatScore(Legacy, p).value.threatLevel in {"SAFE", "WATCH"}
  {
    var n := NormalizePayload(Legacy.clips, p).value;
    var raw := RawScore(Legacy.weights, n);
    LegacyRawScoreBound(n);
    var c := Clamp01(raw);
    assert c <= 0.525;
    ScaleMonotone(100.0, c, 0.525);
    RoundHalfEvenMonotone(c * 100.0, 52.5);
    assert RoundHalfEven(52.5) <= 53;
    LegacyLevelBands(Score100(Legacy.weights, n));
  }

  /** The reading used by the scorer's unit test: every input inside its clip range. */
  const SampleReading: Payload := map[
    "wind_speed_m_s" := Num(10.0), "wave_height_m" := Num(1.2), "tide_level_m" := Num(0.5),
    "turbidity_ntu" := Num(5.0), "chlorophyll" := Num(0.8), "sst" := Num(28.0)]

  /** The sample reading's normalised inputs. */
  const SampleNorms := Norms(0.2, 0.08, 11.0 / 30.0, 0.025, 0.016, 5.0 / 7.0)

  lemma SampleReadingNorms()
    ensures NormalizePayload(Legacy.clips, SampleReading) == Success(SampleNorms)
  {
    var c := LegacyClips;
    assert c["wind_speed_m_s"] == ClipRange(0.0, 50.0);
    assert c["wave_height_m"] == ClipRange(0.0, 15.0);
    assert c["tide_level_m"] == ClipRange(-5.0, 10.0);
    assert c["turbidity_ntu"] == ClipRange(0.0, 200.0);
    assert c["chlorophyll"] == ClipRange(0.0, 50.0);
    assert c["sst"] == ClipRange(-2.0, 40.0);
    assert Normalize(ClipRange(0.0, 50.0), 10.0) == 0.2;
    assert Normalize(ClipRange(0.0, 15.0), 1.2) == 0.08;
    assert Normalize(ClipRange(-5.0, 10.0), 0.5) == 11.0 / 30.0;
    assert Normalize(ClipRange(0.0, 200.0), 5.0) == 0.025;
    assert Normalize(ClipRange(0.0, 50.0), 0.8) == 0.016;
    assert Normalize(ClipRange(-2.0, 40.0), 28.0) == 5.0 / 7.0;
  }

  /** Those inputs give a largest input of 5/7, below the cutoff, and a raw score just above 0.095. */
  lemma SampleNormsScore()
    ensures MaxOf(NormList(SampleNorms)) == 5.0 / 7.0
    ensures 0.095 < RawScore(Legacy.weights, SampleNorms) < 0.096
    ensures Score100(Legacy.weights, SampleNorms) == 10
  {
    var n := SampleNorms;
    assert MaxOf(NormList(n)) == 5.0 / 7.0;
    assert PhysicalScore(Legacy.weights, n) == 77.0 / 750.0;
    assert EnvScore(Legacy.weights, n) == 14747.0 / 350000.0;
  }

  /**
   * The sample reading scores 10 and is SAFE, inside the bounds and among
   * the level names the unit test checks.
   */
  lemma SampleReadingIsSafe()
    ensures CalculateThreatScore(Legacy, SampleReading).Success?
    ensures CalculateThreatScore(Legacy, SampleReading).value.score == 10
    ensures CalculateThreatScore(Legacy, SampleReading).value.threatLevel == "SAFE"
    ensures !CalculateThreatScore(Legacy, SampleReading).value.simplePeak
  {
    SampleReadingNorms();
    SampleNormsScore();
    LegacyLevelBands(10);
  }
}
