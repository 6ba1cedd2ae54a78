/**
 * Scoring constants. Two sets exist: the legacy block that the rule-based
 * scorer reads (group weights, normalisation clips, level ranges), and the
 * live per-parameter thresholds, weights and labels.
 */
module Config {

  /** A normalisation range `(min, max)` for one payload key. */
  datatype ClipRange = ClipRange(lo: real, hi: real)

  /** A named threat level covering the inclusive integer range `lo..hi`. */
  datatype LevelRange = LevelRange(name: string, lo: int, hi: int)

  /**
   * Legacy weights: the physical, environmental and anomaly shares, and the
   * breakdown inside the physical (wind, wave, tide) and environmental
   * (turbidity, chlorophyll, sea-surface temperature) groups.
   */
  datatype LegacyWeights = LegacyWeights(
    physical: real, env: real, anomaly: real,
    wind: real, wave: real, tide: real,
    turbidity: real, chlorophyll: real, sst: real)

  /** Everything the rule-based scorer reads from its configuration. */
  datatype LegacyConfig = LegacyConfig(
    weights: LegacyWeights,
    clips: map<string, ClipRange>,
    thresholds: seq<LevelRange>)

  predicate InLevel(l: LevelRange, score: int) {
    l.lo <= score <= l.hi
  }

  /** Some level of the table contains the score. */
  predicate Covers(levels: seq<LevelRange>, score: int) {
    exists i :: 0 <= i < |levels| && InLevel(levels[i], score)
  }

  // ---------------------------------------------------------------------
  // Legacy block

  const LegacyWeightTable := LegacyWeights(0.55, 0.35, 0.10, 0.25, 0.20, 0.10, 0.18, 0.12, 0.05)

  const LegacyClips: map<string, ClipRange> := map[
    "wind_speed_m_s" := ClipRange(0.0, 50.0),
    "wave_height_m" := ClipRange(0.0, 15.0),
    "turbidity_ntu" := ClipRange(0.0, 200.0),
    "chlorophyll" := ClipRange(0.0, 50.0),
    "tide_level_m" := ClipRange(-5.0, 10.0),
    "sst" := ClipRange(-2.0, 40.0)]

  /** The level table, in the dict's insertion order. */
  const LegacyThresholds: seq<LevelRange> := [
    LevelRange("SAFE", 0, 30),
    LevelRange("WATCH", 31, 60),
    LevelRange("WARNING", 61, 80),
    LevelRange("DANGER", 81, 100)]

  const Legacy := LegacyConfig(LegacyWeightTable, LegacyClips, LegacyThresholds)

  /** The group and anomaly weights sum to one, as the block's comment asks. */
  lemma LegacyWeightsSumToOne()
    ensures Legacy.weights.physical + Legacy.weights.env + Legacy.weights.anomaly == 1.0
    ensures Legacy.weights.physical >= 0.0 && Legacy.weights.env >= 0.0 && Legacy.weights.anomaly >= 0.0
  {
  }

  /**
   * Each group's breakdown sums to the group's own weight, not to one: the
   * component weights already carry the group share.
   */
  lemma LegacyBreakdownCarriesGroupShare()
    ensures Legacy.weights.wind + Legacy.weights.wave + Legacy.weights.tide == Legacy.weights.physical
    ensures Legacy.weights.turbidity + Legacy.weights.chlorophyll + Legacy.weights.sst == Legacy.weights.env
  {
  }

  /** Every legacy clip range is non-empty. */
  lemma LegacyClipsNonEmpty()
    ensures |LegacyClips| == 6
    ensures forall k :: k in LegacyClips ==> LegacyClips[k].lo < LegacyClips[k].hi
  {
  }

  /** The legacy level ranges are pairwise disjoint and cover every integer 0..100. */
  lemma LegacyLevelsPartition()
    ensures forall i, j, s :: 0 <= i < j < |LegacyThresholds| && InLevel(LegacyThresholds[i], s) ==> !InLevel(LegacyThresholds[j], s)
    ensures forall s :: 0 <= s <= 100 ==> Covers(LegacyThresholds, s)
  {
    forall s | 0 <= s <= 100
      ensures Covers(LegacyThresholds, s)
    {
      if s <= 30 { assert InLevel(LegacyThresholds[0], s); }
      else if s <= 60 { assert InLevel(LegacyThresholds[1], s); }
      else if s <= 80 { assert InLevel(LegacyThresholds[2], s); }
      else { assert InLevel(LegacyThresholds[3], s); }
    }
  }

  // ---------------------------------------------------------------------
  // Live per-parameter configuration

  const ThreatLabels: map<int, string> := map[0 := "Safe", 1 := "Caution", 2 := "Warning", 3 := "Danger"]

  /** The configured parameters, in declaration order. */
  const LiveParameters: seq<string> := ["wind_speed", "maximum_wind_speed", "humidity", "rain_intensity", "barometric_pressure"]

  const Thresholds: map<string, seq<real>> := map[
    "wind_speed" := [12.0, 22.0, 35.0],
    "maximum_wind_speed" := [18.0, 30.0, 45.0],
    "humidity" := [80.0, 90.0, 95.0],
    "rain_intensity" := [2.5, 7.5, 15.0],
    "barometric_pressure" := [1005.0, 995.0, 985.0]]

  const Weights: map<string, real> := map[
    "wind_speed" := 0.20,
    "maximum_wind_speed" := 0.30,
    "humidity" := 0.05,
    "rain_intensity" := 0.15,
    "barometric_pressure" := 0.30]

  predicate StrictlyAscending(t: seq<real>) {
    forall i, j :: 0 <= i < j < |t| ==> t[i] < t[j]
  }

  predicate StrictlyDescending(t: seq<real>) {
    forall i, j :: 0 <= i < j < |t| ==> t[i] > t[j]
  }

  /** The sum of the weights of the given parameters. */
  function WeightSum(params: seq<string>, w: map<string, real>): real
    requires forall p :: p in params ==> p in w
  {
    if params == [] then 0.0 else w[params[0]] + WeightSum(params[1..], w)
  }

  /** The labels are exactly Safe, Caution, Warning, Danger for 0..3. */
  lemma ThreatLabelsExact()
    ensures ThreatLabels.Keys == {0, 1, 2, 3}
    ensures ThreatLabels[0] == "Safe" && ThreatLabels[1] == "Caution"
    ensures ThreatLabels[2] == "Warning" && ThreatLabels[3] == "Danger"
  {
  }

  /** Thresholds and weights configure the same five parameters. */
  lemma LiveParametersAgree()
    ensures Thresholds.Keys == Weights.Keys == set p | p in LiveParameters
    ensures |LiveParameters| == 5
  {
  }

  /**
   * Three thresholds per parameter, rising for the parameters where higher is
   * more dangerous and falling for barometric pressure, where lower is.
   */
  lemma LiveThresholdsOrdered()
    ensures forall p :: p in Thresholds ==> |Thresholds[p]| == 3
    ensures forall p :: p in Thresholds && p != "barometric_pressure" ==> StrictlyAscending(Thresholds[p])
    ensures StrictlyDescending(Thresholds["barometric_pressure"])
  {
  }

  /** The live weights are non-negative and sum to one. */
  lemma LiveWeightsSumToOne()
    ensures forall p :: p in Weights ==> Weights[p] >= 0.0
    ensures WeightSum(LiveParameters, Weights) == 1.0
  {
  }
}
