/**
 * The offline helper that scores every row of the cleaned dataset with the
 * rule-based scorer and reports the row with the highest score.
 */
module FindStorm {
  import opened Wrappers
  import opened Frames
  import opened Config
  import opened ThreatModel
  import DataPrep

  /** The column the helper adds to the table it scores. */
  const ScoreColumn := "threat_score"

  /** Why the helper raised instead of returning an index. */
  datatype FindError =
    | ScoringFailed(cause: ScoreError)  // some row could not be scored
    | EmptyTable                        // `idxmax` of an empty column

  /**
   * What the helper ends with: `None` when the cleaned file is absent, an
   * exception, or the peak row's index together with its (printed) score.
   */
  datatype PeakOutcome = NoData | Raised(error: FindError) | Found(index: int, peakScore: int)

  /** The score the scorer gives one row, read as a dict of its columns. */
  function RowScore(cfg: LegacyConfig, columns: seq<string>, row: Row): (r: Result<Assessment, ScoreError>)
    requires |row| == |columns|
    ensures r.Success? <==> forall k :: k in ScoredKeys ==> Scorable(Get(RowDict(columns, row), k))
    ensures r.Success? ==> 0 <= r.value.score <= 100
  {
    CalculateThreatScore(cfg, RowDict(columns, row))
  }

  /** The scorer's verdict on every row, in row order. */
  function Assessments(cfg: LegacyConfig, columns: seq<string>, rows: seq<Row>): (rs: seq<Result<Assessment, ScoreError>>)
    requires Shaped(columns, rows)
    ensures |rs| == |rows|
    ensures forall i :: 0 <= i < |rows| ==> rs[i] == RowScore(cfg, columns, rows[i])
  {
    seq(|rows|, i requires 0 <= i < |rows| => RowScore(cfg, columns, rows[i]))
  }

  /**
   * `df.apply(calculate_threat_score, axis=1)` followed by picking out each
   * result's score: the verdicts are taken in order and the first failure
   * is what the apply raises.
   */
  function Collect(rs: seq<Result<Assessment, ScoreError>>): (r: Result<seq<int>, ScoreError>)
    ensures r.Success? <==> forall i :: 0 <= i < |rs| ==> rs[i].Success?
    ensures r.Success? ==> |r.value| == |rs| && forall i :: 0 <= i < |rs| ==> r.value[i] == rs[i].value.score
    ensures r.Failure? ==>
      exists i :: 0 <= i < |rs| && rs[i] == Failure(r.error) && forall k :: 0 <= k < i ==> rs[k].Success?
    decreases |rs|
  {
    if |rs| == 0 then Success([])
    else
      match rs[0]
      case Failure(e) => Failure(e)
      case Success(a) =>
        match Collect(rs[1..])
        case Failure(e) =>
          ghost var i :| 0 <= i < |rs[1..]| && rs[1..][i] == Failure(e) && forall k :: 0 <= k < i ==> rs[1..][k].Success?;
          assert rs[i + 1] == Failure(e);
          Failure(e)
        case Success(rest) => Success([a.score] + rest)
  }

  /** The scores of a whole table, or the first row's failure. */
  function ScoreRows(cfg: LegacyConfig, columns: seq<string>, rows: seq<Row>): (r: Result<seq<int>, ScoreError>)
    requires Shaped(columns, rows)
    ensures r.Success? <==> forall i :: 0 <= i < |rows| ==> RowScore(cfg, columns, rows[i]).Success?
    ensures r.Success? ==> |r.value| == |rows| && forall i :: 0 <= i < |rows| ==> 0 <= r.value[i] <= 100
  {
    Collect(Assessments(cfg, columns, rows))
  }

  /** Position `i` holds the largest score, and no earlier position holds one as large. */
  predicate IsFirstPeak(s: seq<int>, i: int) {
    && 0 <= i < |s|
    && (forall j :: 0 <= j < |s| ==> s[j] <= s[i])
    && (forall j :: 0 <= j < i ==> s[j] < s[i])
  }

  /**
   * `idxmax` over positions: the position of the largest score, and of the
   * first one when several are equally large.
   */
  function FirstArgMax(s: seq<int>): (i: nat)
    requires |s| > 0
    ensures IsFirstPeak(s, i)
    decreases |s|
  {
    if |s| == 1 then 0
    else
      var k := FirstArgMax(s[..|s| - 1]);
      if s[|s| - 1] > s[k] then |s| - 1 else k
  }

  /** The first maximum is the only position that is a maximum with nothing as large before it. */
  lemma FirstArgMaxUnique(s: seq<int>, i: int)
    requires IsFirstPeak(s, i)
    ensures FirstArgMax(s) == i
  {
    var k := FirstArgMax(s);
    assert s[k] == s[i];
  }

  /**
   * `find_peak_threat_index()`, given whether the cleaned file exists and,
   * when it does, the header and rows `read_csv` finds in it. The table is
   * read with a fresh 0-based index, so the peak's index is its position.
   */
  method FindPeakThreatIndex(cfg: LegacyConfig, dataExists: bool, columns: seq<string>, rows: seq<Row>)
      returns (r: PeakOutcome)
    requires Shaped(columns, rows)
    ensures !dataExists <==> r == NoData
    ensures dataExists && |rows| == 0 ==> r == Raised(EmptyTable)
    ensures dataExists && ScoreRows(cfg, columns, rows).Failure? ==>
      r == Raised(ScoringFailed(ScoreRows(cfg, columns, rows).error))
    ensures r.Found? <==> dataExists && |rows| > 0 && ScoreRows(cfg, columns, rows).Success?
    ensures r.Found? ==>
      && ScoreRows(cfg, columns, rows).Success?
      && IsFirstPeak(ScoreRows(cfg, columns, rows).value, r.index)
      && r.peakScore == ScoreRows(cfg, columns, rows).value[r.index]
  {
    if !dataExists {
      return NoData;
    }
    var df := new Frame(columns, DataPrep.Renumbered(|rows|), rows);
    var scores := ScoreRows(cfg, df.columns, df.rows);
    if scores.Failure? {
      return Raised(ScoringFailed(scores.error));
    }
    var cells := seq(|scores.value|, i requires 0 <= i < |scores.value| => Num(scores.value[i] as real));
    df.SetColumn(ScoreColumn, cells);
    if |df.rows| == 0 {
      return Raised(EmptyTable);
    }
    var peak := FirstArgMax(scores.value);
    r := Found(df.index[peak], scores.value[peak]);
  }

  /**
   * On any table none of whose columns is a scored key, every row scores 0
   * and the first row is reported as the peak.
   */
  lemma UnscoredTablePeaksAtFirstRow(cfg: LegacyConfig, columns: seq<string>, rows: seq<Row>)
    requires Shaped(columns, rows) && |rows| > 0
    requires forall k :: k in ScoredKeys ==> k !in columns
    ensures ScoreRows(cfg, columns, rows).Success?
    ensures forall i :: 0 <= i < |rows| ==> ScoreRows(cfg, columns, rows).value[i] == 0
    ensures FirstArgMax(ScoreRows(cfg, columns, rows).value) == 0
  {
    forall i | 0 <= i < |rows|
      ensures RowScore(cfg, columns, rows[i]).Success? && RowScore(cfg, columns, rows[i]).value.score == 0
    {
      var p := RowDict(columns, rows[i]);
      forall k | k in ScoredKeys ensures IsMissing(Get(p, k)) {
        assert k !in p.Keys;
      }
      MissingInputsScoreZero(cfg, p);
    }
    var s := ScoreRows(cfg, columns, rows).value;
    FirstArgMaxUnique(s, 0);
  }

  /**
   * The cleaned dataset's header holds none of the scored keys, so on it
   * the helper always reports row 0 with score 0.
   */
  lemma CleanedTablePeaksAtFirstRow(cfg: LegacyConfig, rows: seq<Row>)
    requires Shaped(DataPrep.KeepCols, rows) && |rows| > 0
    ensures ScoreRows(cfg, DataPrep.KeepCols, rows).Success?
    ensures FirstArgMax(ScoreRows(cfg, DataPrep.KeepCols, rows).value) == 0
  {
    UnscoredTablePeaksAtFirstRow(cfg, DataPrep.KeepCols, rows);
  }
}
