# Coastal threat alert: a Dafny model of the scoring and data core

The backend of this coastal threat alert system has five parts:

- **Rule-based scorer** (`backend/threat_model.py`). It turns one sensor reading into a threat score from 0 to 100 and a named level. It normalises six inputs into [0, 1]: wind, wave, tide, turbidity, chlorophyll and sea-surface temperature. It then weights them into a physical group and an environmental group, adds an anomaly boost driven by the largest normalised input, clamps the total and rounds it.
- **Scoring constants** (`backend/config.py`). There are two sets:
  - the legacy block (group weights, clip ranges and level ranges), which is the set the scorer is written against. In `backend/config.py` this block is commented out (lines 6-40), so the scorer's import of `WEIGHTS`, `CLIPS` and `THRESHOLDS` (`backend/threat_model.py:18`) fails as the file stands; the live `WEIGHTS` also has no `physical_components` entry. The model assumes the legacy block is restored;
  - the live per-parameter thresholds, weights and labels.
- **Dataset cleaning** (`backend/data_prep.py`):
  - column names become snake case;
  - the table is projected onto seven columns;
  - rows with a missing value, including an unparseable timestamp, are dropped;
  - the rest is sorted by time and renumbered.
- **Replay source** (`backend/sensor_simulator.py`). It plays a loaded table back as a stream of "live" readings, one payload per row.
- **Peak finder** (`backend/utils/find_storm.py`). It scores every row of the cleaned dataset and reports the first row with the highest score.

How the model represents these:

- **Numbers.** The model uses mathematical reals instead of IEEE floats. Python's `round` is round-half-to-even.
- **Tables and cells.** A pandas DataFrame is the class `Frames.Frame`. Its column names, index labels and rows are fields that methods update in place. A cell is one of:
  - missing (`None`/NaT);
  - NaN;
  - a number;
  - text;
  - a parsed timestamp.
- **Library functions as parameters.** `pd.to_datetime` is a parser passed in as a function. `Timestamp.isoformat` is a formatter passed in as a function.
- **The scorer's configuration.** The scorer takes its configuration as a record. The model instantiates it with the legacy constants. These are the only values with the keys the scorer reads (`CLIPS` and the component breakdowns exist only there), so the model assumes that block is restored.

Modules:

- `Wrappers`: `Option` and `Result`.
- `Frames`: cells, rows, `to_dict`, and the DataFrame class.
- `Config`: both constant sets.
- `ThreatModel`: the scorer.
- `DataPrep`: the cleaning pipeline.
- `SensorSimulator`: the replay source.
- `FindStorm`: the peak finder.

Some properties that follow from the code as written:

- **The legacy score never passes WATCH.** Each group's breakdown weights already sum to the group's share. Multiplying again by the group weight caps the raw score at 0.525, so the integer score is at most 53. See `ThreatModel.LegacyLevelNeverAboveWatch`.
- **The peak finder always reports row 0 on the cleaned dataset.** The cleaned dataset keeps none of the six keys the scorer reads. Every row of it therefore scores 0, and the peak finder always reports row 0. See `FindStorm.CleanedTablePeaksAtFirstRow`.

## Model

| member | source | states |
|---|---|---|
| Frames.RowDict | backend/sensor_simulator.py:26 | `row.to_dict()` has exactly one key per column name |
| Frames.RowDictAt | backend/sensor_simulator.py:26 | a column name that is not repeated later maps to that column's cell |
| Frames.IndexOf | backend/data_prep.py:164 | the position of the first column with a given name |
| Frames.Frame.SetColumn | backend/utils/find_storm.py:39 | `df[name] = values` overwrites the first column of that name, or else appends a new column at the right; the index and the number of rows stay the same |
| Config.LegacyWeightsSumToOne | backend/config.py:6-10 | physical + env + anomaly weights are non-negative and sum to 1.0 |
| Config.LegacyBreakdownCarriesGroupShare | backend/config.py:11-21 | wind+wave+tide equals the physical weight, and turbidity+chlorophyll+sst equals the env weight |
| Config.LegacyClipsNonEmpty | backend/config.py:25-32 | there are six clip ranges, each with lo < hi |
| Config.LegacyLevelsPartition | backend/config.py:35-40 | the four level ranges are pairwise disjoint and cover every integer 0..100 |
| Config.ThreatLabelsExact | backend/config.py:57 | the labels map exactly 0..3 to Safe, Caution, Warning, Danger |
| Config.LiveParametersAgree | backend/config.py:61-81 | thresholds and weights configure the same five parameters |
| Config.LiveThresholdsOrdered | backend/config.py:61-71 | each parameter has three thresholds; they rise strictly for four parameters and fall strictly for barometric pressure |
| Config.LiveWeightsSumToOne | backend/config.py:75-81 | the live weights are non-negative and sum to 1.0 |
| ThreatModel.Clamp01 | backend/threat_model.py:90 | the clamp lands in [0, 1], leaves values already in [0, 1] unchanged, sends every negative value to 0 and every value above 1 to 1 |
| ThreatModel.Get | backend/threat_model.py:54-61 | `payload.get(key)` is the stored cell when the key is present and a missing value otherwise |
| ThreatModel.GetAfterUpdate | backend/threat_model.py:54-61 | after writing a key, reading it gives the written cell and reading any other key is unaffected |
| ThreatModel.ClipOf | backend/threat_model.py:25 | `CLIPS.get(key, (0.0, 1.0))` is the configured range when there is one and (0, 1) otherwise |
| ThreatModel.LegacyClipsCoverScoredKeys | backend/threat_model.py:25 | under the legacy clip table every one of the six scored keys has its own range, so the default is never used |
| ThreatModel.Normalize | backend/threat_model.py:25-30 | the clipped, rescaled value is in [0, 1]; a zero-width range gives 0 |
| ThreatModel.ClipAndNorm | backend/threat_model.py:21-30 | succeeds exactly for missing, NaN and numeric values; missing or NaN gives 0.0; every result is in [0, 1]; a key with no clip range uses (0, 1) |
| ThreatModel.NormalizeMonotone | backend/threat_model.py:27-30 | normalisation never decreases as the value grows |
| ThreatModel.NormalizeSaturates | backend/threat_model.py:27-30 | over a non-empty range, values at or below lo give 0 and values at or above hi give 1 |
| ThreatModel.NormalizePayload | backend/threat_model.py:53-62 | succeeds exactly when all six inputs are scorable, and every normalised input is in [0, 1] |
| ThreatModel.MaxOf | backend/threat_model.py:83 | the anomaly indicator is one of the normalised inputs and is at least every one of them |
| ThreatModel.RoundHalfEven | backend/threat_model.py:91 | `round` is within 1/2 of its argument, and a tie goes to the even integer |
| ThreatModel.RoundHalfEvenMonotone | backend/threat_model.py:91 | rounding preserves order |
| ThreatModel.Score100 | backend/threat_model.py:88-91 | the integer score is in 0..100 |
| ThreatModel.MapScoreToLevel | backend/threat_model.py:33-41 | returns the first level whose inclusive range holds the score; when none does, SAFE for a negative score and DANGER otherwise |
| ThreatModel.CalculateThreatScore | backend/threat_model.py:44-113 | succeeds exactly when all six inputs are scorable; the score is in 0..100; the level is `_map_score_to_level(score)`; `raw_params` is the input; the anomaly indicator is in [0, 1]; `simple_peak` holds exactly when it exceeds 0.95; the components are the physical score, the environmental score and the largest normalised input, and the score is the clamped, rounded raw score of the normalised inputs |
| ThreatModel.SimplePeakIffSomeInputAbove | backend/threat_model.py:83-110 | `simple_peak` is raised exactly when some scored value's `_clip_and_norm` exceeds 0.95 |
| ThreatModel.BoostFullExactlyAbovePeak | backend/threat_model.py:83-86 | the boost never exceeds the anomaly weight, and equals it exactly when the indicator exceeds 0.95 |
| ThreatModel.MissingInputsScoreZero | backend/threat_model.py:53-99 | a payload with none of the six inputs scores 0, has zero components, is not a peak, and gets the level of score 0 |
| ThreatModel.LegacyLevelBands | backend/threat_model.py:33-41 | under the legacy table, scores up to 30 are SAFE, 31-60 WATCH, 61-80 WARNING, and 81 and above DANGER |
| ThreatModel.MissingInputsAreSafe | backend/threat_model.py:53-99 | under the legacy constants, a payload with none of the six inputs scores 0 and is SAFE |
| ThreatModel.MaxOfNormsMonotone | backend/threat_model.py:83 | raising normalised inputs never lowers the anomaly indicator |
| ThreatModel.BoostMonotone | backend/threat_model.py:84-86 | the anomaly boost never decreases as the indicator grows |
| ThreatModel.GroupScoresMonotone | backend/threat_model.py:68-77 | with non-negative weights, raising inputs never lowers the physical or environmental group score |
| ThreatModel.BaseMonotone | backend/threat_model.py:79 | with non-negative weights, raising inputs never lowers the base score |
| ThreatModel.RawScoreMonotone | backend/threat_model.py:79-88 | with non-negative weights, raising inputs never lowers the raw score |
| ThreatModel.Score100Monotone | backend/threat_model.py:88-91 | with non-negative weights, raising inputs never lowers the integer score |
| ThreatModel.NormalizePayloadFields | backend/threat_model.py:53-62 | the six normalised inputs are the `_clip_and_norm` results of the six scored keys, in order |
| ThreatModel.NormalizedInputMonotone | backend/threat_model.py:53-62 | after raising one scored key to a larger number, no single normalised input drops (the raised key by monotone normalisation, the others because their cells are unchanged) |
| ThreatModel.NormalizePayloadMonotone | backend/threat_model.py:53-62 | setting one scored key to a larger number keeps the payload scorable and lowers no normalised input |
| ThreatModel.ScoreMonotone | backend/threat_model.py:53-91 | with non-negative weights, raising one scored value never lowers the score |
| ThreatModel.PhysicalScoreBounds | backend/threat_model.py:68-72 | with non-negative weights and inputs in [0, 1], the physical group lies between 0 and wind+wave+tide |
| ThreatModel.EnvScoreBounds | backend/threat_model.py:73-77 | with non-negative weights and inputs in [0, 1], the environmental group lies between 0 and turbidity+chlorophyll+sst |
| ThreatModel.BoostBounds | backend/threat_model.py:83-86 | for an indicator in [0, 1] the boost lies between 0 and the anomaly weight, and is the whole weight above 0.95 |
| ThreatModel.BaseBounds | backend/threat_model.py:79 | the base lies between 0 and each group weight times its breakdown sum, added up |
| ThreatModel.RawScoreBounds | backend/threat_model.py:88 | the raw score lies between 0 and that ceiling plus the anomaly weight |
| ThreatModel.ZeroNormsRawZero | backend/threat_model.py:68-88 | all-zero normalised inputs give group scores, indicator, raw score and integer score of 0 under any weights |
| ThreatModel.LegacyRawCeiling | backend/config.py:6-21 | the legacy weights are non-negative, the breakdowns sum to 0.55 and 0.35, and the ceiling is 0.525 |
| ThreatModel.LegacyRawScoreBound | backend/threat_model.py:79-88 | under the legacy weights, the raw score is at most 0.525 |
| ThreatModel.LegacyLevelNeverAboveWatch | backend/threat_model.py:79-99 | under the legacy constants, every score is at most 53 and the level is SAFE or WATCH |
| ThreatModel.SampleReadingNorms | backend/tests/test_threat_model.py:10-17 | the unit test's reading normalises to 0.2, 0.08, 11/30, 0.025, 0.016 and 5/7 |
| ThreatModel.SampleNormsScore | backend/threat_model.py:79-91 | those inputs give an indicator of 5/7, a raw score between 0.095 and 0.096, and the integer score 10 |
| ThreatModel.SampleReadingIsSafe | backend/tests/test_threat_model.py:9-21 | the unit test's reading scores 10 and is SAFE with no peak flag, inside the bounds and level names the test checks |
| DataPrep.LeadingSpaces | backend/data_prep.py:124 | counts the whitespace characters before the first non-space |
| DataPrep.TrailingStart | backend/data_prep.py:124 | finds where the trailing whitespace begins |
| DataPrep.Strip | backend/data_prep.py:124 | `str.strip()` is a slice with only whitespace cut off at each end, and is empty or starts and ends with a non-space |
| DataPrep.StripSplit | backend/data_prep.py:124 | `str.strip()` cuts whitespace from each end and stops at a non-space on each side |
| DataPrep.StripUnique | backend/data_prep.py:124 | any such slice with non-space ends is the strip |
| DataPrep.StripPadding | backend/data_prep.py:124 | whitespace padding on either side does not change the strip |
| DataPrep.AllSpaceConcat | backend/data_prep.py:124 | joining two all-whitespace strings gives an all-whitespace string |
| DataPrep.Lower | backend/data_prep.py:125 | lower-cases character by character and keeps the length |
| DataPrep.ReplaceSpaces | backend/data_prep.py:126 | turns every space into '_' and keeps everything else in place |
| DataPrep.RemoveChar | backend/data_prep.py:127-128 | the removed character is gone, every other character survives, nothing new appears, a string without that character is unchanged, and a one-character string is kept or emptied by whether it is that character |
| DataPrep.RemoveCharConcat | backend/data_prep.py:127-128 | removing a character from a concatenation is removing it from each part, so the survivors keep their order |
| DataPrep.CleanName | backend/data_prep.py:123-129 | a cleaned name has no space, '(' or ')' and no upper-case ASCII letter, and is no longer than the original |
| DataPrep.CleanPipelineCharwise | backend/data_prep.py:125-128 | lower-casing, replacing spaces and removing both parentheses is, on any string, the character-by-character cleaning: '_' for a space, nothing for a parenthesis, the lower case otherwise, in order |
| DataPrep.CleanNameIsCharwise | backend/data_prep.py:123-129 | a cleaned name is exactly the character-by-character cleaning of the stripped name |
| DataPrep.CleanNames | backend/data_prep.py:123-129 | the cleaned column list keeps the number and order of columns, each one cleaned |
| DataPrep.CleanNameIgnoresPadding | backend/data_prep.py:124-126 | whitespace at either end of a name is removed, not turned into '_' |
| DataPrep.CleanNameKeepsCleanName | backend/data_prep.py:123-129 | cleaning a snake-case name leaves it unchanged |
| DataPrep.StripExample | backend/data_prep.py:124 | "Maximum Wind Speed" has no padding to strip |
| DataPrep.LowerExample | backend/data_prep.py:125 | "Maximum Wind Speed" lower-cases to "maximum wind speed" |
| DataPrep.CleanNameExample | backend/data_prep.py:123-129 | "Maximum Wind Speed" becomes "maximum_wind_speed" |
| DataPrep.KeepColsAreClean | backend/data_prep.py:155-163 | each of the seven kept column names is already clean |
| DataPrep.CleanColumnNames | backend/data_prep.py:110-130 | replaces the frame's column names by their cleaned forms in place, leaves the rows and index unchanged, and returns the same frame |
| DataPrep.ToDatetime | backend/data_prep.py:150-152 | `errors="coerce"`: the result is NaT or a timestamp; a missing value becomes NaT, a timestamp stays as it is, and any other value becomes its parsed time when it parses and NaT when it does not |
| DataPrep.ParseColumn | backend/data_prep.py:150-152 | only the timestamp column changes, cell by cell |
| DataPrep.MissingColumns | backend/data_prep.py:164 | lists exactly the wanted columns that are absent |
| DataPrep.ProjectRow | backend/data_prep.py:164 | a projected row holds, for each wanted name, the cell of that name's first column |
| DataPrep.Project | backend/data_prep.py:164 | `df[keep_cols]` raises a KeyError naming the absent columns exactly when one is absent; otherwise every row is projected |
| DataPrep.DropNa | backend/data_prep.py:167 | keeps exactly the rows with no missing cell, with their multiplicities; a single row is kept exactly when it is complete |
| DataPrep.DropNaConcat | backend/data_prep.py:167 | dropping rows from a concatenation drops them from each part, so the kept rows stay in their input order |
| DataPrep.Insert | backend/data_prep.py:170 | inserting into a time-sorted table keeps it sorted and adds exactly the one row |
| DataPrep.SortByTime | backend/data_prep.py:170 | the result is sorted by timestamp and is a permutation of the input |
| DataPrep.Renumbered | backend/data_prep.py:170 | `reset_index` labels the rows 0..n-1 |
| DataPrep.Preprocessed | backend/data_prep.py:155-170 | fails exactly when a kept column is absent; otherwise the rows are sorted by time and complete |
| DataPrep.PreprocessTable | backend/data_prep.py:150-170 | a missing timestamp column raises KeyError naming it; otherwise the rows are sorted by time and complete |
| DataPrep.PreprocessedRows | backend/data_prep.py:155-170 | fails exactly when a kept column is absent, naming the absent columns; otherwise no longer than the input, sorted by time, every row seven complete cells, each row a projection of some input row, and every complete projected row kept as often as it occurs while incomplete ones are gone |
| DataPrep.PreprocessTableRows | backend/data_prep.py:150-170 | a missing timestamp column raises KeyError first; otherwise the same as above over the rows with their timestamps parsed: sorted, complete, every parsed projection kept with its multiplicity, and every output timestamp a parsed time, so unparseable timestamps are dropped |
| DataPrep.ParsedTimesSurvive | backend/data_prep.py:150-167 | after the parse and the drop, every surviving row's first cell is a parsed timestamp |
| DataPrep.ParsedRowComplete | backend/data_prep.py:150-167 | after the parse a row's seven kept cells are all present exactly when they were before and its timestamp was a time or parsed |
| DataPrep.PreprocessTableKeepsParseableRows | backend/data_prep.py:150-170 | with all kept columns present, a row's parsed projection is in the output exactly when its kept cells are present and its timestamp parses, so a row with an unparseable timestamp is dropped |
| DataPrep.ParsedFirstCell | backend/data_prep.py:150-164 | the first kept cell of a parsed row is a timestamp or missing |
| DataPrep.PreprocessDataset | backend/data_prep.py:133-172 | parses the timestamp column of the input frame in place; on success returns a new frame with exactly the seven kept columns, renumbered, holding the cleaned rows; the error cases match the table-level model |
| SensorSimulator.PayloadOf | backend/sensor_simulator.py:26-28 | a payload has every column of its row plus "timestamp", which is the ISO text of the row's label and overrides any column of that name; other unrepeated columns keep their cell |
| SensorSimulator.Payloads | backend/sensor_simulator.py:23-28 | the stream's payloads are one per row, in row order, each built from that row and its label (see `PayloadOf` for what each payload holds) |
| SensorSimulator.SimulatedStream.constructor | backend/sensor_simulator.py:17-21 | stores the path, the delay (default 1.0) and the loaded table unchanged |
| SensorSimulator.SimulatedStream.Stream | backend/sensor_simulator.py:23-25 | every call starts a fresh generator at the first row of the held table |
| SensorSimulator.PayloadStream.constructor | backend/sensor_simulator.py:23-25 | a new generator holds the table and formatter it was given and has yielded nothing |
| SensorSimulator.PayloadStream.Next | backend/sensor_simulator.py:25-29 | yields the payload of the row at the cursor and advances, or yields nothing and stays put once past the last row; never modifies the table |
| SensorSimulator.ReplayAll | backend/sensor_simulator.py:23-29 | draining a stream yields exactly the payloads of all rows in order, and a further pull yields nothing |
| FindStorm.RowScore | backend/utils/find_storm.py:38 | scoring one row, read as a dict of its columns, succeeds exactly when its six scored values are scorable, and the score is in 0..100 |
| FindStorm.Assessments | backend/utils/find_storm.py:38 | `df.apply(calculate_threat_score, axis=1)` gives one verdict per row, in row order |
| FindStorm.Collect | backend/utils/find_storm.py:38-39 | succeeds exactly when every row scores, keeping only each row's score in order; otherwise raises the first failing row's error |
| FindStorm.ScoreRows | backend/utils/find_storm.py:38-39 | the score column exists exactly when every row scores; it then has one score in 0..100 per row |
| FindStorm.FirstArgMax | backend/utils/find_storm.py:41 | `idxmax` returns a position whose score is at least every other, and no earlier position is as large |
| FindStorm.FirstArgMaxUnique | backend/utils/find_storm.py:41 | that position is the only one with both properties |
| FindStorm.FindPeakThreatIndex | backend/utils/find_storm.py:21-50 | returns None exactly when the file is absent; raises on a scoring error or an empty table; otherwise returns the first position of the highest score, with that score as the peak score |
| FindStorm.UnscoredTablePeaksAtFirstRow | backend/utils/find_storm.py:38-41 | on a table with none of the six scored keys as columns, every row scores 0 and the peak is row 0 |
| FindStorm.CleanedTablePeaksAtFirstRow | backend/utils/find_storm.py:38-41 | on the cleaned dataset's columns, the peak is always row 0 |

## Left out

- `backend/app.py` (HTTP routing, response models, server-sent events, async polling) is not part of this model. It is I/O and concurrency, and it refers to names the other files do not define.
- **File and console I/O.** `read_csv`, `read_parquet`, `to_csv`, `mkdir`, `load_raw_data`, `save_processed_data`, `main`, the module path setup and every `print` are left out.
  - The loaded table is a parameter.
  - The existence check in `find_peak_threat_index` is a boolean parameter.
  - The CSV text-to-cell conversion done by `read_csv` is not modelled.
- **Timing.** `time.sleep(delay_s)` between yields is not modelled. The delay is stored but has no effect in the model.
- **The explanation string.** The scorer's explanation text and the 4-digit rounding of the reported components are not modelled. The components are kept unrounded.
- **Floating point.** All arithmetic is over reals. IEEE rounding and overflow are not modelled. Two consequences:
  - a raw score that is a tie in reals may round differently in floats;
  - ThreatModel.LegacyLevelNeverAboveWatch: states a bound of 53, although the real-valued maximum of 52.5 rounds to 52. A bound of 53 also holds where the float product lands just above 52.5.
- ThreatModel.ClipAndNorm: text and timestamp cells always raise. The source's `float(value)` would also accept numeric text such as "3.5", and the model does not cover that.
- DataPrep.Lower: case conversion is ASCII only, while `str.lower` also maps non-ASCII letters. Stripping does use Python's full `isspace` set.
- **Parsing and formatting.** `pd.to_datetime` and `Timestamp.isoformat` are abstract functions. Their formats, and time zones, are not modelled.
- DataPrep.SortByTime: does not state stability among equal timestamps. The source's default sort promises none.
- **Duplicate column names.** Projection and `SetColumn` use the first column of a repeated name, and `to_dict` uses the last. pandas' own treatment of duplicates (selecting several columns at once) is not modelled.
- **Empty cleaned table.** On an empty cleaned table, the peak finder's `idxmax` raises. The model reports this as an error outcome rather than an exception.
- **Commented-out legacy constants.** `backend/config.py:6-40` is commented out, so `from .config import WEIGHTS, CLIPS, THRESHOLDS` fails at import and the live `WEIGHTS` has no `physical_components`. The model does not model that failure. It scores with the legacy block as if restored.
- **Live constants.** The live per-parameter constants have no consumer in the code. They are modelled as constants with lemmas only. No per-parameter level classifier is modelled.
- **Dead code.** The commented-out pipeline at the top of `backend/data_prep.py` is not modelled.
