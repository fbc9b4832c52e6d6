# Integration-strategy scorer, modelled in Dafny

The application asks for two to four candidate integration strategies and for
six criterion weights (Compatibility, Cost, Time-consuming, Risks, Flexibility,
Security). It then reads a score for every strategy on every criterion and scores
the strategies by a weighted sum of min-max normalised scores. This project
models two parts of it:

- the scoring engine of `calculations.py`: column-wise normalisation, the
  weighted sum and the strategy-to-score record;
- the input rules of the desktop controller in `gui.py` that decide what
  reaches the engine. These are the strategy count, the strategy names, the
  blank-as-zero number fields and the weight rescaling.

Files:

- `calculations.dfy` (module `Calculations`):
  - `normalize_data` is a method over arrays. It patches zero ranges in place
    and overwrites the unit-range columns in place. It is proved equal to the
    function `Normalized`.
  - `calculate_final_scores` is the dot product `FinalScores`.
  - `evaluate_integration` is the map `EvaluateIntegration`.
  - Lemmas cover shape, the degenerate-column rule, the [0, 1] bounds, order
    preservation, score bounds and later-name-wins.
- `gui.py` is modelled in `gui.dfy` (module `Gui`) as the class
  `IntegrationGui`. Its fields are the current screen, the strategy count, the
  names and the weights. Each method takes the texts the widgets held.
- `wrappers.dfy` holds the `Option` type. A conversion by `int()` or `float()`
  either succeeds or raises `ValueError`, and `None` stands for the error.

Numbers are Dafny `real`s; there is no floating-point rounding.

## Model

| member | source | states |
|---|---|---|
| Calculations.Min | calculations.py:6 | the column minimum is at most every entry and is one of them |
| Calculations.Max | calculations.py:7 | the column maximum is at least every entry and is one of them |
| Calculations.ColumnMin | calculations.py:6 | `np.min(scores, axis=0)` for one column: `Min` of that column; its bounds are stated by `Min` and `ColumnExtrema` |
| Calculations.ColumnMax | calculations.py:7 | `np.max(scores, axis=0)` for one column: `Max` of that column; its bounds are stated by `Max` and `ColumnExtrema` |
| Calculations.PatchedRange | calculations.py:8-10 | the range after zero ranges are replaced by 1 is always positive, so the division on line 11 is defined |
| Calculations.Flattened | calculations.py:13 | the mask `range_vals == 1`: the column's range after the zero-range patch equals 1; `HalfColumnExactly` states which raw columns it selects |
| Calculations.Normalized | calculations.py:5-15 | the normalised table has the input's number of rows and columns |
| Calculations.PatchZeroRanges | calculations.py:10 | in place, every zero range becomes 1 and every other range is unchanged |
| Calculations.Scale | calculations.py:11 | a new table whose entry (r, c) is (score − column minimum) / patched range |
| Calculations.FlattenUnitColumns | calculations.py:13 | in place, every column whose patched range equals 1 becomes 0.5 in every row; all other entries are unchanged |
| Calculations.RowsOf | calculations.py:15 | the returned table has the array's shape and entries |
| Calculations.NormalizeData | calculations.py:5-15 | the array computation returns exactly `Normalized(scores)` |
| Calculations.EntrywiseNormalized | calculations.py:5-15 | a table of the input's shape holding the normalised entries is the normalised table |
| Calculations.ColumnExtrema | calculations.py:6-7 | every entry lies between its column's minimum and maximum, and both occur in the column |
| Calculations.ConstantColumnIsHalf | calculations.py:10-13 | a column in which every strategy scores the same has range 0 and comes out 0.5 in every row |
| Calculations.HalfColumnExactly | calculations.py:10-13 | a column comes out all 0.5 if and only if its raw range is 0 or exactly 1; line 13 tests the range after line 10 patched it |
| Calculations.UnflattenedColumn | calculations.py:6-11 | in any other column the raw range is positive and not 1; each entry is (s − min)/(max − min), the minimum maps to 0 and the maximum to 1 |
| Calculations.NormalizedInUnitInterval | calculations.py:5-15 | every normalised entry lies in [0, 1] |
| Calculations.NormalizedPreservesOrder | calculations.py:11-13 | a higher raw score never gives a lower normalised value; outside the flattened columns it gives a strictly higher one, and conversely |
| Calculations.Sum | gui.py:190 | `sum(weights)`, the total of a list of numbers; used by `DotBounds`, `RescaleWeights` and `SumDivided` |
| Calculations.Dot | calculations.py:19 | `np.dot` of a row with the weights, the sum of entry times weight; `DotBounds` and `DotMonotone` state its properties |
| Calculations.FinalScores | calculations.py:18-20 | one final score per strategy; a strategy whose normalised row lies in [0, 1] gets a score between 0 and the weight total when no weight is negative |
| Calculations.DotBounds | calculations.py:18-20 | with entries in [0, 1] and non-negative weights, a strategy's dot product lies between 0 and the weight total |
| Calculations.DotMonotone | calculations.py:18-20 | with non-negative weights, a row at least as high in every column has at least as high a dot product |
| Calculations.FinalScoresBounded | calculations.py:18-20 | one final score per strategy, each between 0 and Σ w when no weight is negative |
| Calculations.DominantStrategyScoresHigher | calculations.py:5-20 | a strategy whose raw scores are at least another's on every criterion gets at least its final score, when no weight is negative |
| Calculations.ResultMap | calculations.py:26 | the keys of the dict comprehension are exactly the strategy names |
| Calculations.LaterNameWins | calculations.py:26 | under a repeated name, the record holds the score of the name's last position |
| Calculations.LastOccurrenceExists | calculations.py:26 | every position holding a name is followed, at or after it, by that name's last position |
| Calculations.ResultSize | calculations.py:26 | the record has at most one entry per strategy, and exactly one per strategy if and only if no name repeats |
| Calculations.EvaluateIntegration | calculations.py:23-26 | the keys are the strategy names; the last strategy with a given name contributes its normalised row's dot product with the weights |
| Calculations.DistinctNamesKeepEveryScore | calculations.py:23-26 | with distinct names, the record has one entry per strategy holding that strategy's own final score |
| Calculations.RecordedValuesAreScores | calculations.py:26 | every recorded value is the score of some position holding that name |
| Calculations.RecordedScoresBounded | calculations.py:18-26 | with non-negative weights, every recorded score lies between 0 and the weight total |
| Calculations.UnitRangeColumnFlattened | calculations.py:10-13 | the scores 3 and 4 on one criterion come out as 0.5 and 0.5; the all-equal rule in the line-13 comment gives 0 and 1 |
| Calculations.IntendedNormalized | calculations.py:13 | normalisation under the all-equal rule of the line-13 comment, with the input's shape |
| Calculations.IntendedHalfColumnExactly | calculations.py:13 | under that rule, a column is all 0.5 if and only if every strategy has the same score in it |
| Calculations.IntendedColumnSpan | calculations.py:6-13 | under that rule, every column with differing scores lies in [0, 1], with its minimum at 0 and its maximum at 1 |
| Calculations.AgreesWithIntendedOffUnitRange | calculations.py:10-13 | the code and that rule agree on every column whose raw range is not exactly 1 |
| Gui.TrimStart | gui.py:182 | removes exactly a leading run of whitespace and stops at a non-whitespace character |
| Gui.TrimEnd | gui.py:182 | removes exactly a trailing run of whitespace and stops at a non-whitespace character |
| Gui.Strip | gui.py:182 | `strip()` is no longer than its input and neither starts nor ends with whitespace |
| Gui.StripKeepsMiddle | gui.py:182 | `strip()` is a contiguous middle part of the text with only whitespace removed around it |
| Gui.StripEmptyIffAllSpace | gui.py:182 | `strip()` is empty exactly when the text is all whitespace, which is when the comprehension drops it |
| Gui.NonEmpty | gui.py:182 | the comprehension's filter keeps only non-empty members, each one from the input, and never lengthens the list |
| Gui.NonEmptyKeepsEvery | gui.py:182 | the filter keeps every non-empty member as often as it occurs and drops every empty one |
| Gui.NonEmptyAppend | gui.py:182 | filtering a concatenation filters each part and concatenates, so the kept members stay in input order |
| Gui.NonEmptyKeepsAllIff | gui.py:182 | the filter drops nothing if and only if no member is empty |
| Gui.NonEmptyUnchanged | gui.py:182 | with no empty member, the filter returns its input unchanged |
| Gui.NonBlankNames | gui.py:182 | the stored names are at most as many as the fields, each non-empty and stripped |
| Gui.NonBlankNamesAppend | gui.py:182 | the names read from two runs of fields are the names of the first run followed by those of the second, so names keep field order |
| Gui.NonBlankNameOfField | gui.py:182 | one field yields its stripped text when that is non-empty and nothing otherwise |
| Gui.NonBlankNamesKeepEvery | gui.py:182 | every stripped field that is non-empty is among the names, as often as it occurs; nothing else is |
| Gui.NamesKeptIffNoneBlank | gui.py:182-185 | every name field survives if and only if none is blank after stripping, and then the names are the stripped fields in entry order, repeats included |
| Gui.ReadEntries | gui.py:187 | reading a row of fields succeeds if and only if every field is blank or accepted by `float()`; the values are then in field order, with blanks as 0 |
| Gui.ReadTable | gui.py:269-275 | reading the score table succeeds if and only if every field is readable; it then has one row per strategy, in entry order, each read as above |
| Gui.ValueOf | gui.py:187-187 | `float(entry.get()) if entry.get() else 0` for a readable field (line 273 reads score fields the same way): a blank field is 0, otherwise the converted number; `ReadEntries` and `ReadTable` state the row and table readings |
| Gui.WithinTolerance | gui.py:191 | the weight total is within 0.01 of 1, the negation of the test on line 191; `RescaleWeights` states its effect |
| Gui.Divided | gui.py:193 | `np.array(weights) / total`, every weight divided by the total; `SumDivided` and `DividedKeepsRatios` state its properties |
| Gui.SumDivided | gui.py:193 | dividing every weight by the total divides their sum by the total |
| Gui.DividedKeepsRatios | gui.py:193 | each divided weight times the total gives back the original weight |
| Gui.RescaleWeights | gui.py:190-193 | weights within 0.01 of 1 are kept unchanged; otherwise they sum to exactly 1; either way there is one per field and they end within 0.01 of 1 |
| Gui.RescaleKeepsRatios | gui.py:190-193 | when rescaling happens, each stored weight times the typed total gives back the typed weight, so the weights keep their ratios |
| Gui.RescaleExample | gui.py:190-193 | the weights 0.2, 0.2, 0.2, 0.2, 0.3 (sum 1.1) become 2/11, 2/11, 2/11, 2/11, 3/11 |
| Gui.InputDecision | gui.py:182-193 | the report checks the names before the weights; an accepted input had every weight field readable |
| Gui.WeightDecision | gui.py:187-193 | once every name is present, the input is accepted if and only if every weight field is readable; a name is never reported missing at this stage |
| Gui.InputDecisionMeaning | gui.py:180-198 | a missing name is reported if and only if some name field is blank after stripping; otherwise a rejected weight if and only if some weight field is neither blank nor a number; otherwise the input is accepted |
| Gui.IntegrationGui.constructor | gui.py:11-29 | the controller starts on the welcome screen that `create_initial_gui` builds; count, names and weights are not yet set, so they start as 0 and empty |
| Gui.IntegrationGui.GetStrategyCount | gui.py:80-88 | a non-number leaves the state unchanged; a number is stored even when rejected; only 2 to 4 opens the input screen |
| Gui.IntegrationGui.ProcessInput | gui.py:180-198 | the stripped non-blank names are stored first, whatever follows; the outcome is `InputDecision`'s. Unless it is an acceptance, the screen and the weights are unchanged. On acceptance the rescaled weights are stored and the score screen opens, with one proper name per strategy and weights within 0.01 of 1 |
| Gui.IntegrationGui.ProcessWeights | gui.py:187-196 | with the names stored, the outcome is `WeightDecision`'s and the names and count are unchanged. A rejected weight leaves the screen and weights as they were. Otherwise the rescaled weights are stored and the score screen opens, within 0.01 of 1 |
| Gui.IntegrationGui.CalculateResults | gui.py:266-280 | no result exactly when a score field is rejected; otherwise the engine's record for the table read in entry order (blanks as 0), keyed by the stored names, each score between 0 and the weight total when no weight is negative |

## Left out

- Widget construction, screen layout, tooltips and message boxes
  (`gui.py`, `utils.py`) are not modelled. The screen is a three-valued
  field, and each method returns an outcome naming the message the code would
  show.
- The back buttons (`back_to_welcome`, `back_to_input`, gui.py:256-264) are
  not modelled. They only rebuild widgets.
- `visualize_results` (matplotlib), the result message text and
  `save_results_to_csv` (a pandas file write) are not modelled. They are
  output only.
- The order of the result record is not modelled. A Python dict keeps insertion
  order, and a repeated name keeps the position of its first occurrence with
  the value of its last (calculations.py:26). `EvaluateIntegration` returns a
  `map`, which has no order. The order matters only to the result text
  (gui.py:283-286), the chart (gui.py:299-300) and the CSV file
  (calculations.py:30), which are left out above.
- `main.py` is not part of this model. It only starts the event loop.
- Text-to-number conversion is a parameter. `int()` and `float()` are given as
  an `Option`, and `None` stands for `ValueError`. Which texts Python accepts
  is not modelled.
- A field counts as blank only when its text is empty, which is what
  `if entry.get()` tests. A whitespace-only weight or score field reaches
  `float()` and is modelled as whatever that conversion returns.
- Floating point is not modelled: no rounding, NaN or infinity. A weight total
  of exactly 0 would make line 193 divide by zero. `Gui.IntegrationGui.ProcessInput`
  therefore requires a non-zero total whenever the input would be accepted.
- `Calculations.NormalizeData` requires at least one row and a rectangular
  table. numpy raises on an empty table, and the controller always builds one
  row per strategy with six columns.
- `Calculations.EvaluateIntegration` requires one weight per column and no more
  names than rows. Otherwise numpy or the comprehension raise. The controller
  always satisfies this, so those errors are not modelled.
- `Gui.IsSpace` lists the characters that Python's `str.isspace` accepts. This
  list is the model's own account of that set.

## Findings

| source | as written | input that shows it | evidently intended | confidence | as-written member | corrected member |
|---|---|---|---|---|---|---|
| calculations.py:13 | the mask `range_vals == 1` is tested after line 10 has replaced zero ranges by 1, so a column whose genuine range is exactly 1 is also set to 0.5 | one criterion scored 3 and 4: the code gives 0.5 and 0.5 | per the line's comment, only a column where every value is the same is set to 0.5, so this column gives 0 and 1 | not executed | Calculations.UnitRangeColumnFlattened | Calculations.IntendedHalfColumnExactly |

The engine and the controller keep the behaviour as written (`Normalized`), so
the model describes what the application computes. `IntendedNormalized` and
its lemmas state the corrected rule alongside it. `AgreesWithIntendedOffUnitRange`
shows that the two differ only on columns whose range is exactly 1.
