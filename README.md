# Password-cracking curve: status-log segmenter

This Dafny project models the computing core of `password_cracking_curve.py`,
a viewer that plots hashcat's `--status-json` log as cracked hashes against
guesses or time. The core is `HashcatStatusParser.parse_status_file`. It reads
the log line by line and keeps a running guess counter, a running elapsed time
and the current attack phase. It cuts the points into one curve per phase and
returns three parallel lists: the x values of each curve, its y values, and its
phase key `("time_start/guess_base", guess_mod)`. The model also covers the two
computing pieces of `PasswordCrackingApp._create_figure`. The first thins out
curves longer than 1000 points to every 60th point, keeping the last one. The
second is the legend text of each curve.

Modules:

- `Wrappers`: `Option`.
- `Text`: Python's `str.strip`, `startswith("{")`, `str.replace` and
  `split('/')[-1]` on `seq<char>`.
- `StatusRecords`: the shape of a decoded status object, the defaults the
  parser applies to absent fields (`Record`), and which lines yield a record.
- `CurveSegmenter`: the parser state and `Absorb`, which is one step of the
  loop body. `ParseRecords` folds `Absorb` over the records and is the
  specification. `ParseStatusFile` is the imperative loop, proved equal to the
  fold on every input. `AbsorbObject` is the loop body written step by step
  on local variables.
- `CurveProperties`: the promises about the fold's output. Most are proved
  against a reference definition that does not use the fold: `XValues`,
  `YValues` and `Keys` give each record's point and key. `Dedup` gives the
  maximal runs of equal keys. `SumProgress` sums the guess counter. The
  rest (`ParseIsShaped`, `CurvesAppendOnly`, `PointCount`) are properties of
  the fold's output itself.
- `Figure`: `Downsample`, the imperative per-curve loop `PrepareCurves`, and
  `AttackLabel`.
- `Scenarios`: short concrete logs and the exact lists the parser returns for
  them.

The model follows the code where the code's comment suggests otherwise. On a
phase change the code does not append the new point to the old curve, even
though its comment says "close previous curve". Instead it starts the new
curve with the old curve's last point, followed by the new point (lines
81-84). `Absorb` does what the code does. `CurveProperties.ParseIsShaped` and
`Scenarios.PotfileAttackStitched` state the consequence.

Inputs that are not values become parameters:

- The file is a `seq<string>` of lines, and whether it exists is a `bool`.
- `json.loads` is a function `Decoder` from a stripped line to
  `Option<StatusJson>`, where `None` means `JSONDecodeError`.
- The axis modes are enumerations with their two outcomes.
- `status_timer` is an integer.

## Model

| member | source | states |
|---|---|---|
| Text.StripLeft | password_cracking_curve.py:44 | the result is a suffix of the line, everything removed is whitespace in Python's `isspace` sense, and the result does not start with whitespace |
| Text.StripRight | password_cracking_curve.py:44 | the result is a prefix of the line, everything removed is whitespace, and the result does not end with whitespace |
| Text.Strip | password_cracking_curve.py:44 | a stripped line is no longer than the line, and when it is not empty it neither starts nor ends with whitespace |
| Text.StripIsSlice | password_cracking_curve.py:44 | the stripped line is the slice of the line after its leading whitespace, and everything before and after that slice is whitespace |
| Text.StrippedStartsWithBraceIff | password_cracking_curve.py:44-46 | a line is a candidate exactly when it holds a `{` with only whitespace before it |
| Text.ReplaceAll | password_cracking_curve.py:73 | replacing a pattern with a text no longer than the pattern never makes the string longer |
| Text.ContainsPastFirst | password_cracking_curve.py:73 | when the pattern is not at the start, it occurs in the string exactly when it occurs past the first character |
| Text.ReplaceAllIdentityIff | password_cracking_curve.py:73 | replacing with a shorter text leaves a string unchanged exactly when the pattern does not occur in it |
| Text.LastSegmentIsSuffix | password_cracking_curve.py:268 | `split('/')[-1]` is a suffix of the string that is either the whole string or preceded by a `/` |
| Text.LastSegmentHasNoSlash | password_cracking_curve.py:268 | `split('/')[-1]` holds no `/` |
| Text.LastSegmentIdentityIff | password_cracking_curve.py:268 | a string is its own last segment exactly when it holds no `/` |
| Text.LastSegmentAfterSlash | password_cracking_curve.py:268 | whatever precedes a `/` never shows in the last segment, so `time_start` never shows in a legend |
| StatusRecords.ToRecord | password_cracking_curve.py:52-75 | the record takes `progress[0]`, `recovered_hashes[0]` and `[1]`, `guess.guess_base`, `guess.guess_mod` and `time_start` from the object, with the defaults `[0]`, `[0, 0]`, `"unknown"`, `None` and `"unknown"` for absent fields |
| StatusRecords.Accept | password_cracking_curve.py:44-100 | a line that does not start with `{` once stripped yields nothing, a line that fails to decode yields nothing, and otherwise the line yields the record of its decoded object |
| StatusRecords.RecordsAppend | password_cracking_curve.py:43-100 | the records of two concatenated files are the records of the first followed by those of the second |
| StatusRecords.SkippedLinesYieldNothing | password_cracking_curve.py:45-46 | lines that are all skipped yield no records |
| StatusRecords.InsertedJunkIgnored | password_cracking_curve.py:45-46 | inserting skipped lines anywhere in a file leaves its records unchanged |
| CurveSegmenter.NormalizeBaseIdentityIff | password_cracking_curve.py:73 | a guess base is left unchanged exactly when it does not contain `autocat_new_cracked_potfile` |
| CurveSegmenter.NormalizePotfile | password_cracking_curve.py:73 | the guess base `autocat_new_cracked_potfile` becomes `potfile` |
| CurveSegmenter.EffectiveTotal | password_cracking_curve.py:57 | the divisor is the reported total when that is positive, and 1 otherwise, so it is never zero |
| CurveSegmenter.YValueMeaning | password_cracking_curve.py:65-69 | count mode plots the cracked count; percentage mode plots y with y × total = cracked × 100 |
| CurveSegmenter.AppendToLast | password_cracking_curve.py:93-94 | `curves[-1].append(v)` adds `v` to the last curve and leaves every other curve unchanged |
| CurveSegmenter.Absorb | password_cracking_curve.py:52-97 | one record keeps the lists parallel and the current key equal to the last label, adds its progress to the guess counter, adds one status interval to the elapsed time, and makes its key current |
| CurveSegmenter.ParseRecords | password_cracking_curve.py:43-100 | after any records, the parser state satisfies that invariant |
| CurveSegmenter.ParseRecordsSnoc | password_cracking_curve.py:43-100 | one more record is one more step of the loop |
| CurveSegmenter.AbsorbObject | password_cracking_curve.py:52-97 | the loop body, run step by step on a decoded object, gives exactly the `Absorb` step for that object's record |
| CurveSegmenter.ParseStatusFile | password_cracking_curve.py:25-102 | a missing file yields `([], [], [])`; otherwise the loop returns the curves and labels of the fold over the records of the file's lines |
| CurveProperties.AccumulatorsClosedForm | password_cracking_curve.py:52-97 | after n records, the guess counter is the sum of their progress, the elapsed time is n × `status_timer`, and the current key is the last record's |
| CurveProperties.Accumulators | password_cracking_curve.py:52-97 | after n records the guess counter is the sum of their progress and the elapsed time is n steps of `status_timer` |
| CurveProperties.SumProgressMonotone | password_cracking_curve.py:52-53 | with non-negative progress, the guess counter never decreases |
| CurveProperties.GuessesAxisNonDecreasing | password_cracking_curve.py:52-63 | in guesses mode with non-negative progress, the x values of the records never decrease |
| CurveProperties.TimeAxisTicks | password_cracking_curve.py:59-97 | in time mode, the i-th record (0-based) has x = i × `status_timer` |
| CurveProperties.AbsorbAddsOnePoint | password_cracking_curve.py:80-94 | a record adds exactly its own point after the first point of the curves, and its key once to the expanded labels |
| CurveProperties.NewCurveAddsOnePoint | password_cracking_curve.py:80-90 | a record with a new key opens a curve that adds exactly the record's own point to the joined curve tails, and its key once to the expanded labels |
| CurveProperties.ExtendAddsOnePoint | password_cracking_curve.py:92-94 | a record with the current key adds exactly its own point to the joined curve tails, and its key once more to the expanded labels |
| CurveProperties.CurvesHoldTheXValues | password_cracking_curve.py:59-94 | dropping each curve's first point and joining the curves gives the x values of the records, in order |
| CurveProperties.XValuesPrefix | password_cracking_curve.py:59-63 | a later record never changes the x value of an earlier one |
| CurveProperties.CurvesHoldTheYValues | password_cracking_curve.py:65-94 | the same for the y values |
| CurveProperties.CurvesHoldTheKeys | password_cracking_curve.py:77-94 | each point after a curve's first carries the key of the record that produced it |
| CurveProperties.CurvesHoldTheRecords | password_cracking_curve.py:52-94 | the three statements above together: every record's point appears exactly once, in order, on the curve of its key |
| CurveProperties.AbsorbKeepsShape | password_cracking_curve.py:80-94 | one record preserves the output shape; see `ParseIsShaped` |
| CurveProperties.ParseIsShaped | password_cracking_curve.py:80-94 | the three lists are parallel. Every curve has at least two points, with as many x as y values. The first curve starts at (0, 0). Every later curve starts at the last point of the curve before it. No two adjacent labels are equal |
| CurveProperties.FirstCurveAnchor | password_cracking_curve.py:85-88 | the first curve begins at (0, 0), followed by the first record's x and y |
| CurveProperties.PointCount | password_cracking_curve.py:80-94 | the total number of points is the number of decoded records plus the number of curves |
| CurveProperties.AbsorbExtends | password_cracking_curve.py:80-94 | one record only appends: to the lists or to the last curve |
| CurveProperties.CurvesAppendOnly | password_cracking_curve.py:81-94 | after more records, every curve but the last is unchanged, the last curve only grows, and the labels only grow |
| CurveProperties.DedupSnoc | password_cracking_curve.py:80 | a key equal to the last one starts no new run |
| CurveProperties.LabelsAreRuns | password_cracking_curve.py:77-90 | the labels are the keys of the maximal runs of equal keys among the records, in order: one curve per run |
| CurveProperties.ParseIgnoresSkippedLines | password_cracking_curve.py:44-46 | inserting skipped lines anywhere in a file leaves the parser's whole output unchanged |
| Figure.Stride | password_cracking_curve.py:255-256 | `c[::60]` has (len − 1) / 60 + 1 points, and its j-th point is the point at index 60 × j |
| Figure.DownsampleMeaning | password_cracking_curve.py:253-264 | a curve of at most 1000 points is unchanged. A longer one becomes every 60th point, plus the last point when the stride misses it. The first and last points are kept, and the result is never longer |
| Figure.DownsampleLength | password_cracking_curve.py:253-261 | a curve of more than 1000 points keeps (len − 1) / 60 + 1 points, plus one when the stride misses the last point, and never more than it had |
| Figure.DownsampleEvery60th | password_cracking_curve.py:253-256 | point j of a downsampled long curve is point 60 × j of the curve |
| Figure.DownsampleEndpoints | password_cracking_curve.py:253-261 | a downsampled long curve keeps the first and the last point |
| Figure.StrideEndsAtLast | password_cracking_curve.py:255-259 | when 60 divides len − 1, the stride already lands on the last point, so none is appended |
| Figure.DownsampleKeepsParallel | password_cracking_curve.py:253-264 | downsampling keeps a curve's x and y lists of equal length |
| Figure.DownsampleCurve | password_cracking_curve.py:253-264 | the step-by-step slicing and appending gives `Downsample` of each list |
| Figure.PrepareCurves | password_cracking_curve.py:251-268 | the loop over one file's curves replaces curve k by `Downsample` of it, in both the x and the y list, and leaves the lists parallel; the legends it computes are `Legends` of the labels, one per curve |
| Figure.AttackLabelHasNoSlash | password_cracking_curve.py:268 | a legend holds no `/`, whether or not the key has a `guess_mod` |
| Figure.AttackLabelOfRecord | password_cracking_curve.py:268 | a record's legend is the last segment of its normalized guess base (and of its `guess_mod`); `time_start` never shows |
| Figure.LegendsMeaning | password_cracking_curve.py:266-268 | there is one legend per label, and legend k is the legend text of label k |
| Scenarios.DictKey | password_cracking_curve.py:72-77 | a dictionary line without `time_start` has the key `("unknown/dict1", None)` |
| Scenarios.PotfileKey | password_cracking_curve.py:72-77 | a potfile line has the key `("unknown/potfile", None)` |
| Scenarios.DictLineExtends | password_cracking_curve.py:92-97 | while the dictionary attack is current, one more dictionary line adds 10 guesses and appends the point to the last curve |
| Scenarios.DictLineExtendsOnlyCurve | password_cracking_curve.py:92-97 | while the dictionary curve is the only one, one more dictionary line appends (guesses + 10, 2) to it, in count and in percentage mode |
| Scenarios.PotfileLineStitches | password_cracking_curve.py:80-84 | while the dictionary attack is current, a potfile line starts a curve at the last dictionary point and adds the `potfile` label |
| Scenarios.AfterOneLine | password_cracking_curve.py:85-90 | in guesses mode, count or percentage alike, one line gives the curve `[0, 10]` / `[0, 2]` |
| Scenarios.AfterTwoLines | password_cracking_curve.py:92-94 | a second line of the same attack extends that curve |
| Scenarios.OneAttackOneCurve | password_cracking_curve.py:52-97 | in guesses mode, in count and in percentage mode alike, three lines of one attack give exactly one curve, `[0, 10, 20, 30]` / `[0, 2, 2, 2]`, and one label |
| Scenarios.PotfileAttackStitched | password_cracking_curve.py:80-90 | in guesses mode, in either y mode, a potfile line after two dictionary lines starts a second curve, `[20, 25]` / `[2, 3]`, at the first curve's last point |
| Scenarios.PotfileLegend | password_cracking_curve.py:268 | the potfile curve's legend is `potfile` |
| Scenarios.ZeroTotalCountsAsOne | password_cracking_curve.py:57-69 | with a reported total of 0, 5 cracked hashes plot as 500 percent |

## Left out

- The Dash and plotly interface is not modelled. This covers the layout, the callbacks, trace creation, colours, the potfile highlight colour (line 271) and legend grouping. It is rendering code.
- `main`, argument parsing, `sys.exit` and server start-up are not modelled. They are process plumbing.
- Opening and reading the file is not modelled. The file is a sequence of lines, and `Path.exists` is a boolean parameter.
- `json.loads` is the `Decoder` parameter. Its parsing is not modelled.
- The percentage uses exact `real` arithmetic instead of IEEE doubles. The first point's y value `0` is written `0.0`.
- Decoded objects that make the parser raise are excluded by the type `StatusJson`. These include an empty `progress` or one that is `null` or not a list (indexed at line 52), a `recovered_hashes` with fewer than two elements or one that is `null` or not a list (indexed at lines 56-57), a non-numeric `progress[0]` (added at line 53), a non-numeric `recovered_hashes[1]` (compared at line 57), in percentage mode a non-numeric `recovered_hashes[0]` (divided at line 69), a non-object `guess`, and a non-string or `null` `guess_base` (line 73). The source does not catch these errors: only `JSONDecodeError` is caught. Elements after the ones the parser reads are never looked at, and JSON booleans count as the numbers 1 and 0.
- In count mode a non-numeric `recovered_hashes[0]` (a string, `null`) is passed through by the parser as the y value (line 67) without raising. It is not modelled: the cracked count is an integer.
- A `guess_mod` that is neither a string nor `null` is not modelled either: `guess_mod` is an optional string. The parser does not raise on such a value (lines 74-80 only store and compare it), but the legend code does, at line 268 (`guess_mod.split('/')`).
- The numeric fields `progress` and `recovered_hashes` are modelled as integers, because hashcat writes integers there. Non-integer JSON numbers such as `"progress": [1.5]`, which the parser would add up and plot as floats at lines 52-69, are not modelled.
- `time_start` is a string: the text `f"{time_start}"` renders.
- The settings changes made by `update_parsers` are not modelled. The axis modes and `status_timer` are fixed parameters of one parse (`ParseConfig`). Every mode string other than `'time'` selects guesses, and every one other than `'count'` selects percentage.
- The loop over the parsed files in `_create_figure` and what it does with the downsampled curves are not modelled; they are rendering.
- Figure.PrepareCurves: works on the parser's returned lists as local sequences. It does not model the in-place list mutation. It requires the three lists to be parallel and each curve's x and y lists to have equal length. `CurveProperties.ParseIsShaped` proves this for every parser output.
