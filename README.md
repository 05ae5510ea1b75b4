# A verified model of the AR signal generator, the event scanner and the CASAS activity baseline

This project is a Dafny model of the two computational parts of the repository.

**Synthetic signals and events** (`signal_generation_tools.py`), in modules `SignalGeneration` and `EventScanner`:
- `ar_from_timescale` builds geometric AR(p) coefficients `phi^k` and normalises them by 1.1 times their sum.
- `generate_signals_Ap` and `generate_signals_A1` fill a zero buffer with an AR(p) or AR(1) recurrence in place, add the mean, and name the channels `sig_1 .. sig_N` beside a `time_s` column.
- `event_criteria_mean` compares a window's mean with a threshold.
- `generate_events` slides a window of `win + 1` rows with right edges `win, win + hop, …` over the signal table. At each edge it appends `(time_t, eID)` for every event definition whose criterion holds.

**The activity-recognition baseline** (`baseline.py`), in modules `Annotations`, `Windowing` and `RuleBased`:
- `parse_annotation` reads `Activity="begin"` / `Activity="end"` markers.
- A loop pairs each `end` with the latest open `begin` of the same activity into intervals.
- A loop tiles the log's time span with 60-second windows.
- `get_events_in_window` and `event_count_features` select a window's sensor events and count them.
- `assign_window_label` labels a window with the activity that overlaps it most.
- `temporal_features` puts the hour into one of four day parts.
- `get_dominant_room` and `rule_based_predict` form the rule-based activity predictor.

How the model stands in for the source:
- Floats are Dafny `real`s, and pandas timestamps are integer seconds counted from a midnight.
- Data frames are sequences of records.
- The random draws are input sequences, and `phi` is an input in (0, 1) rather than `exp(-1 / (f_0 * tau))`.
- The imperative parts keep their form: the generators fill an `array<real>` in a `while` loop, and the scanner, the pairing loop, the window builder and the label selection are methods with loops. Each is proved against a specification function or predicate, and the source's promises are proved about that specification.
- `Wrappers` holds the `Option` and `Result` types used for `None` and for the errors the scanner can raise.

Facts about the code that the model keeps:
- `win` and `hop` are the `int(...)` truncations of `window_s * f_0` and `hop_len_s * f_0`. The model takes them as integer inputs.
- `range(win, n, hop)` gives `(n - 1 - win) / hop + 1` right edges when `win < n` and none otherwise (`EventScanner.EdgeCount`).
- `rule_based_predict` can return eight labels: Other, Toilet, Personal_Hygiene, Sleep, Sleep_Out_Of_Bed, Eat_Breakfast, Eat_Lunch and Watch_TV.
- `assign_window_label` returns "Other" exactly when no activity overlaps the window only if no annotated activity is itself named `Other`. `Windowing.AssignWindowLabel` states that condition.

## Model

| member | source | states |
|---|---|---|
| SignalGeneration.ArFromTimescale | signal_generation_tools.py:11-14 | exactly p coefficients, all positive, each next one `phi` times the previous one (geometric) |
| SignalGeneration.ScaledGeometric | signal_generation_tools.py:12-13 | dividing `phi^1 .. phi^p` by any positive constant keeps every term positive and the ratio `phi` between neighbours |
| SignalGeneration.CoefficientsSumToInverseMargin | signal_generation_tools.py:13 | after the in-place division the coefficients sum to exactly 1/1.1 |
| SignalGeneration.SumScaledBy | signal_generation_tools.py:13 | dividing every element by c divides the sum by c |
| SignalGeneration.CoefficientsStrictlyDecreasing | signal_generation_tools.py:11-14 | for phi in (0, 1), coefficient i is strictly larger than coefficient j whenever i < j |
| SignalGeneration.GeometricDecreasing | signal_generation_tools.py:12 | a positive sequence with ratio phi < 1 between neighbours is strictly decreasing over all index pairs |
| SignalGeneration.CoefficientsGivePositiveRadicand | signal_generation_tools.py:79 | the coefficients' sum of squares is below 1, so `1 - sum(a**2)` under the square root is positive |
| SignalGeneration.SquaresAtMostSum | signal_generation_tools.py:79 | for terms in [0, 1] the sum of squares is at most the sum |
| SignalGeneration.SquareAtMost | signal_generation_tools.py:79 | a coefficient in [0, 1] is at least its own square `a**2` |
| SignalGeneration.LagSumReadsDeviations | signal_generation_tools.py:84-85 | the lag term `np.dot(a, x[t-p:t][::-1])` depends only on the deviations of the p samples before t |
| SignalGeneration.ArPathUnique | signal_generation_tools.py:82-87 | coefficients, innovations and mean determine the AR(p) channel uniquely |
| SignalGeneration.LagDot | signal_generation_tools.py:85 | the loop computes the dot product of `a` with the reversed window, `a[0]` weighing the latest sample |
| SignalGeneration.FillArRecurrence | signal_generation_tools.py:82-85 | filling the zero buffer for `t` in `p .. n-1` leaves the first p samples 0 and makes every later sample the lag term plus `eps[t]` |
| SignalGeneration.AddMean | signal_generation_tools.py:87 | `x += mu` adds mu to every sample and changes nothing else |
| SignalGeneration.ShiftedArPath | signal_generation_tools.py:87 | shifting a zero-mean AR(p) path by mu gives the AR(p) path of mean mu: the first p samples equal mu and the deviations follow the recurrence |
| SignalGeneration.GenerateArChannel | signal_generation_tools.py:79-87 | one channel is the AR(p) path: first p samples exactly mu, `x[t] - mu = sum a[k-1] (x[t-k] - mu) + eps[t]` after |
| SignalGeneration.ArChannels | signal_generation_tools.py:74-88 | the channel loop yields N channels, channel i named `sig_{i+1}` and the AR(p) path of its own parameters |
| SignalGeneration.GenerateSignalsAp | signal_generation_tools.py:68-90 | N channels named `sig_1..sig_N`, each of `n_samples` samples and an AR(p) path, beside `time_s[t] * f_0 == t` |
| SignalGeneration.FillAr1Recurrence | signal_generation_tools.py:44-47 | the loop leaves `x[0] = 0` and sets `x[t] = phi x[t-1] + noise[t]` for t >= 1 |
| SignalGeneration.ShiftedAr1Path | signal_generation_tools.py:49 | shifting a zero-mean AR(1) path by mu gives the AR(1) path of mean mu |
| SignalGeneration.GenerateAr1Channel | signal_generation_tools.py:41-49 | one channel is the AR(1) path: `x[0] = mu`, `x[t] - mu = phi (x[t-1] - mu) + noise[t]` |
| SignalGeneration.Ar1IsOrderOneAr | signal_generation_tools.py:41-47 | the AR(1) recurrence is exactly the AR(p) recurrence with the single coefficient phi, in both directions |
| SignalGeneration.Ar1Channels | signal_generation_tools.py:36-50 | the channel loop yields N channels, channel i named `sig_{i+1}` and the AR(1) path of its own phi, mean and noise |
| SignalGeneration.GenerateSignalsA1 | signal_generation_tools.py:30-53 | N channels named `sig_1..sig_N`, each of `n_samples` samples and an AR(1) path, beside `time_s[t] * f_0 == t` |
| SignalGeneration.TimeAxis | signal_generation_tools.py:32 | `np.arange(n) / f_0` has n entries with `time_s[t] * f_0 == t` |
| SignalGeneration.TimeAxisIncreasing | signal_generation_tools.py:70 | for `f_0 > 0` neighbouring times are `1 / f_0` apart, and the time column is strictly increasing |
| SignalGeneration.DecimalRoundTrip | signal_generation_tools.py:88 | the decimal digits of `i+1` in `sig_{i+1}` read back as `i+1` |
| SignalGeneration.ChannelName | signal_generation_tools.py:50 | every channel name starts with `sig_` and has digits after it |
| SignalGeneration.ChannelNamesDistinct | signal_generation_tools.py:88 | different channel indices give different names, so no channel overwrites another in the `sigs` dict |
| EventScanner.Mean | signal_generation_tools.py:95 | `np.mean` of a window times its length is the window's sum |
| EventScanner.MeanCriterion | signal_generation_tools.py:94-96 | mode "gt" fires iff the window's sum exceeds `thresh` times its length; any other mode fires iff the sum is below it |
| EventScanner.ConstantWindowMean | signal_generation_tools.py:95 | a constant window of value c has mean c |
| EventScanner.MeanCriterionOnConstant | signal_generation_tools.py:94-96 | on a constant window of c the criterion is `c > thresh` for mode "gt" and `c < thresh` for any other mode |
| EventScanner.MeanBounds | signal_generation_tools.py:95 | the mean lies between any lower and upper bound of the samples |
| EventScanner.MeanCriterionWitness | signal_generation_tools.py:94-96 | if the criterion fires, some sample lies above the threshold (mode "gt") or below it (otherwise) |
| EventScanner.ChannelLookup | signal_generation_tools.py:135 | a missing column is reported iff no column has that name; otherwise the samples of a column so named |
| EventScanner.WindowOf | signal_generation_tools.py:135 | the inclusive `.loc[t_idx-win:t_idx]` slice has `win + 1` samples, the rows `t_idx - win .. t_idx` |
| EventScanner.GatherWindows | signal_generation_tools.py:134-137 | a KeyError iff one of the definition's channels is missing; otherwise one window per listed channel, in order |
| EventScanner.Evaluate | signal_generation_tools.py:139 | calling a criterion raises iff it is the mean criterion given other than exactly one window, and that error is the definition's arity error |
| EventScanner.EvaluateDef | signal_generation_tools.py:134-139 | one definition at one edge fails only with a missing column or a wrong arity |
| EventScanner.FireFrom | signal_generation_tools.py:133-140 | at one edge, every appended event carries that edge's `time_s`, at most one per remaining definition; errors are only missing columns or wrong arities |
| EventScanner.ScanFrom | signal_generation_tools.py:130-140 | from edge k on, every appended event's time is a value of the time column; errors are only missing columns or wrong arities |
| EventScanner.Scan | signal_generation_tools.py:126-142 | a zero hop is the only ValueError; a missing-row KeyError occurs iff the hop is negative and `win > len(df)`, or the hop is positive and `win < 0`; every event time is a value of the time column |
| EventScanner.FireAt | signal_generation_tools.py:133-140 | the inner loop over `event_defs` at one edge returns the events or the first error of the one-edge specification |
| EventScanner.EdgesBelowRows | signal_generation_tools.py:130 | edge k is among `range(win, n, hop)` iff `win + k * hop < n` |
| EventScanner.GenerateEvents | signal_generation_tools.py:126-142 | the nested loops return what the scan specification gives: errors for a zero hop or a missing row or column, otherwise the appended events in loop order |
| EventScanner.NoWindowWhenTooLong | signal_generation_tools.py:130 | with `win >= len(df)` no window is evaluated and the result is empty |
| EventScanner.FireFromMembers | signal_generation_tools.py:133-140 | at one edge, an event is appended iff its definition's criterion holds there, with that edge's time |
| EventScanner.FireFromInTableOrder | signal_generation_tools.py:133-140 | at one edge the appended events follow `event_defs` order: each comes from a firing definition, at strictly increasing table positions |
| EventScanner.FireFromOk | signal_generation_tools.py:133-140 | if one edge's evaluation succeeds, every definition's criterion was evaluated there without error |
| EventScanner.ScanFromSound | signal_generation_tools.py:130-140 | every appended event comes from a definition whose criterion holds at a scanned edge `win + k*hop < len(df)`, stamped with that edge's time |
| EventScanner.ScanFromComplete | signal_generation_tools.py:130-140 | every definition whose criterion holds at a scanned edge has its event appended |
| EventScanner.ScanMembers | signal_generation_tools.py:130-140 | an event is in the result iff some definition fires at some edge `win + k*hop < len(df)`; its time is that edge's `time_s` |
| EventScanner.ScanSortedByTime | signal_generation_tools.py:130-140 | on a nondecreasing time column the events come out in nondecreasing `time_t` |
| EventScanner.GeneratedTimesNondecreasing | signal_generation_tools.py:70 | the generators' time column is nondecreasing, so their events come out sorted |
| Annotations.RunEnd | baseline.py:41 | the end of the maximal run of `\w` (or `\s`) characters starting at a position |
| Annotations.MarkerAt | baseline.py:41 | `"begin"` or `"end"`, quotes included, is recognised at a position iff it is there |
| Annotations.ParseAnnotation | baseline.py:37-45 | a parsed activity is a non-empty prefix of the annotation; a missing value parses to None |
| Annotations.ParseSound | baseline.py:41-43 | every parse is a match at the start of the text: a word run, optional spaces, `=`, optional spaces, then `"begin"` or `"end"` |
| Annotations.ParseComplete | baseline.py:41-43 | every such match is what the parser returns, the activity being the maximal word run |
| Annotations.ParseAnnotationMatches | baseline.py:37-45 | the parser returns (activity, marker) iff the text matches the pattern with that activity and marker |
| Annotations.ParseIgnoresTrailingText | baseline.py:41 | text after a match does not change the parse (`re.match` is a prefix match) |
| Annotations.PairStep | baseline.py:228-240 | one row only appends intervals, at most one, and only an end row of an open activity appends one: from that activity's stored start to this row's time |
| Annotations.PairAll | baseline.py:222-240 | after the loop there are at most as many intervals as rows |
| Annotations.NonEndEmitsNothing | baseline.py:228-240 | a begin row, or a row whose annotation does not parse, emits no interval |
| Annotations.ExtractIntervals | baseline.py:219-240 | the loop over the rows returns the intervals of the pairing specification |
| Annotations.LastAnnotating | baseline.py:222-231 | the last row carrying a marker for an activity, or -1 when there is none |
| Annotations.OpenIsLastBegin | baseline.py:230-235 | an activity is open iff its latest marker is a begin, and its stored start is that row's time: a repeated begin overwrites |
| Annotations.EndClosesLastBegin | baseline.py:233-240 | an end emits one interval from the open begin and closes the activity; an end with no open begin emits nothing |
| Annotations.IntervalsOrderedStep | baseline.py:228-240 | one more row no earlier than the previous ones keeps every interval's start <= end, the ends in order, and no end after that row |
| Annotations.IntervalsOrdered | baseline.py:222-240 | on rows sorted by time (the sort on line 198), every interval has start <= end, intervals come in the order of their end rows, and none ends after the last row |
| Windowing.FloorMinute | baseline.py:266 | the largest minute boundary at or below the time |
| Windowing.CeilMinute | baseline.py:267 | the smallest minute boundary at or above the time |
| Windowing.BuildWindows | baseline.py:269-274 | contiguous 60 s windows from `start_time`, each starting before `end_time`, `ceil((end - start) / 60)` of them |
| Windowing.TileStart | baseline.py:270-274 | window k starts at `start_time + 60 k` |
| Windowing.TilesCoverOnce | baseline.py:269-274 | every time in `[start_time, end_time)` lies in exactly one window |
| Windowing.MinTimestamp | baseline.py:266 | the earliest event time |
| Windowing.MaxTimestamp | baseline.py:267 | the latest event time |
| Windowing.TimelineAsWritten | baseline.py:266-267 | as written, the timeline is minute-aligned, every event time lies in the closed span `[start, end]`, and its end is within 60 s of some event |
| Windowing.LastEventOnMinuteUncovered | baseline.py:266-274 | as written, when the latest event falls exactly on a minute, no window contains it |
| Windowing.MinuteAlignedLogAsWritten | baseline.py:266-267 | as written, events at 0 s and 60 s give the timeline [0, 60), which leaves out the second event |
| Windowing.Timeline | baseline.py:266-267 | the corrected timeline is minute-aligned and contains every event time |
| Windowing.TimelineCoversEveryEvent | baseline.py:264-274 | with the corrected timeline, every event lies in exactly one window |
| Windowing.TimelineWindows | baseline.py:264-274 | no windows for an empty log; otherwise the tiling of the corrected timeline |
| Windowing.EventsInWindow | baseline.py:66-70 | exactly the events with `start <= ts < end`, each kept as often as it occurs |
| Windowing.EventInOneWindow | baseline.py:66-70 | an event lies in at most one of the contiguous windows |
| Windowing.CountState | baseline.py:76-77 | the count of events in a state is 0 iff none is in it and the total iff all are |
| Windowing.OnOffAtMostTotal | baseline.py:74-77 | `on_events + off_events <= len(window)` |
| Windowing.EventCountFeatures | baseline.py:73-78 | `total_events` is the window length, and ON plus OFF counts do not exceed it |
| Windowing.PositiveOverlaps | baseline.py:49-58 | the loop lists, in table order, the activity and overlap of exactly the intervals with positive overlap |
| Windowing.FirstLargest | baseline.py:63 | Python `max` with a key: an entry with the largest overlap, the first one on ties |
| Windowing.FirstLargestEntryIsFirstLargestOverlap | baseline.py:49-63 | the first largest positive overlap is the first interval of largest overlap in the whole table |
| Windowing.AssignWindowLabel | baseline.py:48-63 | "Other" when nothing overlaps positively; otherwise the activity of the first interval of largest overlap; when no activity is named Other, "Other" iff nothing overlaps |
| Windowing.HourOf | baseline.py:101 | the hour of the day is in 0..23 |
| Windowing.TemporalFeatures | baseline.py:100-109 | every flag is 0 or 1, and exactly one of morning, afternoon, evening and night is 1 |
| RuleBased.RoomColumnName | baseline.py:124 | `room_<room>_count` starts with `room_` and ends with `_count` |
| RuleBased.Replace | baseline.py:127 | `str.replace` removing a pattern never lengthens the text |
| RuleBased.ReplaceAbsent | baseline.py:127 | replacing a pattern that does not occur leaves the text unchanged |
| RuleBased.ReplaceKeepsClearPrefix | baseline.py:127 | a prefix with no character that starts the pattern passes through the replacement untouched |
| RuleBased.ReplaceAtFront | baseline.py:127 | an occurrence at the front is replaced and the scan continues after it |
| RuleBased.BathroomAndBedroomMisnamed | baseline.py:127 | as written, `room_Bathroom_count` reads back as `Bathcount` and `room_Bedroom_count` as `Bedcount` |
| RuleBased.RoomOfColumnAsWritten | baseline.py:127 | as written, the two replacements never lengthen the column name |
| RuleBased.MisnamedRoom | baseline.py:127 | as written, a room named `stem + "room"` whose stem has no `r` and no `_` loses that `room` and reads back as `stem + "count"` |
| RuleBased.PlainRoomNamed | baseline.py:127 | as written, a room name with no `r` and no `_` reads back unchanged |
| RuleBased.RoomOfColumnRoundTrip | baseline.py:127 | corrected: stripping the prefix and suffix once gives back every room name |
| RuleBased.RoomColumns | baseline.py:124 | exactly the columns whose names start with `room_`, each with its count, and no more of them than there are columns |
| RuleBased.RoomColumnsOfConcat | baseline.py:124 | the filter keeps column order: filtering two runs of columns gives the filtered first run, then the filtered second |
| RuleBased.RoomColumnInPlace | baseline.py:124 | a room column comes after every room column that precedes it in the row and before every one that follows it, so "first" among room columns is "first" in `row.index` |
| RuleBased.SumCounts | baseline.py:125 | the room total is 0 iff every room count is 0, and bounds each count |
| RuleBased.IdxMax | baseline.py:127 | `idxmax`: the first column of largest count |
| RuleBased.FirstMaxUnique | baseline.py:127 | the first column of largest count is unique |
| RuleBased.GetDominantRoomAsWritten | baseline.py:123-127 | as written, None iff all room counts are 0; otherwise the first largest column, whose count is positive, named by the two replacements |
| RuleBased.DominantRoomAsWrittenOfNamedColumn | baseline.py:123-127 | as written, the first largest positive column `room_<room>_count` gives the name the replacements make of it |
| RuleBased.GetDominantRoom | baseline.py:123-127 | corrected: None iff all room counts are 0; otherwise the room of the first largest column, whose count is positive |
| RuleBased.DominantRoomOfNamedColumn | baseline.py:123-127 | corrected: the room named by the first largest positive column is the dominant room |
| RuleBased.Predict | baseline.py:136-165 | the label is one of the eight fixed labels, and "Other" whenever `total_events == 0` |
| RuleBased.PredictionsByRoom | baseline.py:136-162 | each label in terms of the room, count and hour: Toilet iff Bathroom and fewer than 5 events, Sleep iff Bedroom and hour >= 22 or < 6, … |
| RuleBased.UnknownRoomIsOther | baseline.py:164-165 | a dominant room that no rule names gives "Other" |
| RuleBased.RuleBasedPredictAsWritten | baseline.py:130-165 | as written, one of the eight labels, "Other" with no events, and anything but "Other" needs a dominant room |
| RuleBased.MisnamedRoomsAreUnknown | baseline.py:136-165 | as written, the names `Bathcount` and `Bedcount` match no rule, so the label is "Other" |
| RuleBased.BathroomAndBedroomRulesUnreachable | baseline.py:127-150 | as written, when the first largest positive column is `room_Bathroom_count` or `room_Bedroom_count`, the label is "Other" whatever the count and hour |
| RuleBased.RuleBasedPredict | baseline.py:130-165 | corrected: one of the eight labels, "Other" with no events, and anything but "Other" needs a dominant room |
| RuleBased.DominantColumnSelectsRule | baseline.py:130-165 | corrected: the predictor applies the rule of the room named by the first largest positive column |
| RuleBased.BathroomVisitAsWritten | baseline.py:123-144 | as written, three bathroom events at 8 h give dominant room `Bathcount` and label "Other" |
| RuleBased.BathroomVisitIsToilet | baseline.py:123-144 | corrected, the same window is labelled "Toilet" |

## Left out

- The random draws (`rng.normal`) are not modelled: the innovations and noise of each channel are input sequences, and `seed` is gone.
- `np.exp` is not modelled: `phi` is an input. `SignalGeneration.ArFromTimescale` takes it in (0, 1) for the decrease facts and any positive value otherwise.
- The noise standard deviation `std * sqrt(1 - sum(a**2))` is not modelled. Only the positivity of the square root's argument is proved (`CoefficientsGivePositiveRadicand`), and the innovations are given.
- Floating point is not modelled: all arithmetic is exact over `real`, so rounding in the sums, in the division by `1.1 * sum` and in `t / f_0` is absent.
- `int(T * f_0)`, `int(window_s * f_0)` and `int(hop_len_s * f_0)` are not modelled: `nSamples`, `win` and `hop` are integer inputs.
- `event_criteria_std`, `event_criteria_fft_band` and `event_criteria_peaks` are `Foreign` criteria. Each is a given predicate over the windows of the listed channels. Their numerics (`np.std`, `scipy.signal.welch`, `scipy.signal.find_peaks`) are outside the model, and they are taken never to raise.
- `event_defs=None` is not modelled: calling `.items()` on it raises, and the model always takes a table of definitions.
- Keyword parameters other than `thresh` and `mode` are not modelled. The mean criterion's `mode` defaults to "gt" in the source, and here it is always stated.
- The DataFrame results are not modelled: the events are returned as a sequence of records, not `pd.DataFrame(events)`. The DataFrame's column order, `plot_sigs` and any export are I/O.
- `room_features`, `sensor_diversity_features` and `extract_window_features` are not modelled. The predictor takes the room count columns they produce as input. The tie order of `value_counts().idxmax()` is library-defined.
- The CSV read, `pd.to_datetime`, the sort on line 198, `fillna` and the sklearn metrics are not modelled. The pairing takes rows already sorted, and `IntervalsOrdered` assumes that order.
- Pandas timestamps with microseconds, time zones and `Timestamp.hour` are not modelled. Times are integer seconds counted from a midnight, and `Windowing.HourOf` reads the hour as `(ts % 86400) / 3600`.
- Python's Unicode `\w` and `\s` classes are not modelled: the parser's word characters are ASCII letters, digits and `_`, and its spaces are the ASCII whitespace characters.
- NaN room counts are not modelled: a count pandas leaves as NaN is 0. `sum` and `idxmax` skip NaN, and a 0 never wins a positive maximum, so the outcome is the same.
- SignalGeneration.ArChannels, SignalGeneration.GenerateSignalsAp, SignalGeneration.Ar1Channels and SignalGeneration.GenerateSignalsA1 require per-channel lists at least N long. The IndexError for a shorter list (signal_generation_tools.py:37-38, 75-76) and the TypeError from indexing A1's `None` defaults are not modelled.
- RuleBased.RoomColumns: its own contract states membership only. The column order is proved separately, by `RoomColumnsOfConcat` and `RoomColumnInPlace`.
- RuleBased.GetDominantRoomAsWritten and RuleBased.RuleBasedPredictAsWritten take the room counts as numbers. The only call is `features_df.apply(rule_based_predict, axis=1)` at baseline.py:396, over a frame that also holds string and Timestamp columns. Each row then reaches `get_dominant_room` as an object-dtype Series, and `idxmax` at baseline.py:127 may raise a TypeError there instead of returning a room. That error is not modelled.
- RuleBased.MisnamedRoom is proved only for stems with no `r` and no `_`. Other stems can hold further `room_` or `_count` occurrences that the replacements also remove.
- Duplicate column names in the signal frame are not modelled: a name selects its first column.
- runSignalGeneration.py, runDataImport.py, data-import.py, signal-fetcher.py and extract-audio.py are not part of this model. They are configuration, network, CLI and media scripts.

## Findings

| source | as written | input that shows it | evidently intended | confidence | as-written member | corrected member |
|---|---|---|---|---|---|---|
| baseline.py:127 | `.replace("room_", "")` removes every `room_` in the column name, so `room_Bathroom_count` becomes `Bathcount` and `room_Bedroom_count` becomes `Bedcount`; the Bathroom and Bedroom rules can then never fire | a window with 3 events, hour 8, whose only room column is `room_Bathroom_count = 3`: on a row whose room counts are numbers, `rule_based_predict` returns "Other" | strip the `room_` prefix and `_count` suffix once, so the dominant room is `Bathroom` and the label is "Toilet" | high, not executed | RuleBased.BathroomVisitAsWritten | RuleBased.BathroomVisitIsToilet |
| baseline.py:267 | `end_time = max(ts).ceil("min")`: when the latest event falls exactly on a minute, the last window ends at that time and the event, outside the half-open window, is in none | sensor events at 0 s and 60 s: timeline [0, 60), one window, which does not hold the event at 60 s | a timeline whose end lies strictly after the latest event (its minute floor plus 60 s), so every event lies in a window | medium, not executed | Windowing.LastEventOnMinuteUncovered | Windowing.TimelineCoversEveryEvent |
