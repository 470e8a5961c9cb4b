# Pedestrian-count predictor: a Dafny model

This project models the prediction core of the pedestrian-count predictor, `Predictor.py`. The predictor
turns a timeframe and a list of behaviour-zone ids into a frame of hourly pedestrian counts. The modelled
pieces are:

- **Date parser** (`__parse_date`). It applies the pattern `(.*)-(.*)-(.*)T(.*):(.*):(.*)` with
  `re.match` and converts the first four groups with Python's `int()`.
  - `.` stops at a newline, and greedy backtracking picks the split whose cut points are furthest right.
  - The model finds that split by searching right to left. It proves the split is a match and that it
    dominates every other match.
  - `int()` is modelled with its ASCII rules: surrounding whitespace (tab, LF, VT, FF, CR and space), an
    optional sign, and single underscores between digits.
- **Calendar** (`datetime` as CPython implements it). This covers:
  - the proleptic Gregorian calendar over years 1..9999, leap years, and month lengths;
  - the checks the constructor makes, in its order: every field must fit a C int (OverflowError), then
    the year, the month, the day and the hour must be in range (ValueError);
  - day ordinals and the weekday, with Monday = 0;
  - the text `str(datetime)` produces;
  - stepping forward one hour, with day, month and year rollover.
- **Hourly request generator** (`__generate_pred_requests`). Identical start and end strings give
  exactly one request. Otherwise the requests are the whole hours from the start up to, but excluding,
  the end.
- **Single-hour prediction** (`predict`). It does the following:
  - reads the average table `[location, weekday, hour]` with numpy's indexing rules, where a negative
    index counts from the end;
  - looks up the location name by label, so a negative id fails;
  - truncates the average toward zero;
  - scales it by the daily factor keyed `"<month>-<day>"`, with no zero padding;
  - clamps the result at 0 and truncates it to an integer.

  With the confidence interval, each location gets `_low`/`_mid`/`_high` columns, using the deviation
  table. Without it, each location gets one column. A frame column assigned twice under the same name
  keeps its first place and takes the new value. Every `IndexError` and `KeyError` becomes the single
  "Invalid location index" error. The `ValueError` from an invalid date is not caught and stays distinct.
- **Timeframe assembly** (`predict_timeframe`). It produces one row per request, stacked into a frame
  whose labels are the rows' labels in order of first appearance. Without requested ids, every location
  of the average table is used. The first failing request aborts the whole frame.
- **Column positions** (`get_prediction_ids`). These are the three ranges `arange(1, w, 3)`,
  `arange(2, w, 3)` and `arange(3, w, 3)` for a frame of width `w`.

The loaded tables (`avg_preds`, `conf_stds`, `daily_scales`, `location_names`) are parameters of the
model (`Prediction.Tables`). Exceptions are values of `Results.Error`.

Modules: `Results`, `Text` (digits, `str`, `int()`), `Calendar`, `DateParser`, `Requests`,
`Prediction`, `Timeframe`. One file holds each module.

## Model

| member | source | states |
|---|---|---|
| Text.NatToString | Predictor.py:82 | `str(n)` of a natural is a non-empty digit string with value `n` and no leading zero whenever it has more than one digit, so it is never zero-padded |
| Text.ParseInt | Predictor.py:139 | `int()` rejects text that holds no digit at all |
| Text.ParseSignedDigits | Predictor.py:139 | `int()` of an optional `-` followed by ASCII digits is their signed decimal value |
| Text.ParseDigits | Predictor.py:139 | `int()` of ASCII digits is their decimal value, leading zeros allowed |
| Text.ParseIntToString | Predictor.py:139 | `int(str(i)) == i` for every integer |
| Text.StrayPrefix | Predictor.py:139 | `int()` rejects a numeral preceded by a character that is not whitespace, a sign or a digit |
| Text.FileSeparatorRejected | Predictor.py:139 | `int()` rejects a numeral preceded by the control character 0x1C, which it does not strip as whitespace |
| DateParser.FirstLine | Predictor.py:138 | the pattern's `.` never crosses a newline: the first line is the longest newline-free prefix, ending at the first newline |
| DateParser.FindCutsIsGreatest | Predictor.py:138 | every way to cut a line at `-`,`-`,`T`,`:`,`:` is dominated, cut by cut, by the split the model chooses |
| DateParser.MatchIsGreedy | Predictor.py:138 | the chosen split matches the pattern over the whole first line, and every match of the pattern is dominated by it: it is the split greedy backtracking returns |
| DateParser.ParseDate | Predictor.py:137-141 | every failure is the date-parsing error, and parsing succeeds exactly when the pattern matches and the first four groups are integers |
| DateParser.NoMatchIsError | Predictor.py:137-141 | a string the pattern cannot match raises the date-parsing error |
| DateParser.ParseDateRoundTrip | Predictor.py:138-139 | `[-]Y-M-DTH:mm:ss` with digit fields parses to `(±Y, M, D, H)` whatever colon-free, newline-free minutes and seconds follow |
| DateParser.ParseFormattedDate | Predictor.py:138-139 | a signed year and a non-negative month, day and hour written as `str(y)-str(m)-str(d)Tstr(h):mm:ss` parse back to exactly those numbers |
| Calendar.DaysInMonth | Predictor.py:80 | every month has 28 to 31 days |
| Calendar.DateCheck | Predictor.py:80 | `dt.date` accepts exactly the valid dates; a field beyond a C int raises OverflowError before any range check, then the year is reported before the month, and the month before the day |
| Calendar.DateHourCheck | Predictor.py:115 | `dt.datetime` accepts exactly the valid date-hours; an hour beyond a C int raises OverflowError, an invalid date is reported as `dt.date` reports it, and only then an hour outside 0..23 |
| Calendar.NextHour | Predictor.py:126 | adding one hour to any hour but the last representable one gives a valid date-hour, exactly one hour later and later in datetime order |
| Calendar.MonthStep | Predictor.py:126 | the days before the next month are this month's plus its length, and December ends the year |
| Calendar.DaysBeforeYearClosedForm | Predictor.py:80 | the days before year `y` are `365p + p/4 - p/100 + p/400` with `p = y - 1`, the Gregorian count `datetime` uses |
| Calendar.LeapDays | Predictor.py:80 | a year's length follows the Gregorian rule: 366 days for multiples of 4 except those of 100 that are not multiples of 400 |
| Calendar.DaysBeforeYearGrows | Predictor.py:80 | every year has at least 365 days, so later years start later |
| Calendar.WithinYear | Predictor.py:80 | a date's ordinal lies within its own year |
| Calendar.LessIsIndexOrder | Predictor.py:124 | datetime comparison is the order of hours elapsed since 0001-01-01 00:00 |
| Calendar.IndexInjective | Predictor.py:124 | distinct date-hours are distinct instants |
| Calendar.Weekday | Predictor.py:87 | `weekday()` lies in 0..6 |
| Calendar.WeekdayAfterMidnight | Predictor.py:87 | stepping past 23:00 moves to the next weekday, Sunday wrapping to Monday |
| Calendar.WeekdayOfNewYear2020 | Predictor.py:87 | 2020-01-01 is a Wednesday (2, with Monday = 0) |
| Calendar.DatetimeText | Predictor.py:85 | `str(datetime)` is the 19 characters `YYYY-MM-DD HH:00:00`, each field reading back as its value |
| Requests.ToDateHour | Predictor.py:115-117 | `dt.datetime` of the parsed fields succeeds exactly for a valid date-hour, yielding it; otherwise it raises OverflowError when a field is beyond a C int and a ValueError when all fit |
| Requests.HoursFrom | Predictor.py:124-126 | the loop yields one request per hour between start and end, the i-th being valid and i hours after the start, each the successor of the one before |
| Requests.LastHourIsLast | Predictor.py:124-126 | no date-hour lies after 9999-12-31 23:00, so the loop never steps past it |
| Requests.GenerateRequests | Predictor.py:112-113 | a start string that fails to parse raises before the end string is looked at, and every request produced is a valid date-hour |
| Requests.Assemble | Predictor.py:112-122 | the start's parse error comes first, then the end's, then the start's `dt.datetime` error, then the end's; a generated request is always valid |
| Requests.SameTextOneRequest | Predictor.py:119-122 | identical start and end strings give exactly the one request `[year, month, day, hour]` of the start |
| Requests.DistinctTextsHourRange | Predictor.py:123-128 | for differing strings the requests are exactly the hours `t` with `start <= t < end`, in strictly increasing order, and none when `start >= end` |
| Requests.HoursFromIsRange | Predictor.py:124-126 | an hour is requested iff it is at or after the start and before the end, and the requests strictly increase |
| Requests.SameHourDifferentTextsNone | Predictor.py:123-128 | strings that differ but denote the same hour, as in minutes or seconds only, give no request |
| Prediction.NpIndex | Predictor.py:87 | a numpy index into an axis of length `n` succeeds iff `-n <= i < n`, and it selects `i` or `i + n` |
| Prediction.Lookup3 | Predictor.py:87 | a non-negative three-way lookup succeeds iff all three indices are in range, and it yields that entry |
| Prediction.NameAt | Predictor.py:89 | the names Series is looked up by label: only ids `0 .. n-1` succeed |
| Prediction.Trunc | Predictor.py:87 | `int()` of a float truncates toward zero |
| Prediction.ClampCount | Predictor.py:90-91 | `int(np.max([x, 0]))` is never negative, is 0 for non-positive `x`, and is the whole part of positive `x` |
| Prediction.ClampCountMonotone | Predictor.py:90-91 | the clamped count never decreases as its argument grows |
| Prediction.MergeNames | Predictor.py:89-95 | merging labels keeps the existing ones as a prefix, holds exactly the old and the added labels, and keeps distinct labels distinct |
| Prediction.MergeConcat | Predictor.py:89-95 | adding two runs of labels one after the other is adding their concatenation |
| Prediction.MergePresent | Predictor.py:89-95 | re-assigning existing labels adds none |
| Prediction.MergeDistinct | Predictor.py:89-95 | new distinct labels are appended in order |
| Prediction.FindColumn | Predictor.py:89 | the column found carries the name and no earlier column does, and none is found iff the name is absent |
| Prediction.ScaleKey | Predictor.py:82 | the `daily_scales` key has a `-` whose left part is `str(month)` and right part `str(day)`, both without zero padding |
| Prediction.SetColumn | Predictor.py:89 | `frame[name] = v` appends a new name and keeps an existing one in place, leaves every other column unchanged, keeps names distinct, and stores `v` under the name |
| Prediction.SetColumns | Predictor.py:89-93 | assigning several columns keeps names distinct and counts non-negative |
| Prediction.SetColumnsNames | Predictor.py:89-93 | the labels after assigning columns are the old labels merged with theirs |
| Prediction.SetNewColumn | Predictor.py:89 | assigning a new name appends the column |
| Prediction.SetNewColumns | Predictor.py:89-93 | columns with new distinct names are appended in order |
| Prediction.LocationColumns | Predictor.py:87-95 | one location's columns exist iff its id and the weekday and hour index the tables, and the deviation table too with the confidence interval; they are named `<name>_low/_mid/_high` or `<name>` with non-negative counts, and every failure is "Invalid location index" |
| Prediction.LocationCounts | Predictor.py:87-95 | a location's counts are `int(max((p - s) * f, 0))`, `int(max(p * f, 0))` and `int(max((p + s) * f, 0))` with the confidence interval, and `int(max(p * f, 0))` without, where `p` is its average at the weekday and hour truncated toward zero, `s` its deviation there and `f` the day's factor |
| Prediction.AddLocations | Predictor.py:86-101 | the loop over locations succeeds iff every location resolves, fails with "Invalid location index" otherwise, and keeps names distinct and counts non-negative |
| Prediction.AddLocationsAppends | Predictor.py:86-95 | with distinct labels, the locations' columns follow the row in the order requested |
| Prediction.AddLocationsNames | Predictor.py:86-95 | the labels after the loop are the row's merged with each location's, in the order requested |
| Prediction.Predict | Predictor.py:79-101 | `dt.date`'s error for an invalid date, a missing `"M-D"` scale key reported as "Invalid location index", an OverflowError for an hour beyond a C int, then a ValueError for an hour outside 0..23, and for a valid date, key and hour the only failure is "Invalid location index"; success iff the date, key and hour are valid and every location resolves; all counts non-negative |
| Prediction.PredictAppends | Predictor.py:84-95 | with distinct labels, the row is the `Datetime` column and then each location's columns in order |
| Prediction.PredictNames | Predictor.py:84-95 | the row's labels are `Datetime` then each location's labels, a repeated label keeping its first place |
| Prediction.RowTriples | Predictor.py:85-93 | with the confidence interval, location `i`'s `<name>_low/_mid/_high` columns sit at `1+3i`, `2+3i`, `3+3i` after the first column, and the row has `1 + 3k` columns |
| Prediction.RowSingles | Predictor.py:85-95 | without the confidence interval, location `i`'s `<name>` column sits at `1+i` after the first column, and the row has `1 + k` columns |
| Prediction.PredictLayout | Predictor.py:85-95 | with distinct labels and the confidence interval, the row has `1 + 3k` columns, `<name>_low/_mid/_high` at `1+3i`, `2+3i`, `3+3i`; without it, `1 + k` columns with `<name>` at `1+i` |
| Prediction.PredictCounts | Predictor.py:84-95 | with distinct labels, location `i`'s columns in the row (`1+3i .. 3+3i` with the confidence interval, `1+i` without) hold the counts `LocationCounts` gives for its table entries, the date's weekday, the hour and the day's factor |
| Prediction.ScaledBandOrdered | Predictor.py:89-93 | for a non-negative deviation and factor, `clamp((p-s)f) <= clamp(pf) <= clamp((p+s)f)` |
| Prediction.BandCountsOrdered | Predictor.py:89-93 | the three counts of a band with non-negative deviation and factor rise from low to high |
| Prediction.BandOrdered | Predictor.py:89-93 | a location's band is ordered `low <= mid <= high` when its deviation and the scale factor are non-negative |
| Prediction.PredictBandsOrdered | Predictor.py:86-93 | with non-negative deviations and factors, every successful row with the confidence interval is `Datetime` followed by triples, each ordered `low <= mid <= high`, repeated ids and names included |
| Prediction.AddLocationsBands | Predictor.py:86-93 | adding locations to a row of `Datetime` and ordered `<stem>_low/_mid/_high` triples leaves ordered triples, since a repeated label overwrites its whole triple in place and a new one appends a triple |
| Prediction.SetBand | Predictor.py:89-93 | assigning an ordered band keeps the row a sequence of ordered, distinctly named triples: in place when the name is present, appended when it is new |
| Timeframe.DefaultIds | Predictor.py:54-55 | without requested ids, every location `0 .. n-1` of the average table is predicted |
| Timeframe.Collect | Predictor.py:60-64 | the loop succeeds iff every step does, keeping the results in order |
| Timeframe.CollectError | Predictor.py:60-64 | a failed loop reports the error of the first failing step |
| Timeframe.PredictAll | Predictor.py:60-64 | one row per request, in order, iff every request's prediction succeeds |
| Timeframe.PredictAllError | Predictor.py:60-64 | a failing frame raises the error of the first request whose prediction fails |
| Timeframe.FrameColumns | Predictor.py:64 | appending rows only ever adds labels after the existing ones |
| Timeframe.PredictTimeframe | Predictor.py:44-66 | a request-generation error propagates; otherwise the frame exists iff every request's prediction does, with one row per request in order and all counts non-negative; a failed frame carries the error of the first failing request |
| Timeframe.FrameColumnsOfUniformRows | Predictor.py:64 | appending rows whose labels are all present already adds none |
| Timeframe.FrameOfUniformRows | Predictor.py:58-64 | rows with the same distinct labels stack into a frame with exactly those labels |
| Timeframe.RowsShareNames | Predictor.py:60-64 | every row of a timeframe carries the same labels whatever its hour |
| Timeframe.TimeframeColumns | Predictor.py:58-66 | the frame's labels are `Datetime` then each location's labels, every row carries exactly them, and a frame without rows has none |
| Timeframe.EveryThird | Predictor.py:16-18 | `np.arange(start, stop, 3)` has `ceil((stop-start)/3)` entries, the i-th being `start + 3i` |
| Timeframe.EveryThirdMembers | Predictor.py:16-18 | a position is in the range iff it lies in `[start, stop)` and is a multiple of 3 from the start |
| Timeframe.GetPredictionIds | Predictor.py:9-19 | the low, mid and high positions are `1+3i`, `2+3i` and `3+3i`, all inside the frame |
| Timeframe.EqualLengths | Predictor.py:15-19 | the three ranges have equal lengths, so they stack into a matrix, iff the width is 0 or is 1 modulo 3 |
| Timeframe.EveryThirdLength | Predictor.py:16-18 | each range over a width of `1 + 3k` has `k` entries |
| Timeframe.TriplePositions | Predictor.py:15-19 | for width `1 + 3k`, `low[i] = 1 + 3i`, `mid = low + 1`, `high = low + 2` |
| Timeframe.TripleMember | Predictor.py:15-19 | for width `1 + 3k`, a column is a low, mid or high position iff it lies in `1..3k` and is 1, 2 or 0 modulo 3 |
| Timeframe.TripleLayoutIds | Predictor.py:15-19 | for width `1 + 3k`, the positions cover columns `1..3k`, each exactly once, and nothing else |
| Timeframe.TripleIds | Predictor.py:15-19 | in a row of a leading entry and triples, the positions pick each triple's three entries |
| Timeframe.TripleLayoutLabels | Predictor.py:15-19 | in `Datetime` followed by the locations' labels, the positions pick `<name>_low`, `<name>_mid` and `<name>_high` of each location in order |
| Timeframe.TimeframePredictionIds | Predictor.py:9-19 | for a frame with the confidence interval and distinct labels, the positions are each requested location's low, mid and high columns, in the frame and in every row |
| Timeframe.TimeframeBandsOrdered | Predictor.py:88-93 | with non-negative deviations and factors, at every position `get_prediction_ids` returns for the frame, every row holds counts with `low <= mid <= high`, repeated ids and names included |
| Timeframe.AllBandsOrdered | Predictor.py:60-64 | every row the loop predicts with the confidence interval is `Datetime` followed by ordered triples |
| Timeframe.BandsAtIds | Predictor.py:15-19 | in rows of width `1 + 3k` made of ordered triples, the three positions `get_prediction_ids` returns hold ordered counts |

## Left out

- `Interpolator.py` is not part of this model. It is radial-basis interpolation, a colour map and image
  composition, all library calls on floating point and files.
- File loading is not modelled: `np.load` and `pd.read_csv` in the constructor (Predictor.py:38-42) and
  `dump_names` (Predictor.py:22-26). The loaded tables are the parameters `Prediction.Tables`. Any
  sequences, any map and any names are allowed.
- Console output is not modelled: the `print` calls (Predictor.py:53) and `Printer.loading_bar`
  (Predictor.py:61).
- `self.startDate` (Predictor.py:116) is not modelled. It is a side effect nothing in the core reads, and
  `dt.date(start_date.year, 1, 1)` cannot raise, because `start_date` is already a valid datetime whose
  year lies in 1..9999.
- Floating point is replaced by exact reals: the deviation and scale-factor products, and the comparison
  inside `np.max`. NaN and infinite table entries are not modelled. Adding `timedelta(1/24)` is modelled
  as exactly one hour.
- `int()` is modelled for ASCII text only. Unicode digits and Unicode whitespace are not modelled, nor is
  the 4300-digit conversion limit. CPython also strips 0x1C-0x1F, but only from text that holds some
  non-ASCII character; that case falls under Unicode and is not modelled.
- Integers are unbounded, except where CPython's `datetime` converts its fields to C ints: a field
  outside -2^31 .. 2^31-1 raises OverflowError (`Results.DateOverflowError`) before any range check,
  as `Calendar.DateCheck` and `Calendar.DateHourCheck` state. numpy's index width is not modelled: a
  location id too wide for it is treated as any other out-of-range id, "Invalid location index".
- Arguments are typed: the date arguments are strings, the ids are integers, and `ci` is a boolean. What
  Python does with other types is not modelled.
- The frame's row index labels (every row has index 0) are not modelled, because no modelled operation
  reads them.
- Duplicate labels inside the scale table are not modelled. It is a map from key to factor, so one key
  gives one factor rather than a Series.
- Prediction.Predict: the message text of the two "Invalid location index" re-raises
  (Predictor.py:98-101) is collapsed into one error value.
- Timeframe.GetPredictionIds: for a positive width that is not 1 modulo 3, numpy builds a ragged object array
  or raises, depending on its version. The model returns the three ranges as they are, and
  Timeframe.EqualLengths says when they stack.
- Text.ParseInt: its contract states only the rejection of digit-free text. The positive cases are the
  lemmas Text.ParseSignedDigits, Text.ParseDigits and Text.ParseIntToString; Text.StrayPrefix states
  another rejection.
- Calendar.Weekday: its contract states only the range 0..6. The day-by-day behaviour is in
  Calendar.WeekdayAfterMidnight and Calendar.WeekdayOfNewYear2020.
- Prediction.PredictCounts: it requires the row's labels to be distinct. With a repeated id or name a
  later location overwrites an earlier one's columns in place, so the positions `1+3i` no longer belong
  to location `i`; the band ordering (`Prediction.PredictBandsOrdered`) is still proved for such rows.
