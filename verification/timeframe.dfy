/**
 * predict_timeframe, which stacks one prediction row per requested hour into a frame, and
 * get_prediction_ids, which recovers the positions of the low, mid and high columns of such a
 * frame.
 */
module Timeframe {
  import opened Results
  import opened Calendar
  import opened Requests
  import opened Prediction

  /** A frame: its column labels in order and its rows. */
  datatype Frame = Frame(columns: seq<string>, rows: seq<Row>)

  /** The ids used when none are requested: every location of the average-prediction table. */
  function DefaultIds(tb: Tables): (ids: seq<int>)
    ensures |ids| == |tb.avgPreds|
    ensures forall i :: 0 <= i < |ids| ==> ids[i] == i
  {
    seq(|tb.avgPreds|, i requires 0 <= i < |tb.avgPreds| => i)
  }

  /** The requested ids, or every location when none are given. */
  function RequestedIds(tb: Tables, requestIds: Option<seq<int>>): seq<int> {
    match requestIds
    case None => DefaultIds(tb)
    case Some(ids) => ids
  }

  /** The values of all the results, or the error of the first one that failed. */
  function Collect<T>(results: seq<Result<T>>): (r: Result<seq<T>>)
    ensures r.Ok? <==> forall j :: 0 <= j < |results| ==> results[j].Ok?
    ensures r.Ok? ==> |r.value| == |results| && forall j :: 0 <= j < |results| ==> r.value[j] == results[j].value
    decreases |results|
  {
    if |results| == 0 then Ok([])
    else
      match results[0]
      case Err(e) => Err(e)
      case Ok(v) =>
        assert forall j :: 1 <= j < |results| ==> results[j] == results[1..][j - 1];
        match Collect(results[1..])
        case Err(e) => Err(e)
        case Ok(vs) => Ok([v] + vs)
  }

  /** A failed collection reports the error of the first failed result. */
  lemma {:induction false} CollectError<T>(results: seq<Result<T>>)
    requires Collect(results).Err?
    ensures exists j :: (0 <= j < |results| && results[j].Err?
      && (forall j' :: 0 <= j' < j ==> results[j'].Ok?)
      && Collect(results) == Err(results[j].error))
    decreases |results|
  {
    if results[0].Ok? {
      var rest := results[1..];
      CollectError(rest);
      var k :| (0 <= k < |rest| && rest[k].Err?
        && (forall j' :: 0 <= j' < k ==> rest[j'].Ok?)
        && Collect(rest) == Err(rest[k].error));
      assert forall j' :: 1 <= j' < k + 1 ==> results[j'] == rest[j' - 1];
      assert results[k + 1] == rest[k];
    }
  }

  /** One prediction per request, in order; the first failing request aborts (PredictAllError). */
  function PredictAll(tb: Tables, requests: seq<DateHour>, ids: seq<int>, ci: bool)
    : (r: Result<seq<Row>>)
    ensures r.Ok? <==> forall j :: 0 <= j < |requests| ==> PredictAt(tb, requests[j], ids, ci).Ok?
    ensures r.Ok? ==> |r.value| == |requests|
    ensures r.Ok? ==> forall j :: 0 <= j < |requests| ==> r.value[j] == PredictAt(tb, requests[j], ids, ci).value
  {
    Collect(Predictions(tb, requests, ids, ci))
  }

  /** Each request's prediction, in order. */
  function Predictions(tb: Tables, requests: seq<DateHour>, ids: seq<int>, ci: bool): (r: seq<Result<Row>>)
    ensures |r| == |requests| && forall j :: 0 <= j < |requests| ==> r[j] == PredictAt(tb, requests[j], ids, ci)
  {
    seq(|requests|, j requires 0 <= j < |requests| => PredictAt(tb, requests[j], ids, ci))
  }

  /** A failed frame reports the error of the first request whose prediction fails. */
  lemma PredictAllError(tb: Tables, requests: seq<DateHour>, ids: seq<int>, ci: bool)
    requires PredictAll(tb, requests, ids, ci).Err?
    ensures exists j :: (0 <= j < |requests|
      && (forall j' :: 0 <= j' < j ==> PredictAt(tb, requests[j'], ids, ci).Ok?)
      && PredictAt(tb, requests[j], ids, ci).Err?
      && PredictAll(tb, requests, ids, ci) == Err(PredictAt(tb, requests[j], ids, ci).error))
  {
    CollectError(Predictions(tb, requests, ids, ci));
  }

  /** predict for one request's year, month, day and hour. */
  function PredictAt(tb: Tables, t: DateHour, ids: seq<int>, ci: bool): Result<Row> {
    Predict(tb, t.year, t.month, t.day, t.hour, ids, ci)
  }

  /** The frame's labels: each row's labels merged in turn into the labels so far. */
  function FrameColumns(columns: seq<string>, rows: seq<Row>): (r: seq<string>)
    ensures columns <= r
    decreases |rows|
  {
    if |rows| == 0 then columns else FrameColumns(MergeNames(columns, ColumnNames(rows[0])), rows[1..])
  }

  /**
   * predict_timeframe(start_time, end_time, request_ids, ci): the requests between the two
   * date strings, then one row per request, stacked into a frame.
   */
  function PredictTimeframe(tb: Tables, startText: string, endText: string,
                            requestIds: Option<seq<int>>, ci: bool): (r: Result<Frame>)
    ensures GenerateRequests(startText, endText).Err? ==> r == Err(GenerateRequests(startText, endText).error)
    ensures GenerateRequests(startText, endText).Ok? ==>
      FramesPredictions(tb, GenerateRequests(startText, endText).value, RequestedIds(tb, requestIds), ci, r)
    ensures r.Ok? ==> forall j :: 0 <= j < |r.value.rows| ==> CountsNonNegative(r.value.rows[j])
  {
    FrameOf(tb, GenerateRequests(startText, endText), RequestedIds(tb, requestIds), ci)
  }

  /**
   * r is the outcome of predicting every request in turn: a frame exactly when every prediction
   * succeeds, whose rows are the predictions in request order; otherwise the error of the first
   * request whose prediction fails.
   */
  predicate FramesPredictions(tb: Tables, requests: seq<DateHour>, ids: seq<int>, ci: bool, r: Result<Frame>) {
    && (r.Ok? <==> forall j :: 0 <= j < |requests| ==> PredictAt(tb, requests[j], ids, ci).Ok?)
    && (r.Ok? ==> |r.value.rows| == |requests|
                  && forall j :: 0 <= j < |requests| ==> r.value.rows[j] == PredictAt(tb, requests[j], ids, ci).value)
    && (r.Err? ==> exists j :: (0 <= j < |requests|
          && (forall j' :: 0 <= j' < j ==> PredictAt(tb, requests[j'], ids, ci).Ok?)
          && PredictAt(tb, requests[j], ids, ci).Err?
          && r.error == PredictAt(tb, requests[j], ids, ci).error))
  }

  /** The frame of the generated requests' predictions, or the first error on the way. */
  function FrameOf(tb: Tables, generated: Result<seq<DateHour>>, ids: seq<int>, ci: bool): (r: Result<Frame>)
    ensures generated.Err? ==> r == Err(generated.error)
    ensures generated.Ok? ==> FramesPredictions(tb, generated.value, ids, ci, r)
    ensures r.Ok? ==> forall j :: 0 <= j < |r.value.rows| ==> CountsNonNegative(r.value.rows[j])
  {
    match generated
    case Err(e) => Err(e)
    case Ok(requests) =>
      match PredictAll(tb, requests, ids, ci)
      case Err(e) => PredictAllError(tb, requests, ids, ci); Err(e)
      case Ok(rows) => Ok(Frame(FrameColumns([], rows), rows))
  }

  /** Rows that all carry the same labels give a frame with exactly those labels. */
  lemma {:induction false} FrameColumnsOfUniformRows(columns: seq<string>, rows: seq<Row>, names: seq<string>)
    requires forall j :: 0 <= j < |rows| ==> ColumnNames(rows[j]) == names
    requires forall j :: 0 <= j < |names| ==> names[j] in columns
    ensures FrameColumns(columns, rows) == columns
    decreases |rows|
  {
    if |rows| > 0 {
      MergePresent(columns, names);
      FrameColumnsOfUniformRows(columns, rows[1..], names);
    }
  }

  /** Rows with the same distinct labels give a frame with exactly those labels. */
  lemma FrameOfUniformRows(rows: seq<Row>, names: seq<string>)
    requires |rows| > 0 && Distinct(names)
    requires forall j :: 0 <= j < |rows| ==> ColumnNames(rows[j]) == names
    ensures FrameColumns([], rows) == names
  {
    FirstRowLabels(rows, names);
    FrameColumnsOfUniformRows(names, rows[1..], names);
  }

  /** The first row's distinct labels become the frame's labels, in order. */
  lemma FirstRowLabels(rows: seq<Row>, names: seq<string>)
    requires |rows| > 0 && Distinct(names) && ColumnNames(rows[0]) == names
    ensures FrameColumns([], rows) == FrameColumns(names, rows[1..])
  {
    assert [] + names == names;
    MergeDistinct([], names);
  }

  /**
   * Every predicted row has the labels "Datetime" and then each requested location's, a
   * repeated label keeping its first place.
   */
  lemma RowsShareNames(tb: Tables, requests: seq<DateHour>, ids: seq<int>, ci: bool)
    requires PredictAll(tb, requests, ids, ci).Ok? && |requests| > 0
    ensures forall i :: 0 <= i < |ids| ==> 0 <= ids[i] < |tb.locationNames|
    ensures forall j :: 0 <= j < |requests| ==>
      ColumnNames(PredictAll(tb, requests, ids, ci).value[j])
        == MergeNames(["Datetime"], LayoutNames(tb.locationNames, ids, ci))
  {
    assert PredictAt(tb, requests[0], ids, ci).Ok?;
    forall j | 0 <= j < |requests|
      ensures ColumnNames(PredictAll(tb, requests, ids, ci).value[j])
           == MergeNames(["Datetime"], LayoutNames(tb.locationNames, ids, ci))
    {
      var u := requests[j];
      PredictNames(tb, u.year, u.month, u.day, u.hour, ids, ci);
    }
  }

  /**
   * A frame's labels are "Datetime" and then each requested location's, a repeated label
   * keeping its first place, and every row carries exactly them; a frame without rows has none.
   */
  lemma TimeframeColumns(tb: Tables, startText: string, endText: string,
                         requestIds: Option<seq<int>>, ci: bool)
    requires PredictTimeframe(tb, startText, endText, requestIds, ci).Ok?
    ensures var frame := PredictTimeframe(tb, startText, endText, requestIds, ci).value;
      var ids := RequestedIds(tb, requestIds);
      && (|frame.rows| == 0 ==> frame.columns == [])
      && (|frame.rows| > 0 ==>
            && (forall i :: 0 <= i < |ids| ==> 0 <= ids[i] < |tb.locationNames|)
            && frame.columns == MergeNames(["Datetime"], LayoutNames(tb.locationNames, ids, ci))
            && forall j :: 0 <= j < |frame.rows| ==> ColumnNames(frame.rows[j]) == frame.columns)
  {
    var requests := GenerateRequests(startText, endText).value;
    var ids := RequestedIds(tb, requestIds);
    var rows := PredictAll(tb, requests, ids, ci).value;
    assert PredictTimeframe(tb, startText, endText, requestIds, ci) == Ok(Frame(FrameColumns([], rows), rows));
    if |rows| > 0 {
      RowsShareNames(tb, requests, ids, ci);
      assert Distinct(["Datetime"]);
      FrameOfUniformRows(rows, MergeNames(["Datetime"], LayoutNames(tb.locationNames, ids, ci)));
    }
  }

  /** np.arange(start, stop, 3): start, start + 3, ... while below stop. */
  function EveryThird(start: nat, stop: nat): (r: seq<nat>)
    ensures |r| == if start < stop then (stop - start + 2) / 3 else 0
    ensures forall i :: 0 <= i < |r| ==> r[i] == start + 3 * i
    decreases stop - start
  {
    if start >= stop then [] else [start] + EveryThird(start + 3, stop)
  }

  /** The three rows get_prediction_ids stacks: the low, mid and high column positions. */
  datatype PredictionIds = PredictionIds(low: seq<nat>, mid: seq<nat>, high: seq<nat>)

  /**
   * get_prediction_ids(dataframe) for a frame of the given width. numpy stacks the three
   * ranges into a matrix only when their lengths agree (see EqualLengths).
   */
  function GetPredictionIds(width: nat): (r: PredictionIds)
    ensures forall i :: 0 <= i < |r.low| ==> r.low[i] == 1 + 3 * i < width
    ensures forall i :: 0 <= i < |r.mid| ==> r.mid[i] == 2 + 3 * i < width
    ensures forall i :: 0 <= i < |r.high| ==> r.high[i] == 3 + 3 * i < width
  {
    PredictionIds(EveryThird(1, width), EveryThird(2, width), EveryThird(3, width))
  }

  /** The range holds exactly the positions from start below stop that are a multiple of 3 apart. */
  lemma EveryThirdMembers(start: nat, stop: nat, x: int)
    ensures x in EveryThird(start, stop) <==> start <= x < stop && (x - start) % 3 == 0
  {
    var r := EveryThird(start, stop);
    if start <= x < stop && (x - start) % 3 == 0 {
      var i := (x - start) / 3;
      assert r[i] == x;
    }
  }

  /** The three ranges have equal lengths, so numpy stacks them, iff the width is 0 or 1 mod 3. */
  lemma EqualLengths(width: nat)
    ensures var p := GetPredictionIds(width);
      |p.low| == |p.mid| == |p.high| <==> width % 3 == 1 || width == 0
  {
  }

  /** A range from offset 1, 2 or 3 below 1 + 3k has k entries. */
  lemma EveryThirdLength(offset: nat, k: nat)
    requires 1 <= offset <= 3
    ensures |EveryThird(offset, 1 + 3 * k)| == k
  {
    if offset < 1 + 3 * k {
      assert 1 + 3 * k - offset + 2 == 3 * k + (3 - offset);
      assert (3 * k + (3 - offset)) / 3 == k;
    }
  }

  /** For a frame of width 1 + 3k each range has k entries, low at 1 + 3i and mid, high just after. */
  lemma TriplePositions(k: nat)
    ensures var p := GetPredictionIds(1 + 3 * k);
      && |p.low| == |p.mid| == |p.high| == k
      && forall i :: 0 <= i < k ==> p.low[i] == 1 + 3 * i && p.mid[i] == p.low[i] + 1 && p.high[i] == p.low[i] + 2
  {
    EveryThirdLength(1, k);
    EveryThirdLength(2, k);
    EveryThirdLength(3, k);
  }

  /** Column c of a frame of width 1 + 3k is a low, mid or high column as c is 1, 2 or 0 mod 3. */
  lemma TripleMember(k: nat, c: int)
    ensures var p := GetPredictionIds(1 + 3 * k);
      && (c in p.low <==> 1 <= c <= 3 * k && c % 3 == 1)
      && (c in p.mid <==> 1 <= c <= 3 * k && c % 3 == 2)
      && (c in p.high <==> 1 <= c <= 3 * k && c % 3 == 0)
  {
    OffsetMember(k, c, 1);
    OffsetMember(k, c, 2);
    OffsetMember(k, c, 3);
  }

  /** The range from offset 1, 2 or 3 below 1 + 3k holds the columns 1 .. 3k congruent to the offset. */
  lemma OffsetMember(k: nat, c: int, offset: nat)
    requires 1 <= offset <= 3
    ensures c in EveryThird(offset, 1 + 3 * k) <==> 1 <= c <= 3 * k && c % 3 == offset % 3
  {
    EveryThirdMembers(offset, 1 + 3 * k, c);
    ShiftedResidue(k, c, offset);
  }

  /** Stepping by 3 from offset 1, 2 or 3 below 1 + 3k reaches the columns 1 .. 3k of that residue. */
  lemma ShiftedResidue(k: nat, c: int, offset: nat)
    requires 1 <= offset <= 3
    ensures (offset <= c < 1 + 3 * k && (c - offset) % 3 == 0) <==> (1 <= c <= 3 * k && c % 3 == offset % 3)
  {
  }

  /**
   * For a frame of width 1 + 3k the three ranges have k entries each, mid and high sit just
   * after low, and together they cover the columns 1 .. 3k, each exactly once.
   */
  lemma TripleLayoutIds(k: nat)
    ensures var p := GetPredictionIds(1 + 3 * k);
      && |p.low| == |p.mid| == |p.high| == k
      && (forall i :: 0 <= i < k ==> p.low[i] == 1 + 3 * i && p.mid[i] == p.low[i] + 1 && p.high[i] == p.low[i] + 2)
      && (forall c :: 1 <= c <= 3 * k ==>
            && (c in p.low <==> c % 3 == 1)
            && (c in p.mid <==> c % 3 == 2)
            && (c in p.high <==> c % 3 == 0))
      && (forall c :: c in p.low || c in p.mid || c in p.high ==> 1 <= c <= 3 * k)
  {
    TriplePositions(k);
    forall c: int {
      TripleMember(k, c);
    }
  }

  /**
   * In labels laid out as "Datetime" followed by each location's low, mid and high labels,
   * get_prediction_ids finds each location's three labels, in the order requested.
   */
  lemma TripleLayoutLabels(columns: seq<string>, names: seq<string>, ids: seq<int>)
    requires forall i :: 0 <= i < |ids| ==> 0 <= ids[i] < |names|
    requires columns == ["Datetime"] + LayoutNames(names, ids, true)
    ensures |columns| == 1 + 3 * |ids| && LabelledAt(columns, names, ids, GetPredictionIds(|columns|))
  {
    var nameBlocks := seq(|ids|, i requires 0 <= i < |ids| => SuffixedNames(names[ids[i]], true));
    assert columns == ["Datetime"] + Flatten(nameBlocks);
    TripleIds("Datetime", nameBlocks);
  }

  /**
   * p holds one low, mid and high position per requested location, and at them the labels
   * hold that location's name with "_low", "_mid" and "_high".
   */
  predicate LabelledAt(columns: seq<string>, names: seq<string>, ids: seq<int>, p: PredictionIds) {
    && |p.low| == |p.mid| == |p.high| == |ids|
    && forall i :: 0 <= i < |ids| ==>
      && 0 <= ids[i] < |names| && p.low[i] < |columns| && p.mid[i] < |columns| && p.high[i] < |columns|
      && columns[p.low[i]] == names[ids[i]] + "_low"
      && columns[p.mid[i]] == names[ids[i]] + "_mid"
      && columns[p.high[i]] == names[ids[i]] + "_high"
  }

  /** In a row of a leading entry and triples, get_prediction_ids finds each triple's entries. */
  lemma TripleIds<T>(first: T, blocks: seq<seq<T>>)
    requires forall i :: 0 <= i < |blocks| ==> |blocks[i]| == 3
    ensures var row := [first] + Flatten(blocks);
      var p := GetPredictionIds(|row|);
      && |row| == 1 + 3 * |blocks|
      && |p.low| == |p.mid| == |p.high| == |blocks|
      && forall i :: 0 <= i < |blocks| ==>
        row[p.low[i]] == blocks[i][0] && row[p.mid[i]] == blocks[i][1] && row[p.high[i]] == blocks[i][2]
  {
    var row := [first] + Flatten(blocks);
    FlattenTriples(blocks);
    assert |row| == 1 + 3 * |blocks|;
    TriplePositions(|blocks|);
    var p := GetPredictionIds(|row|);
    forall i | 0 <= i < |blocks|
      ensures row[p.low[i]] == blocks[i][0] && row[p.mid[i]] == blocks[i][1] && row[p.high[i]] == blocks[i][2]
    {
      TripleIdAt(first, blocks, i);
    }
  }

  /** get_prediction_ids' i-th low, mid and high positions hold triple i. */
  lemma TripleIdAt<T>(first: T, blocks: seq<seq<T>>, i: nat)
    requires forall j :: 0 <= j < |blocks| ==> |blocks[j]| == 3
    requires i < |blocks|
    ensures var row := [first] + Flatten(blocks);
      var p := GetPredictionIds(|row|);
      && i < |p.low| && i < |p.mid| && i < |p.high|
      && row[p.low[i]] == blocks[i][0] && row[p.mid[i]] == blocks[i][1] && row[p.high[i]] == blocks[i][2]
  {
    TripleAt(first, blocks, i);
    WidthPositions(|[first] + Flatten(blocks)|, |blocks|);
  }

  /** TriplePositions for a width known to be 1 + 3k. */
  lemma WidthPositions(width: nat, k: nat)
    requires width == 1 + 3 * k
    ensures var p := GetPredictionIds(width);
      && |p.low| == |p.mid| == |p.high| == k
      && forall i :: 0 <= i < k ==> p.low[i] == 1 + 3 * i && p.mid[i] == 2 + 3 * i && p.high[i] == 3 + 3 * i
  {
    TriplePositions(k);
  }

  /**
   * With the confidence interval and distinct labels, the positions get_prediction_ids returns
   * for a frame of predictions are exactly the requested locations' low, mid and high columns,
   * in the order requested, in the frame and in every row.
   */
  lemma TimeframePredictionIds(tb: Tables, startText: string, endText: string,
                               requestIds: Option<seq<int>>)
    requires PredictTimeframe(tb, startText, endText, requestIds, true).Ok?
    requires |PredictTimeframe(tb, startText, endText, requestIds, true).value.rows| > 0
    requires forall i :: 0 <= i < |RequestedIds(tb, requestIds)| ==>
      0 <= RequestedIds(tb, requestIds)[i] < |tb.locationNames|
    requires Distinct(["Datetime"] + LayoutNames(tb.locationNames, RequestedIds(tb, requestIds), true))
    ensures var frame := PredictTimeframe(tb, startText, endText, requestIds, true).value;
      var ids := RequestedIds(tb, requestIds);
      var names := tb.locationNames;
      var p := GetPredictionIds(|frame.columns|);
      && |frame.columns| == 1 + 3 * |ids|
      && LabelledAt(frame.columns, names, ids, p)
      && (forall j :: 0 <= j < |frame.rows| ==> ColumnNames(frame.rows[j]) == frame.columns)
  {
    var frame := PredictTimeframe(tb, startText, endText, requestIds, true).value;
    var ids := RequestedIds(tb, requestIds);
    TimeframeColumns(tb, startText, endText, requestIds, true);
    MergeDistinct(["Datetime"], LayoutNames(tb.locationNames, ids, true));
    TripleLayoutLabels(frame.columns, tb.locationNames, ids);
  }

  /** A frame holds the predictions of the requests, in order. */
  lemma TimeframeRows(tb: Tables, startText: string, endText: string, requestIds: Option<seq<int>>, ci: bool)
    requires PredictTimeframe(tb, startText, endText, requestIds, ci).Ok?
    ensures GenerateRequests(startText, endText).Ok?
    ensures PredictAll(tb, GenerateRequests(startText, endText).value, RequestedIds(tb, requestIds), ci).Ok?
    ensures PredictTimeframe(tb, startText, endText, requestIds, ci).value.rows
         == PredictAll(tb, GenerateRequests(startText, endText).value, RequestedIds(tb, requestIds), ci).value
  {
  }

  /**
   * With non-negative deviations and scale factors, at the positions get_prediction_ids returns
   * for a frame of predictions, every row's low <= mid <= high, even when locations or their
   * names repeat.
   */
  lemma TimeframeBandsOrdered(tb: Tables, startText: string, endText: string,
                              requestIds: Option<seq<int>>)
    requires PredictTimeframe(tb, startText, endText, requestIds, true).Ok?
    requires NonNegativeEntries(tb.confStds) && NonNegativeScales(tb.dailyScales)
    ensures var frame := PredictTimeframe(tb, startText, endText, requestIds, true).value;
      OrderedAtIds(frame.rows, GetPredictionIds(|frame.columns|))
  {
    var frame := PredictTimeframe(tb, startText, endText, requestIds, true).value;
    TimeframeColumns(tb, startText, endText, requestIds, true);
    TimeframeRows(tb, startText, endText, requestIds, true);
    if |frame.rows| > 0 {
      AllBandsOrdered(tb, GenerateRequests(startText, endText).value, RequestedIds(tb, requestIds));
    }
    FrameBandsAtIds(frame.columns, frame.rows);
  }

  /**
   * Rows carrying the frame's labels, each holding ordered triples, are ordered at the
   * positions get_prediction_ids returns for the frame.
   */
  lemma FrameBandsAtIds(columns: seq<string>, rows: seq<Row>)
    requires |rows| == 0 ==> columns == []
    requires forall j :: 0 <= j < |rows| ==> ColumnNames(rows[j]) == columns
    requires forall j :: 0 <= j < |rows| ==> TriplesOrdered(rows[j])
    ensures OrderedAtIds(rows, GetPredictionIds(|columns|))
  {
    forall j | 0 <= j < |rows|
      ensures |rows[j]| == |columns|
    {
      assert |ColumnNames(rows[j])| == |columns|;
    }
    if |rows| == 0 {
      EqualLengths(0);
      assert columns == [];
    } else {
      var k := WidthOfTriples(rows[0]);
      RowsBandsOrdered(rows, k);
      BandsAtIds(rows, |columns|, k);
    }
  }

  /** A row whose triples are ordered is 1 + 3k wide for the k it returns. */
  lemma WidthOfTriples(row: Row) returns (k: nat)
    requires TriplesOrdered(row)
    ensures |row| == 1 + 3 * k
  {
    k := (|row| - 1) / 3;
  }

  /** Rows of width 1 + 3k whose triples are ordered hold k ordered triples. */
  lemma RowsBandsOrdered(rows: seq<Row>, k: nat)
    requires forall j :: 0 <= j < |rows| ==> TriplesOrdered(rows[j]) && |rows[j]| == 1 + 3 * k
    ensures forall j :: 0 <= j < |rows| ==> BandsOrdered(rows[j], k)
  {
    Thirds(k);
    forall j | 0 <= j < |rows|
      ensures BandsOrdered(rows[j], k)
    {
      assert |rows[j]| - 1 == 3 * k;
    }
  }

  /** With non-negative deviations and scale factors, every predicted row's triples are ordered. */
  lemma AllBandsOrdered(tb: Tables, requests: seq<DateHour>, ids: seq<int>)
    requires PredictAll(tb, requests, ids, true).Ok?
    requires NonNegativeEntries(tb.confStds) && NonNegativeScales(tb.dailyScales)
    ensures forall j :: 0 <= j < |requests| ==> TriplesOrdered(PredictAll(tb, requests, ids, true).value[j])
  {
    forall j | 0 <= j < |requests|
      ensures TriplesOrdered(PredictAll(tb, requests, ids, true).value[j])
    {
      var u := requests[j];
      PredictBandsOrdered(tb, u.year, u.month, u.day, u.hour, ids);
    }
  }

  /** Rows whose triples are ordered are ordered at the positions get_prediction_ids returns. */
  lemma BandsAtIds(rows: seq<Row>, width: nat, k: nat)
    requires width == 1 + 3 * k && forall j :: 0 <= j < |rows| ==> BandsOrdered(rows[j], k)
    ensures OrderedAtIds(rows, GetPredictionIds(width))
  {
    TriplePositions(k);
  }

  /**
   * The three position lists have equal lengths, and in every row the low, mid and high
   * positions they give hold counts with low <= mid <= high.
   */
  predicate OrderedAtIds(rows: seq<Row>, p: PredictionIds) {
    && |p.low| == |p.mid| == |p.high|
    && forall j, i :: 0 <= j < |rows| && 0 <= i < |p.low| ==>
      && p.low[i] < |rows[j]| && p.mid[i] < |rows[j]| && p.high[i] < |rows[j]|
      && rows[j][p.low[i]].cell.CountValue?
      && rows[j][p.mid[i]].cell.CountValue?
      && rows[j][p.high[i]].cell.CountValue?
      && rows[j][p.low[i]].cell.count <= rows[j][p.mid[i]].cell.count
      && rows[j][p.mid[i]].cell.count <= rows[j][p.high[i]].cell.count
  }
}
