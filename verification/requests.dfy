/** The predictor's request generator: every whole hour from a start text up to an end text. */
module Requests {
  import opened Results
  import opened Calendar
  import opened DateParser

  /** All four fields convert to C ints. */
  predicate FieldsFit(f: DateFields) {
    FitsCInt(f.year) && FitsCInt(f.month) && FitsCInt(f.day) && FitsCInt(f.hour)
  }

  /**
   * dt.datetime(year, month, day, hour) from parsed fields, or what it raises: an OverflowError
   * for a field beyond a C int, otherwise a ValueError.
   */
  function ToDateHour(f: DateFields): (r: Result<DateHour>)
    ensures r.Ok? <==> Valid(DateHour(f.year, f.month, f.day, f.hour))
    ensures r.Ok? ==> r.value == DateHour(f.year, f.month, f.day, f.hour)
    ensures r.Err? && !FieldsFit(f) ==> r.error == DateOverflowError
    ensures r.Err? && FieldsFit(f) ==> r.error.DateValueError?
  {
    var t := DateHour(f.year, f.month, f.day, f.hour);
    match DateHourCheck(t)
    case Some(e) => Err(e)
    case None => Ok(t)
  }

  /** The hours t with start <= t < end, stepping one hour at a time. */
  function HoursFrom(start: DateHour, end: DateHour): (r: seq<DateHour>)
    requires Valid(start) && Valid(end)
    ensures |r| == if HourIndex(start) < HourIndex(end) then HourIndex(end) - HourIndex(start) else 0
    ensures forall i :: 0 <= i < |r| ==> Valid(r[i]) && HourIndex(r[i]) == HourIndex(start) + i
    ensures forall i :: 0 <= i < |r| - 1 ==> r[i] != LastHour && r[i + 1] == NextHour(r[i])
    ensures |r| > 0 ==> r[0] == start
    decreases HourIndex(end) - HourIndex(start)
  {
    LessIsIndexOrder(start, end);
    if Less(start, end) then
      assert start != LastHour by {
        if start == LastHour {
          LastHourIsLast(end);
        }
      }
      [start] + HoursFrom(NextHour(start), end)
    else []
  }

  /** No valid hour comes after the last one datetime can represent. */
  lemma LastHourIsLast(t: DateHour)
    requires Valid(t)
    ensures !Less(LastHour, t)
  {
  }

  /**
   * The requests for a start and an end text: both are parsed and turned into datetimes
   * (errors propagate); identical texts give the start hour alone, otherwise every hour
   * from the start up to, not including, the end.
   */
  function GenerateRequests(startText: string, endText: string): (r: Result<seq<DateHour>>)
    ensures ParseDate(startText).Err? ==> r == Err(DateParseError)
    ensures ParseDate(startText).Ok? && ParseDate(endText).Err? ==> r == Err(DateParseError)
    ensures r.Ok? ==> forall i :: 0 <= i < |r.value| ==> Valid(r.value[i])
  {
    Assemble(startText == endText, ParseDate(startText), ParseDate(endText))
  }

  /** The requests once both texts have been parsed; the first failure propagates. */
  function Assemble(same: bool, startFields: Result<DateFields>, endFields: Result<DateFields>)
    : (r: Result<seq<DateHour>>)
    ensures startFields.Err? ==> r == Err(startFields.error)
    ensures startFields.Ok? && endFields.Err? ==> r == Err(endFields.error)
    ensures startFields.Ok? && endFields.Ok? && ToDateHour(startFields.value).Err? ==>
      r == Err(ToDateHour(startFields.value).error)
    ensures (startFields.Ok? && endFields.Ok? && ToDateHour(startFields.value).Ok?
             && ToDateHour(endFields.value).Err?) ==> r == Err(ToDateHour(endFields.value).error)
    ensures r.Ok? ==> forall i :: 0 <= i < |r.value| ==> Valid(r.value[i])
  {
    var sf :- startFields;
    var ef :- endFields;
    var start :- ToDateHour(sf);
    var end :- ToDateHour(ef);
    if same then Ok([start]) else Ok(HoursFrom(start, end))
  }

  /** Identical texts give exactly one request: the parsed start hour. */
  lemma SameTextOneRequest(text: string, f: DateFields)
    requires ParseDate(text) == Ok(f)
    requires Valid(DateHour(f.year, f.month, f.day, f.hour))
    ensures GenerateRequests(text, text) == Ok([DateHour(f.year, f.month, f.day, f.hour)])
  {
  }

  /**
   * Different texts give, in increasing order, exactly the valid hours t with
   * start <= t < end: none when end is not after start.
   */
  lemma DistinctTextsHourRange(startText: string, endText: string, start: DateHour, end: DateHour)
    requires startText != endText
    requires ParseDate(startText).Ok? && ToDateHour(ParseDate(startText).value) == Ok(start)
    requires ParseDate(endText).Ok? && ToDateHour(ParseDate(endText).value) == Ok(end)
    ensures GenerateRequests(startText, endText) == Ok(HoursFrom(start, end))
    ensures var r := HoursFrom(start, end);
      && (forall t :: Valid(t) ==> (t in r <==> !Less(t, start) && Less(t, end)))
      && (forall i, j :: 0 <= i < j < |r| ==> Less(r[i], r[j]))
      && (!Less(start, end) ==> r == [])
  {
    HoursFromIsRange(start, end);
  }

  /** The hours stepped through are exactly those from start up to end, in increasing order. */
  lemma HoursFromIsRange(start: DateHour, end: DateHour)
    requires Valid(start) && Valid(end)
    ensures var r := HoursFrom(start, end);
      && (forall t :: Valid(t) ==> (t in r <==> !Less(t, start) && Less(t, end)))
      && (forall i, j :: 0 <= i < j < |r| ==> Less(r[i], r[j]))
      && (!Less(start, end) ==> r == [])
  {
    var r := HoursFrom(start, end);
    forall t | Valid(t)
      ensures t in r <==> !Less(t, start) && Less(t, end)
    {
      LessIsIndexOrder(t, start);
      LessIsIndexOrder(t, end);
      if t in r {
        var i :| 0 <= i < |r| && r[i] == t;
      }
      if !Less(t, start) && Less(t, end) {
        var i := HourIndex(t) - HourIndex(start);
        IndexInjective(t, r[i]);
      }
    }
    forall i, j | 0 <= i < j < |r|
      ensures Less(r[i], r[j])
    {
      LessIsIndexOrder(r[i], r[j]);
    }
    LessIsIndexOrder(start, end);
  }

  /** Texts naming the same hour but different minutes or seconds give no request at all. */
  lemma SameHourDifferentTextsNone(startText: string, endText: string, t: DateHour)
    requires startText != endText
    requires ParseDate(startText).Ok? && ToDateHour(ParseDate(startText).value) == Ok(t)
    requires ParseDate(endText).Ok? && ToDateHour(ParseDate(endText).value) == Ok(t)
    ensures GenerateRequests(startText, endText) == Ok([])
  {
    DistinctTextsHourRange(startText, endText, t, t);
  }
}
