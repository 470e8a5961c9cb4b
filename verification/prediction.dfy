/**
 * The predictor's single-hour prediction: a one-row frame holding the hour's "Datetime" text
 * and, for each requested location, the average count for that weekday and hour scaled by the
 * day's factor, with a low/mid/high band when the confidence interval is asked for.
 */
module Prediction {
  import opened Results
  import opened Text
  import opened Calendar

  /** A loaded three-dimensional array indexed [location, weekday, hour]. */
  type Table = seq<seq<seq<real>>>

  /**
   * The loaded inputs: average predictions, confidence standard deviations, the daily scale
   * factors keyed "<month>-<day>", and the location names in file order.
   */
  datatype Tables = Tables(avgPreds: Table, confStds: Table, dailyScales: map<string, real>,
                           locationNames: seq<string>)

  datatype Cell = TextValue(text: string) | CountValue(count: int)

  datatype Column = Column(name: string, cell: Cell)

  /** A one-row frame: its columns in order. */
  type Row = seq<Column>

  function ColumnNames(row: Row): (names: seq<string>)
    ensures |names| == |row|
    ensures forall j :: 0 <= j < |row| ==> names[j] == row[j].name
  {
    seq(|row|, j requires 0 <= j < |row| => row[j].name)
  }

  predicate Distinct(names: seq<string>) {
    forall i, j :: 0 <= i < j < |names| ==> names[i] != names[j]
  }

  /**
   * The labels after adding `more` one by one: a label already present keeps its place, a
   * new one goes at the end, as assigning frame columns by name does.
   */
  function MergeNames(names: seq<string>, more: seq<string>): (r: seq<string>)
    ensures names <= r
    ensures forall n :: n in r <==> n in names || n in more
    ensures Distinct(names) ==> Distinct(r)
    decreases |more|
  {
    if |more| == 0 then names
    else MergeNames(if more[0] in names then names else names + [more[0]], more[1..])
  }

  /** Merging a concatenation merges its parts in turn. */
  lemma {:induction false} MergeConcat(names: seq<string>, a: seq<string>, b: seq<string>)
    ensures MergeNames(names, a + b) == MergeNames(MergeNames(names, a), b)
    decreases |a|
  {
    if |a| > 0 {
      assert (a + b)[0] == a[0] && (a + b)[1..] == a[1..] + b;
      MergeConcat(if a[0] in names then names else names + [a[0]], a[1..], b);
    } else {
      assert a + b == b;
    }
  }

  /** Labels that are all present already change nothing. */
  lemma {:induction false} MergePresent(names: seq<string>, more: seq<string>)
    requires forall j :: 0 <= j < |more| ==> more[j] in names
    ensures MergeNames(names, more) == names
    decreases |more|
  {
    if |more| > 0 {
      MergePresent(names, more[1..]);
    }
  }

  /** Labels that are all new and distinct are appended in order. */
  lemma {:induction false} MergeDistinct(names: seq<string>, more: seq<string>)
    requires Distinct(names + more)
    ensures MergeNames(names, more) == names + more
    decreases |more|
  {
    if |more| > 0 {
      assert (names + more)[|names|] == more[0];
      assert forall j :: 0 <= j < |names| ==> (names + more)[j] == names[j];
      assert more[0] !in names;
      assert names + [more[0]] + more[1..] == names + more;
      MergeDistinct(names + [more[0]], more[1..]);
    }
  }

  /** Every count in the row is at least zero. */
  predicate CountsNonNegative(row: Row) {
    forall j :: 0 <= j < |row| && row[j].cell.CountValue? ==> row[j].cell.count >= 0
  }

  /** numpy's integer index into an axis of length n: negative indices count from the end. */
  function NpIndex(n: nat, i: int): (r: Option<nat>)
    ensures r.Some? <==> -(n as int) <= i < n
    ensures r.Some? ==> r.value < n && (r.value == i || r.value == i + n)
  {
    if 0 <= i < n then Some(i) else if -(n as int) <= i < 0 then Some(i + n) else None
  }

  /** table[i, j, k], or None where numpy raises IndexError. */
  function Lookup3(table: Table, i: int, j: int, k: int): (r: Option<real>)
    ensures 0 <= i && 0 <= j && 0 <= k ==>
      (r.Some? <==> i < |table| && j < |table[i]| && k < |table[i][j]|)
    ensures 0 <= i && 0 <= j && 0 <= k && r.Some? ==> r.value == table[i][j][k]
  {
    match NpIndex(|table|, i)
    case None => None
    case Some(a) =>
      match NpIndex(|table[a]|, j)
      case None => None
      case Some(b) =>
        match NpIndex(|table[a][b]|, k)
        case None => None
        case Some(c) => Some(table[a][b][c])
  }

  /**
   * names[i] for the names Series: its index is the row number, so the lookup is by label and
   * a negative i is a missing key, not a position from the end.
   */
  function NameAt(names: seq<string>, i: int): (r: Option<string>)
    ensures r.Some? <==> 0 <= i < |names|
    ensures r.Some? ==> r.value == names[i]
  {
    if 0 <= i < |names| then Some(names[i]) else None
  }

  /** int(x) for a float: truncation toward zero. */
  function Trunc(x: real): (r: int)
    ensures x >= 0.0 ==> r as real <= x < r as real + 1.0
    ensures x < 0.0 ==> r as real - 1.0 < x <= r as real
  {
    if x >= 0.0 then x.Floor else -((-x).Floor)
  }

  /** int(np.max([x, 0])): negative values become 0, the rest are truncated. */
  function ClampCount(x: real): (r: int)
    ensures r >= 0
    ensures x <= 0.0 ==> r == 0
    ensures x > 0.0 ==> r as real <= x < r as real + 1.0
  {
    Trunc(if x > 0.0 then x else 0.0)
  }

  /** The clamped count never decreases as its argument grows. */
  lemma ClampCountMonotone(x: real, y: real)
    requires x <= y
    ensures ClampCount(x) <= ClampCount(y)
  {
  }

  /** The daily_scales key of a date: str(month) + '-' + str(day), without zero padding. */
  function ScaleKey(month: nat, day: nat): (key: string)
    ensures '-' in key
    ensures forall k :: 0 <= k < |key| && key[k] == '-' ==>
      Unpadded(key[..k], month) && Unpadded(key[k + 1..], day)
  {
    DashBetweenNumerals(NatToString(month), month, NatToString(day), day);
    NatToString(month) + "-" + NatToString(day)
  }

  /** The first column called `name`. */
  function FindColumn(row: Row, name: string): (r: Option<nat>)
    ensures r.Some? ==> r.value < |row| && row[r.value].name == name
    ensures r.Some? ==> forall j :: 0 <= j < r.value ==> row[j].name != name
    ensures r.None? <==> name !in ColumnNames(row)
  {
    if |row| == 0 then None
    else if row[0].name == name then
      assert ColumnNames(row)[0] == name;
      Some(0)
    else
      match FindColumn(row[1..], name)
      case None =>
        assert ColumnNames(row) == [row[0].name] + ColumnNames(row[1..]);
        None
      case Some(j) =>
        assert ColumnNames(row)[j + 1] == name;
        Some(j + 1)
  }

  /**
   * frame[name] = value: an existing column keeps its place and takes the new value, a new
   * column goes at the end.
   */
  function SetColumn(row: Row, name: string, cell: Cell): (r: Row)
    ensures ColumnNames(r)
         == if name in ColumnNames(row) then ColumnNames(row) else ColumnNames(row) + [name]
    ensures forall j :: 0 <= j < |row| && row[j].name != name ==> r[j] == row[j]
    ensures Distinct(ColumnNames(row)) ==> Distinct(ColumnNames(r))
    ensures Distinct(ColumnNames(row)) ==>
      forall j :: 0 <= j < |r| && r[j].name == name ==> r[j].cell == cell
    ensures CountsNonNegative(row) && (cell.CountValue? ==> cell.count >= 0) ==> CountsNonNegative(r)
  {
    match FindColumn(row, name)
    case Some(i) => row[i := Column(name, cell)]
    case None => row + [Column(name, cell)]
  }

  /** The columns set one after another. */
  function SetColumns(row: Row, columns: seq<Column>): (r: Row)
    ensures Distinct(ColumnNames(row)) ==> Distinct(ColumnNames(r))
    ensures CountsNonNegative(row) && CountsNonNegative(columns) ==> CountsNonNegative(r)
    decreases |columns|
  {
    if |columns| == 0 then row
    else SetColumns(SetColumn(row, columns[0].name, columns[0].cell), columns[1..])
  }

  /**
   * The columns one location contributes, or the "Invalid location index" error when any of
   * its lookups fails: "<name>_low", "<name>_mid", "<name>_high" with the confidence
   * interval, "<name>" without.
   */
  function LocationColumns(tb: Tables, id: int, weekday: nat, hour: nat, scale: real, ci: bool)
    : (r: Result<seq<Column>>)
    ensures r.Ok? <==>
      && 0 <= id < |tb.locationNames|
      && id < |tb.avgPreds| && weekday < |tb.avgPreds[id]| && hour < |tb.avgPreds[id][weekday]|
      && (ci ==> id < |tb.confStds| && weekday < |tb.confStds[id]|
                 && hour < |tb.confStds[id][weekday]|)
    ensures r.Err? ==> r.error == InvalidLocationIndex
    ensures r.Ok? ==> ColumnNames(r.value) == SuffixedNames(tb.locationNames[id], ci)
    ensures r.Ok? ==> CountsNonNegative(r.value)
  {
    match (Lookup3(tb.avgPreds, id, weekday, hour), NameAt(tb.locationNames, id))
    case (Some(average), Some(name)) =>
      var prediction: real := Trunc(average) as real;
      if ci then
        match Lookup3(tb.confStds, id, weekday, hour)
        case None => Err(InvalidLocationIndex)
        case Some(std) =>
          Ok(Band(name, prediction, std, scale))
      else
        Ok(Single(name, prediction, scale))
    case _ => Err(InvalidLocationIndex)
  }

  /** The three columns of a confidence band: mean minus, at and plus one deviation. */
  function Band(name: string, prediction: real, std: real, scale: real): seq<Column> {
    [Column(name + "_low", CountValue(ClampCount((prediction - std) * scale))),
     Column(name + "_mid", CountValue(ClampCount(prediction * scale))),
     Column(name + "_high", CountValue(ClampCount((prediction + std) * scale)))]
  }

  /** The one column of a location without the confidence interval. */
  function Single(name: string, prediction: real, scale: real): seq<Column> {
    [Column(name, CountValue(ClampCount(prediction * scale)))]
  }

  /** The names of one location's columns. */
  function SuffixedNames(name: string, ci: bool): seq<string> {
    if ci then [name + "_low", name + "_mid", name + "_high"] else [name]
  }

  /** The blocks joined in order. */
  function Flatten<T>(blocks: seq<seq<T>>): seq<T> {
    if |blocks| == 0 then [] else blocks[0] + Flatten(blocks[1..])
  }

  /** Blocks of three lie side by side: element k of block i sits at 3 * i + k. */
  lemma {:induction false} FlattenTriples<T>(blocks: seq<seq<T>>)
    requires forall i :: 0 <= i < |blocks| ==> |blocks[i]| == 3
    ensures |Flatten(blocks)| == 3 * |blocks|
    ensures forall i, k :: 0 <= i < |blocks| && 0 <= k < 3 ==> Flatten(blocks)[3 * i + k] == blocks[i][k]
  {
    if |blocks| > 0 {
      FlattenTriples(blocks[1..]);
      assert forall i :: 1 <= i < |blocks| ==> blocks[i] == blocks[1..][i - 1];
    }
  }

  /** Blocks of one lie side by side: block i is element i. */
  lemma {:induction false} FlattenSingles<T>(blocks: seq<seq<T>>)
    requires forall i :: 0 <= i < |blocks| ==> |blocks[i]| == 1
    ensures |Flatten(blocks)| == |blocks|
    ensures forall i :: 0 <= i < |blocks| ==> Flatten(blocks)[i] == blocks[i][0]
  {
    if |blocks| > 0 {
      FlattenSingles(blocks[1..]);
      assert forall i :: 1 <= i < |blocks| ==> blocks[i] == blocks[1..][i - 1];
    }
  }

  /** The names of the joined columns are the joined names. */
  lemma {:induction false} NamesOfFlatten(blocks: seq<Row>)
    ensures ColumnNames(Flatten(blocks))
         == Flatten(seq(|blocks|, i requires 0 <= i < |blocks| => ColumnNames(blocks[i])))
  {
    var nameBlocks := seq(|blocks|, i requires 0 <= i < |blocks| => ColumnNames(blocks[i]));
    if |blocks| > 0 {
      NamesOfFlatten(blocks[1..]);
      assert nameBlocks[1..] == seq(|blocks[1..]|, i requires 0 <= i < |blocks[1..]| => ColumnNames(blocks[1..][i]));
      assert ColumnNames(blocks[0] + Flatten(blocks[1..]))
          == ColumnNames(blocks[0]) + ColumnNames(Flatten(blocks[1..]));
    }
  }

  /** The column names the requested locations contribute, in order. */
  function LayoutNames(names: seq<string>, ids: seq<int>, ci: bool): seq<string>
    requires forall i :: 0 <= i < |ids| ==> 0 <= ids[i] < |names|
  {
    Flatten(seq(|ids|, i requires 0 <= i < |ids| => SuffixedNames(names[ids[i]], ci)))
  }

  /** All requested locations resolve in the tables. */
  predicate AllResolve(tb: Tables, ids: seq<int>, weekday: nat, hour: nat, scale: real, ci: bool) {
    forall i :: 0 <= i < |ids| ==> LocationColumns(tb, ids[i], weekday, hour, scale, ci).Ok?
  }

  /** Each requested location's columns. */
  function LocationBlocks(tb: Tables, ids: seq<int>, weekday: nat, hour: nat, scale: real, ci: bool)
    : (blocks: seq<Row>)
    requires AllResolve(tb, ids, weekday, hour, scale, ci)
  {
    seq(|ids|, i requires 0 <= i < |ids| => LocationColumns(tb, ids[i], weekday, hour, scale, ci).value)
  }

  /** The names of the requested locations' columns are the layout's names. */
  lemma LocationBlockNames(tb: Tables, ids: seq<int>, weekday: nat, hour: nat, scale: real, ci: bool)
    requires AllResolve(tb, ids, weekday, hour, scale, ci)
    ensures forall i :: 0 <= i < |ids| ==> 0 <= ids[i] < |tb.locationNames|
    ensures ColumnNames(Flatten(LocationBlocks(tb, ids, weekday, hour, scale, ci)))
         == LayoutNames(tb.locationNames, ids, ci)
  {
    var blocks := LocationBlocks(tb, ids, weekday, hour, scale, ci);
    NamesOfFlatten(blocks);
    assert seq(|blocks|, i requires 0 <= i < |blocks| => ColumnNames(blocks[i]))
        == seq(|ids|, i requires 0 <= i < |ids| => SuffixedNames(tb.locationNames[ids[i]], ci));
  }

  /** The locations' columns added in the order requested; the first failing lookup aborts. */
  function AddLocations(tb: Tables, row: Row, ids: seq<int>, weekday: nat, hour: nat, scale: real,
                        ci: bool): (r: Result<Row>)
    ensures r.Ok? <==> forall i :: 0 <= i < |ids| ==> LocationColumns(tb, ids[i], weekday, hour, scale, ci).Ok?
    ensures r.Err? ==> r.error == InvalidLocationIndex
    ensures r.Ok? && Distinct(ColumnNames(row)) ==> Distinct(ColumnNames(r.value))
    ensures r.Ok? && CountsNonNegative(row) ==> CountsNonNegative(r.value)
    decreases |ids|
  {
    if |ids| == 0 then Ok(row)
    else
      match LocationColumns(tb, ids[0], weekday, hour, scale, ci)
      case Err(e) => Err(e)
      case Ok(columns) =>
        var r := AddLocations(tb, SetColumns(row, columns), ids[1..], weekday, hour, scale, ci);
        assert forall i :: 1 <= i < |ids| ==> ids[i] == ids[1..][i - 1];
        r
  }

  /** Setting a column under a new name appends it. */
  lemma SetNewColumn(row: Row, name: string, cell: Cell)
    requires name !in ColumnNames(row)
    ensures SetColumn(row, name, cell) == row + [Column(name, cell)]
  {
  }

  /** The first of columns with names distinct from the row's is not among the row's names. */
  lemma FirstNameNew(row: Row, columns: seq<Column>)
    requires Distinct(ColumnNames(row + columns)) && |columns| > 0
    ensures columns[0].name !in ColumnNames(row)
  {
    var names := ColumnNames(row + columns);
    assert names[|row|] == columns[0].name;
    forall j | 0 <= j < |row|
      ensures ColumnNames(row)[j] != columns[0].name
    {
      assert ColumnNames(row)[j] == names[j];
    }
  }

  /** The first of columns with names all new and distinct is appended before the rest are set. */
  lemma SetFirstNew(row: Row, columns: seq<Column>)
    requires Distinct(ColumnNames(row + columns)) && |columns| > 0
    ensures SetColumns(row, columns) == SetColumns(row + [columns[0]], columns[1..])
  {
    var c := columns[0];
    FirstNameNew(row, columns);
    SetNewColumn(row, c.name, c.cell);
  }

  /** Columns whose names are all new and distinct are appended in order. */
  lemma {:induction false} SetNewColumns(row: Row, columns: seq<Column>)
    requires Distinct(ColumnNames(row + columns))
    ensures SetColumns(row, columns) == row + columns
    decreases |columns|
  {
    if |columns| > 0 {
      var next, rest := row + [columns[0]], columns[1..];
      assert next + rest == row + columns;
      SetFirstNew(row, columns);
      SetNewColumns(next, rest);
    }
  }

  /**
   * When the existing columns and the locations' column names are all distinct, the
   * locations' columns follow the existing ones, in the order requested.
   */
  lemma {:induction false} AddLocationsAppends(tb: Tables, row: Row, ids: seq<int>, weekday: nat,
                                               hour: nat, scale: real, ci: bool)
    requires AllResolve(tb, ids, weekday, hour, scale, ci)
    requires Distinct(ColumnNames(row + Flatten(LocationBlocks(tb, ids, weekday, hour, scale, ci))))
    ensures AddLocations(tb, row, ids, weekday, hour, scale, ci)
         == Ok(row + Flatten(LocationBlocks(tb, ids, weekday, hour, scale, ci)))
    decreases |ids|
  {
    if |ids| > 0 {
      var blocks := LocationBlocks(tb, ids, weekday, hour, scale, ci);
      var head := blocks[0];
      var rest := blocks[1..];
      assert rest == LocationBlocks(tb, ids[1..], weekday, hour, scale, ci);
      assert row + Flatten(blocks) == (row + head) + Flatten(rest);
      assert Distinct(ColumnNames(row + head)) by {
        var all := ColumnNames(row + Flatten(blocks));
        assert forall i :: 0 <= i < |row + head| ==> ColumnNames(row + head)[i] == all[i];
      }
      assert LocationColumns(tb, ids[0], weekday, hour, scale, ci) == Ok(head);
      SetNewColumns(row, head);
      AddLocationsAppends(tb, row + head, ids[1..], weekday, hour, scale, ci);
    } else {
      assert row + Flatten(LocationBlocks(tb, ids, weekday, hour, scale, ci)) == row;
    }
  }

  /** Setting columns leaves the row's labels merged with theirs. */
  lemma {:induction false} SetColumnsNames(row: Row, columns: seq<Column>)
    ensures ColumnNames(SetColumns(row, columns)) == MergeNames(ColumnNames(row), ColumnNames(columns))
    decreases |columns|
  {
    if |columns| > 0 {
      var c := columns[0];
      var next := SetColumn(row, c.name, c.cell);
      SetColumnsNames(next, columns[1..]);
      assert ColumnNames(columns)[0] == c.name;
      assert ColumnNames(columns)[1..] == ColumnNames(columns[1..]);
    } else {
      assert ColumnNames(columns) == [];
    }
  }

  /** The layout's labels: the first location's labels, then the rest's. */
  lemma LayoutNamesCons(names: seq<string>, ids: seq<int>, ci: bool)
    requires forall i :: 0 <= i < |ids| ==> 0 <= ids[i] < |names|
    requires |ids| > 0
    ensures LayoutNames(names, ids, ci) == SuffixedNames(names[ids[0]], ci) + LayoutNames(names, ids[1..], ci)
  {
    var blocks := seq(|ids|, i requires 0 <= i < |ids| => SuffixedNames(names[ids[i]], ci));
    assert blocks[1..] == seq(|ids[1..]|, i requires 0 <= i < |ids[1..]| => SuffixedNames(names[ids[1..][i]], ci));
  }

  /** The first location that resolves sets its columns before the rest are added. */
  lemma AddLocationsStep(tb: Tables, row: Row, ids: seq<int>, weekday: nat, hour: nat, scale: real,
                         ci: bool)
    requires |ids| > 0 && LocationColumns(tb, ids[0], weekday, hour, scale, ci).Ok?
    ensures AddLocations(tb, row, ids, weekday, hour, scale, ci)
         == AddLocations(tb, SetColumns(row, LocationColumns(tb, ids[0], weekday, hour, scale, ci).value),
                         ids[1..], weekday, hour, scale, ci)
  {
  }

  /** The locations' labels in layout order, a repeated label keeping its first place. */
  lemma {:induction false} AddLocationsNames(tb: Tables, row: Row, ids: seq<int>, weekday: nat,
                                             hour: nat, scale: real, ci: bool)
    requires AllResolve(tb, ids, weekday, hour, scale, ci)
    ensures forall i :: 0 <= i < |ids| ==> 0 <= ids[i] < |tb.locationNames|
    ensures AddLocations(tb, row, ids, weekday, hour, scale, ci).Ok?
    ensures ColumnNames(AddLocations(tb, row, ids, weekday, hour, scale, ci).value)
         == MergeNames(ColumnNames(row), LayoutNames(tb.locationNames, ids, ci))
    decreases |ids|
  {
    if |ids| > 0 {
      var names := tb.locationNames;
      var columns := LocationColumns(tb, ids[0], weekday, hour, scale, ci).value;
      var rest := ids[1..];
      assert AllResolve(tb, rest, weekday, hour, scale, ci) by {
        assert forall i :: 0 <= i < |rest| ==> rest[i] == ids[i + 1];
      }
      AddLocationsStep(tb, row, ids, weekday, hour, scale, ci);
      AddLocationsNames(tb, SetColumns(row, columns), rest, weekday, hour, scale, ci);
      SetColumnsNames(row, columns);
      LayoutNamesCons(names, ids, ci);
      MergeConcat(ColumnNames(row), ColumnNames(columns), LayoutNames(names, rest, ci));
    }
  }

  /**
   * predict's labels: "Datetime", then each location's labels in order, a repeated label
   * keeping its first place.
   */
  lemma PredictNames(tb: Tables, year: int, month: int, day: int, hour: int, ids: seq<int>, ci: bool)
    requires Predict(tb, year, month, day, hour, ids, ci).Ok?
    ensures ColumnNames(Predict(tb, year, month, day, hour, ids, ci).value)
         == MergeNames(["Datetime"], LayoutNames(tb.locationNames, ids, ci))
  {
    var row := [DatetimeColumn(DateHour(year, month, day, hour))];
    PredictAddsLocations(tb, year, month, day, hour, ids, ci);
    HeadNames(tb, row, ids, Weekday(year, month, day), hour, tb.dailyScales[ScaleKey(month, day)], ci);
  }

  /** The labels of a "Datetime" row once the locations are added. */
  lemma HeadNames(tb: Tables, head: Row, ids: seq<int>, weekday: nat, hour: nat, scale: real, ci: bool)
    requires ColumnNames(head) == ["Datetime"]
    requires AllResolve(tb, ids, weekday, hour, scale, ci)
    ensures forall i :: 0 <= i < |ids| ==> 0 <= ids[i] < |tb.locationNames|
    ensures AddLocations(tb, head, ids, weekday, hour, scale, ci).Ok?
    ensures ColumnNames(AddLocations(tb, head, ids, weekday, hour, scale, ci).value)
         == MergeNames(["Datetime"], LayoutNames(tb.locationNames, ids, ci))
  {
    AddLocationsNames(tb, head, ids, weekday, hour, scale, ci);
  }

  /** A non-negative deviation scaled by a non-negative factor widens the band around p. */
  lemma ScaledBandOrdered(p: real, std: real, scale: real)
    requires std >= 0.0 && scale >= 0.0
    ensures ClampCount((p - std) * scale) <= ClampCount(p * scale) <= ClampCount((p + std) * scale)
  {
    assert (p - std) * scale == p * scale - std * scale;
    assert (p + std) * scale == p * scale + std * scale;
    assert std * scale >= 0.0;
    ClampCountMonotone((p - std) * scale, p * scale);
    ClampCountMonotone(p * scale, (p + std) * scale);
  }

  /** The counts of a band with non-negative deviation and scale factor rise from low to high. */
  lemma BandCountsOrdered(name: string, p: real, std: real, scale: real)
    requires std >= 0.0 && scale >= 0.0
    ensures var band := Band(name, p, std, scale);
      band[0].cell.count <= band[1].cell.count <= band[2].cell.count
  {
    var band := Band(name, p, std, scale);
    assert band[0].cell.count == ClampCount((p - std) * scale);
    assert band[1].cell.count == ClampCount(p * scale);
    assert band[2].cell.count == ClampCount((p + std) * scale);
    ScaledBandOrdered(p, std, scale);
  }

  /** A location with a confidence band contributes the band around its truncated mean. */
  lemma LocationBand(tb: Tables, id: int, weekday: nat, hour: nat, scale: real)
    requires LocationColumns(tb, id, weekday, hour, scale, true).Ok?
    ensures Lookup3(tb.avgPreds, id, weekday, hour).Some?
    ensures Lookup3(tb.confStds, id, weekday, hour).Some?
    ensures NameAt(tb.locationNames, id).Some?
    ensures LocationColumns(tb, id, weekday, hour, scale, true)
         == Ok(Band(NameAt(tb.locationNames, id).value,
                    Trunc(Lookup3(tb.avgPreds, id, weekday, hour).value) as real,
                    Lookup3(tb.confStds, id, weekday, hour).value, scale))
  {
  }

  /** Without the confidence interval, a location that resolves gives one column. */
  lemma LocationSingle(tb: Tables, id: int, weekday: nat, hour: nat, scale: real)
    requires LocationColumns(tb, id, weekday, hour, scale, false).Ok?
    ensures Lookup3(tb.avgPreds, id, weekday, hour).Some?
    ensures NameAt(tb.locationNames, id).Some?
    ensures LocationColumns(tb, id, weekday, hour, scale, false)
         == Ok(Single(NameAt(tb.locationNames, id).value,
                      Trunc(Lookup3(tb.avgPreds, id, weekday, hour).value) as real, scale))
  {
  }

  /**
   * The cells of a location's columns for truncated mean p: without the confidence interval one
   * column holding p scaled, clamped at 0 and truncated; with it, three columns holding the same
   * for p - std, p and p + std.
   */
  predicate CellsAre(columns: seq<Column>, p: real, std: real, scale: real, ci: bool) {
    && (ci ==>
          && |columns| == 3
          && columns[0].cell == CountValue(ClampCount((p - std) * scale))
          && columns[1].cell == CountValue(ClampCount(p * scale))
          && columns[2].cell == CountValue(ClampCount((p + std) * scale)))
    && (!ci ==> |columns| == 1 && columns[0].cell == CountValue(ClampCount(p * scale)))
  }

  /**
   * The counts a location contributes: the cells CellsAre describes, for its average at the
   * weekday and hour truncated toward zero, its deviation there and the day's scale factor.
   */
  predicate HasCounts(tb: Tables, id: int, weekday: nat, hour: nat, scale: real, ci: bool, columns: seq<Column>) {
    && 0 <= id < |tb.avgPreds| && weekday < |tb.avgPreds[id]| && hour < |tb.avgPreds[id][weekday]|
    && (ci ==> id < |tb.confStds| && weekday < |tb.confStds[id]| && hour < |tb.confStds[id][weekday]|)
    && CellsAre(columns, Trunc(tb.avgPreds[id][weekday][hour]) as real,
                if ci then tb.confStds[id][weekday][hour] else 0.0, scale, ci)
  }

  /** A band's cells are those CellsAre describes. */
  lemma BandCells(name: string, p: real, std: real, scale: real)
    ensures CellsAre(Band(name, p, std, scale), p, std, scale, true)
  {
    var band := Band(name, p, std, scale);
    assert band[0].cell == CountValue(ClampCount((p - std) * scale));
    assert band[2].cell == CountValue(ClampCount((p + std) * scale));
  }

  /** A single column's cell is the one CellsAre describes. */
  lemma SingleCells(name: string, p: real, std: real, scale: real)
    ensures CellsAre(Single(name, p, scale), p, std, scale, false)
  {
  }

  /** A location that resolves contributes the counts its table entries give. */
  lemma LocationCounts(tb: Tables, id: int, weekday: nat, hour: nat, scale: real, ci: bool)
    requires LocationColumns(tb, id, weekday, hour, scale, ci).Ok?
    ensures HasCounts(tb, id, weekday, hour, scale, ci, LocationColumns(tb, id, weekday, hour, scale, ci).value)
  {
    var columns := LocationColumns(tb, id, weekday, hour, scale, ci).value;
    var p := Trunc(tb.avgPreds[id][weekday][hour]) as real;
    assert Lookup3(tb.avgPreds, id, weekday, hour) == Some(tb.avgPreds[id][weekday][hour]);
    if ci {
      LocationBand(tb, id, weekday, hour, scale);
      var std := tb.confStds[id][weekday][hour];
      assert Lookup3(tb.confStds, id, weekday, hour) == Some(std);
      assert columns == Band(tb.locationNames[id], p, std, scale);
      BandCells(tb.locationNames[id], p, std, scale);
    } else {
      LocationSingle(tb, id, weekday, hour, scale);
      assert columns == Single(tb.locationNames[id], p, scale);
      SingleCells(tb.locationNames[id], p, 0.0, scale);
    }
  }

  /** With non-negative deviation and scale factor the band is ordered: low <= mid <= high. */
  lemma BandOrdered(tb: Tables, id: int, weekday: nat, hour: nat, scale: real)
    requires LocationColumns(tb, id, weekday, hour, scale, true).Ok?
    requires Lookup3(tb.confStds, id, weekday, hour).value >= 0.0 && scale >= 0.0
    ensures var band := LocationColumns(tb, id, weekday, hour, scale, true).value;
      band[0].cell.count <= band[1].cell.count <= band[2].cell.count
  {
    LocationBand(tb, id, weekday, hour, scale);
    BandCountsOrdered(NameAt(tb.locationNames, id).value,
                      Trunc(Lookup3(tb.avgPreds, id, weekday, hour).value) as real,
                      Lookup3(tb.confStds, id, weekday, hour).value, scale);
  }


  /** The "Datetime" column of the hour. */
  function DatetimeColumn(t: DateHour): Column
    requires Valid(t)
  {
    Column("Datetime", TextValue(DatetimeText(t)))
  }

  /**
   * predict(year, month, day, hour, locations, ci). dt.date's ValueError comes first, then
   * the scale lookup (a missing key is reported as an invalid location), then dt.datetime's
   * check of the hour, then the locations in order.
   */
  function Predict(tb: Tables, year: int, month: int, day: int, hour: int, locations: seq<int>,
                   ci: bool): (r: Result<Row>)
    ensures !ValidDate(year, month, day) ==> r.Err? && DateCheck(year, month, day) == Some(r.error)
    ensures ValidDate(year, month, day) && ScaleKey(month, day) !in tb.dailyScales ==>
      r == Err(InvalidLocationIndex)
    ensures ValidDate(year, month, day) && ScaleKey(month, day) in tb.dailyScales && !FitsCInt(hour)
      ==> r == Err(DateOverflowError)
    ensures (ValidDate(year, month, day) && ScaleKey(month, day) in tb.dailyScales && FitsCInt(hour)
             && !(0 <= hour <= 23)) ==> r == Err(DateValueError(HourOutOfRange))
    ensures (ValidDate(year, month, day) && ScaleKey(month, day) in tb.dailyScales && 0 <= hour <= 23
             && r.Err?) ==> r.error == InvalidLocationIndex
    ensures r.Ok? <==>
      && ValidDate(year, month, day) && ScaleKey(month, day) in tb.dailyScales && 0 <= hour <= 23
      && AllResolve(tb, locations, Weekday(year, month, day), hour,
                    tb.dailyScales[ScaleKey(month, day)], ci)
    ensures r.Ok? ==> CountsNonNegative(r.value)
    ensures r.Ok? ==> forall i :: 0 <= i < |locations| ==> 0 <= locations[i] < |tb.locationNames|
  {
    match DateCheck(year, month, day)
    case Some(e) => Err(e)
    case None => PredictOnDate(tb, year, month, day, hour, locations, ci)
  }

  /** predict once dt.date has accepted the date: the scale lookup, the hour, then the locations. */
  function PredictOnDate(tb: Tables, year: int, month: int, day: int, hour: int, locations: seq<int>,
                         ci: bool): (r: Result<Row>)
    requires ValidDate(year, month, day)
    ensures ScaleKey(month, day) !in tb.dailyScales ==> r == Err(InvalidLocationIndex)
    ensures ScaleKey(month, day) in tb.dailyScales && !FitsCInt(hour) ==> r == Err(DateOverflowError)
    ensures (ScaleKey(month, day) in tb.dailyScales && FitsCInt(hour) && !(0 <= hour <= 23)) ==>
      r == Err(DateValueError(HourOutOfRange))
    ensures ScaleKey(month, day) in tb.dailyScales && 0 <= hour <= 23 && r.Err? ==> r.error == InvalidLocationIndex
    ensures r.Ok? <==>
      && ScaleKey(month, day) in tb.dailyScales && 0 <= hour <= 23
      && AllResolve(tb, locations, Weekday(year, month, day), hour,
                    tb.dailyScales[ScaleKey(month, day)], ci)
    ensures r.Ok? ==> CountsNonNegative(r.value)
    ensures r.Ok? ==> forall i :: 0 <= i < |locations| ==> 0 <= locations[i] < |tb.locationNames|
  {
    var key := ScaleKey(month, day);
    if key !in tb.dailyScales then Err(InvalidLocationIndex)
    else PredictScaled(tb, year, month, day, hour, locations, ci, tb.dailyScales[key])
  }

  /** predict once the date is accepted and its scale factor found: the hour, then the locations. */
  function PredictScaled(tb: Tables, year: int, month: int, day: int, hour: int, locations: seq<int>,
                         ci: bool, scale: real): (r: Result<Row>)
    requires ValidDate(year, month, day)
    ensures !FitsCInt(hour) ==> r == Err(DateOverflowError)
    ensures FitsCInt(hour) && !(0 <= hour <= 23) ==> r == Err(DateValueError(HourOutOfRange))
    ensures 0 <= hour <= 23 && r.Err? ==> r.error == InvalidLocationIndex
    ensures r.Ok? <==> 0 <= hour <= 23 && AllResolve(tb, locations, Weekday(year, month, day), hour, scale, ci)
    ensures r.Ok? ==> CountsNonNegative(r.value)
    ensures r.Ok? ==> forall i :: 0 <= i < |locations| ==> 0 <= locations[i] < |tb.locationNames|
  {
    if !FitsCInt(hour) then Err(DateOverflowError)
    else if !(0 <= hour <= 23) then Err(DateValueError(HourOutOfRange))
    else
      var t := DateHour(year, month, day, hour);
      AddLocations(tb, [DatetimeColumn(t)], locations, Weekday(year, month, day), hour, scale, ci)
  }

  /** For a valid date, hour and scale key, predict sets each location's columns on the "Datetime" row. */
  lemma PredictAddsLocations(tb: Tables, year: int, month: int, day: int, hour: int, ids: seq<int>, ci: bool)
    requires ValidDate(year, month, day) && ScaleKey(month, day) in tb.dailyScales && 0 <= hour <= 23
    ensures Predict(tb, year, month, day, hour, ids, ci)
         == AddLocations(tb, [DatetimeColumn(DateHour(year, month, day, hour))], ids,
                         Weekday(year, month, day), hour, tb.dailyScales[ScaleKey(month, day)], ci)
  {
    assert DateCheck(year, month, day).None?;
    assert Predict(tb, year, month, day, hour, ids, ci) == PredictOnDate(tb, year, month, day, hour, ids, ci);
    assert PredictOnDate(tb, year, month, day, hour, ids, ci)
        == PredictScaled(tb, year, month, day, hour, ids, ci, tb.dailyScales[ScaleKey(month, day)]);
  }

  /** The labels of two rows side by side. */
  lemma NamesOfJoin(a: Row, b: Row)
    ensures ColumnNames(a + b) == ColumnNames(a) + ColumnNames(b)
  {
  }

  /**
   * When the row's column names are distinct, predict's row is the "Datetime" column
   * followed by each requested location's columns, in the order requested.
   */
  lemma PredictAppends(tb: Tables, year: int, month: int, day: int, hour: int, ids: seq<int>, ci: bool)
    requires ValidDate(year, month, day) && ScaleKey(month, day) in tb.dailyScales && 0 <= hour <= 23
    requires AllResolve(tb, ids, Weekday(year, month, day), hour, tb.dailyScales[ScaleKey(month, day)], ci)
    requires Distinct(["Datetime"] + LayoutNames(tb.locationNames, ids, ci))
    ensures Predict(tb, year, month, day, hour, ids, ci)
         == Ok([DatetimeColumn(DateHour(year, month, day, hour))]
               + Flatten(LocationBlocks(tb, ids, Weekday(year, month, day), hour,
                                        tb.dailyScales[ScaleKey(month, day)], ci)))
  {
    PredictAddsLocations(tb, year, month, day, hour, ids, ci);
    HeadAppends(tb, [DatetimeColumn(DateHour(year, month, day, hour))], ids, Weekday(year, month, day), hour,
                tb.dailyScales[ScaleKey(month, day)], ci);
  }

  /**
   * A "Datetime" row to which locations with labels distinct from each other and from
   * "Datetime" are added is followed by each location's columns, in the order requested.
   */
  lemma HeadAppends(tb: Tables, head: Row, ids: seq<int>, weekday: nat, hour: nat, scale: real, ci: bool)
    requires ColumnNames(head) == ["Datetime"]
    requires AllResolve(tb, ids, weekday, hour, scale, ci)
    requires Distinct(["Datetime"] + LayoutNames(tb.locationNames, ids, ci))
    ensures AddLocations(tb, head, ids, weekday, hour, scale, ci)
         == Ok(head + Flatten(LocationBlocks(tb, ids, weekday, hour, scale, ci)))
  {
    var flat := Flatten(LocationBlocks(tb, ids, weekday, hour, scale, ci));
    LocationBlockNames(tb, ids, weekday, hour, scale, ci);
    NamesOfJoin(head, flat);
    AddLocationsAppends(tb, head, ids, weekday, hour, scale, ci);
  }

  /** A leading entry followed by triples: triple i sits at 1 + 3 * i, 2 + 3 * i and 3 + 3 * i. */
  lemma TripleAt<T>(first: T, blocks: seq<seq<T>>, i: int)
    requires forall j :: 0 <= j < |blocks| ==> |blocks[j]| == 3
    requires 0 <= i < |blocks|
    ensures var row := [first] + Flatten(blocks);
      && |row| == 1 + 3 * |blocks|
      && row[1 + 3 * i] == blocks[i][0] && row[2 + 3 * i] == blocks[i][1] && row[3 + 3 * i] == blocks[i][2]
  {
    FlattenTriples(blocks);
    var flat := Flatten(blocks);
    assert flat[3 * i + 0] == blocks[i][0];
    assert flat[3 * i + 1] == blocks[i][1];
    assert flat[3 * i + 2] == blocks[i][2];
    assert ([first] + flat)[1 + 3 * i] == flat[3 * i];
    assert ([first] + flat)[2 + 3 * i] == flat[3 * i + 1];
    assert ([first] + flat)[3 + 3 * i] == flat[3 * i + 2];
  }

  /** A leading column followed by single columns: block i is column 1 + i. */
  lemma RowOfSingles<T>(first: T, blocks: seq<seq<T>>)
    requires forall i :: 0 <= i < |blocks| ==> |blocks[i]| == 1
    ensures |[first] + Flatten(blocks)| == 1 + |blocks|
    ensures forall i :: 0 <= i < |blocks| ==> ([first] + Flatten(blocks))[1 + i] == blocks[i][0]
  {
    FlattenSingles(blocks);
  }

  /**
   * The row's layout when its column names are distinct: "Datetime" first, then each
   * requested location in order, as a low/mid/high triple with the confidence interval and
   * as a single column without.
   */
  lemma PredictLayout(tb: Tables, year: int, month: int, day: int, hour: int, ids: seq<int>, ci: bool)
    requires ValidDate(year, month, day) && ScaleKey(month, day) in tb.dailyScales && 0 <= hour <= 23
    requires AllResolve(tb, ids, Weekday(year, month, day), hour, tb.dailyScales[ScaleKey(month, day)], ci)
    requires Distinct(["Datetime"] + LayoutNames(tb.locationNames, ids, ci))
    ensures Predict(tb, year, month, day, hour, ids, ci).Ok?
    ensures var row := Predict(tb, year, month, day, hour, ids, ci).value;
      var blocks := LocationBlocks(tb, ids, Weekday(year, month, day), hour,
                                   tb.dailyScales[ScaleKey(month, day)], ci);
      && |row| >= 1 && row[0] == DatetimeColumn(DateHour(year, month, day, hour))
      && (ci ==> |row| == 1 + 3 * |ids|)
      && (ci ==> forall i :: 0 <= i < |ids| ==>
            row[1 + 3 * i] == blocks[i][0] && row[2 + 3 * i] == blocks[i][1] && row[3 + 3 * i] == blocks[i][2])
      && (ci ==> forall i :: 0 <= i < |ids| ==>
            && row[1 + 3 * i].name == tb.locationNames[ids[i]] + "_low"
            && row[2 + 3 * i].name == tb.locationNames[ids[i]] + "_mid"
            && row[3 + 3 * i].name == tb.locationNames[ids[i]] + "_high")
      && (!ci ==> |row| == 1 + |ids|)
      && (!ci ==> forall i :: 0 <= i < |ids| ==>
            row[1 + i] == blocks[i][0] && row[1 + i].name == tb.locationNames[ids[i]])
  {
    PredictAppends(tb, year, month, day, hour, ids, ci);
    var first := DatetimeColumn(DateHour(year, month, day, hour));
    var weekday, scale := Weekday(year, month, day), tb.dailyScales[ScaleKey(month, day)];
    if ci {
      RowTriples(tb, first, ids, weekday, hour, scale);
    } else {
      RowSingles(tb, first, ids, weekday, hour, scale);
    }
  }

  /**
   * With the confidence interval, location i's triple sits at 1 + 3 * i, 2 + 3 * i and 3 + 3 * i
   * of a row that starts with one column, and carries the labels <name>_low, _mid and _high.
   */
  lemma RowTriples(tb: Tables, first: Column, ids: seq<int>, weekday: nat, hour: nat, scale: real)
    requires AllResolve(tb, ids, weekday, hour, scale, true)
    ensures forall i :: 0 <= i < |ids| ==> 0 <= ids[i] < |tb.locationNames|
    ensures var blocks := LocationBlocks(tb, ids, weekday, hour, scale, true);
      var row := [first] + Flatten(blocks);
      && |row| == 1 + 3 * |ids|
      && (forall i :: 0 <= i < |ids| ==>
            row[1 + 3 * i] == blocks[i][0] && row[2 + 3 * i] == blocks[i][1] && row[3 + 3 * i] == blocks[i][2])
      && (forall i :: 0 <= i < |ids| ==>
            && row[1 + 3 * i].name == tb.locationNames[ids[i]] + "_low"
            && row[2 + 3 * i].name == tb.locationNames[ids[i]] + "_mid"
            && row[3 + 3 * i].name == tb.locationNames[ids[i]] + "_high")
  {
    var blocks := LocationBlocks(tb, ids, weekday, hour, scale, true);
    var row := [first] + Flatten(blocks);
    FlattenTriples(blocks);
    forall i | 0 <= i < |ids|
      ensures 0 <= ids[i] < |tb.locationNames|
      ensures row[1 + 3 * i] == blocks[i][0] && row[2 + 3 * i] == blocks[i][1] && row[3 + 3 * i] == blocks[i][2]
      ensures row[1 + 3 * i].name == tb.locationNames[ids[i]] + "_low"
      ensures row[2 + 3 * i].name == tb.locationNames[ids[i]] + "_mid"
      ensures row[3 + 3 * i].name == tb.locationNames[ids[i]] + "_high"
    {
      assert ColumnNames(blocks[i]) == SuffixedNames(tb.locationNames[ids[i]], true);
      TripleAt(first, blocks, i);
      assert ColumnNames(blocks[i])[0] == blocks[i][0].name;
    }
  }

  /**
   * Without the confidence interval, location i's column sits at 1 + i of a row that starts
   * with one column, and carries the location's name.
   */
  lemma RowSingles(tb: Tables, first: Column, ids: seq<int>, weekday: nat, hour: nat, scale: real)
    requires AllResolve(tb, ids, weekday, hour, scale, false)
    ensures forall i :: 0 <= i < |ids| ==> 0 <= ids[i] < |tb.locationNames|
    ensures var blocks := LocationBlocks(tb, ids, weekday, hour, scale, false);
      var row := [first] + Flatten(blocks);
      && |row| == 1 + |ids|
      && forall i :: 0 <= i < |ids| ==>
            row[1 + i] == blocks[i][0] && row[1 + i].name == tb.locationNames[ids[i]]
  {
    var blocks := LocationBlocks(tb, ids, weekday, hour, scale, false);
    forall i | 0 <= i < |ids|
      ensures 0 <= ids[i] < |tb.locationNames|
      ensures ColumnNames(blocks[i]) == SuffixedNames(tb.locationNames[ids[i]], false)
    {
    }
    RowOfSingles(first, blocks);
  }

  /**
   * With distinct labels, location i's columns in predict's row (from 1 + 3 * i with the
   * confidence interval, at 1 + i without) hold the counts its table entries give.
   */
  lemma PredictCounts(tb: Tables, year: int, month: int, day: int, hour: int, ids: seq<int>, ci: bool)
    requires Predict(tb, year, month, day, hour, ids, ci).Ok?
    requires Distinct(["Datetime"] + LayoutNames(tb.locationNames, ids, ci))
    ensures 0 <= hour
    ensures var row := Predict(tb, year, month, day, hour, ids, ci).value;
      var weekday := Weekday(year, month, day);
      var scale := tb.dailyScales[ScaleKey(month, day)];
      && |row| == 1 + (if ci then 3 else 1) * |ids|
      && forall i :: 0 <= i < |ids| ==>
           HasCounts(tb, ids[i], weekday, hour, scale, ci,
                     if ci then row[1 + 3 * i..4 + 3 * i] else row[1 + i..2 + i])
  {
    if ci {
      PredictTripleCounts(tb, year, month, day, hour, ids);
    } else {
      PredictSingleCounts(tb, year, month, day, hour, ids);
    }
  }

  /** PredictCounts with the confidence interval. */
  lemma PredictTripleCounts(tb: Tables, year: int, month: int, day: int, hour: int, ids: seq<int>)
    requires Predict(tb, year, month, day, hour, ids, true).Ok?
    requires Distinct(["Datetime"] + LayoutNames(tb.locationNames, ids, true))
    ensures 0 <= hour
    ensures var row := Predict(tb, year, month, day, hour, ids, true).value;
      && |row| == 1 + 3 * |ids|
      && forall i :: 0 <= i < |ids| ==>
           HasCounts(tb, ids[i], Weekday(year, month, day), hour, tb.dailyScales[ScaleKey(month, day)], true,
                     row[1 + 3 * i..4 + 3 * i])
  {
    PredictLayout(tb, year, month, day, hour, ids, true);
    TripleRowCounts(tb, ids, Weekday(year, month, day), hour, tb.dailyScales[ScaleKey(month, day)],
                    Predict(tb, year, month, day, hour, ids, true).value);
  }

  /** PredictCounts without the confidence interval. */
  lemma PredictSingleCounts(tb: Tables, year: int, month: int, day: int, hour: int, ids: seq<int>)
    requires Predict(tb, year, month, day, hour, ids, false).Ok?
    requires Distinct(["Datetime"] + LayoutNames(tb.locationNames, ids, false))
    ensures 0 <= hour
    ensures var row := Predict(tb, year, month, day, hour, ids, false).value;
      && |row| == 1 + |ids|
      && forall i :: 0 <= i < |ids| ==>
           HasCounts(tb, ids[i], Weekday(year, month, day), hour, tb.dailyScales[ScaleKey(month, day)], false,
                     row[1 + i..2 + i])
  {
    PredictLayout(tb, year, month, day, hour, ids, false);
    SingleRowCounts(tb, ids, Weekday(year, month, day), hour, tb.dailyScales[ScaleKey(month, day)],
                    Predict(tb, year, month, day, hour, ids, false).value);
  }

  /** A row laid out as the locations' triples holds each location's counts in its triple. */
  lemma TripleRowCounts(tb: Tables, ids: seq<int>, weekday: nat, hour: nat, scale: real, row: Row)
    requires AllResolve(tb, ids, weekday, hour, scale, true)
    requires var blocks := LocationBlocks(tb, ids, weekday, hour, scale, true);
      && |row| == 1 + 3 * |ids|
      && forall i :: 0 <= i < |ids| ==>
           row[1 + 3 * i] == blocks[i][0] && row[2 + 3 * i] == blocks[i][1] && row[3 + 3 * i] == blocks[i][2]
    ensures forall i :: 0 <= i < |ids| ==> HasCounts(tb, ids[i], weekday, hour, scale, true, row[1 + 3 * i..4 + 3 * i])
  {
    var blocks := LocationBlocks(tb, ids, weekday, hour, scale, true);
    forall i | 0 <= i < |ids|
      ensures HasCounts(tb, ids[i], weekday, hour, scale, true, row[1 + 3 * i..4 + 3 * i])
    {
      LocationCounts(tb, ids[i], weekday, hour, scale, true);
      assert blocks[i] == LocationColumns(tb, ids[i], weekday, hour, scale, true).value;
      BlockCountsAt(tb, ids, weekday, hour, scale, true, row, 1 + 3 * i, i);
    }
  }

  /** A row laid out as the locations' single columns holds each location's count in its column. */
  lemma SingleRowCounts(tb: Tables, ids: seq<int>, weekday: nat, hour: nat, scale: real, row: Row)
    requires AllResolve(tb, ids, weekday, hour, scale, false)
    requires var blocks := LocationBlocks(tb, ids, weekday, hour, scale, false);
      && |row| == 1 + |ids|
      && forall i :: 0 <= i < |ids| ==> row[1 + i] == blocks[i][0]
    ensures forall i :: 0 <= i < |ids| ==> HasCounts(tb, ids[i], weekday, hour, scale, false, row[1 + i..2 + i])
  {
    var blocks := LocationBlocks(tb, ids, weekday, hour, scale, false);
    forall i | 0 <= i < |ids|
      ensures HasCounts(tb, ids[i], weekday, hour, scale, false, row[1 + i..2 + i])
    {
      LocationCounts(tb, ids[i], weekday, hour, scale, false);
      assert blocks[i] == LocationColumns(tb, ids[i], weekday, hour, scale, false).value;
      BlockCountsAt(tb, ids, weekday, hour, scale, false, row, 1 + i, i);
    }
  }

  /** Where location i's block sits in a row, that run of the row holds the location's counts. */
  lemma BlockCountsAt(tb: Tables, ids: seq<int>, weekday: nat, hour: nat, scale: real, ci: bool,
                      row: Row, start: nat, i: nat)
    requires AllResolve(tb, ids, weekday, hour, scale, ci) && i < |ids|
    requires var block := LocationBlocks(tb, ids, weekday, hour, scale, ci)[i];
      && |block| == (if ci then 3 else 1) && start + |block| <= |row|
      && row[start] == block[0]
      && (ci ==> row[start + 1] == block[1] && row[start + 2] == block[2])
    ensures HasCounts(tb, ids[i], weekday, hour, scale, ci, row[start..start + (if ci then 3 else 1)])
  {
    var block := LocationBlocks(tb, ids, weekday, hour, scale, ci)[i];
    LocationCounts(tb, ids[i], weekday, hour, scale, ci);
    SliceIsBlock(row, start, block);
  }

  /** A run of a row that matches a block cell by cell is that block. */
  lemma SliceIsBlock(row: Row, start: nat, block: Row)
    requires start + |block| <= |row|
    requires forall k :: 0 <= k < |block| ==> row[start + k] == block[k]
    ensures row[start..start + |block|] == block
  {
  }

  /** Every entry of the table is at least zero. */
  predicate NonNegativeEntries(table: Table) {
    forall i, j, k :: 0 <= i < |table| && 0 <= j < |table[i]| && 0 <= k < |table[i][j]| ==>
      table[i][j][k] >= 0.0
  }

  /** Every daily scale factor is at least zero. */
  predicate NonNegativeScales(scales: map<string, real>) {
    forall key :: key in scales ==> scales[key] >= 0.0
  }

  /** After its first column the row holds whole low/mid/high triples, each with low <= mid <= high. */
  predicate TriplesOrdered(row: Row) {
    |row| >= 1 && (|row| - 1) % 3 == 0 && BandsOrdered(row, (|row| - 1) / 3)
  }

  /** The row holds k low/mid/high triples after its first column, each with low <= mid <= high. */
  predicate BandsOrdered(row: Row, k: nat) {
    && |row| == 1 + 3 * k
    && forall i :: 0 <= i < k ==>
      && row[1 + 3 * i].cell.CountValue? && row[2 + 3 * i].cell.CountValue?
      && row[3 + 3 * i].cell.CountValue?
      && row[1 + 3 * i].cell.count <= row[2 + 3 * i].cell.count <= row[3 + 3 * i].cell.count
  }

  /** The suffix of a band's a-th column: "_low", "_mid", "_high". */
  function BandSuffix(a: nat): (suffix: string)
    requires a < 3
    ensures |suffix| > 0
  {
    if a == 0 then "_low" else if a == 1 then "_mid" else "_high"
  }

  /**
   * A row as predict builds it with the confidence interval: "Datetime", then for each of the
   * distinct stems its "_low", "_mid" and "_high" columns, each band ordered.
   */
  predicate BandRow(row: Row, stems: seq<string>) {
    BandLabels(row, stems) && Distinct(stems) && BandsOrdered(row, |stems|)
  }

  /** "Datetime", then each stem's "_low", "_mid" and "_high" labels, in order. */
  predicate BandLabels(row: Row, stems: seq<string>) {
    && |row| == 1 + 3 * |stems|
    && row[0].name == "Datetime"
    && forall i, a :: 0 <= i < |stems| && 0 <= a < 3 ==> row[1 + 3 * i + a].name == stems[i] + BandSuffix(a)
  }

  /** The labels of a row are all BandLabels looks at. */
  lemma BandLabelsOfNames(row: Row, r: Row, stems: seq<string>)
    requires BandLabels(row, stems) && ColumnNames(r) == ColumnNames(row)
    ensures BandLabels(r, stems)
  {
    assert ColumnNames(r)[0] == ColumnNames(row)[0];
    forall i, a | 0 <= i < |stems| && 0 <= a < 3
      ensures r[1 + 3 * i + a].name == stems[i] + BandSuffix(a)
    {
      assert ColumnNames(r)[1 + 3 * i + a] == ColumnNames(row)[1 + 3 * i + a];
    }
  }

  /** Replacing one triple of a row by an ordered triple keeps all triples ordered. */
  lemma BandsOrderedUpdate(row: Row, r: Row, k: nat, j: nat)
    requires BandsOrdered(row, k) && |r| == |row| && j < k
    requires && r[1 + 3 * j].cell.CountValue? && r[2 + 3 * j].cell.CountValue? && r[3 + 3 * j].cell.CountValue?
             && r[1 + 3 * j].cell.count <= r[2 + 3 * j].cell.count <= r[3 + 3 * j].cell.count
    requires forall m :: 0 <= m < |row| && !(1 + 3 * j <= m < 4 + 3 * j) ==> r[m] == row[m]
    ensures BandsOrdered(r, k)
  {
    forall i | 0 <= i < k && i != j
      ensures && r[1 + 3 * i].cell.CountValue? && r[2 + 3 * i].cell.CountValue? && r[3 + 3 * i].cell.CountValue?
              && r[1 + 3 * i].cell.count <= r[2 + 3 * i].cell.count <= r[3 + 3 * i].cell.count
    {
      assert r[1 + 3 * i] == row[1 + 3 * i] && r[2 + 3 * i] == row[2 + 3 * i] && r[3 + 3 * i] == row[3 + 3 * i];
    }
  }

  /** Two labels with the same suffix are equal only when their stems are. */
  lemma SameStem(a: string, b: string, suffix: string)
    requires a + suffix == b + suffix
    ensures a == b
  {
    assert a == (a + suffix)[..|a|];
    assert b == (b + suffix)[..|b|];
  }

  /** The last letter of a stem with a suffix is the suffix's. */
  lemma LastOfSuffixed(stem: string, a: nat)
    requires a < 3
    ensures (stem + BandSuffix(a))[|stem + BandSuffix(a)| - 1] == (if a == 0 then 'w' else if a == 1 then 'd' else 'h')
  {
  }

  /** Two columns of a band row never share a label. */
  lemma BandLabelsDiffer(row: Row, stems: seq<string>, p: nat, q: nat)
    requires BandRow(row, stems) && p < q < |row|
    ensures row[p].name != row[q].name
  {
    var j, b := (q - 1) / 3, (q - 1) % 3;
    assert q == 1 + 3 * j + b;
    LastOfSuffixed(stems[j], b);
    if p > 0 {
      var i, a := (p - 1) / 3, (p - 1) % 3;
      assert p == 1 + 3 * i + a;
      LastOfSuffixed(stems[i], a);
      if a == b && row[p].name == row[q].name {
        assert i != j;
        SameStem(stems[i], stems[j], BandSuffix(a));
        assert false;
      }
    }
  }

  /** A band row's labels are distinct. */
  lemma BandRowDistinct(row: Row, stems: seq<string>)
    requires BandRow(row, stems)
    ensures Distinct(ColumnNames(row))
  {
    forall p, q | 0 <= p < q < |ColumnNames(row)|
      ensures ColumnNames(row)[p] != ColumnNames(row)[q]
    {
      BandLabelsDiffer(row, stems, p, q);
    }
  }

  /** A stem not yet in a band row: its band goes at the end and the row stays a band row. */
  lemma AppendBand(row: Row, stems: seq<string>, name: string, p: real, std: real, scale: real)
    requires BandRow(row, stems) && name !in stems && std >= 0.0 && scale >= 0.0
    ensures SetColumns(row, Band(name, p, std, scale)) == row + Band(name, p, std, scale)
    ensures BandRow(row + Band(name, p, std, scale), stems + [name])
  {
    var band := Band(name, p, std, scale);
    var next := row + band;
    var stems' := stems + [name];
    BandCountsOrdered(name, p, std, scale);
    forall i, a | 0 <= i < |stems'| && 0 <= a < 3
      ensures next[1 + 3 * i + a].name == stems'[i] + BandSuffix(a)
    {
      if i == |stems| {
        assert next[1 + 3 * i + a] == band[a];
      }
    }
    assert BandsOrdered(next, |stems'|) by {
      forall i | 0 <= i < |stems'|
        ensures && next[1 + 3 * i].cell.CountValue? && next[2 + 3 * i].cell.CountValue?
                && next[3 + 3 * i].cell.CountValue?
                && next[1 + 3 * i].cell.count <= next[2 + 3 * i].cell.count <= next[3 + 3 * i].cell.count
      {
        if i == |stems| {
          assert next[1 + 3 * i] == band[0] && next[2 + 3 * i] == band[1] && next[3 + 3 * i] == band[2];
        }
      }
    }
    BandRowDistinct(next, stems');
    SetNewColumns(row, band);
  }

  /** Setting three columns sets them one after another. */
  lemma SetThreeColumns(row: Row, band: seq<Column>)
    requires |band| == 3
    ensures SetColumns(row, band)
         == SetColumn(SetColumn(SetColumn(row, band[0].name, band[0].cell), band[1].name, band[1].cell),
                      band[2].name, band[2].cell)
  {
    var r1 := SetColumn(row, band[0].name, band[0].cell);
    var r2 := SetColumn(r1, band[1].name, band[1].cell);
    var r3 := SetColumn(r2, band[2].name, band[2].cell);
    assert band[1..][0] == band[1] && band[1..][1..] == band[2..];
    assert band[2..][0] == band[2] && band[2..][1..] == [];
    assert SetColumns(r2, band[2..]) == SetColumns(r3, []);
    assert SetColumns(r1, band[1..]) == SetColumns(r2, band[2..]);
  }

  /**
   * Setting a column whose label the row already holds, among distinct labels: the labels stay,
   * that column takes the cell and every other column is unchanged.
   */
  lemma SetPresentColumn(row: Row, k: nat, cell: Cell)
    requires k < |row| && Distinct(ColumnNames(row))
    ensures var r := SetColumn(row, row[k].name, cell);
      && ColumnNames(r) == ColumnNames(row) && |r| == |row| && Distinct(ColumnNames(r))
      && r[k] == Column(row[k].name, cell)
      && forall m :: 0 <= m < |row| && m != k ==> r[m] == row[m]
  {
    var r := SetColumn(row, row[k].name, cell);
    assert ColumnNames(row)[k] == row[k].name;
    assert ColumnNames(r)[k] == row[k].name;
    forall m | 0 <= m < |row| && m != k
      ensures r[m] == row[m]
    {
      assert ColumnNames(row)[m] != ColumnNames(row)[k] by {
        if m < k { assert ColumnNames(row)[m] != ColumnNames(row)[k]; }
      }
    }
  }

  /**
   * Setting three columns whose labels a row with distinct labels holds at k, k + 1 and k + 2:
   * the labels stay, those columns become the three and every other column is unchanged.
   */
  lemma SetInPlace(row: Row, k: nat, band: seq<Column>)
    requires Distinct(ColumnNames(row)) && |band| == 3 && k + 3 <= |row|
    requires row[k].name == band[0].name && row[k + 1].name == band[1].name && row[k + 2].name == band[2].name
    ensures var r := SetColumns(row, band);
      && |r| == |row| && ColumnNames(r) == ColumnNames(row)
      && r[k] == band[0] && r[k + 1] == band[1] && r[k + 2] == band[2]
      && forall m :: 0 <= m < |row| && !(k <= m < k + 3) ==> r[m] == row[m]
  {
    SetThreeColumns(row, band);
    SetPresentColumn(row, k, band[0].cell);
    var r1 := SetColumn(row, band[0].name, band[0].cell);
    SetPresentColumn(r1, k + 1, band[1].cell);
    var r2 := SetColumn(r1, band[1].name, band[1].cell);
    SetPresentColumn(r2, k + 2, band[2].cell);
  }

  /** A stem already in a band row: its band is overwritten in place and the row stays a band row. */
  lemma ReplaceBand(row: Row, stems: seq<string>, j: nat, p: real, std: real, scale: real)
    requires BandRow(row, stems) && j < |stems| && std >= 0.0 && scale >= 0.0
    ensures BandRow(SetColumns(row, Band(stems[j], p, std, scale)), stems)
  {
    var band := Band(stems[j], p, std, scale);
    BandRowDistinct(row, stems);
    forall a | 0 <= a < 3
      ensures row[1 + 3 * j + a].name == band[a].name
    {
      assert row[1 + 3 * j + a].name == stems[j] + BandSuffix(a);
    }
    SetInPlace(row, 1 + 3 * j, band);
    var r := SetColumns(row, band);
    BandCountsOrdered(stems[j], p, std, scale);
    BandLabelsOfNames(row, r, stems);
    BandsOrderedUpdate(row, r, |stems|, j);
  }

  /** Setting an ordered band keeps a band row a band row, its stem added when new. */
  lemma SetBand(row: Row, stems: seq<string>, name: string, p: real, std: real, scale: real)
    requires BandRow(row, stems) && std >= 0.0 && scale >= 0.0
    ensures BandRow(SetColumns(row, Band(name, p, std, scale)), if name in stems then stems else stems + [name])
  {
    if name in stems {
      var j :| 0 <= j < |stems| && stems[j] == name;
      ReplaceBand(row, stems, j, p, std, scale);
    } else {
      AppendBand(row, stems, name, p, std, scale);
    }
  }

  /**
   * Adding locations with non-negative deviations and scale factor to a band row leaves every
   * triple after "Datetime" ordered, low <= mid <= high, whether or not labels repeat.
   */
  lemma {:induction false} AddLocationsBands(tb: Tables, row: Row, stems: seq<string>, ids: seq<int>,
                                             weekday: nat, hour: nat, scale: real)
    requires AllResolve(tb, ids, weekday, hour, scale, true)
    requires BandRow(row, stems) && NonNegativeEntries(tb.confStds) && scale >= 0.0
    ensures AddLocations(tb, row, ids, weekday, hour, scale, true).Ok?
    ensures TriplesOrdered(AddLocations(tb, row, ids, weekday, hour, scale, true).value)
    decreases |ids|
  {
    if |ids| == 0 {
      BandRowTriples(row, stems);
    } else {
      var next, stems' := SetFirstBand(tb, row, stems, ids, weekday, hour, scale);
      AddLocationsBands(tb, next, stems', ids[1..], weekday, hour, scale);
    }
  }

  /** A band row is "Datetime" followed by ordered triples. */
  lemma BandRowTriples(row: Row, stems: seq<string>)
    requires BandRow(row, stems)
    ensures TriplesOrdered(row)
  {
    var k := |row| - 1;
    assert k == 3 * |stems|;
    Thirds(|stems|);
    assert k % 3 == 0 && k / 3 == |stems|;
  }

  /**
   * Adding the first location to a band row sets its ordered band, giving a band row from
   * which the remaining locations are added.
   */
  lemma SetFirstBand(tb: Tables, row: Row, stems: seq<string>, ids: seq<int>, weekday: nat, hour: nat,
                     scale: real)
    returns (next: Row, stems': seq<string>)
    requires |ids| > 0 && AllResolve(tb, ids, weekday, hour, scale, true)
    requires BandRow(row, stems) && NonNegativeEntries(tb.confStds) && scale >= 0.0
    ensures BandRow(next, stems')
    ensures AllResolve(tb, ids[1..], weekday, hour, scale, true)
    ensures AddLocations(tb, row, ids, weekday, hour, scale, true)
         == AddLocations(tb, next, ids[1..], weekday, hour, scale, true)
  {
    var id := ids[0];
    LocationBand(tb, id, weekday, hour, scale);
    var name := NameAt(tb.locationNames, id).value;
    var p := Trunc(Lookup3(tb.avgPreds, id, weekday, hour).value) as real;
    var std := Lookup3(tb.confStds, id, weekday, hour).value;
    assert std == tb.confStds[id][weekday][hour];
    next := SetColumns(row, Band(name, p, std, scale));
    stems' := if name in stems then stems else stems + [name];
    SetBand(row, stems, name, p, std, scale);
    AddLocationsStep(tb, row, ids, weekday, hour, scale, true);
    assert forall i :: 0 <= i < |ids[1..]| ==> ids[1..][i] == ids[i + 1];
  }

  /** 3 * k leaves no remainder and k as quotient when divided by 3. */
  lemma Thirds(k: nat)
    ensures (3 * k) % 3 == 0 && (3 * k) / 3 == k
  {
  }

  /**
   * With non-negative deviations and scale factors, predict's row with the confidence interval
   * is "Datetime" followed by triples, each ordered: low <= mid <= high. Repeated locations or
   * names overwrite a triple as a whole, so this holds for every request that succeeds.
   */
  lemma PredictBandsOrdered(tb: Tables, year: int, month: int, day: int, hour: int, ids: seq<int>)
    requires Predict(tb, year, month, day, hour, ids, true).Ok?
    requires NonNegativeEntries(tb.confStds) && NonNegativeScales(tb.dailyScales)
    ensures TriplesOrdered(Predict(tb, year, month, day, hour, ids, true).value)
  {
    PredictAddsLocations(tb, year, month, day, hour, ids, true);
    var first := [DatetimeColumn(DateHour(year, month, day, hour))];
    assert BandRow(first, []);
    AddLocationsBands(tb, first, [], ids, Weekday(year, month, day), hour, tb.dailyScales[ScaleKey(month, day)]);
  }

}
