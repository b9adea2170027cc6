/** Daily aggregation, as in `aggregateDailyOnset`
    (epicurve/foodpoisoning/app.js).

    A row is counted when its date cell is truthy and `new Date(cell)` is a
    valid date; it is counted under the UTC calendar day of that date, as
    `toISOString().split("T")[0]` writes it. The buckets are sorted by
    `new Date(label)`. How `new Date` reads a cell (text in one of many
    formats, a spreadsheet serial number) is a parameter of the model. */
module Daily {
  import opened Wrappers
  import opened JsValues
  import opened Grouping
  import opened Sorting
  import opened Dates

  /** `new Date(cell)`: the instant it denotes, or None for an invalid date. */
  type DateParser = Cell -> Option<TimeValue>

  /** `if (!rawDate) return;` and `if (isNaN(date)) return;` both let the
      row through. */
  predicate Counted(row: Row, column: string, parse: DateParser) {
    Truthy(Get(row, column)) && parse(Get(row, column)).Some?
  }

  /** The UTC day of a counted row. */
  function DayOf(row: Row, column: string, parse: DateParser): ValidDate
    requires Counted(row, column, parse)
  {
    parse(Get(row, column)).value.date
  }

  /** The record normaliser: the row's day key, or None when it is skipped. */
  function RowDay(row: Row, column: string, parse: DateParser): (k: Option<string>)
    ensures k.None? <==> !Counted(row, column, parse)
    ensures k.Some? ==> k.value == IsoDate(DayOf(row, column, parse))
  {
    var raw := Get(row, column);
    if !Truthy(raw) then None
    else
      match parse(raw)
      case None => None
      case Some(t) =>
        DayKeyOfInstant(t);
        Some(FirstPiece(IsoString(t), 'T'))
  }

  function Normalize(rows: seq<Row>, column: string, parse: DateParser): (ns: seq<Option<string>>)
    ensures |ns| == |rows|
    ensures forall i :: 0 <= i < |rows| ==> ns[i] == RowDay(rows[i], column, parse)
  {
    seq(|rows|, i requires 0 <= i < |rows| => RowDay(rows[i], column, parse))
  }

  /** Positions of the counted rows. */
  ghost function CountedIndices(rows: seq<Row>, column: string, parse: DateParser): set<nat> {
    set i: nat | i < |rows| && Counted(rows[i], column, parse)
  }

  /** Positions of the counted rows that fall on day `d`. */
  ghost function RowsOn(rows: seq<Row>, column: string, parse: DateParser, d: Date): set<nat> {
    set i: nat | i < |rows| && Counted(rows[i], column, parse) && DayOf(rows[i], column, parse) == d
  }

  function DayBucket(e: Entry<string>): Bucket {
    Bucket(e.key, e.count)
  }

  /** The day `new Date(label)` denotes, if the label parses. */
  function Day(b: Bucket): Option<Date> {
    ParseIso(b.labelText)
  }

  /** The sort key of `new Date(a.label) - new Date(b.label)`: the label's
      day as an order-preserving number, or NaN (None). */
  function LabelDay(b: Bucket): Option<int> {
    match Day(b) case Some(d) => Some(Ordinal(d)) case None => None
  }

  /** One bucket per distinct day key of the counted rows, holding the
      number of counted rows with that key. */
  function AggregateDailyOnset(rows: seq<Row>, column: string, parse: DateParser): (r: seq<Bucket>)
    ensures var ns := Normalize(rows, column, parse);
      && |r| == |PresentKeys(ns)|
      && (forall b :: b in r <==>
            exists k :: k in PresentKeys(ns) && b == Bucket(k, |IndicesOf(ns, k)|))
  {
    var ns := Normalize(rows, column, parse);
    assert forall k :: DayBucket(Entry(k, |IndicesOf(ns, k)|)) == Bucket(k, |IndicesOf(ns, k)|);
    AggregateRows(ns, DayBucket, LabelDay)
  }

  lemma CountedIndicesPresent(rows: seq<Row>, column: string, parse: DateParser)
    ensures PresentIndices(Normalize(rows, column, parse)) == CountedIndices(rows, column, parse)
  {
  }

  /** The rows with day key `IsoDate(d)` are the counted rows on day `d`. */
  lemma SameDayRows(rows: seq<Row>, column: string, parse: DateParser, d: ValidDate)
    ensures IndicesOf(Normalize(rows, column, parse), IsoDate(d)) == RowsOn(rows, column, parse, d)
  {
    var ns := Normalize(rows, column, parse);
    forall i: nat | i < |rows| && Counted(rows[i], column, parse)
      ensures ns[i] == Some(IsoDate(d)) <==> DayOf(rows[i], column, parse) == d
    {
      IsoInjective(DayOf(rows[i], column, parse), d);
    }
  }

  /** The bucket values add up to the number of counted rows, and every
      bucket holds at least one row. */
  lemma DailyConservesRows(rows: seq<Row>, column: string, parse: DateParser)
    ensures var r := AggregateDailyOnset(rows, column, parse);
      && SumOf(r, ValueOf) == |CountedIndices(rows, column, parse)|
      && forall b :: b in r ==> b.value >= 1
  {
    var ns := Normalize(rows, column, parse);
    AggregateRowsTotal(ns, DayBucket, LabelDay, ValueOf);
    AggregateRowsPositive(ns, DayBucket, LabelDay, ValueOf);
    CountedIndicesPresent(rows, column, parse);
  }

  /** Removing row `i` leaves the chart data unchanged exactly when that
      row's date cell is falsy or not a valid date. */
  lemma DailyRowCountsIff(rows: seq<Row>, column: string, parse: DateParser, i: nat)
    requires i < |rows|
    ensures AggregateDailyOnset(rows[..i] + rows[i + 1..], column, parse)
      == AggregateDailyOnset(rows, column, parse)
      <==> !Counted(rows[i], column, parse)
  {
    var ns := Normalize(rows, column, parse);
    assert Normalize(rows[..i] + rows[i + 1..], column, parse) == ns[..i] + ns[i + 1..];
    AggregateRowsDrop(ns, i, DayBucket, LabelDay, ValueOf);
  }

  /** Each bucket is one day: its label is that day's ISO text, and its
      value is the number of counted rows on that day. */
  ghost predicate DayBucketOf(rows: seq<Row>, column: string, parse: DateParser, b: Bucket) {
    && Day(b).Some?
    && Valid(Day(b).value)
    && b.labelText == IsoDate(Day(b).value)
    && b.value == |RowsOn(rows, column, parse, Day(b).value)|
  }

  lemma DailyBuckets(rows: seq<Row>, column: string, parse: DateParser)
    ensures var r := AggregateDailyOnset(rows, column, parse);
      && (forall b :: b in r ==> DayBucketOf(rows, column, parse, b))
      && (forall i :: 0 <= i < |rows| && Counted(rows[i], column, parse) ==>
            exists b :: b in r && Day(b) == Some(DayOf(rows[i], column, parse)))
  {
    var ns := Normalize(rows, column, parse);
    var r := AggregateDailyOnset(rows, column, parse);
    forall b | b in r
      ensures DayBucketOf(rows, column, parse, b)
    {
      var k :| k in PresentKeys(ns) && b == Bucket(k, |IndicesOf(ns, k)|);
      var i: nat :| i < |ns| && ns[i].Some? && ns[i].value == k;
      var d := DayOf(rows[i], column, parse);
      IsoRoundTrip(d);
      SameDayRows(rows, column, parse, d);
    }
    forall i | 0 <= i < |rows| && Counted(rows[i], column, parse)
      ensures exists b :: b in r && Day(b) == Some(DayOf(rows[i], column, parse))
    {
      var d := DayOf(rows[i], column, parse);
      var k := IsoDate(d);
      assert ns[i] == Some(k);
      assert k in PresentKeys(ns);
      var b := Bucket(k, |IndicesOf(ns, k)|);
      assert b in r;
      IsoRoundTrip(d);
    }
  }

  /** Strictly increasing days: the buckets are in chronological order and
      no day has two buckets. */
  predicate Chronological(r: seq<Bucket>) {
    forall i, j :: 0 <= i < j < |r| ==>
      Day(r[i]).Some? && Day(r[j]).Some? && Before(Day(r[i]).value, Day(r[j]).value)
  }

  lemma DailyChronological(rows: seq<Row>, column: string, parse: DateParser)
    ensures Chronological(AggregateDailyOnset(rows, column, parse))
  {
    var ns := Normalize(rows, column, parse);
    var r := AggregateDailyOnset(rows, column, parse);
    DailyBuckets(rows, column, parse);
    forall j | 0 <= j < |r|
      ensures LabelDay(r[j]).Some?
    {
      assert r[j] in r;
    }
    assert Sorted(r, LabelDay);
    AggregateRowsDistinct(ns, DayBucket, LabelDay);
    forall i, j | 0 <= i < j < |r|
      ensures Day(r[i]).Some? && Day(r[j]).Some? && Before(Day(r[i]).value, Day(r[j]).value)
    {
      assert r[i] in r && r[j] in r;
      var a := Day(r[i]).value;
      var b := Day(r[j]).value;
      assert r[i] == Bucket(IsoDate(a), |RowsOn(rows, column, parse, a)|);
      assert r[j] == Bucket(IsoDate(b), |RowsOn(rows, column, parse, b)|);
      assert a != b;
      OrdinalOrder(a, b);
    }
  }
}
