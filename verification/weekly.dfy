/** Weekly aggregation, as in `aggregateWeeklyOnset`
    (epicurve/foodpoisoning/app.js) and `aggregateEpi` (epicurve/app.js).

    Both drop every row whose year cell or week cell is falsy, count the
    remaining rows under the literal key `${year}-W${week}`, split each key
    back at "-W", and sort the records by the week number alone. */
module Weekly {
  import opened Wrappers
  import opened JsValues
  import opened Strings
  import opened Grouping
  import opened Sorting

  /** Column names the food-poisoning script passes (week of onset). */
  const OnsetYearColumn := "Epid Tahun (Tkh Onset)"
  const OnsetWeekColumn := "Epid Minggu (Tkh Onset)"

  /** Column names the notification script passes (week of notification). */
  const NotificationYearColumn := "Epid Tahun (Tkh Notifikasi)"
  const NotificationWeekColumn := "Epid Minggu (Tkh Notifikasi)"

  const WeekSeparator := "-W"

  // ---------------------------------------------------------------------
  // Normalising rows to keys

  /** `if (!year || !week) return;` lets the row through. */
  predicate Kept(row: Row, yearColumn: string, weekColumn: string) {
    Truthy(Get(row, yearColumn)) && Truthy(Get(row, weekColumn))
  }

  /** `${year}-W${week}`. */
  function WeekKey(year: Cell, week: Cell): string {
    CellText(year) + WeekSeparator + CellText(week)
  }

  function RowKey(row: Row, yearColumn: string, weekColumn: string): string {
    WeekKey(Get(row, yearColumn), Get(row, weekColumn))
  }

  /** The record normaliser: the row's key, or None when it is skipped. A
      key splits back at "-W" into the row's year and week texts whenever
      neither text contains "-W" itself. */
  function RowKeyOf(row: Row, yearColumn: string, weekColumn: string): (k: Option<string>)
    ensures k.None? <==> !Kept(row, yearColumn, weekColumn)
    ensures k.Some? && PlainText(CellText(Get(row, yearColumn))) && PlainText(CellText(Get(row, weekColumn))) ==>
      Split(k.value, WeekSeparator) == [CellText(Get(row, yearColumn)), CellText(Get(row, weekColumn))]
  {
    KeyPieces(Get(row, yearColumn), Get(row, weekColumn));
    if Kept(row, yearColumn, weekColumn) then Some(RowKey(row, yearColumn, weekColumn)) else None
  }

  function Normalize(rows: seq<Row>, yearColumn: string, weekColumn: string): (ns: seq<Option<string>>)
    ensures |ns| == |rows|
    ensures forall i :: 0 <= i < |rows| ==> ns[i] == RowKeyOf(rows[i], yearColumn, weekColumn)
  {
    seq(|rows|, i requires 0 <= i < |rows| => RowKeyOf(rows[i], yearColumn, weekColumn))
  }

  /** Positions of the rows whose year and week cells are both truthy. */
  ghost function KeptIndices(rows: seq<Row>, yearColumn: string, weekColumn: string): set<nat> {
    set i: nat | i < |rows| && Kept(rows[i], yearColumn, weekColumn)
  }

  lemma KeptIndicesPresent(rows: seq<Row>, yearColumn: string, weekColumn: string)
    ensures PresentIndices(Normalize(rows, yearColumn, weekColumn)) == KeptIndices(rows, yearColumn, weekColumn)
  {
  }

  lemma NormalizeDrop(rows: seq<Row>, yearColumn: string, weekColumn: string, i: nat)
    requires i < |rows|
    ensures var ns := Normalize(rows, yearColumn, weekColumn);
      Normalize(rows[..i] + rows[i + 1..], yearColumn, weekColumn) == ns[..i] + ns[i + 1..]
  {
  }

  // ---------------------------------------------------------------------
  // Splitting a key back into its parts

  /** `k.split("-W")[1]`, or None where JavaScript reads `undefined`. */
  function WeekPiece(k: string): Option<string> {
    var pieces := Split(k, WeekSeparator);
    if |pieces| >= 2 then Some(pieces[1]) else None
  }

  /** `k.split("-W")[0]`. */
  function YearPiece(k: string): string {
    Split(k, WeekSeparator)[0]
  }

  /** Cell text that contains no "-W", so the key splits back cleanly. */
  predicate PlainText(s: string) {
    !Contains(s, WeekSeparator)
  }

  lemma IntTextIsPlain(n: int)
    ensures PlainText(IntToText(n))
  {
    var s := IntToText(n);
    forall i: nat | i < |s|
      ensures !OccursAt(s, WeekSeparator, i)
    {
      if i + 1 < |s| {
        assert IsDigit(s[i + 1]);
      }
    }
  }

  /** A key made of plain cell texts splits back into exactly those texts. */
  lemma KeyPieces(year: Cell, week: Cell)
    ensures PlainText(CellText(year)) && PlainText(CellText(week)) ==>
      Split(WeekKey(year, week), WeekSeparator) == [CellText(year), CellText(week)]
  {
    if PlainText(CellText(year)) && PlainText(CellText(week)) {
      SplitAfterPiece(CellText(year), WeekSeparator, CellText(week));
      SplitWithout(CellText(week), WeekSeparator);
    }
  }

  /** Every counted row has a year cell without "-W" and an integral week
      cell: what a spreadsheet of numeric epidemiological years and weeks
      delivers. */
  predicate NumericWeeks(rows: seq<Row>, yearColumn: string, weekColumn: string) {
    forall i :: 0 <= i < |rows| && Kept(rows[i], yearColumn, weekColumn) ==>
      PlainText(CellText(Get(rows[i], yearColumn))) && Get(rows[i], weekColumn).Int?
  }

  // ---------------------------------------------------------------------
  // aggregateWeeklyOnset (epicurve/foodpoisoning/app.js)

  /** `W${week}` with the week text taken back out of the key. */
  function OnsetLabel(k: string): string {
    "W" + match WeekPiece(k) case Some(w) => w case None => "undefined"
  }

  function OnsetBucket(e: Entry<string>): Bucket {
    Bucket(OnsetLabel(e.key), e.count)
  }

  /** The sort key `parseInt(label.replace("W", ""))`. */
  function LabelWeek(b: Bucket): Option<int> {
    ParseInt(RemoveFirst(b.labelText, 'W'))
  }

  /** One bucket per distinct key of the kept rows, labelled `W<week>` and
      holding the number of kept rows with that key; sorted by week number
      whenever every label's week parses. */
  function AggregateWeeklyOnset(rows: seq<Row>, yearColumn: string, weekColumn: string): (r: seq<Bucket>)
    ensures var ns := Normalize(rows, yearColumn, weekColumn);
      && |r| == |PresentKeys(ns)|
      && (forall b :: b in r <==>
            exists k :: k in PresentKeys(ns) && b == Bucket(OnsetLabel(k), |IndicesOf(ns, k)|))
      && (forall b :: multiset(r)[b] == |RowKeysGiving(ns, OnsetBucket, b)|)
    ensures Keyed(r, LabelWeek) ==> Sorted(r, LabelWeek)
  {
    var ns := Normalize(rows, yearColumn, weekColumn);
    assert forall k :: OnsetBucket(Entry(k, |IndicesOf(ns, k)|)) == Bucket(OnsetLabel(k), |IndicesOf(ns, k)|);
    AggregateRows(ns, OnsetBucket, LabelWeek)
  }

  /** The bucket values add up to the number of kept rows, and every
      bucket holds at least one row. */
  lemma WeeklyOnsetConservesRows(rows: seq<Row>, yearColumn: string, weekColumn: string)
    ensures var r := AggregateWeeklyOnset(rows, yearColumn, weekColumn);
      && SumOf(r, ValueOf) == |KeptIndices(rows, yearColumn, weekColumn)|
      && forall b :: b in r ==> b.value >= 1
  {
    var ns := Normalize(rows, yearColumn, weekColumn);
    AggregateRowsTotal(ns, OnsetBucket, LabelWeek, ValueOf);
    AggregateRowsPositive(ns, OnsetBucket, LabelWeek, ValueOf);
    KeptIndicesPresent(rows, yearColumn, weekColumn);
  }

  /** Removing row `i` leaves the chart data unchanged exactly when that
      row's year or week cell is falsy. */
  lemma WeeklyOnsetRowCountsIff(rows: seq<Row>, yearColumn: string, weekColumn: string, i: nat)
    requires i < |rows|
    ensures AggregateWeeklyOnset(rows[..i] + rows[i + 1..], yearColumn, weekColumn)
      == AggregateWeeklyOnset(rows, yearColumn, weekColumn)
      <==> !Kept(rows[i], yearColumn, weekColumn)
  {
    NormalizeDrop(rows, yearColumn, weekColumn, i);
    AggregateRowsDrop(Normalize(rows, yearColumn, weekColumn), i, OnsetBucket, LabelWeek, ValueOf);
  }

  /** The key of a kept row of a numeric spreadsheet splits back into the
      year text and the week number of that row (row `i`). */
  lemma NumericKey(rows: seq<Row>, yearColumn: string, weekColumn: string, k: string) returns (i: nat)
    requires NumericWeeks(rows, yearColumn, weekColumn)
    requires k in PresentKeys(Normalize(rows, yearColumn, weekColumn))
    ensures i < |rows| && Kept(rows[i], yearColumn, weekColumn) && Get(rows[i], weekColumn).Int?
    ensures Split(k, WeekSeparator) == [CellText(Get(rows[i], yearColumn)), IntToText(Get(rows[i], weekColumn).n)]
  {
    var ns := Normalize(rows, yearColumn, weekColumn);
    i :| i < |ns| && ns[i].Some? && ns[i].value == k;
    var week := Get(rows[i], weekColumn);
    IntTextIsPlain(week.n);
    KeyPieces(Get(rows[i], yearColumn), week);
  }

  /** With numeric week cells, every label is `W` followed by the week
      number, and the buckets are sorted by that number. */
  lemma WeeklyOnsetNumericOrder(rows: seq<Row>, yearColumn: string, weekColumn: string)
    requires NumericWeeks(rows, yearColumn, weekColumn)
    ensures var r := AggregateWeeklyOnset(rows, yearColumn, weekColumn);
      && Sorted(r, LabelWeek)
      && forall j :: 0 <= j < |r| ==> r[j].labelText == "W" + IntToText(LabelWeek(r[j]).value)
  {
    var ns := Normalize(rows, yearColumn, weekColumn);
    var r := AggregateWeeklyOnset(rows, yearColumn, weekColumn);
    forall j | 0 <= j < |r|
      ensures LabelWeek(r[j]).Some? && r[j].labelText == "W" + IntToText(LabelWeek(r[j]).value)
    {
      assert r[j] in r;
      var k :| k in PresentKeys(ns) && r[j] == Bucket(OnsetLabel(k), |IndicesOf(ns, k)|);
      var i := NumericKey(rows, yearColumn, weekColumn, k);
      var w := Get(rows[i], weekColumn).n;
      assert OnsetLabel(k) == "W" + IntToText(w);
      ParseIntOfIntText(w);
    }
  }

  // ---------------------------------------------------------------------
  // aggregateEpi (epicurve/app.js)

  /** `{ year, week: Number(week), cases }`; a NaN week is None. */
  datatype EpiWeek = EpiWeek(year: string, week: Option<int>, cases: nat)

  function EpiWeekOf(e: Entry<string>): EpiWeek {
    EpiWeek(
      YearPiece(e.key),
      match WeekPiece(e.key) case Some(w) => ToNumber(w) case None => None,
      e.count)
  }

  /** The sort key `a.week - b.week` compares. */
  function WeekOf(w: EpiWeek): Option<int> {
    w.week
  }

  function CasesOf(w: EpiWeek): nat {
    w.cases
  }

  /** One record per distinct key of the kept rows, carrying the key's
      year text, its week as a number and the number of kept rows with that
      key; sorted by week whenever every week is a number. */
  function AggregateEpi(rows: seq<Row>, yearColumn: string, weekColumn: string): (r: seq<EpiWeek>)
    ensures var ns := Normalize(rows, yearColumn, weekColumn);
      && |r| == |PresentKeys(ns)|
      && (forall w :: w in r <==>
            exists k :: k in PresentKeys(ns) && w == EpiWeekOf(Entry(k, |IndicesOf(ns, k)|)))
      && (forall w :: multiset(r)[w] == |RowKeysGiving(ns, EpiWeekOf, w)|)
    ensures Keyed(r, WeekOf) ==> Sorted(r, WeekOf)
  {
    AggregateRows(Normalize(rows, yearColumn, weekColumn), EpiWeekOf, WeekOf)
  }

  /** The case counts add up to the number of kept rows, and every record
      has at least one case. */
  lemma EpiConservesRows(rows: seq<Row>, yearColumn: string, weekColumn: string)
    ensures var r := AggregateEpi(rows, yearColumn, weekColumn);
      && SumOf(r, CasesOf) == |KeptIndices(rows, yearColumn, weekColumn)|
      && forall w :: w in r ==> w.cases >= 1
  {
    var ns := Normalize(rows, yearColumn, weekColumn);
    AggregateRowsTotal(ns, EpiWeekOf, WeekOf, CasesOf);
    AggregateRowsPositive(ns, EpiWeekOf, WeekOf, CasesOf);
    KeptIndicesPresent(rows, yearColumn, weekColumn);
  }

  /** Removing row `i` leaves the records unchanged exactly when that row's
      year or week cell is falsy. */
  lemma EpiRowCountsIff(rows: seq<Row>, yearColumn: string, weekColumn: string, i: nat)
    requires i < |rows|
    ensures AggregateEpi(rows[..i] + rows[i + 1..], yearColumn, weekColumn)
      == AggregateEpi(rows, yearColumn, weekColumn)
      <==> !Kept(rows[i], yearColumn, weekColumn)
  {
    NormalizeDrop(rows, yearColumn, weekColumn, i);
    AggregateRowsDrop(Normalize(rows, yearColumn, weekColumn), i, EpiWeekOf, WeekOf, CasesOf);
  }

  /** Record `w` carries the year text and the week number of row `i`,
      which is kept. */
  predicate FromRow(rows: seq<Row>, yearColumn: string, weekColumn: string, i: int, w: EpiWeek) {
    && 0 <= i < |rows|
    && Kept(rows[i], yearColumn, weekColumn)
    && CellText(Get(rows[i], yearColumn)) == w.year
    && Get(rows[i], weekColumn).Int?
    && w.week == Some(Get(rows[i], weekColumn).n)
  }

  lemma EpiNumericRecord(rows: seq<Row>, yearColumn: string, weekColumn: string, w: EpiWeek) returns (i: nat)
    requires NumericWeeks(rows, yearColumn, weekColumn)
    requires w in AggregateEpi(rows, yearColumn, weekColumn)
    ensures FromRow(rows, yearColumn, weekColumn, i, w)
  {
    var ns := Normalize(rows, yearColumn, weekColumn);
    var k :| k in PresentKeys(ns) && w == EpiWeekOf(Entry(k, |IndicesOf(ns, k)|));
    i := NumericKey(rows, yearColumn, weekColumn, k);
    ToNumberOfIntText(Get(rows[i], weekColumn).n);
  }

  /** With numeric week cells, each record carries the year text and the
      week number of some kept row, and the records are sorted by week. */
  lemma EpiNumericRecords(rows: seq<Row>, yearColumn: string, weekColumn: string)
    requires NumericWeeks(rows, yearColumn, weekColumn)
    ensures var r := AggregateEpi(rows, yearColumn, weekColumn);
      && Sorted(r, WeekOf)
      && forall w :: w in r ==> exists i :: FromRow(rows, yearColumn, weekColumn, i, w)
  {
    var r := AggregateEpi(rows, yearColumn, weekColumn);
    forall w | w in r
      ensures exists i :: FromRow(rows, yearColumn, weekColumn, i, w)
    {
      var i := EpiNumericRecord(rows, yearColumn, weekColumn, w);
    }
    forall j | 0 <= j < |r|
      ensures WeekOf(r[j]).Some?
    {
      assert r[j] in r;
    }
  }

  // ---------------------------------------------------------------------
  // The year plays no part in the order

  /** A spreadsheet row with a numeric year cell and a numeric week cell. */
  function NumericRow(yearColumn: string, weekColumn: string, year: int, week: int): Row {
    map[yearColumn := Int(year), weekColumn := Int(week)]
  }

  /** The keys of two numeric rows, in row order. */
  lemma TwoRowKeys(yearColumn: string, weekColumn: string, y1: int, y2: int, week: int)
    requires yearColumn != weekColumn
    requires y1 != 0 && y2 != 0 && week != 0
    ensures Present(Normalize(
        [NumericRow(yearColumn, weekColumn, y1, week), NumericRow(yearColumn, weekColumn, y2, week)],
        yearColumn, weekColumn))
      == [WeekKey(Int(y1), Int(week)), WeekKey(Int(y2), Int(week))]
  {
    var rows := [NumericRow(yearColumn, weekColumn, y1, week), NumericRow(yearColumn, weekColumn, y2, week)];
    var k1 := WeekKey(Int(y1), Int(week));
    var k2 := WeekKey(Int(y2), Int(week));
    var ns := Normalize(rows, yearColumn, weekColumn);
    assert ns == [Some(k1), Some(k2)];
    assert ns[..1] == [Some(k1)];
    assert ns[..1][..0] == [];
  }

  /** Keys of different year texts differ. */
  lemma DistinctYearKeys(y1: int, y2: int, week: int)
    requires IntToText(y1) != IntToText(y2)
    ensures WeekKey(Int(y1), Int(week)) != WeekKey(Int(y2), Int(week))
  {
    IntTextIsPlain(y1);
    IntTextIsPlain(y2);
    IntTextIsPlain(week);
    KeyPieces(Int(y1), Int(week));
    KeyPieces(Int(y2), Int(week));
  }

  /** The record `aggregateEpi` makes for a single row of `year`, `week`. */
  lemma SingleRecord(year: int, week: int)
    requires year != 0 && week != 0
    ensures var k := WeekKey(Int(year), Int(week));
      EpiWeekOf(Entry(k, 1)) == EpiWeek(IntToText(year), Some(week), 1)
  {
    IntTextIsPlain(year);
    IntTextIsPlain(week);
    KeyPieces(Int(year), Int(week));
    ToNumberOfIntText(week);
  }

  /** The bucket `aggregateWeeklyOnset` makes for a single row of `year`,
      `week`, and its sort key. */
  lemma SingleBucket(year: int, week: int)
    requires year != 0 && week != 0
    ensures var b := OnsetBucket(Entry(WeekKey(Int(year), Int(week)), 1));
      b == Bucket("W" + IntToText(week), 1) && LabelWeek(b) == Some(week)
  {
    IntTextIsPlain(year);
    IntTextIsPlain(week);
    KeyPieces(Int(year), Int(week));
    var text := "W" + IntToText(week);
    assert RemoveFirst(text, 'W') == IntToText(week) by {
      assert text[0] == 'W' && text[1..] == IntToText(week);
    }
    ParseIntOfIntText(week);
  }

  lemma AggregateEpiOfKeys(rows: seq<Row>, yearColumn: string, weekColumn: string)
    ensures AggregateEpi(rows, yearColumn, weekColumn)
      == Aggregate(Present(Normalize(rows, yearColumn, weekColumn)), EpiWeekOf, WeekOf)
  {
  }

  lemma AggregateWeeklyOnsetOfKeys(rows: seq<Row>, yearColumn: string, weekColumn: string)
    ensures AggregateWeeklyOnset(rows, yearColumn, weekColumn)
      == Aggregate(Present(Normalize(rows, yearColumn, weekColumn)), OnsetBucket, LabelWeek)
  {
  }

  /** `aggregateEpi` on two rows of the same week in different years: two
      records, left in the order their rows arrive. */
  lemma EpiSameWeekTwoYears(yearColumn: string, weekColumn: string, y1: int, y2: int, week: int)
    requires yearColumn != weekColumn
    requires y1 != 0 && y2 != 0 && week != 0 && IntToText(y1) != IntToText(y2)
    ensures AggregateEpi(
        [NumericRow(yearColumn, weekColumn, y1, week), NumericRow(yearColumn, weekColumn, y2, week)],
        yearColumn, weekColumn)
      == [EpiWeek(IntToText(y1), Some(week), 1), EpiWeek(IntToText(y2), Some(week), 1)]
  {
    var rows := [NumericRow(yearColumn, weekColumn, y1, week), NumericRow(yearColumn, weekColumn, y2, week)];
    TwoRowKeys(yearColumn, weekColumn, y1, y2, week);
    AggregateEpiOfKeys(rows, yearColumn, weekColumn);
    SingleRecord(y1, week);
    SingleRecord(y2, week);
    DistinctYearKeys(y1, y2, week);
    AggregateTwo(WeekKey(Int(y1), Int(week)), WeekKey(Int(y2), Int(week)), EpiWeekOf, WeekOf);
  }

  /** `aggregateWeeklyOnset` on two rows of the same week in different
      years: two buckets with the same label `W<week>`, one per year. */
  lemma OnsetSameWeekTwoYears(yearColumn: string, weekColumn: string, y1: int, y2: int, week: int)
    requires yearColumn != weekColumn
    requires y1 != 0 && y2 != 0 && week != 0 && IntToText(y1) != IntToText(y2)
    ensures AggregateWeeklyOnset(
        [NumericRow(yearColumn, weekColumn, y1, week), NumericRow(yearColumn, weekColumn, y2, week)],
        yearColumn, weekColumn)
      == [Bucket("W" + IntToText(week), 1), Bucket("W" + IntToText(week), 1)]
  {
    var rows := [NumericRow(yearColumn, weekColumn, y1, week), NumericRow(yearColumn, weekColumn, y2, week)];
    TwoRowKeys(yearColumn, weekColumn, y1, y2, week);
    AggregateWeeklyOnsetOfKeys(rows, yearColumn, weekColumn);
    SingleBucket(y1, week);
    SingleBucket(y2, week);
    DistinctYearKeys(y1, y2, week);
    AggregateTwo(WeekKey(Int(y1), Int(week)), WeekKey(Int(y2), Int(week)), OnsetBucket, LabelWeek);
  }

  /** The texts of the sample cells, and the column names told apart. */
  lemma SampleTexts()
    ensures IntToText(2024) == "2024" && IntToText(2023) == "2023" && IntToText(5) == "5"
    ensures NotificationYearColumn != NotificationWeekColumn && OnsetYearColumn != OnsetWeekColumn
  {
    assert NatToText(2) == "2" && NatToText(5) == "5";
    assert NatToText(20) == "20";
    assert NatToText(202) == "202";
    assert |NotificationYearColumn| != |NotificationWeekColumn|;
    assert |OnsetYearColumn| != |OnsetWeekColumn|;
  }

  /** Week 5 of 2024 and week 5 of 2023 in the notification script give
      two records for the same week, in row order; listing the rows the
      other way round lists the records the other way round. The output
      depends on the row order, not on the year. */
  lemma EpiYearIgnored()
    ensures var a := NumericRow(NotificationYearColumn, NotificationWeekColumn, 2024, 5);
      var b := NumericRow(NotificationYearColumn, NotificationWeekColumn, 2023, 5);
      && AggregateEpi([a, b], NotificationYearColumn, NotificationWeekColumn)
           == [EpiWeek("2024", Some(5), 1), EpiWeek("2023", Some(5), 1)]
      && AggregateEpi([b, a], NotificationYearColumn, NotificationWeekColumn)
           == [EpiWeek("2023", Some(5), 1), EpiWeek("2024", Some(5), 1)]
  {
    SampleTexts();
    assert IntToText(2024) != IntToText(2023) by {
      assert "2024"[3] != "2023"[3];
    }
    EpiSameWeekTwoYears(NotificationYearColumn, NotificationWeekColumn, 2024, 2023, 5);
    EpiSameWeekTwoYears(NotificationYearColumn, NotificationWeekColumn, 2023, 2024, 5);
  }

  /** In the food-poisoning script the same two rows give two bars that
      are both labelled "W5": the label drops the year. */
  lemma OnsetYearDropped()
    ensures var a := NumericRow(OnsetYearColumn, OnsetWeekColumn, 2024, 5);
      var b := NumericRow(OnsetYearColumn, OnsetWeekColumn, 2023, 5);
      AggregateWeeklyOnset([a, b], OnsetYearColumn, OnsetWeekColumn)
        == [Bucket("W5", 1), Bucket("W5", 1)]
  {
    SampleTexts();
    assert "W" + IntToText(5) == "W5";
    assert IntToText(2024) != IntToText(2023) by {
      assert "2024"[3] != "2023"[3];
    }
    OnsetSameWeekTwoYears(OnsetYearColumn, OnsetWeekColumn, 2024, 2023, 5);
  }
}
