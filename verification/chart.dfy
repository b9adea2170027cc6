/** The data the two `plotEpi` functions hand to the plotting library:
    bars, bar colours, the three horizontal lines and, in the
    food-poisoning script, the summary. Titles, axis texts and the page
    elements are presentation and are not modelled.

    `sd` is a parameter `s`: the value `Math.sqrt` returns, related to the
    series by `Stats.IsSqrtOf(s, Stats.Variance(...))` where a property
    needs it. */
module Chart {
  import opened Wrappers
  import opened JsValues
  import opened Strings
  import opened Grouping
  import opened Stats
  import opened Narrative
  import opened Weekly

  const ExceedColor := "#d62728"
  const NormalColor := "#1f77b4"

  /** `v > action ? "#d62728" : "#1f77b4"`. */
  function BarColor(v: nat, action: Number): string {
    if AboveAction(v, action) then ExceedColor else NormalColor
  }

  function BarColors(ys: seq<nat>, action: Number): (cs: seq<string>)
    ensures |cs| == |ys|
    ensures forall i :: 0 <= i < |ys| ==> cs[i] == BarColor(ys[i], action)
  {
    seq(|ys|, i requires 0 <= i < |ys| => BarColor(ys[i], action))
  }

  /** `Array(n).fill(v)`. */
  function Fill(n: nat, v: Number): (line: seq<Number>)
    ensures |line| == n && forall i :: 0 <= i < n ==> line[i] == v
  {
    seq(n, _ => v)
  }

  /** The traces of the food-poisoning chart and its summary. */
  datatype Plot = Plot(
    x: seq<string>,
    y: seq<nat>,
    colors: seq<string>,
    meanLine: seq<Number>,
    alertLine: seq<Number>,
    actionLine: seq<Number>,
    summary: Summary)

  /** `plotEpi(data, title, curveType)` in the food-poisoning script: one
      bar per bucket, in bucket order, and the label of every bar drawn in
      the exceeding colour occurs in both summary sentences. */
  function PlotEpi(data: seq<Bucket>, s: Number, curveType: string): (p: Plot)
    ensures |p.x| == |p.y| == |p.colors| == |data|
    ensures forall i :: 0 <= i < |data| ==> p.x[i] == data[i].labelText && p.y[i] == data[i].value
    ensures forall i :: 0 <= i < |data| && p.colors[i] == ExceedColor ==>
      Includes(p.summary.en, p.x[i]) && Includes(p.summary.bm, p.x[i])
  {
    var x := Labels(data);
    var y := Values(data);
    var m := Mean(y);
    var lines := ThresholdLines(m, s);
    var colors := BarColors(y, lines.action);
    assert forall i :: 0 <= i < |data| && colors[i] == ExceedColor ==> FlaggedAt(y, lines.action, i);
    Plot(x, y, colors,
      Fill(|y|, m), Fill(|y|, lines.alert), Fill(|y|, lines.action),
      GenerateSummary(x, y, m, s, curveType))
  }

  /** The labels of the bars drawn in the exceeding colour, in order. */
  function RedLabels(x: seq<string>, colors: seq<string>): (r: seq<string>)
    requires |x| == |colors|
    ensures |r| <= |x|
    ensures forall l :: l in r <==> exists i :: 0 <= i < |x| && colors[i] == ExceedColor && x[i] == l
  {
    if |x| == 0 then []
    else
      var n := |x| - 1;
      assert forall i :: 0 <= i < n ==> x[..n][i] == x[i] && colors[..n][i] == colors[i];
      RedLabels(x[..n], colors[..n]) + (if colors[n] == ExceedColor then [x[n]] else [])
  }

  lemma {:induction false} RedLabelsOfColors(x: seq<string>, ys: seq<nat>, action: Number)
    requires |x| == |ys|
    ensures RedLabels(x, BarColors(ys, action)) == Exceeding(x, ys, action)
    decreases |x|
  {
    if |x| > 0 {
      var n := |x| - 1;
      assert BarColors(ys, action)[..n] == BarColors(ys[..n], action);
      RedLabelsOfColors(x[..n], ys[..n], action);
      ExceedingPrefix(x[..n], ys, n);
      ExceedingPrefix(x[..n], ys[..n], n);
    }
  }

  /** `labels.filter` over the first `n` labels looks only at the first
      `n` values. */
  lemma {:induction false} ExceedingPrefix(labels: seq<string>, values: seq<nat>, n: nat)
    requires |labels| <= n <= |values|
    ensures forall action :: Exceeding(labels, values, action) == Exceeding(labels, values[..n], action)
    decreases |labels|
  {
    if |labels| > 0 {
      ExceedingPrefix(labels[..|labels| - 1], values, n);
    }
  }

  /** The bars drawn red are exactly those strictly above the action line
      `m + 2 * s` (a bar level with the line is not red), and their labels
      are exactly the labels the summary reports as exceeding. */
  lemma RedBarsAreExceeding(data: seq<Bucket>, s: Number, curveType: string)
    ensures var p := PlotEpi(data, s, curveType);
      var action := ThresholdLines(Mean(p.y), s).action;
      && |p.x| == |p.y| == |p.colors| == |data|
      && (forall i :: 0 <= i < |data| ==>
            p.x[i] == data[i].labelText && p.y[i] == data[i].value &&
            (p.colors[i] == ExceedColor <==> action.Real? && data[i].value as real > action.r))
      && RedLabels(p.x, p.colors) == Exceeding(p.x, p.y, action)
  {
    var p := PlotEpi(data, s, curveType);
    RedLabelsOfColors(p.x, p.y, ThresholdLines(Mean(p.y), s).action);
  }

  /** The summary names exactly the red bars, in chart order, whenever no
      label contains ", ". */
  lemma SummaryNamesRedBars(data: seq<Bucket>, s: Number, curveType: string)
    requires Readable(Labels(data))
    ensures var p := PlotEpi(data, s, curveType);
      && ReadEn(p.summary.en, curveType) == Some(RedLabels(p.x, p.colors))
      && ReadBm(p.summary.bm, curveType) == Some(RedLabels(p.x, p.colors))
  {
    var p := PlotEpi(data, s, curveType);
    RedBarsAreExceeding(data, s, curveType);
    SummaryRoundTrip(p.x, p.y, Mean(p.y), s, curveType);
  }

  /** The lines are constant across the chart, at the mean, one and two
      standard deviations above it. */
  lemma PlotLines(data: seq<Bucket>, s: Number, curveType: string)
    ensures var p := PlotEpi(data, s, curveType);
      var m := Mean(Values(data));
      && |p.meanLine| == |p.alertLine| == |p.actionLine| == |data|
      && forall i :: 0 <= i < |data| ==>
           && p.meanLine[i] == m
           && (p.alertLine[i].Real? <==> m.Real? && s.Real?)
           && (p.actionLine[i].Real? <==> m.Real? && s.Real?)
           && (p.alertLine[i].Real? ==>
                 p.alertLine[i].r - m.r == s.r && p.actionLine[i].r - p.alertLine[i].r == s.r)
  {
  }

  /** With at most one bucket nothing can be red: one value makes `sd`
      0 / 0, which is NaN, and no value is greater than NaN. */
  lemma ShortSeriesQuiet(data: seq<Bucket>, s: Number, curveType: string)
    requires |data| <= 1
    requires IsSqrtOf(s, Variance(Values(data)))
    ensures var p := PlotEpi(data, s, curveType);
      && (forall i :: 0 <= i < |p.colors| ==> p.colors[i] == NormalColor)
      && p.summary == Summary(NoOutbreakEn, NoOutbreakBm)
  {
    var p := PlotEpi(data, s, curveType);
    var action := ThresholdLines(Mean(p.y), s).action;
    ExceedingEmpty(p.x, p.y, action);
  }

  /** The root of a zero variance is zero. */
  lemma RootOfZero(s: Number)
    requires IsSqrtOf(s, Real(0.0))
    ensures s == Real(0.0)
  {
    SquareSign(s.r, s.r * s.r);
  }

  /** For a flat series of two or more values the action line is the
      common value itself. */
  lemma FlatActionLine(y: seq<nat>, s: Number)
    requires |y| >= 2
    requires forall i :: 0 <= i < |y| ==> y[i] == y[0]
    requires IsSqrtOf(s, Variance(y))
    ensures ThresholdLines(Mean(y), s).action == Real(y[0] as real)
  {
    assert Variance(y) == Real(0.0) by {
      VarianceZeroIff(y);
    }
    RootOfZero(s);
    var m := Mean(y);
    assert m == Real(y[0] as real) by {
      MeanWithin(y, y[0] as real, y[0] as real);
    }
    assert Scale(2.0, s) == Real(0.0);
  }

  /** A flat series never raises an alarm: when every bucket holds the
      same count the standard deviation is 0 and the action line sits on
      the bars themselves, which are not strictly above it. */
  lemma FlatSeriesQuiet(data: seq<Bucket>, s: Number, curveType: string)
    requires |data| >= 2
    requires forall i :: 0 <= i < |data| ==> data[i].value == data[0].value
    requires IsSqrtOf(s, Variance(Values(data)))
    ensures var p := PlotEpi(data, s, curveType);
      && (forall i :: 0 <= i < |p.colors| ==> p.colors[i] == NormalColor)
      && p.summary == Summary(NoOutbreakEn, NoOutbreakBm)
  {
    var p := PlotEpi(data, s, curveType);
    var y := Values(data);
    FlatActionLine(y, s);
    var action := ThresholdLines(Mean(y), s).action;
    assert forall i :: 0 <= i < |y| ==> !AboveAction(y[i], action);
    ExceedingEmpty(p.x, p.y, action);
  }

  // ---------------------------------------------------------------------
  // plotEpi in epicurve/app.js

  /** `${d.week}`: the week number's text, or "NaN". */
  function WeekText(week: Option<int>): string {
    match week
    case Some(n) => IntToText(n)
    case None => "NaN"
  }

  datatype WeekPlot = WeekPlot(
    x: seq<string>,
    y: seq<nat>,
    meanLine: seq<Number>,
    alertLine: seq<Number>,
    actionLine: seq<Number>)

  /** `plotEpi(data)` in the notification script: one point per record on
      the bars and on each line, the bars in record order. */
  function PlotWeeks(data: seq<EpiWeek>, s: Number): (p: WeekPlot)
    ensures |p.x| == |p.y| == |p.meanLine| == |p.alertLine| == |p.actionLine| == |data|
    ensures forall i :: 0 <= i < |data| ==> "W" <= p.x[i] && p.y[i] == data[i].cases
  {
    var x := seq(|data|, i requires 0 <= i < |data| => "W" + WeekText(data[i].week));
    var y := seq(|data|, i requires 0 <= i < |data| => data[i].cases);
    var m := Mean(y);
    var lines := ThresholdLines(m, s);
    WeekPlot(x, y, Fill(|y|, m), Fill(|y|, lines.alert), Fill(|y|, lines.action))
  }

  /** One label per record, in record order, that reads back (through
      `parseInt` after the "W") to the record's week number; a NaN week
      gives "WNaN", which reads back as NaN. */
  lemma WeekLabelsReadBack(data: seq<EpiWeek>, s: Number)
    ensures var p := PlotWeeks(data, s);
      && |p.x| == |p.y| == |data|
      && forall i :: 0 <= i < |data| ==>
           p.x[i][0] == 'W' && ParseInt(p.x[i][1..]) == data[i].week && p.y[i] == data[i].cases
  {
    var p := PlotWeeks(data, s);
    forall i | 0 <= i < |data|
      ensures p.x[i][0] == 'W' && ParseInt(p.x[i][1..]) == data[i].week
    {
      WeekLabelReadsBack(data[i].week);
    }
  }

  lemma WeekLabelReadsBack(week: Option<int>)
    ensures var x := "W" + WeekText(week);
      x[0] == 'W' && ParseInt(x[1..]) == week
  {
    var x := "W" + WeekText(week);
    assert x[1..] == WeekText(week);
    match week
    case Some(n) => ParseIntOfIntText(n);
    case None => NaNTextIsNaN();
  }

  /** `parseInt("NaN")` is NaN. */
  lemma NaNTextIsNaN()
    ensures ParseInt("NaN") == None
  {
    var t := "NaN";
    assert t[0] == 'N' && !IsSpace(t[0]) && !IsDigit(t[0]);
    assert TrimStart(t) == t;
    assert SplitSign(t) == (false, t);
    assert DigitRun(t) == 0;
  }

  /** The lines are constant at the mean of the case counts, and one and
      two standard deviations above it. */
  lemma WeekLines(data: seq<EpiWeek>, s: Number)
    ensures var p := PlotWeeks(data, s);
      var m := Mean(p.y);
      && |p.meanLine| == |p.alertLine| == |p.actionLine| == |data|
      && (m.NaN? <==> |data| == 0)
      && forall i :: 0 <= i < |data| ==>
           && p.meanLine[i] == m
           && (p.alertLine[i].Real? <==> m.Real? && s.Real?)
           && (p.actionLine[i].Real? <==> m.Real? && s.Real?)
           && (p.alertLine[i].Real? ==>
                 p.alertLine[i].r - m.r == s.r && p.actionLine[i].r - p.alertLine[i].r == s.r)
  {
  }
}
