/** The bilingual outbreak summary, as in `generateSummary`
    (epicurve/foodpoisoning/app.js): the labels whose value lies above the
    action line, written into a fixed English and a fixed Malay sentence. */
module Narrative {
  import opened Wrappers
  import opened JsValues
  import opened Strings
  import opened Stats

  /** Strictly above the action line; a NaN line flags nothing. */
  predicate AboveAction(v: nat, action: Number) {
    Greater(Real(v as real), action)
  }

  /** Position `i` is flagged: `values[i] > action`, where a position past
      the end of `values` reads `undefined` and is never flagged. */
  predicate FlaggedAt(values: seq<nat>, action: Number, i: int) {
    0 <= i < |values| && AboveAction(values[i], action)
  }

  /** `labels.filter((_, i) => values[i] > action)`. */
  function Exceeding(labels: seq<string>, values: seq<nat>, action: Number): (ex: seq<string>)
    ensures |ex| <= |labels|
    ensures forall x :: x in ex <==>
      exists i :: 0 <= i < |labels| && FlaggedAt(values, action, i) && labels[i] == x
  {
    if |labels| == 0 then []
    else
      var n := |labels| - 1;
      var front := Exceeding(labels[..n], values, action);
      assert forall i :: 0 <= i < n ==> labels[..n][i] == labels[i];
      front + (if FlaggedAt(values, action, n) then [labels[n]] else [])
  }

  /** The flagged positions below `n`, in increasing order. */
  function FlaggedBelow(values: seq<nat>, action: Number, n: nat): (ix: seq<nat>)
    ensures forall k :: 0 <= k < |ix| ==> ix[k] < n && FlaggedAt(values, action, ix[k])
    ensures forall k, l :: 0 <= k < l < |ix| ==> ix[k] < ix[l]
    ensures forall i :: 0 <= i < n && FlaggedAt(values, action, i) ==> i in ix
  {
    if n == 0 then []
    else FlaggedBelow(values, action, n - 1) + (if FlaggedAt(values, action, n - 1) then [n - 1] else [])
  }

  /** The exceeding labels are the labels at the flagged positions, in
      series order. */
  lemma {:induction false} ExceedingInOrder(labels: seq<string>, values: seq<nat>, action: Number)
    ensures var ix := FlaggedBelow(values, action, |labels|);
      && |Exceeding(labels, values, action)| == |ix|
      && forall k :: 0 <= k < |ix| ==> Exceeding(labels, values, action)[k] == labels[ix[k]]
    decreases |labels|
  {
    if |labels| > 0 {
      var n := |labels| - 1;
      ExceedingInOrder(labels[..n], values, action);
      assert forall i :: 0 <= i < n ==> labels[..n][i] == labels[i];
    }
  }

  /** Nothing exceeds the action line exactly when no value lies above it. */
  lemma ExceedingEmpty(labels: seq<string>, values: seq<nat>, action: Number)
    ensures Exceeding(labels, values, action) == [] <==>
      forall i :: 0 <= i < |labels| ==> !FlaggedAt(values, action, i)
  {
    var ex := Exceeding(labels, values, action);
    if ex != [] {
      assert ex[0] in ex;
    }
  }

  // ---------------------------------------------------------------------
  // The sentences

  datatype Summary = Summary(en: string, bm: string)

  const NoOutbreakEn := "No epidemiological week/date exceeded the Action Line. No outbreak signal was detected."
  const NoOutbreakBm := "Tiada minggu epidemiologi atau tarikh yang melepasi Garisan Tindakan. Tiada isyarat wabak dikesan."

  const EnLead := "Cases exceeded the Action Line in "
  const EnTail := ", suggesting possible outbreak(s) requiring further investigation."
  const BmLead := "Bilangan kes melepasi Garisan Tindakan pada "
  const BmTail := ", menunjukkan kemungkinan kejadian wabak yang memerlukan siasatan lanjut."

  const LabelSeparator := ", "

  /** The unit names: weekly curves speak of epidemiological weeks, every
      other curve type of dates. */
  function UnitEn(curveType: string): string {
    if curveType == "weekly" then "epidemiological week(s)" else "date(s)"
  }

  function UnitBm(curveType: string): string {
    if curveType == "weekly" then "minggu epidemiologi" else "tarikh"
  }

  function EnHead(curveType: string): string {
    EnLead + UnitEn(curveType) + ": "
  }

  function BmHead(curveType: string): string {
    BmLead + UnitBm(curveType) + " "
  }

  /** An outbreak sentence is longer than the no-outbreak sentence, even
      before the list of labels. */
  lemma HeadsDiffer(curveType: string)
    ensures |EnHead(curveType)| + |EnTail| > |NoOutbreakEn|
    ensures |BmHead(curveType)| + |BmTail| > |NoOutbreakBm|
  {
  }

  /** Each element of the list occurs in a sentence built around it. */
  lemma SentenceNamesAll(head: string, exceed: seq<string>, tail: string)
    ensures forall x :: x in exceed ==> Includes(head + Join(exceed, LabelSeparator) + tail, x)
  {
    var list := Join(exceed, LabelSeparator);
    JoinIncludes(exceed, LabelSeparator);
    forall x | x in exceed
      ensures Includes(head + list + tail, x)
    {
      var j :| 0 <= j < |exceed| && exceed[j] == x;
      IncludesInside(head, list, tail, x);
    }
  }

  /** `generateSummary(labels, values, m, s, curveType)`: either both fixed
      no-outbreak sentences, or two sentences that open with the curve
      type's wording; every label whose value lies above the action line
      occurs in both sentences, whatever characters it contains. */
  function GenerateSummary(labels: seq<string>, values: seq<nat>, m: Number, s: Number, curveType: string): (r: Summary)
    ensures r.en == NoOutbreakEn <==> r.bm == NoOutbreakBm
    ensures r.en != NoOutbreakEn ==> EnHead(curveType) <= r.en && BmHead(curveType) <= r.bm
    ensures forall i :: 0 <= i < |labels| && FlaggedAt(values, ThresholdLines(m, s).action, i) ==>
      Includes(r.en, labels[i]) && Includes(r.bm, labels[i])
  {
    var exceed := Exceeding(labels, values, ThresholdLines(m, s).action);
    if |exceed| == 0 then
      ExceedingEmpty(labels, values, ThresholdLines(m, s).action);
      Summary(NoOutbreakEn, NoOutbreakBm)
    else
      var list := Join(exceed, LabelSeparator);
      HeadsDiffer(curveType);
      SentenceNamesAll(EnHead(curveType), exceed, EnTail);
      SentenceNamesAll(BmHead(curveType), exceed, BmTail);
      var en := EnHead(curveType) + list + EnTail;
      var bm := BmHead(curveType) + list + BmTail;
      assert EnHead(curveType) <= en && BmHead(curveType) <= bm;
      Summary(en, bm)
  }

  // ---------------------------------------------------------------------
  // Reading a summary back

  /** The exceeding labels an English summary names: none for the
      no-outbreak sentence, the comma-separated list otherwise, None for
      any other text. */
  function ReadEn(en: string, curveType: string): Option<seq<string>> {
    ReadSentence(en, NoOutbreakEn, EnHead(curveType), EnTail)
  }

  function ReadBm(bm: string, curveType: string): Option<seq<string>> {
    ReadSentence(bm, NoOutbreakBm, BmHead(curveType), BmTail)
  }

  function ReadSentence(text: string, none: string, head: string, tail: string): Option<seq<string>> {
    if text == none then Some([])
    else if |head| + |tail| <= |text| && text[..|head|] == head && text[|text| - |tail|..] == tail then
      Some(Split(text[|head|..|text| - |tail|], LabelSeparator))
    else None
  }

  /** Labels that can be told apart in the joined list. */
  predicate Readable(labels: seq<string>) {
    forall i :: 0 <= i < |labels| ==> !Contains(labels[i], LabelSeparator)
  }

  lemma ReadSentenceOfList(none: string, head: string, tail: string, exceed: seq<string>)
    requires |exceed| >= 1 && Readable(exceed)
    requires |head| + |tail| > |none|
    ensures ReadSentence(head + Join(exceed, LabelSeparator) + tail, none, head, tail) == Some(exceed)
  {
    var list := Join(exceed, LabelSeparator);
    var text := head + list + tail;
    assert text[..|head|] == head;
    assert text[|text| - |tail|..] == tail;
    assert text[|head|..|text| - |tail|] == list;
    SplitJoin(exceed, LabelSeparator);
  }

  /** Both sentences name exactly the exceeding labels, in series order:
      reading either one back gives the list `labels.filter(...)`
      produced, provided no label contains ", ". */
  lemma SummaryRoundTrip(labels: seq<string>, values: seq<nat>, m: Number, s: Number, curveType: string)
    requires Readable(labels)
    ensures var exceed := Exceeding(labels, values, ThresholdLines(m, s).action);
      var r := GenerateSummary(labels, values, m, s, curveType);
      ReadEn(r.en, curveType) == Some(exceed) && ReadBm(r.bm, curveType) == Some(exceed)
  {
    var exceed := Exceeding(labels, values, ThresholdLines(m, s).action);
    if |exceed| > 0 {
      assert Readable(exceed) by {
        forall j | 0 <= j < |exceed|
          ensures !Contains(exceed[j], LabelSeparator)
        {
          assert exceed[j] in exceed;
        }
      }
      HeadsDiffer(curveType);
      ReadSentenceOfList(NoOutbreakEn, EnHead(curveType), EnTail, exceed);
      ReadSentenceOfList(NoOutbreakBm, BmHead(curveType), BmTail, exceed);
    }
  }

  /** The no-outbreak sentences are given exactly when no value lies
      above the action line, whatever the curve type. */
  lemma NoOutbreakIff(labels: seq<string>, values: seq<nat>, m: Number, s: Number, curveType: string)
    ensures var r := GenerateSummary(labels, values, m, s, curveType);
      var action := ThresholdLines(m, s).action;
      && (r.en == NoOutbreakEn <==> forall i :: 0 <= i < |labels| ==> !FlaggedAt(values, action, i))
      && (r.bm == NoOutbreakBm <==> forall i :: 0 <= i < |labels| ==> !FlaggedAt(values, action, i))
      && (r.en == NoOutbreakEn <==> r.bm == NoOutbreakBm)
  {
    var action := ThresholdLines(m, s).action;
    var r := GenerateSummary(labels, values, m, s, curveType);
    ExceedingEmpty(labels, values, action);
    var exceed := Exceeding(labels, values, action);
    if |exceed| > 0 {
      HeadsDiffer(curveType);
    }
  }
}
