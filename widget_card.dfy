/**
 * How a widget card reads its widget: the icon for its type, the kind of
 * content chosen from text, type and id, the text cut into lines, each line
 * cut into a label and a value at `(`, and the value's colour chosen by the
 * first keyword the lower-cased label contains.
 */
module WidgetCard {
  import opened DashboardTypes
  import opened Strings
  import Seed = DashboardSeed

  // -------------------------------------------------------------------- icons

  datatype Icon = BarChart3 | Activity | AlertTriangle | Shield

  /** The widget type an icon stands for. */
  function IconType(icon: Icon): WidgetType {
    match icon
    case BarChart3 => Chart
    case Activity => Metric
    case AlertTriangle => Alert
    case Shield => Scan
  }

  /** `getWidgetIcon`: one icon per type, so the type can be read back. */
  function WidgetIcon(kind: WidgetType): (icon: Icon)
    ensures IconType(icon) == kind
  {
    match kind
    case Chart => BarChart3
    case Metric => Activity
    case Alert => AlertTriangle
    case Scan => Shield
  }

  /** Distinct types get distinct icons. */
  lemma WidgetIconInjective(a: WidgetType, b: WidgetType)
    ensures WidgetIcon(a) == WidgetIcon(b) <==> a == b
  {
    assert IconType(WidgetIcon(a)) == a && IconType(WidgetIcon(b)) == b;
  }

  // ------------------------------------------------------------------ colours

  /** The value colours: `text-red-600`, `text-orange-500`, `text-red-500`,
      `text-amber-500`, `text-green-500` and the default `text-gray-700`. */
  datatype Color = Red600 | Orange500 | Red500 | Amber500 | Green500 | Gray700

  /** The keywords tried on the lower-cased label, in order, with their colours. */
  const Keywords: seq<(string, Color)> := [
    ("critical", Red600), ("high", Orange500), ("failed", Red500),
    ("warning", Amber500), ("passed", Green500)
  ]

  /** The `colorClass` if-else chain. */
  function LabelColor(labelText: string): Color {
    var l := Lower(labelText);
    if Includes(l, "critical") then Red600
    else if Includes(l, "high") then Orange500
    else if Includes(l, "failed") then Red500
    else if Includes(l, "warning") then Amber500
    else if Includes(l, "passed") then Green500
    else Gray700
  }

  /** Reference definition: the colour of the first keyword of `keywords`
      that `l` contains, gray when there is none. */
  function FirstKeywordColor(l: string, keywords: seq<(string, Color)>): Color
    decreases |keywords|
  {
    if keywords == [] then Gray700
    else if Includes(l, keywords[0].0) then keywords[0].1
    else FirstKeywordColor(l, keywords[1..])
  }

  /** The chain is the first match over the keyword list. */
  lemma LabelColorIsFirstMatch(labelText: string)
    ensures LabelColor(labelText) == FirstKeywordColor(Lower(labelText), Keywords)
  {
    var l := Lower(labelText);
    assert Keywords[1..][1..][1..][1..][1..] == [];
  }

  /** The colour is keyword `k`'s exactly when the label contains keyword `k`
      and none before it; it is gray exactly when it contains none. */
  lemma ColorPriority(labelText: string)
    ensures forall k :: 0 <= k < |Keywords| ==>
      (LabelColor(labelText) == Keywords[k].1 <==>
        Includes(Lower(labelText), Keywords[k].0)
        && forall j :: 0 <= j < k ==> !Includes(Lower(labelText), Keywords[j].0))
    ensures LabelColor(labelText) == Gray700 <==>
      forall k :: 0 <= k < |Keywords| ==> !Includes(Lower(labelText), Keywords[k].0)
  {
    var l := Lower(labelText);
    assert Keywords[0] == ("critical", Red600) && Keywords[1] == ("high", Orange500);
    assert Keywords[2] == ("failed", Red500) && Keywords[3] == ("warning", Amber500);
    assert Keywords[4] == ("passed", Green500);
  }

  // -------------------------------------------------------------------- lines

  datatype Marker = BlueMarker | GrayMarker

  /** One row of a line list: a label with a coloured value, or the line as is. */
  datatype Row = LabelValue(labelText: string, value: string, color: Color) | PlainLine(line: string)

  datatype Content =
    | EmptyState(message: string)
    | RiskDonut
    | AccountsRing(ringRows: seq<(Marker, string)>)
    | LineList(lineRows: seq<Row>)

  const NoGraphData := "No Graph data available!"

  /** `text.split('\n')`: the rows, in order, which glue back to the text. */
  function Lines(text: string): (lines: seq<string>)
    ensures |lines| == Occurrences(text, '\n') + 1
    ensures Join(lines, '\n') == text
    ensures forall k :: 0 <= k < |lines| ==> '\n' !in lines[k]
  {
    SplitCount(text, '\n');
    JoinSplit(text, '\n');
    SplitPiecesFree(text, '\n');
    Split(text, '\n')
  }

  /** One line of the line list: split at `(`; two pieces give a label and a value. */
  function ParseLine(line: string): Row {
    var parts := Split(line, '(');
    if |parts| == 2 then
      var labelText := Trim(parts[0]);
      LabelValue(labelText, RemoveFirst(parts[1], ')'), LabelColor(labelText))
    else PlainLine(line)
  }

  /** The ring's rows: the first line gets the blue marker, every later one gray. */
  function RingRows(lines: seq<string>): seq<(Marker, string)> {
    seq(|lines|, k requires 0 <= k < |lines| => (if k == 0 then BlueMarker else GrayMarker, lines[k]))
  }

  /** The line list's rows: each line parsed on its own. */
  function ParseLines(lines: seq<string>): seq<Row> {
    seq(|lines|, k requires 0 <= k < |lines| => ParseLine(lines[k]))
  }

  /** `getWidgetContent`. */
  function WidgetContent(w: Widget): Content {
    if w.text == NoGraphData then EmptyState(w.text)
    else if w.kind == Chart && w.id == "risk-assessment" then RiskDonut
    else if w.kind == Metric && w.id == "cloud-accounts" then AccountsRing(RingRows(Lines(w.text)))
    else LineList(ParseLines(Lines(w.text)))
  }

  // --------------------------------------------------------------- properties

  /** The content kinds in priority order: the empty-state text wins over
      type and id, then the risk donut, then the accounts ring; everything
      else is a line list. */
  lemma ContentPriority(w: Widget)
    ensures WidgetContent(w).EmptyState? <==> w.text == NoGraphData
    ensures WidgetContent(w).EmptyState? ==> WidgetContent(w).message == NoGraphData
    ensures WidgetContent(w).RiskDonut? <==>
      w.text != NoGraphData && w.kind == Chart && w.id == "risk-assessment"
    ensures WidgetContent(w).AccountsRing? <==>
      w.text != NoGraphData && w.kind == Metric && w.id == "cloud-accounts"
  {
  }

  /** The ring shows every line of the text once, in order, the first with
      the blue marker and every later one with the gray: its rows glue back
      to the text. */
  lemma RingShowsLines(w: Widget)
    requires WidgetContent(w).AccountsRing?
    ensures var rows := WidgetContent(w).ringRows;
      && rows == RingRows(Lines(w.text))
      && |rows| == Occurrences(w.text, '\n') + 1
      && (forall k :: 0 <= k < |rows| ==> (rows[k].0 == BlueMarker <==> k == 0))
      && Join(seq(|rows|, k requires 0 <= k < |rows| => rows[k].1), '\n') == w.text
  {
    var rows := WidgetContent(w).ringRows;
    assert seq(|rows|, k requires 0 <= k < |rows| => rows[k].1) == Lines(w.text);
  }

  /** The line list has one row per line of the text, in order. */
  lemma ListParsesLines(w: Widget)
    requires WidgetContent(w).LineList?
    ensures var rows := WidgetContent(w).lineRows;
      && |rows| == Occurrences(w.text, '\n') + 1
      && forall k :: 0 <= k < |rows| ==> rows[k] == ParseLine(Lines(w.text)[k])
  {
  }

  /** A line is cut into label and value exactly when it has exactly one
      `(`; the label is the trimmed part before it and the value the part
      after it with its first `)` removed. Any other line is shown as is. */
  lemma {:induction false} ParseLineShape(line: string)
    ensures ParseLine(line).LabelValue? <==> Occurrences(line, '(') == 1
    ensures Occurrences(line, '(') == 1 ==>
      var i := IndexOf(line, '(');
      && '(' !in line[i + 1..]
      && ParseLine(line) == LabelValue(Trim(line[..i]), RemoveFirst(line[i + 1..], ')'), LabelColor(Trim(line[..i])))
    ensures Occurrences(line, '(') != 1 ==> ParseLine(line) == PlainLine(line)
  {
    SplitCount(line, '(');
    if Occurrences(line, '(') == 1 {
      SplitOnce(line, '(');
    }
  }

  /** The inverse direction: a label, one `(` and a value without `(` parse
      back into that label, trimmed, and that value, its first `)` removed. */
  lemma ParseFormattedLine(before: string, after: string)
    requires '(' !in before && '(' !in after
    ensures ParseLine(before + "(" + after)
      == LabelValue(Trim(before), RemoveFirst(after, ')'), LabelColor(Trim(before)))
  {
    SplitInTwo(before, after, '(');
  }

  /** The seed's shape of line: a label, a space, `(`, and a value. The
      label comes back without the space. */
  lemma ParsePaddedLine(labelText: string, after: string)
    requires labelText != [] && !IsWhitespace(labelText[0]) && !IsWhitespace(labelText[|labelText| - 1])
    requires '(' !in labelText && '(' !in after
    ensures ParseLine(labelText + " (" + after)
      == LabelValue(labelText, RemoveFirst(after, ')'), LabelColor(labelText))
  {
    PaddedLineText(labelText, after);
    ParseFormattedLine(labelText + " ", after);
    TrimPadded(labelText, " ");
  }

  /** The padded line regrouped as a label with its space, `(`, and the rest. */
  lemma PaddedLineText(labelText: string, after: string)
    ensures labelText + " (" + after == (labelText + " ") + "(" + after
  {
  }

  /** `Failed (1689)` shows `1689` in red-500. */
  lemma FailedLineExample()
    ensures ParseLine("Failed" + " (" + "1689)") == LabelValue("Failed", "1689", Red500)
  {
    ParsePaddedLine("Failed", "1689)");
    FailedValue();
    FailedIsRed();
  }

  /** The value of the `Failed` line loses its closing parenthesis. */
  lemma FailedValue()
    ensures RemoveFirst("1689)", ')') == "1689"
  {
    RemoveFirstAfterFree("1689", "", ')');
    assert "1689)" == "1689" + [')'] + "";
    assert "1689" + "" == "1689";
  }

  /** `Failed` is red-500: neither earlier keyword fits in `failed`. */
  lemma FailedIsRed()
    ensures LabelColor("Failed") == Red500
  {
    assert Lower("Failed") == "failed";
    assert !Includes("failed", "high") by {
      assert "failed" == "failed" + "";
      IncludesBlocked("failed", "", "high", 0);
    }
    assert OccursAt("failed", "failed", 0);
  }

  /** `Not available (36)` contains no keyword and shows `36` in gray. */
  lemma NotAvailableLineExample()
    ensures ParseLine("Not available" + " (" + "36)") == LabelValue("Not available", "36", Gray700)
  {
    ParsePaddedLine("Not available", "36)");
    NotAvailableValue();
    NotAvailableIsGray();
  }

  /** The value of the `Not available` line loses its closing parenthesis. */
  lemma NotAvailableValue()
    ensures RemoveFirst("36)", ')') == "36"
  {
    RemoveFirstAfterFree("36", "", ')');
    assert "36)" == "36" + [')'] + "";
    assert "36" + "" == "36";
  }

  /** `Not available` holds no keyword and falls through to gray. */
  lemma NotAvailableIsGray()
    ensures LabelColor("Not available") == Gray700
  {
    NoInitialsGray("Not available");
  }

  /** A label holding the first letter of no keyword, in either case, is gray. */
  lemma NoInitialsGray(labelText: string)
    requires 'c' !in labelText && 'C' !in labelText && 'h' !in labelText && 'H' !in labelText
    requires 'f' !in labelText && 'F' !in labelText && 'w' !in labelText && 'W' !in labelText
    requires 'p' !in labelText && 'P' !in labelText
    ensures LabelColor(labelText) == Gray700
  {
    assert labelText == labelText + "";
    LowerBlocked(labelText, "", "critical", 0, 'C');
    LowerBlocked(labelText, "", "high", 0, 'H');
    LowerBlocked(labelText, "", "failed", 0, 'F');
    LowerBlocked(labelText, "", "warning", 0, 'W');
    LowerBlocked(labelText, "", "passed", 0, 'P');
  }

  /** The seed's empty-state widgets show the message whatever their type. */
  lemma SeedEmptyStates()
    ensures WidgetContent(Seed.NamespaceAlerts) == EmptyState(NoGraphData)
    ensures WidgetContent(Seed.WorkloadAlerts) == EmptyState(NoGraphData)
  {
  }

  /** `risk-assessment` is drawn as the donut, not from its lines. */
  lemma SeedRiskDonut()
    ensures WidgetContent(Seed.RiskAssessment) == RiskDonut
  {
  }

  /** `cloud-accounts` is drawn as the ring: its two lines, blue then gray. */
  lemma SeedAccountsRing()
    ensures WidgetContent(Seed.CloudAccounts)
      == AccountsRing([(BlueMarker, "Connected (2)"), (GrayMarker, "Not Connected (2)")])
  {
    CloudAccountsIsRing();
    RingShowsLines(Seed.CloudAccounts);
    CloudAccountsLines();
    CloudAccountsMarkers();
  }

  lemma CloudAccountsMarkers()
    ensures RingRows(["Connected (2)", "Not Connected (2)"])
      == [(BlueMarker, "Connected (2)"), (GrayMarker, "Not Connected (2)")]
  {
  }

  lemma CloudAccountsIsRing()
    ensures WidgetContent(Seed.CloudAccounts).AccountsRing?
  {
  }

  lemma CloudAccountsLines()
    ensures Lines(Seed.CloudAccounts.text) == ["Connected (2)", "Not Connected (2)"]
  {
    var parts := ["Connected (2)", "Not Connected (2)"];
    assert Join(parts, '\n') == Seed.CloudAccounts.text;
    assert '\n' !in parts[0] && '\n' !in parts[1];
    SplitJoin(parts, '\n');
  }
}
