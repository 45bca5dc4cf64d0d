/** The experimental HTML report: the report's TSV lines turned into rows of cells, and the
    template filled with the style, the script and the rows. */
module HtmlSaver {
  import opened Seqs
  import opened Strings

  /** The line-ending characters removed from the end of each line. */
  const LineEnds: set<char> := {'\r', '\n'}

  predicate IsBlank(s: string) {
    Strip(s) == ""
  }

  predicate NotBlank(line: string) {
    !IsBlank(line)
  }

  /** The tab-separated pieces of a line once its line ending is removed. */
  function Pieces(line: string): seq<string> {
    SplitOn(StripEndOf(line, LineEnds), "\t")
  }

  /** A cell after the first that is blank reads "0"; the first cell, the row's label, is kept. */
  function FillCell(j: nat, cell: string): string {
    if j >= 1 && IsBlank(cell) then "0" else cell
  }

  /** The cells of one line. */
  function Cells(line: string): (r: seq<string>)
    ensures |r| == |Pieces(line)|
    ensures forall j :: 0 <= j < |r| ==> r[j] == FillCell(j, Pieces(line)[j])
  {
    var parts := Pieces(line);
    seq(|parts|, j requires 0 <= j < |parts| => FillCell(j, parts[j]))
  }

  /** The rows of the report: one per line that is not blank, in order. */
  function TsvRows(lines: seq<string>): seq<seq<string>> {
    MapSeq(Filter(lines, NotBlank), Cells)
  }

  /** Overwrites, in place, every blank cell after the first with "0". */
  method FillBlankCells(parts: array<string>)
    modifies parts
    ensures forall k :: 0 <= k < parts.Length ==> parts[k] == FillCell(k, old(parts[k]))
  {
    var j := 1;
    while j < parts.Length
      invariant 1 <= j
      invariant forall k :: 0 <= k < parts.Length ==> parts[k] == (if k < j then FillCell(k, old(parts[k])) else old(parts[k]))
    {
      assert parts[j] == old(parts[j]);
      if Strip(parts[j]) == "" {
        parts[j] := "0";
      }
      assert parts[j] == FillCell(j, old(parts[j]));
      j := j + 1;
    }
  }

  /** The cells of one line, built in an array the way the loop overwrites them. */
  method LineCells(line: string) returns (cells: seq<string>)
    ensures cells == Cells(line)
  {
    var pieces := Pieces(line);
    var parts := new string[|pieces|](j requires 0 <= j < |pieces| => pieces[j]);
    FillBlankCells(parts);
    cells := parts[..];
  }

  /** The rows read from the lines of the report. */
  method ReadTsvRows(lines: seq<string>) returns (rows: seq<seq<string>>)
    ensures rows == TsvRows(lines)
  {
    rows := [];
    for i := 0 to |lines|
      invariant rows == TsvRows(lines[..i])
    {
      var line := lines[i];
      TsvRowsStep(lines, i);
      if Strip(line) == "" {
        continue;
      }
      var cells := LineCells(line);
      rows := rows + [cells];
    }
    assert lines[..|lines|] == lines;
  }

  /** One more line adds its row when it is not blank. */
  lemma TsvRowsStep(lines: seq<string>, i: int)
    requires 0 <= i < |lines|
    ensures TsvRows(lines[..i + 1]) == TsvRows(lines[..i]) + (if NotBlank(lines[i]) then [Cells(lines[i])] else [])
  {
    assert lines[..i + 1] == lines[..i] + [lines[i]];
    FilterSnoc(lines[..i], lines[i], NotBlank);
    MapSeqSnoc(Filter(lines[..i], NotBlank), lines[i], Cells);
  }

  /** Each row is the cells of a line that is not blank, in the order of the lines; a report of
      blank lines has no rows. */
  lemma TsvRowsSpec(lines: seq<string>)
    ensures |TsvRows(lines)| <= |lines|
    ensures forall k :: 0 <= k < |TsvRows(lines)| ==>
      exists i :: 0 <= i < |lines| && NotBlank(lines[i]) && TsvRows(lines)[k] == Cells(lines[i])
    ensures (forall i :: 0 <= i < |lines| ==> IsBlank(lines[i])) ==> TsvRows(lines) == []
  {
    var kept := Filter(lines, NotBlank);
    FilterMembers(lines, NotBlank);
    forall k | 0 <= k < |TsvRows(lines)|
      ensures exists i :: 0 <= i < |lines| && NotBlank(lines[i]) && TsvRows(lines)[k] == Cells(lines[i])
    {
      assert kept[k] in lines;
      var i :| 0 <= i < |lines| && lines[i] == kept[k];
    }
    if forall i :: 0 <= i < |lines| ==> IsBlank(lines[i]) {
      FilterNone(lines, NotBlank);
    }
  }

  /** A line's cells: one more than its tabs once the line ending is removed, none holding a tab;
      joined with tabs, the pieces they come from give the line back without its line ending; the
      first cell is its piece, and every later cell is its piece or, where that is blank, "0". */
  lemma CellsSpec(line: string)
    ensures |Cells(line)| == CountChar(StripEndOf(line, LineEnds), '\t') + 1
    ensures Join("\t", Pieces(line)) == StripEndOf(line, LineEnds)
    ensures forall j :: 0 <= j < |Pieces(line)| ==> !Contains(Pieces(line)[j], "\t")
    ensures Cells(line)[0] == Pieces(line)[0]
    ensures forall j :: 1 <= j < |Cells(line)| ==>
      (IsBlank(Pieces(line)[j]) ==> Cells(line)[j] == "0") && (!IsBlank(Pieces(line)[j]) ==> Cells(line)[j] == Pieces(line)[j])
  {
    SplitOnCharCount(StripEndOf(line, LineEnds), '\t');
  }

  /** A blank cell is all whitespace, so a cell whose text is anything else is kept. */
  lemma BlankCell(cell: string)
    ensures IsBlank(cell) <==> forall k :: 0 <= k < |cell| ==> IsSpace(cell[k])
  {
    StripBlank(cell);
  }

  const StylePlaceholder := "{{ style_css }}"
  const ScriptPlaceholder := "{{ script_js }}"
  const ReportPlaceholder := "{{ report_json }}"

  /** The page: every occurrence of the style placeholder replaced by the style sheet, then of the
      script placeholder by the script, then of the report placeholder by the rows as JSON. */
  function FillTemplate(template: string, styleCss: string, scriptJs: string, dataJson: string): string {
    Replace(Replace(Replace(template, StylePlaceholder, styleCss), ScriptPlaceholder, scriptJs), ReportPlaceholder, dataJson)
  }

  /** Each substitution splits the text at every occurrence of its placeholder, from the left, and
      joins the pieces, none of which holds the placeholder, with the inserted text. */
  lemma FillTemplateSpec(template: string, styleCss: string, scriptJs: string, dataJson: string)
    ensures var styled := Replace(template, StylePlaceholder, styleCss);
      var scripted := Replace(styled, ScriptPlaceholder, scriptJs);
      && styled == Join(styleCss, SplitOn(template, StylePlaceholder))
      && Join(StylePlaceholder, SplitOn(template, StylePlaceholder)) == template
      && scripted == Join(scriptJs, SplitOn(styled, ScriptPlaceholder))
      && FillTemplate(template, styleCss, scriptJs, dataJson) == Join(dataJson, SplitOn(scripted, ReportPlaceholder))
  {
  }

  /** A template without placeholders is the page itself. */
  lemma FillTemplateWithoutPlaceholders(template: string, styleCss: string, scriptJs: string, dataJson: string)
    requires !Contains(template, StylePlaceholder) && !Contains(template, ScriptPlaceholder)
    requires !Contains(template, ReportPlaceholder)
    ensures FillTemplate(template, styleCss, scriptJs, dataJson) == template
  {
    ReplaceIdentity(template, StylePlaceholder, styleCss);
    ReplaceIdentity(template, ScriptPlaceholder, scriptJs);
    ReplaceIdentity(template, ReportPlaceholder, dataJson);
  }
}
