/** The report tables: the label and sort key of each metric row, the reference-first column order
    and the rows the HTML report embeds. */
module ReportFormatters {
  import opened Wrappers
  import opened Seqs
  import opened Strings
  import opened OrderedMaps
  import opened ReportConfigs

  /** The columns that never serve as grouping dimensions of a row. */
  const Excluded: set<string> := {"metric_name", "value", "file_label", "row_label", "sort_key", "mining_tool"}

  /** A row of the metric table as the table builder reads it: the table's column names in order,
      the text of the row's non-null cells, and its metric name. */
  datatype Row = Row(columns: seq<string>, cells: map<string, string>, metricName: string)

  /** One position of a sort key; the missing dimensions of a multi-dimension row sort as +inf. */
  datatype SortPart = Finite(n: int) | Infinity

  function NotExcluded(c: string): bool {
    c !in Excluded
  }

  /** Whether the row has a non-null cell in column `d`. */
  function IsPresent(row: Row): string -> bool {
    d => d in row.columns && d in row.cells
  }

  function CellOf(row: Row): string -> (string, string) {
    d => (d, if d in row.cells then row.cells[d] else "")
  }

  // Lookups in the configuration

  /** The position of the first metric configured under `name`; unknown metrics go last. */
  function MetricOrder(metrics: seq<MetricConfig>, name: string): nat {
    IndexOf(MapSeq(metrics, MetricName), name)
  }

  /** The metric order is the first configured position of the name, or the number of metrics
      exactly when no metric has that name. */
  lemma MetricOrderSpec(metrics: seq<MetricConfig>, name: string)
    ensures MetricOrder(metrics, name) <= |metrics|
    ensures MetricOrder(metrics, name) < |metrics| ==> metrics[MetricOrder(metrics, name)].name == name
    ensures forall j :: 0 <= j < MetricOrder(metrics, name) ==> metrics[j].name != name
    ensures MetricOrder(metrics, name) == |metrics| <==> forall j :: 0 <= j < |metrics| ==> metrics[j].name != name
  {
    var names := MapSeq(metrics, MetricName);
    assert forall j :: 0 <= j < |metrics| ==> names[j] == metrics[j].name;
  }

  /** The display name of the first metric configured under `name`, or the name itself. */
  function DisplayName(metrics: seq<MetricConfig>, name: string): (r: string)
    ensures MetricOrder(metrics, name) < |metrics| ==> r == metrics[MetricOrder(metrics, name)].displayName
    ensures MetricOrder(metrics, name) == |metrics| ==> r == name
    decreases |metrics|
  {
    if |metrics| == 0 then name
    else if metrics[0].name == name then metrics[0].displayName
    else
      assert MapSeq(metrics, MetricName)[1..] == MapSeq(metrics[1..], MetricName);
      DisplayName(metrics[1..], name)
  }

  /** The position of `v` in the dimension's configured order, the length of that order for a value
      it does not list, and 0 for a dimension that is not configured. */
  function DimensionValueOrder(dims: OrderedMap<string, GroupingDimensionConfig>, d: string, v: string): nat {
    if d in dims.entries then IndexOf(dims.entries[d].order, v) else 0
  }

  lemma DimensionValueOrderSpec(dims: OrderedMap<string, GroupingDimensionConfig>, d: string, v: string)
    ensures d !in dims.entries ==> DimensionValueOrder(dims, d, v) == 0
    ensures d in dims.entries && v in dims.entries[d].order ==>
      (DimensionValueOrder(dims, d, v) < |dims.entries[d].order|
       && dims.entries[d].order[DimensionValueOrder(dims, d, v)] == v)
    ensures d in dims.entries && v !in dims.entries[d].order ==> DimensionValueOrder(dims, d, v) == |dims.entries[d].order|
  {
  }

  // Labels and sort keys

  /** The dimensions a row is labelled by: the first configured combination, or else every column
      outside the excluded ones. */
  function GroupingDims(config: ReportConfig, row: Row): seq<string> {
    if |config.groupingCombinations| > 0 then config.groupingCombinations[0]
    else Filter(row.columns, NotExcluded)
  }

  /** The grouping dimensions the row has a value for, with those values, in dimension order. */
  function NonTotal(dims: seq<string>, row: Row): seq<(string, string)> {
    MapSeq(Filter(dims, IsPresent(row)), CellOf(row))
  }

  /** The value paired with the first occurrence of `d`. */
  function FoundValue(pairs: seq<(string, string)>, d: string): Option<string>
    decreases |pairs|
  {
    if |pairs| == 0 then None
    else if pairs[0].0 == d then Some(pairs[0].1)
    else FoundValue(pairs[1..], d)
  }

  /** The position of a dimension in a multi-dimension key: the order of its value, or +inf when
      the row has no value for it or an empty one. */
  function MultiPart(dims: OrderedMap<string, GroupingDimensionConfig>, pairs: seq<(string, string)>): string -> SortPart {
    d =>
      var found := FoundValue(pairs, d);
      if found.Some? && found.value != "" then Finite(DimensionValueOrder(dims, d, found.value)) else Infinity
  }

  /** "Display (v1, v2, ...)" over the row's grouping values, or "Display (Total)" without any. */
  function RowLabel(config: ReportConfig, row: Row): string {
    var parts := MapSeq(NonTotal(GroupingDims(config, row), row), PairValue);
    var display := DisplayName(config.metrics, row.metricName);
    if |parts| == 0 then display + " (Total)" else display + " (" + Join(", ", parts) + ")"
  }

  /** The metric order, then 0 for a total row, 1 followed by the dimension's position and its
      value's order for a single-dimension row, 2 followed by one part per grouping dimension for
      a multi-dimension row. */
  function SortKey(config: ReportConfig, row: Row): seq<SortPart> {
    var dims := GroupingDims(config, row);
    var pairs := NonTotal(dims, row);
    var order := Finite(MetricOrder(config.metrics, row.metricName));
    if |pairs| == 0 then [order, Finite(0)]
    else if |pairs| == 1 then
      var position := if pairs[0].0 in dims then IndexOf(dims, pairs[0].0) else 999;
      [order, Finite(1), Finite(position), Finite(DimensionValueOrder(config.groupingDimensions, pairs[0].0, pairs[0].1))]
    else [order, Finite(2)] + MapSeq(dims, MultiPart(config.groupingDimensions, pairs))
  }

  /** The first pair of a key is found, with its value; a key no pair has is not. */
  lemma {:induction false} FoundValueSpec(pairs: seq<(string, string)>, d: string)
    ensures FoundValue(pairs, d).Some? <==> d in MapSeq(pairs, PairKey)
    ensures FoundValue(pairs, d).Some? ==> (d, FoundValue(pairs, d).value) in pairs
    decreases |pairs|
  {
    if |pairs| > 0 {
      FoundValueSpec(pairs[1..], d);
      assert MapSeq(pairs, PairKey) == [pairs[0].0] + MapSeq(pairs[1..], PairKey);
    }
  }

  /** A grouping dimension is found among the row's values exactly when the row has a value for it,
      and what is found is that value. */
  lemma FoundNonTotal(dims: seq<string>, row: Row, d: string)
    ensures FoundValue(NonTotal(dims, row), d).Some? <==> d in dims && IsPresent(row)(d)
    ensures FoundValue(NonTotal(dims, row), d).Some? ==> FoundValue(NonTotal(dims, row), d).value == row.cells[d]
  {
    var present := Filter(dims, IsPresent(row));
    var pairs := NonTotal(dims, row);
    FoundValueSpec(pairs, d);
    FilterMembers(dims, IsPresent(row));
    assert MapSeq(pairs, PairKey) == present;
  }

  /** The label is the display name with the row's grouping values, in dimension order, or with
      "Total" when it has none. */
  lemma LabelSpec(config: ReportConfig, row: Row)
    ensures var dims := GroupingDims(config, row); var present := Filter(dims, IsPresent(row));
      var display := DisplayName(config.metrics, row.metricName);
      && (|present| == 0 <==> forall i :: 0 <= i < |dims| ==> !IsPresent(row)(dims[i]))
      && (|present| == 0 ==> RowLabel(config, row) == display + " (Total)")
      && (|present| > 0 ==> exists values: seq<string> ::
           (&& |values| == |present|
            && (forall i :: 0 <= i < |present| ==>
                present[i] in dims && present[i] in row.cells && values[i] == row.cells[present[i]])
            && RowLabel(config, row) == display + " (" + Join(", ", values) + ")"))
  {
    var dims := GroupingDims(config, row);
    var present := Filter(dims, IsPresent(row));
    FilterMembers(dims, IsPresent(row));
    if |present| > 0 {
      assert present[0] in dims;
      var i :| 0 <= i < |dims| && dims[i] == present[0];
      assert IsPresent(row)(dims[i]);
      LabelValues(dims, row);
    }
  }

  /** The label's values are the row's cells of the present dimensions, in dimension order. */
  lemma LabelValues(dims: seq<string>, row: Row)
    ensures var present := Filter(dims, IsPresent(row)); var values := MapSeq(NonTotal(dims, row), PairValue);
      && |values| == |present|
      && forall i :: 0 <= i < |present| ==>
           present[i] in dims && present[i] in row.cells && values[i] == row.cells[present[i]]
  {
    FilterMembers(dims, IsPresent(row));
  }

  /** Every key starts with the metric order, then the row's category: 0 when it has no grouping
      value, 1 for one, 2 for more. */
  lemma SortKeyShape(config: ReportConfig, row: Row)
    ensures var n := |Filter(GroupingDims(config, row), IsPresent(row))|;
      && |SortKey(config, row)| >= 2
      && SortKey(config, row)[0] == Finite(MetricOrder(config.metrics, row.metricName))
      && SortKey(config, row)[1] == Finite(if n == 0 then 0 else if n == 1 then 1 else 2)
  {
  }

  /** A single-dimension row sorts by the position of its dimension among the grouping dimensions
      (the fallback position 999 is never used), then by the order of its value. */
  lemma SingleDimensionKey(config: ReportConfig, row: Row)
    requires |Filter(GroupingDims(config, row), IsPresent(row))| == 1
    ensures var dims := GroupingDims(config, row); var d := Filter(dims, IsPresent(row))[0];
      && d in dims && IsPresent(row)(d) && IndexOf(dims, d) < |dims|
      && SortKey(config, row) == [Finite(MetricOrder(config.metrics, row.metricName)), Finite(1),
           Finite(IndexOf(dims, d)), Finite(DimensionValueOrder(config.groupingDimensions, d, row.cells[d]))]
  {
    var dims := GroupingDims(config, row);
    FilterMembers(dims, IsPresent(row));
    assert Filter(dims, IsPresent(row))[0] in Filter(dims, IsPresent(row));
  }

  /** A multi-dimension row has one part per grouping dimension: the order of its value, or +inf
      when it has no value or an empty one. */
  lemma MultiDimensionKey(config: ReportConfig, row: Row)
    requires |Filter(GroupingDims(config, row), IsPresent(row))| >= 2
    ensures var dims := GroupingDims(config, row);
      && |SortKey(config, row)| == 2 + |dims|
      && forall i :: 0 <= i < |dims| ==> SortKey(config, row)[2 + i] == CellPart(config.groupingDimensions, row, dims[i])
  {
    var dims := GroupingDims(config, row);
    assert |SortKey(config, row)| == 2 + |dims| by {
      MultiKeyLength(config, row);
    }
    forall i | 0 <= i < |dims|
      ensures SortKey(config, row)[2 + i] == CellPart(config.groupingDimensions, row, dims[i])
    {
      MultiKeyPart(config, row, i);
      FoundNonTotal(dims, row, dims[i]);
    }
  }

  lemma MultiKeyLength(config: ReportConfig, row: Row)
    requires |Filter(GroupingDims(config, row), IsPresent(row))| >= 2
    ensures |SortKey(config, row)| == 2 + |GroupingDims(config, row)|
  {
  }

  /** Position `2 + i` of a multi-dimension row's key is the part of its `i`-th dimension. */
  lemma MultiKeyPart(config: ReportConfig, row: Row, i: nat)
    requires |Filter(GroupingDims(config, row), IsPresent(row))| >= 2
    requires i < |GroupingDims(config, row)|
    ensures 2 + i < |SortKey(config, row)|
    ensures var dims := GroupingDims(config, row);
      SortKey(config, row)[2 + i] == MultiPart(config.groupingDimensions, NonTotal(dims, row))(dims[i])
  {
  }

  /** The sort part of one dimension of a row: the order of its value when the row has a
      non-empty value for it, otherwise after every value. */
  function CellPart(dims: OrderedMap<string, GroupingDimensionConfig>, row: Row, d: string): SortPart {
    if IsPresent(row)(d) && row.cells[d] != "" then Finite(DimensionValueOrder(dims, d, row.cells[d])) else Infinity
  }

  // Tuple order of the sort keys

  predicate PartLess(a: SortPart, b: SortPart) {
    match (a, b)
    case (Finite(x), Finite(y)) => x < y
    case (Finite(_), Infinity) => true
    case (Infinity, _) => false
  }

  /** Python's tuple order: the first differing position decides, and a proper prefix comes first. */
  predicate KeyLess(a: seq<SortPart>, b: seq<SortPart>)
    decreases |a|
  {
    if |a| == 0 then |b| > 0
    else if |b| == 0 then false
    else if a[0] == b[0] then KeyLess(a[1..], b[1..])
    else PartLess(a[0], b[0])
  }

  lemma {:induction false} KeyLessIrreflexive(a: seq<SortPart>)
    ensures !KeyLess(a, a)
    decreases |a|
  {
    if |a| > 0 {
      KeyLessIrreflexive(a[1..]);
    }
  }

  lemma {:induction false} KeyLessTransitive(a: seq<SortPart>, b: seq<SortPart>, c: seq<SortPart>)
    requires KeyLess(a, b) && KeyLess(b, c)
    ensures KeyLess(a, c)
    decreases |a|
  {
    if |a| > 0 && |b| > 0 && |c| > 0 && a[0] == b[0] && b[0] == c[0] {
      KeyLessTransitive(a[1..], b[1..], c[1..]);
    }
  }

  /** Any two different keys are ordered one way or the other. */
  lemma {:induction false} KeyLessTotal(a: seq<SortPart>, b: seq<SortPart>)
    requires a != b
    ensures KeyLess(a, b) || KeyLess(b, a)
    decreases |a|
  {
    if |a| > 0 && |b| > 0 && a[0] == b[0] {
      assert a == [a[0]] + a[1..] && b == [b[0]] + b[1..];
      KeyLessTotal(a[1..], b[1..]);
    }
  }

  /** Rows sort by metric first: an earlier configured metric comes before a later one. */
  lemma MetricOrderFirst(config: ReportConfig, a: Row, b: Row)
    requires MetricOrder(config.metrics, a.metricName) < MetricOrder(config.metrics, b.metricName)
    ensures KeyLess(SortKey(config, a), SortKey(config, b))
  {
    SortKeyShape(config, a);
    SortKeyShape(config, b);
  }

  /** Within one metric the total row comes first, then the single-dimension rows, then the
      multi-dimension rows. */
  lemma CategoryOrder(config: ReportConfig, a: Row, b: Row)
    requires a.metricName == b.metricName
    requires var na := |Filter(GroupingDims(config, a), IsPresent(a))|;
      var nb := |Filter(GroupingDims(config, b), IsPresent(b))|;
      na < nb && na < 2
    ensures KeyLess(SortKey(config, a), SortKey(config, b))
  {
    SortKeyShape(config, a);
    SortKeyShape(config, b);
    var ka, kb := SortKey(config, a), SortKey(config, b);
    assert ka[0] == kb[0];
    assert ka[1..][0] == ka[1] && kb[1..][0] == kb[1];
  }

  // Column order

  /** A column of the pivot table: a file label and a mining tool. */
  type Column = (string, string)

  function IsRef(refLabel: string): Column -> bool {
    (c: Column) => c.0 == refLabel
  }

  /** The columns with the reference's file label first; no reference label (or an empty one) or
      no matching column leaves the order as it is. */
  function ReferenceFirst(cols: seq<Column>, refLabel: Option<string>): seq<Column> {
    if refLabel.None? || refLabel.value == "" then cols
    else
      var refs := Filter(cols, IsRef(refLabel.value));
      if |refs| == 0 then cols else refs + Filter(cols, Not(IsRef(refLabel.value)))
  }

  /** The reordering is a stable partition: the reference columns, then the others, each in their
      original order; the guard on an empty reference list changes nothing. Without a reference
      label the order is kept. */
  lemma ReferenceFirstSpec(cols: seq<Column>, refLabel: Option<string>)
    ensures refLabel.None? || refLabel.value == "" ==> ReferenceFirst(cols, refLabel) == cols
    ensures refLabel.Some? && refLabel.value != "" ==>
      ReferenceFirst(cols, refLabel) == Filter(cols, IsRef(refLabel.value)) + Filter(cols, Not(IsRef(refLabel.value)))
  {
    if refLabel.Some? && refLabel.value != "" {
      var p := IsRef(refLabel.value);
      if |Filter(cols, p)| == 0 {
        FilterMembers(cols, p);
        forall i | 0 <= i < |cols| ensures Not(p)(cols[i]) {
          if p(cols[i]) {
            assert cols[i] in Filter(cols, p);
          }
        }
        FilterAll(cols, Not(p));
      }
    }
  }

  /** The reordering is a permutation of the columns. */
  lemma ReferenceFirstPermutation(cols: seq<Column>, refLabel: Option<string>)
    ensures multiset(ReferenceFirst(cols, refLabel)) == multiset(cols)
  {
    if refLabel.Some? && refLabel.value != "" {
      FilterPartition(cols, IsRef(refLabel.value));
    }
  }

  /** Every reference column comes before every other column. */
  lemma ReferenceColumnsFirst(cols: seq<Column>, refLabel: string)
    requires refLabel != ""
    ensures var r := ReferenceFirst(cols, Some(refLabel));
      forall i, j :: 0 <= i < j < |r| ==> (r[j].0 == refLabel ==> r[i].0 == refLabel)
  {
    var p := IsRef(refLabel);
    ReferenceFirstSpec(cols, Some(refLabel));
    var refs := Filter(cols, p);
    var others := Filter(cols, Not(p));
    FilterMembers(cols, p);
    FilterMembers(cols, Not(p));
    var r := refs + others;
    forall i, j | 0 <= i < j < |r| && r[j].0 == refLabel ensures r[i].0 == refLabel {
      assert r[i] == refs[i];
    }
  }

  // The rows of the HTML report

  /** A row of the pivot table: its label and its cells as text, `None` for a null cell. */
  datatype TableRow = TableRow(heading: string, cells: seq<Option<string>>)

  function CellText(v: Option<string>): string {
    match v
    case None => "0"
    case Some(t) => t
  }

  function FileLabelOf(c: Column): string {
    c.0
  }

  function ToolOf(c: Column): string {
    c.1
  }

  function HtmlRow(r: TableRow): seq<string> {
    [r.heading] + MapSeq(r.cells, CellText)
  }

  /** The rows embedded in the HTML report: a file-label header, a mining-tool header, then each
      table row led by its label. */
  function HtmlRows(cols: seq<Column>, rows: seq<TableRow>): seq<seq<string>> {
    [["file_label"] + MapSeq(cols, FileLabelOf), ["mining_tool"] + MapSeq(cols, ToolOf)] + MapSeq(rows, HtmlRow)
  }

  /** The header rows give back every column, and each data row gives back its label and every
      cell, a null cell as "0". */
  lemma HtmlRowsSpec(cols: seq<Column>, rows: seq<TableRow>)
    ensures var out := HtmlRows(cols, rows);
      && |out| == 2 + |rows|
      && out[0][0] == "file_label" && out[1][0] == "mining_tool"
      && |out[0]| == |out[1]| == 1 + |cols|
      && (forall i :: 0 <= i < |cols| ==> (out[0][1 + i], out[1][1 + i]) == cols[i])
      && (forall k :: 0 <= k < |rows| ==> |out[2 + k]| == 1 + |rows[k].cells| && out[2 + k][0] == rows[k].heading)
      && (forall k, j :: 0 <= k < |rows| && 0 <= j < |rows[k].cells| ==>
            out[2 + k][1 + j] == (if rows[k].cells[j].Some? then rows[k].cells[j].value else "0"))
  {
    var out := HtmlRows(cols, rows);
    forall k | 0 <= k < |rows| ensures out[2 + k] == HtmlRow(rows[k]) {
    }
  }

  /** Builds the rows of the HTML report from the (reordered) columns and the table rows. */
  method BuildHtmlRows(cols: seq<Column>, rows: seq<TableRow>) returns (out: seq<seq<string>>)
    ensures out == HtmlRows(cols, rows)
  {
    var fileLabels := ["file_label"];
    var miningTools := ["mining_tool"];
    for i := 0 to |cols|
      invariant fileLabels == ["file_label"] + MapSeq(cols[..i], FileLabelOf)
      invariant miningTools == ["mining_tool"] + MapSeq(cols[..i], ToolOf)
    {
      MapSeqPrefix(cols, i, FileLabelOf);
      MapSeqPrefix(cols, i, ToolOf);
      fileLabels := fileLabels + [cols[i].0];
      miningTools := miningTools + [cols[i].1];
    }
    assert cols[..|cols|] == cols;
    out := [fileLabels, miningTools];
    for k := 0 to |rows|
      invariant out == [fileLabels, miningTools] + MapSeq(rows[..k], HtmlRow)
    {
      var line := BuildHtmlRow(rows[k]);
      MapSeqPrefix(rows, k, HtmlRow);
      out := out + [line];
    }
    assert rows[..|rows|] == rows;
  }

  method BuildHtmlRow(r: TableRow) returns (line: seq<string>)
    ensures line == HtmlRow(r)
  {
    line := [r.heading];
    for j := 0 to |r.cells|
      invariant line == [r.heading] + MapSeq(r.cells[..j], CellText)
    {
      MapSeqPrefix(r.cells, j, CellText);
      if r.cells[j].None? {
        line := line + ["0"];
      } else {
        line := line + [r.cells[j].value];
      }
    }
    assert r.cells[..|r.cells|] == r.cells;
  }

  /** The value of the first occurrence of `d` among the pairs. */
  method FindValue(pairs: seq<(string, string)>, d: string) returns (found: Option<string>)
    ensures found == FoundValue(pairs, d)
  {
    var j := 0;
    while j < |pairs|
      invariant j <= |pairs|
      invariant FoundValue(pairs, d) == FoundValue(pairs[j..], d)
    {
      assert pairs[j..][1..] == pairs[j + 1..];
      if pairs[j].0 == d {
        return Some(pairs[j].1);
      }
      j := j + 1;
    }
    return None;
  }

  /** Turns metric rows into row labels and sort keys by the configuration's metric and
      dimension orders. */
  class DataFrameTableBuilder {
    const config: ReportConfig

    constructor(config: ReportConfig)
      ensures this.config == config
    {
      this.config := config;
    }

    method GetMetricOrder(name: string) returns (r: nat)
      ensures r == MetricOrder(config.metrics, name)
    {
      var metrics := config.metrics;
      MetricOrderSpec(metrics, name);
      for i := 0 to |metrics|
        invariant forall j :: 0 <= j < i ==> metrics[j].name != name
      {
        if metrics[i].name == name {
          return i;
        }
      }
      return |metrics|;
    }

    method GetMetricDisplayName(name: string) returns (r: string)
      ensures r == DisplayName(config.metrics, name)
    {
      var metrics := config.metrics;
      MetricOrderSpec(metrics, name);
      for i := 0 to |metrics|
        invariant forall j :: 0 <= j < i ==> metrics[j].name != name
      {
        if metrics[i].name == name {
          return metrics[i].displayName;
        }
      }
      return name;
    }

    /** The label and the sort key of a row. */
    method CreateRowLabelAndSortKey(row: Row) returns (rowLabel: string, key: seq<SortPart>)
      ensures rowLabel == RowLabel(config, row)
      ensures key == SortKey(config, row)
    {
      var dims := if |config.groupingCombinations| > 0 then config.groupingCombinations[0] else Filter(row.columns, NotExcluded);
      var display := GetMetricDisplayName(row.metricName);
      var order := GetMetricOrder(row.metricName);
      var parts, nonTotal := CollectGroupingValues(dims, row);
      if |nonTotal| == 0 {
        key := [Finite(order), Finite(0)];
      } else if |nonTotal| == 1 {
        var (d, v) := nonTotal[0];
        var position := if d in dims then IndexOf(dims, d) else 999;
        key := [Finite(order), Finite(1), Finite(position), Finite(DimensionValueOrder(config.groupingDimensions, d, v))];
      } else {
        var dimParts := MultiDimensionParts(dims, nonTotal);
        key := [Finite(order), Finite(2)] + dimParts;
      }
      if |parts| > 0 {
        rowLabel := display + " (" + Join(", ", parts) + ")";
      } else {
        rowLabel := display + " (Total)";
      }
    }

    /** The grouping values of the row and the (dimension, value) pairs, in dimension order. */
    method CollectGroupingValues(dims: seq<string>, row: Row) returns (parts: seq<string>, nonTotal: seq<(string, string)>)
      ensures nonTotal == NonTotal(dims, row)
      ensures parts == MapSeq(nonTotal, PairValue)
    {
      parts, nonTotal := [], [];
      for i := 0 to |dims|
        invariant nonTotal == NonTotal(dims[..i], row)
        invariant parts == MapSeq(nonTotal, PairValue)
      {
        FilterPrefix(dims, i, IsPresent(row));
        MapSeqAppend(Filter(dims[..i], IsPresent(row)), if IsPresent(row)(dims[i]) then [dims[i]] else [], CellOf(row));
        if dims[i] in row.columns && dims[i] in row.cells {
          var value := row.cells[dims[i]];
          parts := parts + [value];
          nonTotal := nonTotal + [(dims[i], value)];
        }
      }
      assert dims[..|dims|] == dims;
    }

    /** One part per grouping dimension for a multi-dimension row. */
    method MultiDimensionParts(dims: seq<string>, nonTotal: seq<(string, string)>) returns (dimParts: seq<SortPart>)
      ensures dimParts == MapSeq(dims, MultiPart(config.groupingDimensions, nonTotal))
    {
      dimParts := [];
      for i := 0 to |dims|
        invariant dimParts == MapSeq(dims[..i], MultiPart(config.groupingDimensions, nonTotal))
      {
        MapSeqPrefix(dims, i, MultiPart(config.groupingDimensions, nonTotal));
        var found := FindValue(nonTotal, dims[i]);
        if found.Some? && found.value != "" {
          dimParts := dimParts + [Finite(DimensionValueOrder(config.groupingDimensions, dims[i], found.value))];
        } else {
          dimParts := dimParts + [Infinity];
        }
      }
      assert dims[..|dims|] == dims;
    }
  }
}
