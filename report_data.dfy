/** The rows the report pipeline builds from computed metric values, and the running modes it
    tells apart. */
module ReportData {
  import opened Seqs
  import opened Grouping
  import opened OrderedMaps

  /** The running modes, each named by a string. */
  datatype RunningMode = CompareToReference | CompareTools | CompareSamples | Unknown
  {
    function Value(): string {
      match this
      case CompareToReference => "compare_to_reference"
      case CompareTools => "compare_tools"
      case CompareSamples => "compare_samples"
      case Unknown => "unknown"
    }
  }

  /** The four modes have four different string values. */
  lemma RunningModeValuesDistinct(a: RunningMode, b: RunningMode)
    ensures a.Value() == b.Value() <==> a == b
  {
  }

  /** A cell of a metric row: the path and names are text, the computed value a number. */
  datatype Cell = Text(text: string) | Number(number: real)

  /** One computed metric: the input it came from, its name, its value and the grouping values
      (dimension name to value) of the group it was computed over. */
  datatype MetricValue = MetricValue(
    filePath: string,
    metricName: string,
    value: real,
    grouping: OrderedMap<string, string> := OrderedMap([], map[]))

  const BaseColumns: seq<string> := ["file_path", "metric_name", "value"]

  /** The row before the grouping values are merged in. */
  function BaseRow(mv: MetricValue): OrderedMap<string, Cell> {
    OrderedMap(BaseColumns, map["file_path" := Text(mv.filePath), "metric_name" := Text(mv.metricName), "value" := Number(mv.value)])
  }

  function TextEntries(m: map<string, string>): map<string, Cell> {
    map k | k in m :: Text(m[k])
  }

  /** The row of a metric value: path, name and value, then the grouping entries assigned over
      them. */
  function ToSeriesRow(mv: MetricValue): OrderedMap<string, Cell>
    requires mv.grouping.Valid()
  {
    Update(BaseRow(mv), OrderedMap(mv.grouping.keys, TextEntries(mv.grouping.entries)))
  }

  /** The row's columns are the three base columns, then the grouping dimensions that are not
      base columns, in grouping order; its keys are the base columns and the grouping keys. */
  lemma SeriesRowColumns(mv: MetricValue)
    requires mv.grouping.Valid()
    ensures ToSeriesRow(mv).Valid()
    ensures ToSeriesRow(mv).keys == BaseColumns + Filter(mv.grouping.keys, NotIn(BaseRow(mv).entries))
    ensures forall c :: c in ToSeriesRow(mv).entries <==> c in BaseColumns || c in mv.grouping.entries
  {
    var ks := mv.grouping.keys;
    PutAllKeys(BaseRow(mv), ks, TextEntries(mv.grouping.entries));
    PutAllEntries(BaseRow(mv), ks, TextEntries(mv.grouping.entries));
  }

  /** A grouping entry overrides a base column of the same name; the other base columns hold
      the path as text, the name and the value. */
  lemma SeriesRowValues(mv: MetricValue)
    requires mv.grouping.Valid()
    ensures forall d :: d in mv.grouping.entries ==> d in ToSeriesRow(mv).entries && ToSeriesRow(mv).entries[d] == Text(mv.grouping.entries[d])
    ensures "file_path" !in mv.grouping.entries ==> "file_path" in ToSeriesRow(mv).entries && ToSeriesRow(mv).entries["file_path"] == Text(mv.filePath)
    ensures "metric_name" !in mv.grouping.entries ==> "metric_name" in ToSeriesRow(mv).entries && ToSeriesRow(mv).entries["metric_name"] == Text(mv.metricName)
    ensures "value" !in mv.grouping.entries ==> "value" in ToSeriesRow(mv).entries && ToSeriesRow(mv).entries["value"] == Number(mv.value)
  {
    PutAllEntries(BaseRow(mv), mv.grouping.keys, TextEntries(mv.grouping.entries));
  }

  /** A table: its column names and one row per record, a missing cell being absent from the
      row's map. */
  datatype Frame = Frame(columns: seq<string>, rows: seq<map<string, Cell>>)

  function RowsOf(mvs: seq<MetricValue>): seq<OrderedMap<string, Cell>>
    requires forall i :: 0 <= i < |mvs| ==> mvs[i].grouping.Valid()
  {
    seq(|mvs|, i requires 0 <= i < |mvs| && mvs[i].grouping.Valid() => ToSeriesRow(mvs[i]))
  }

  function KeysOfRow(row: OrderedMap<string, Cell>): seq<string> {
    row.keys
  }

  function EntriesOfRow(row: OrderedMap<string, Cell>): map<string, Cell> {
    row.entries
  }

  /** The table of the metric values: an empty list gives just the three base columns; otherwise
      one row per value, with the columns in the order they first appear across the rows. */
  function CreateDataFrameFromMetrics(mvs: seq<MetricValue>): Frame
    requires forall i :: 0 <= i < |mvs| ==> mvs[i].grouping.Valid()
  {
    if |mvs| == 0 then Frame(BaseColumns, [])
    else
      var rows := RowsOf(mvs);
      Frame(FirstSeen(Concat(MapSeq(rows, KeysOfRow))), MapSeq(rows, EntriesOfRow))
  }

  /** Whatever the input, the table starts with the three base columns and lists each column once;
      one row per metric value, and a column exists exactly when some row has that key. */
  lemma {:induction false} FrameColumns(mvs: seq<MetricValue>)
    requires forall i :: 0 <= i < |mvs| ==> mvs[i].grouping.Valid()
    ensures var f := CreateDataFrameFromMetrics(mvs);
      && |f.columns| >= 3 && f.columns[..3] == BaseColumns
      && Distinct(f.columns)
      && |f.rows| == |mvs|
      && (|mvs| > 0 ==> forall c :: c in f.columns <==> exists i :: 0 <= i < |mvs| && c in f.rows[i])
  {
    if |mvs| > 0 {
      var rows := RowsOf(mvs);
      var kss := MapSeq(rows, KeysOfRow);
      var f := CreateDataFrameFromMetrics(mvs);
      SeriesRowColumns(mvs[0]);
      assert kss[0] == BaseColumns + Filter(mvs[0].grouping.keys, NotIn(BaseRow(mvs[0]).entries));
      FirstSeenOfDistinct(kss[0]);
      ConcatFront(kss);
      FirstSeenAppendPrefix(kss[0], Concat(kss[1..]));
      assert f.columns[..3] == kss[0][..3];
      FirstSeenMembers(Concat(kss));
      forall c ensures c in f.columns <==> exists i :: 0 <= i < |mvs| && c in f.rows[i] {
        FirstSeenHas(Concat(kss), c);
        ConcatMember(kss, c);
        forall i | 0 <= i < |mvs| ensures c in kss[i] <==> c in f.rows[i] {
          SeriesRowColumns(mvs[i]);
        }
      }
    }
  }
}
