/** The report records the analysers fill in. */
module Report {
  import opened Metrics
  import opened CompareToRefData

  /** Per input file, the four groupings' metrics. */
  type BasicMetrics = map<string, map<string, GroupedMetrics>>

  datatype BasicReport = BasicReport(basicMetrics: BasicMetrics := map[])

  /** The compare-to-reference report adds the reference BGCs' coverage per input file. */
  datatype CompareToRefReport = CompareToRefReport(
    basicMetrics: BasicMetrics := map[],
    refBgcCoverage: map<string, seq<ReferenceBgc>> := map[])

  /** A compare-to-reference report carrying the basic report's metrics and no coverage yet. */
  function FromBasic(basic: BasicReport): (r: CompareToRefReport)
    ensures r.basicMetrics == basic.basicMetrics
    ensures r.refBgcCoverage == map[]
  {
    CompareToRefReport(basicMetrics := basic.basicMetrics)
  }

  datatype RunningMode = CompareToReference | CompareTools | CompareSamples | Unknown
  {
    function Value(): int {
      match this
      case CompareToReference => 1
      case CompareTools => 2
      case CompareSamples => 3
      case Unknown => 4
    }
  }

  /** The four modes carry four different values, 1 to 4. */
  lemma RunningModeValuesDistinct(m: RunningMode, n: RunningMode)
    ensures 1 <= m.Value() <= 4
    ensures m.Value() == n.Value() <==> m == n
  {
  }

  lemma BasicReportDefault()
    ensures BasicReport().basicMetrics == map[]
  {
  }

  /** Converting to a compare-to-reference report and reading the metrics back is lossless. */
  lemma FromBasicRoundTrip(basic: BasicReport)
    ensures BasicReport(FromBasic(basic).basicMetrics) == basic
  {
  }
}
