/** The basic analysis: the four standard groupings of one run's BGCs, for every run. */
module BasicAnalyzer {
  import opened Wrappers
  import opened Seqs
  import opened Maps
  import opened Grouping
  import opened GenomeMiningResults
  import opened Metrics
  import opened Report

  /** The report's four groupings of one run's BGCs. */
  function MetricsFor(result: GenomeMiningResult): map<string, GroupedMetrics> {
    map[
      "total" := GroupedBy(result.bgcs, []),
      "by_type" := GroupedBy(result.bgcs, ["product_type"]),
      "by_completeness" := GroupedBy(result.bgcs, ["completeness"]),
      "by_type_completeness" := GroupedBy(result.bgcs, ["product_type", "completeness"])]
  }

  /** Runs the metrics engine on the run's BGCs with no grouping, by product type, by
      completeness, and by both. */
  method GenerateMetrics(result: GenomeMiningResult) returns (metrics: map<string, GroupedMetrics>)
    ensures metrics.Keys == {"total", "by_type", "by_completeness", "by_type_completeness"}
    ensures metrics["total"].groups == (if result.bgcs == [] then [] else [[]])
    ensures metrics == MetricsFor(result)
  {
    var engine := new MetricsEngine(result.bgcs);
    var total := engine.Compute([]);
    var byType := engine.Compute(["product_type"]);
    var byCompleteness := engine.Compute(["completeness"]);
    var byBoth := engine.Compute(["product_type", "completeness"]);
    if total.Err? || byType.Err? || byCompleteness.Err? || byBoth.Err? {
      assert false;
    }
    metrics := map[
      "total" := total.value,
      "by_type" := byType.value,
      "by_completeness" := byCompleteness.value,
      "by_type_completeness" := byBoth.value];
    UngroupedIsOneGroup(result.bgcs);
    MetricsForKeys(result);
  }

  lemma MetricsForKeys(result: GenomeMiningResult)
    ensures MetricsFor(result).Keys == {"total", "by_type", "by_completeness", "by_type_completeness"}
  {
  }

  /** With no grouping keys every BGC has the empty key tuple: one group, or none when there are
      no BGCs. */
  lemma UngroupedIsOneGroup(bgcs: seq<Bgc>)
    ensures GroupedBy(bgcs, []).groups == (if bgcs == [] then [] else [[]])
  {
    if bgcs != [] {
      var key := GroupKey([]);
      FirstSeenConstant(MapSeq(bgcs, key), []);
    }
  }

  function InputFile(result: GenomeMiningResult): string {
    result.inputFile
  }

  /** The metrics of every run, keyed by input file. */
  method GenerateMetricsForAll(results: seq<GenomeMiningResult>) returns (basic: BasicMetrics)
    ensures basic == KeyedBy(results, InputFile, MetricsFor)
  {
    basic := map[];
    for i := 0 to |results|
      invariant basic == KeyedBy(results[..i], InputFile, MetricsFor)
    {
      var metrics := GenerateMetrics(results[i]);
      KeyedByPrefix(results, i, InputFile, MetricsFor);
      basic := basic[results[i].inputFile := metrics];
    }
    assert results[..|results|] == results;
  }

  /** There is one entry per distinct input file, and a later run with the same file replaces
      an earlier one. */
  lemma OneEntryPerInputFile(results: seq<GenomeMiningResult>, i: int)
    requires 0 <= i < |results|
    ensures forall f :: f in KeyedBy(results, InputFile, MetricsFor) <==>
      exists j :: 0 <= j < |results| && results[j].inputFile == f
    ensures (forall j :: i < j < |results| ==> results[j].inputFile != results[i].inputFile) ==>
      KeyedBy(results, InputFile, MetricsFor)[results[i].inputFile] == MetricsFor(results[i])
  {
    KeyedByKeys(results, InputFile, MetricsFor);
    forall f | exists j :: 0 <= j < |results| && results[j].inputFile == f
      ensures f in KeyedBy(results, InputFile, MetricsFor)
    {
      var j :| 0 <= j < |results| && results[j].inputFile == f;
      assert InputFile(results[j]) == f;
    }
    if forall j :: i < j < |results| ==> results[j].inputFile != results[i].inputFile {
      KeyedByLastWins(results, InputFile, MetricsFor, i);
    }
  }

  /** The basic report wraps the per-file metrics unchanged. */
  method GenerateBasicReport(results: seq<GenomeMiningResult>) returns (report: BasicReport)
    ensures report.basicMetrics == KeyedBy(results, InputFile, MetricsFor)
  {
    var basic := GenerateMetricsForAll(results);
    report := BasicReport(basic);
  }
}
