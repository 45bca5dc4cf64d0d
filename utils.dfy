/** The older copy of the input helpers. Its product mapping and reverse mapping are the same as
    in `InputUtils`; its running-mode decision differs and returns the mode of `Report`. */
module Utils {
  import opened GenomeMiningResults
  import opened Wrappers
  import opened Report
  import InputUtils
  import ReportData

  /** The older running mode: a reference always wins; fewer than two results, or labels and
      tools both differing, leave the mode unknown; otherwise differing labels mean a comparison
      of samples and equal labels a comparison of tools. */
  function DetermineRunningMode(reference: Option<GenomeMiningResult>, results: seq<GenomeMiningResult>): RunningMode {
    var tools := InputUtils.DifferentMiningTools(results);
    var labels := InputUtils.DifferentFileLabels(results);
    if reference.Some? then CompareToReference
    else if |results| <= 1 || (labels && tools) then RunningMode.Unknown
    else if labels then CompareSamples
    else CompareTools
  }

  /** The decision table, each mode with exactly the inputs that lead to it. */
  lemma RunningModeTable(reference: Option<GenomeMiningResult>, results: seq<GenomeMiningResult>)
    ensures DetermineRunningMode(reference, results) == CompareToReference <==> reference.Some?
    ensures DetermineRunningMode(reference, results) == RunningMode.Unknown <==>
      reference.None? && (|results| <= 1 || (InputUtils.DifferentFileLabels(results) && InputUtils.DifferentMiningTools(results)))
    ensures DetermineRunningMode(reference, results) == CompareSamples <==>
      reference.None? && |results| >= 2 && InputUtils.DifferentFileLabels(results) && !InputUtils.DifferentMiningTools(results)
    ensures DetermineRunningMode(reference, results) == CompareTools <==>
      reference.None? && |results| >= 2 && !InputUtils.DifferentFileLabels(results)
  {
  }

  /** The same mode, as the reporting package names it. */
  function AsReportMode(m: ReportData.RunningMode): RunningMode {
    match m
    case CompareToReference => CompareToReference
    case CompareTools => CompareTools
    case CompareSamples => CompareSamples
    case Unknown => RunningMode.Unknown
  }

  /** Where the two decisions part: they agree on two or more results without a reference; with
      a reference the newer one says unknown when the tools differ; without one it decides a single
      result is a sample comparison and no result a tool comparison, where the older one gives up. */
  lemma RunningModeChange(reference: Option<GenomeMiningResult>, results: seq<GenomeMiningResult>)
    ensures reference.None? && |results| >= 2 ==>
      DetermineRunningMode(reference, results) == AsReportMode(InputUtils.DetermineRunningMode(reference, results))
    ensures reference.Some? ==>
      (DetermineRunningMode(reference, results) == AsReportMode(InputUtils.DetermineRunningMode(reference, results))
       <==> !InputUtils.DifferentMiningTools(results))
    ensures reference.None? && |results| == 1 ==>
      DetermineRunningMode(reference, results) == RunningMode.Unknown
      && InputUtils.DetermineRunningMode(reference, results) == ReportData.CompareSamples
    ensures reference.None? && |results| == 0 ==>
      DetermineRunningMode(reference, results) == RunningMode.Unknown
      && InputUtils.DetermineRunningMode(reference, results) == ReportData.CompareTools
  {
    if |results| == 1 {
      InputUtils.SingleResultSameLabels(results);
    }
  }
}
