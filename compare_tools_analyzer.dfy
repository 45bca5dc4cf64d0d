/** Cross-tool comparison: which BGCs of one run are also found, on the same sequence, by the
    runs of other tools, and directional run-against-run counts. */
module CompareToolsAnalyzer {
  import opened Wrappers
  import opened Seqs
  import opened Maps
  import opened GenomeMiningResults
  import opened Ints

  // ---------------------------------------------------------------------------------------------
  // Interval geometry


  /** Number of bases shared by the closed intervals `[aStart, aEnd]` and `[bStart, bEnd]`, each
      first put in increasing order. */
  function OverlapLen(aStart: int, aEnd: int, bStart: int, bEnd: int): (n: int)
    ensures n >= 0
  {
    var (a0, a1) := if aEnd < aStart then (aEnd, aStart) else (aStart, aEnd);
    var (b0, b1) := if bEnd < bStart then (bEnd, bStart) else (bStart, bEnd);
    var left, right := Max(a0, b0), Min(a1, b1);
    if right < left then 0 else right - left + 1
  }

  /** Some base lies in both closed intervals (each taken in either direction). */
  ghost predicate SharesBase(aStart: int, aEnd: int, bStart: int, bEnd: int) {
    exists p :: InClosed(p, aStart, aEnd) && InClosed(p, bStart, bEnd)
  }

  /** Base `p` lies in the closed interval between `s` and `e`, in either order. */
  predicate InClosed(p: int, s: int, e: int) {
    Min(s, e) <= p <= Max(s, e)
  }

  /** The overlap is symmetric, at most the length of either interval, zero exactly for
      intervals that share no base, and otherwise the span from the larger start to the smaller
      end. */
  lemma OverlapLenProperties(aStart: int, aEnd: int, bStart: int, bEnd: int)
    ensures OverlapLen(aStart, aEnd, bStart, bEnd) == OverlapLen(bStart, bEnd, aStart, aEnd)
    ensures OverlapLen(aStart, aEnd, bStart, bEnd) <= Max(aStart, aEnd) - Min(aStart, aEnd) + 1
    ensures OverlapLen(aStart, aEnd, bStart, bEnd) <= Max(bStart, bEnd) - Min(bStart, bEnd) + 1
    ensures OverlapLen(aStart, aEnd, bStart, bEnd) == 0 <==> !SharesBase(aStart, aEnd, bStart, bEnd)
    ensures SharesBase(aStart, aEnd, bStart, bEnd) ==>
      OverlapLen(aStart, aEnd, bStart, bEnd)
        == Min(Max(aStart, aEnd), Max(bStart, bEnd)) - Max(Min(aStart, aEnd), Min(bStart, bEnd)) + 1
  {
    var left := Max(Min(aStart, aEnd), Min(bStart, bEnd));
    var right := Min(Max(aStart, aEnd), Max(bStart, bEnd));
    if left <= right {
      assert InClosed(left, aStart, aEnd) && InClosed(left, bStart, bEnd);
    }
    if SharesBase(aStart, aEnd, bStart, bEnd) {
      var p :| InClosed(p, aStart, aEnd) && InClosed(p, bStart, bEnd);
      assert left <= p <= right;
    }
  }

  /** Closed intervals: `[10, 20]` and `[20, 30]` share one base, and reversed endpoints change
      nothing. */
  lemma OverlapLenExamples()
    ensures OverlapLen(10, 20, 20, 30) == 1
    ensures OverlapLen(20, 10, 30, 20) == 1
    ensures OverlapLen(10, 20, 21, 30) == 0
  {
  }

  /** Length of a BGC as the coverage denominator: zero for a BGC whose end precedes its start. */
  function BgcLen(a: Bgc): int {
    Max(0, a.end - a.start + 1)
  }

  /** The fraction of `a` that `b` covers, exact. */
  function Coverage(a: Bgc, b: Bgc): real {
    if BgcLen(a) == 0 then 0.0
    else (OverlapLen(a.start, a.end, b.start, b.end) as real) / (BgcLen(a) as real)
  }

  /** The coverage is zero for a BGC whose end precedes its start, lies in [0, 1], and is 1 when
      `b` contains `a`. */
  lemma CoverageBounds(a: Bgc, b: Bgc)
    ensures a.end < a.start ==> Coverage(a, b) == 0.0
    ensures 0.0 <= Coverage(a, b) <= 1.0
    ensures a.start <= a.end && Min(b.start, b.end) <= a.start && a.end <= Max(b.start, b.end)
      ==> Coverage(a, b) == 1.0
  {
    if BgcLen(a) > 0 {
      OverlapLenProperties(a.start, a.end, b.start, b.end);
      var ov, len := OverlapLen(a.start, a.end, b.start, b.end) as real, BgcLen(a) as real;
      FractionAtMostOne(ov, len);
      if a.start <= a.end && Min(b.start, b.end) <= a.start && a.end <= Max(b.start, b.end) {
        assert ov == len;
        assert ov / len == 1.0;
      }
    }
  }

  lemma FractionAtMostOne(x: real, y: real)
    requires 0.0 <= x <= y && y > 0.0
    ensures 0.0 <= x / y <= 1.0
  {
    assert x / y * y == x;
  }

  /** Coverage is directional: a short BGC inside a long one is fully covered by it, not the
      reverse. */
  lemma CoverageIsDirectional()
    ensures Coverage(Bgc("a", "s", 10, 19), Bgc("b", "s", 0, 99)) == 1.0
    ensures Coverage(Bgc("b", "s", 0, 99), Bgc("a", "s", 10, 19)) == 0.1
  {
  }

  predicate ValidThreshold(threshold: real) {
    0.0 <= threshold <= 1.0
  }

  /** `b` makes `a` non-unique: it covers a positive fraction of `a`, at least `threshold`. */
  predicate Covers(a: Bgc, b: Bgc, threshold: real) {
    Coverage(a, b) > 0.0 && Coverage(a, b) >= threshold
  }

  /** A threshold of zero still asks for at least one shared base. */
  lemma ZeroThresholdNeedsSharedBase(a: Bgc, b: Bgc)
    ensures Covers(a, b, 0.0) <==> BgcLen(a) > 0 && SharesBase(a.start, a.end, b.start, b.end)
  {
    OverlapLenProperties(a.start, a.end, b.start, b.end);
  }

  const ThresholdMessage := "The overlap threshold must be in [0,1]"

  /** Some candidate covers `a` by at least `threshold`. */
  predicate AnyCovers(a: Bgc, candidates: seq<Bgc>, threshold: real) {
    exists b :: b in candidates && Covers(a, b, threshold)
  }

  /** Whether no candidate covers `a` by at least `threshold`; an invalid threshold fails before
      any candidate is looked at. */
  method IsUniqueAgainstCandidates(a: Bgc, candidates: seq<Bgc>, threshold: real) returns (r: Result<bool>)
    ensures !ValidThreshold(threshold) ==> r == Err(ThresholdMessage)
    ensures ValidThreshold(threshold) ==> r == Ok(!AnyCovers(a, candidates, threshold))
  {
    if !(0.0 <= threshold <= 1.0) {
      return Err(ThresholdMessage);
    }
    for k := 0 to |candidates|
      invariant forall i :: 0 <= i < k ==> !Covers(a, candidates[i], threshold)
    {
      var cov := Coverage(a, candidates[k]);
      if cov > 0.0 && cov >= threshold {
        assert candidates[k] in candidates;
        return Ok(false);
      }
    }
    return Ok(true);
  }

  /** Whether some candidate covers `a` by at least `threshold`, stopping at the first. */
  method IsOverlappedBy(a: Bgc, candidates: seq<Bgc>, threshold: real) returns (overlapped: bool)
    ensures overlapped == AnyCovers(a, candidates, threshold)
  {
    overlapped := false;
    for k := 0 to |candidates|
      invariant forall i :: 0 <= i < k ==> !Covers(a, candidates[i], threshold)
    {
      var cov := Coverage(a, candidates[k]);
      if cov > 0.0 && cov >= threshold {
        assert candidates[k] in candidates;
        overlapped := true;
        break;
      }
    }
  }

  // ---------------------------------------------------------------------------------------------
  // What the comparison computes

  /** Some BGC of run `res` on the sequence of `a` covers `a` by at least `threshold`. */
  predicate OverlappedByRun(res: GenomeMiningResult, threshold: real, a: Bgc) {
    exists b :: b in res.bgcs && b.sequenceId == a.sequenceId && Covers(a, b, threshold)
  }

  function OverlappedBy(res: GenomeMiningResult, threshold: real): Bgc -> bool {
    (a: Bgc) => OverlappedByRun(res, threshold, a)
  }

  /** `a`, found by `tool`, is covered by no run of any other tool. */
  predicate GloballyUnique(results: seq<GenomeMiningResult>, tool: string, threshold: real, a: Bgc) {
    !exists k :: 0 <= k < |results| && results[k].miningTool != tool && OverlappedByRun(results[k], threshold, a)
  }

  function UniqueIn(results: seq<GenomeMiningResult>, tool: string, threshold: real): Bgc -> bool {
    (a: Bgc) => GloballyUnique(results, tool, threshold, a)
  }

  /** The BGCs of run `k` that no other tool recovers, and the rest, each in their original order. */
  function UniqueBgcs(results: seq<GenomeMiningResult>, k: int, threshold: real): seq<Bgc>
    requires 0 <= k < |results|
  {
    Filter(results[k].bgcs, UniqueIn(results, results[k].miningTool, threshold))
  }

  function NonUniqueBgcs(results: seq<GenomeMiningResult>, k: int, threshold: real): seq<Bgc>
    requires 0 <= k < |results|
  {
    Filter(results[k].bgcs, Not(UniqueIn(results, results[k].miningTool, threshold)))
  }

  /** The label of a run in the comparison tables: the display label, or the input-file label when
      the display label is missing or empty, followed by the tool in brackets. */
  function RunLabel(res: GenomeMiningResult): string {
    var name := if res.displayLabel.Some? && res.displayLabel.value != "" then res.displayLabel.value
                else res.inputFileLabel;
    name + " [" + res.miningTool + "]"
  }

  predicate DistinctLabels(results: seq<GenomeMiningResult>) {
    forall k, j :: 0 <= k < |results| && 0 <= j < |results| && k != j ==> RunLabel(results[k]) != RunLabel(results[j])
  }

  /** Run `j` is compared against run `i`: another run, on another input file. */
  predicate IsTarget(results: seq<GenomeMiningResult>, i: int, j: int) {
    0 <= i < |results| && 0 <= j < |results| && j != i && results[j].inputFile != results[i].inputFile
  }

  function AllLabels(results: seq<GenomeMiningResult>): set<string> {
    set k | 0 <= k < |results| :: RunLabel(results[k])
  }

  function TargetLabels(results: seq<GenomeMiningResult>, i: int): set<string> {
    set j | 0 <= j < |results| && IsTarget(results, i, j) :: RunLabel(results[j])
  }

  datatype Counts = Counts(unique: int, nonUnique: int, total: int)
  datatype PairCounts = PairCounts(unique: int, nonUnique: int)
  datatype RunUniqueness = RunUniqueness(result: GenomeMiningResult, unique: seq<Bgc>, nonUnique: seq<Bgc>)
  datatype UniquenessReport = UniquenessReport(
    perRun: seq<RunUniqueness>,
    totalsByTool: map<string, Counts>,
    pairwiseByTool: map<string, map<string, PairCounts>>)

  /** Counts of the first `n` BGCs of run `k` against run `j`: not covered by it, covered by it. */
  function PairAfter(results: seq<GenomeMiningResult>, threshold: real, k: int, j: int, n: int): PairCounts
    requires 0 <= k < |results| && 0 <= j < |results| && 0 <= n <= |results[k].bgcs|
  {
    PairCounts(|Filter(results[k].bgcs[..n], Not(OverlappedBy(results[j], threshold)))|,
               |Filter(results[k].bgcs[..n], OverlappedBy(results[j], threshold))|)
  }

  // ---------------------------------------------------------------------------------------------
  // The indexes built before the main pass

  /** BGC `e.index` of run `e.run`, with that run's tool. */
  datatype Entry = Entry(run: int, tool: string, index: int, bgc: Bgc)

  predicate IsEntry(results: seq<GenomeMiningResult>, e: Entry) {
    0 <= e.run < |results| && 0 <= e.index < |results[e.run].bgcs|
    && e.tool == results[e.run].miningTool && e.bgc == results[e.run].bgcs[e.index]
  }

  /** Every BGC of every run, grouped by sequence. */
  method IndexEntriesBySequence(results: seq<GenomeMiningResult>) returns (bySeq: map<string, seq<Entry>>)
    ensures forall s, e :: e in GetOrEmpty(bySeq, s) <==> IsEntry(results, e) && e.bgc.sequenceId == s
  {
    bySeq := map[];
    for i := 0 to |results|
      invariant forall s, e :: e in GetOrEmpty(bySeq, s) <==> IsEntry(results, e) && e.bgc.sequenceId == s && e.run < i
    {
      var res := results[i];
      for j := 0 to |res.bgcs|
        invariant forall s, e :: e in GetOrEmpty(bySeq, s) <==>
          IsEntry(results, e) && e.bgc.sequenceId == s && (e.run < i || (e.run == i && e.index < j))
      {
        var b := res.bgcs[j];
        var entry := Entry(i, res.miningTool, j, b);
        ghost var before := bySeq;
        bySeq := bySeq[b.sequenceId := GetOrEmpty(bySeq, b.sequenceId) + [entry]];
        forall s, e ensures e in GetOrEmpty(bySeq, s) <==>
          IsEntry(results, e) && e.bgc.sequenceId == s && (e.run < i || (e.run == i && e.index < j + 1))
        {
          if s == b.sequenceId {
            assert GetOrEmpty(bySeq, s) == GetOrEmpty(before, s) + [entry];
          } else {
            assert GetOrEmpty(bySeq, s) == GetOrEmpty(before, s);
          }
        }
      }
    }
  }

  /** `d.get(s, {}).get(j, [])` on the per-sequence, per-run index. */
  function Lookup(m: map<string, map<int, seq<Bgc>>>, s: string, j: int): seq<Bgc> {
    if s in m then GetOrEmpty(m[s], j) else []
  }

  predicate HasEntry(entries: seq<Entry>, j: int, b: Bgc) {
    exists e :: e in entries && e.run == j && e.bgc == b
  }

  lemma HasEntrySnoc(entries: seq<Entry>, e: Entry, j: int, b: Bgc)
    ensures HasEntry(entries + [e], j, b) <==> HasEntry(entries, j, b) || (e.run == j && e.bgc == b)
  {
    if HasEntry(entries + [e], j, b) {
      var e' :| e' in entries + [e] && e'.run == j && e'.bgc == b;
      if e' != e {
        assert e' in entries;
      }
    }
    if HasEntry(entries, j, b) {
      var e' :| e' in entries && e'.run == j && e'.bgc == b;
      assert e' in entries + [e];
    }
    assert e in entries + [e];
  }

  /** The BGCs of each run, grouped by sequence, read off the sequence index. */
  method IndexBySequenceAndRun(results: seq<GenomeMiningResult>, bySeq: map<string, seq<Entry>>)
    returns (bySeqByRun: map<string, map<int, seq<Bgc>>>)
    requires forall s, e :: e in GetOrEmpty(bySeq, s) <==> IsEntry(results, e) && e.bgc.sequenceId == s
    ensures forall s, j, b :: b in Lookup(bySeqByRun, s, j) <==>
      0 <= j < |results| && b in results[j].bgcs && b.sequenceId == s
  {
    bySeqByRun := map[];
    var remaining := bySeq.Keys;
    while remaining != {}
      invariant remaining <= bySeq.Keys
      invariant forall s, j, b :: b in Lookup(bySeqByRun, s, j) <==>
        s in bySeq && s !in remaining && HasEntry(bySeq[s], j, b)
      decreases remaining
    {
      var s :| s in remaining;
      var entries := bySeq[s];
      var runs: map<int, seq<Bgc>> := map[];
      for k := 0 to |entries|
        invariant forall j, b :: b in GetOrEmpty(runs, j) <==> HasEntry(entries[..k], j, b)
      {
        var e := entries[k];
        ghost var before := runs;
        runs := runs[e.run := GetOrEmpty(runs, e.run) + [e.bgc]];
        assert entries[..k + 1] == entries[..k] + [e];
        forall j, b ensures b in GetOrEmpty(runs, j) <==> HasEntry(entries[..k + 1], j, b) {
          HasEntrySnoc(entries[..k], e, j, b);
          if j == e.run {
            assert GetOrEmpty(runs, j) == GetOrEmpty(before, j) + [e.bgc];
          } else {
            assert GetOrEmpty(runs, j) == GetOrEmpty(before, j);
          }
        }
      }
      assert entries[..|entries|] == entries;
      ghost var before := bySeqByRun;
      bySeqByRun := bySeqByRun[s := runs];
      remaining := remaining - {s};
      forall s', j, b ensures b in Lookup(bySeqByRun, s', j) <==>
        s' in bySeq && s' !in remaining && HasEntry(bySeq[s'], j, b)
      {
        if s' != s {
          assert Lookup(bySeqByRun, s', j) == Lookup(before, s', j);
        }
      }
    }
    forall s, j, b ensures b in Lookup(bySeqByRun, s, j) <==> 0 <= j < |results| && b in results[j].bgcs && b.sequenceId == s {
      if 0 <= j < |results| && b in results[j].bgcs && b.sequenceId == s {
        var idx :| 0 <= idx < |results[j].bgcs| && results[j].bgcs[idx] == b;
        assert Entry(j, results[j].miningTool, idx, b) in GetOrEmpty(bySeq, s);
      }
    }
  }

  /** The per-run lookup holds exactly the BGCs of run `j` on the sequence of `a`. */
  lemma LookupCoversIff(results: seq<GenomeMiningResult>, m: map<string, map<int, seq<Bgc>>>, j: int, a: Bgc, threshold: real)
    requires 0 <= j < |results|
    requires forall s, j, b :: b in Lookup(m, s, j) <==> 0 <= j < |results| && b in results[j].bgcs && b.sequenceId == s
    ensures AnyCovers(a, Lookup(m, a.sequenceId, j), threshold) <==> OverlappedByRun(results[j], threshold, a)
  {
    if OverlappedByRun(results[j], threshold, a) {
      var b :| b in results[j].bgcs && b.sequenceId == a.sequenceId && Covers(a, b, threshold);
      assert b in Lookup(m, a.sequenceId, j);
    }
  }

  function OtherTool(tool: string): Entry -> bool {
    (e: Entry) => e.tool != tool
  }

  function EntryBgc(e: Entry): Bgc {
    e.bgc
  }

  /** The global candidates of a BGC found by `tool`: BGCs on its sequence found by another tool. */
  function GlobalCandidates(entries: seq<Entry>, tool: string): seq<Bgc> {
    MapSeq(Filter(entries, OtherTool(tool)), EntryBgc)
  }

  lemma GlobalCandidatesMembers(entries: seq<Entry>, tool: string, b: Bgc)
    ensures b in GlobalCandidates(entries, tool) <==> exists e :: e in entries && e.tool != tool && e.bgc == b
  {
    var kept := Filter(entries, OtherTool(tool));
    FilterMembers(entries, OtherTool(tool));
    if b in GlobalCandidates(entries, tool) {
      var i :| 0 <= i < |kept| && kept[i].bgc == b;
      assert kept[i] in entries && OtherTool(tool)(kept[i]);
    }
    if exists e :: e in entries && e.tool != tool && e.bgc == b {
      var e :| e in entries && e.tool != tool && e.bgc == b;
      var n :| 0 <= n < |entries| && entries[n] == e;
      assert OtherTool(tool)(entries[n]);
      var i :| 0 <= i < |kept| && kept[i] == e;
      assert GlobalCandidates(entries, tool)[i] == b;
    }
  }

  /** Checking the global candidates decides exactly whether `a` is covered by another tool. */
  lemma CandidatesCoverIff(results: seq<GenomeMiningResult>, bySeq: map<string, seq<Entry>>,
                           tool: string, a: Bgc, threshold: real)
    requires forall s, e :: e in GetOrEmpty(bySeq, s) <==> IsEntry(results, e) && e.bgc.sequenceId == s
    ensures AnyCovers(a, GlobalCandidates(GetOrEmpty(bySeq, a.sequenceId), tool), threshold)
      <==> !GloballyUnique(results, tool, threshold, a)
  {
    var entries := GetOrEmpty(bySeq, a.sequenceId);
    if AnyCovers(a, GlobalCandidates(entries, tool), threshold) {
      var b :| b in GlobalCandidates(entries, tool) && Covers(a, b, threshold);
      GlobalCandidatesMembers(entries, tool, b);
      var e :| e in entries && e.tool != tool && e.bgc == b;
      assert e.bgc in results[e.run].bgcs;
      assert OverlappedByRun(results[e.run], threshold, a);
    } else {
      forall k | 0 <= k < |results| && results[k].miningTool != tool
        ensures !OverlappedByRun(results[k], threshold, a)
      {
        forall b | b in results[k].bgcs && b.sequenceId == a.sequenceId ensures !Covers(a, b, threshold) {
          var idx :| 0 <= idx < |results[k].bgcs| && results[k].bgcs[idx] == b;
          assert Entry(k, results[k].miningTool, idx, b) in entries;
          GlobalCandidatesMembers(entries, tool, b);
        }
      }
    }
  }

  /** The empty row of run `i` in the directional table: a zero entry per run on another input file. */
  method PairwiseRow(results: seq<GenomeMiningResult>, labels: seq<string>, i: int)
    returns (row: map<string, PairCounts>)
    requires 0 <= i < |results|
    requires |labels| == |results| && forall k :: 0 <= k < |results| ==> labels[k] == RunLabel(results[k])
    ensures row.Keys == TargetLabels(results, i)
    ensures forall l :: l in row ==> row[l] == PairCounts(0, 0)
  {
    row := map[];
    for j := 0 to |results|
      invariant row.Keys == set j' | 0 <= j' < j && IsTarget(results, i, j') :: RunLabel(results[j'])
      invariant forall l :: l in row ==> row[l] == PairCounts(0, 0)
    {
      if j == i {
        continue;
      }
      if results[j].inputFile == results[i].inputFile {
        continue;
      }
      row := row[labels[j] := PairCounts(0, 0)];
    }
  }

  /** The empty directional table: for each run, its row. */
  method InitPairwise(results: seq<GenomeMiningResult>, labels: seq<string>)
    returns (pairwise: map<string, map<string, PairCounts>>)
    requires |labels| == |results| && forall k :: 0 <= k < |results| ==> labels[k] == RunLabel(results[k])
    ensures pairwise.Keys == AllLabels(results)
    ensures forall l, l' :: l in pairwise && l' in pairwise[l] ==> pairwise[l][l'] == PairCounts(0, 0)
    ensures DistinctLabels(results) ==>
      forall k :: 0 <= k < |results| ==> pairwise[RunLabel(results[k])].Keys == TargetLabels(results, k)
  {
    pairwise := map[];
    for i := 0 to |results|
      invariant pairwise.Keys == set k | 0 <= k < i :: RunLabel(results[k])
      invariant forall l, l' :: l in pairwise && l' in pairwise[l] ==> pairwise[l][l'] == PairCounts(0, 0)
      invariant DistinctLabels(results) ==>
        forall k :: 0 <= k < i ==> pairwise[RunLabel(results[k])].Keys == TargetLabels(results, k)
    {
      var row := PairwiseRow(results, labels, i);
      pairwise := pairwise[labels[i] := row];
    }
  }

  function Bump(p: PairCounts, overlapped: bool): PairCounts {
    if overlapped then p.(nonUnique := p.nonUnique + 1) else p.(unique := p.unique + 1)
  }

  /** Counts BGC `a` of run `i` against every run on another input file: as covered by that run
      or not. */
  method CountAgainstRuns(results: seq<GenomeMiningResult>, threshold: real, i: int, a: Bgc, labels: seq<string>,
                          bySeqByRun: map<string, map<int, seq<Bgc>>>, pairwise: map<string, map<string, PairCounts>>)
    returns (updated: map<string, map<string, PairCounts>>)
    requires 0 <= i < |results|
    requires |labels| == |results| && forall k :: 0 <= k < |results| ==> labels[k] == RunLabel(results[k])
    requires forall s, j, b :: b in Lookup(bySeqByRun, s, j) <==> 0 <= j < |results| && b in results[j].bgcs && b.sequenceId == s
    ensures updated.Keys == pairwise.Keys
    ensures forall l :: l in pairwise && l != labels[i] ==> updated[l] == pairwise[l]
    ensures labels[i] in pairwise ==> updated[labels[i]].Keys == pairwise[labels[i]].Keys
    ensures DistinctLabels(results) && labels[i] in pairwise && TargetLabels(results, i) <= pairwise[labels[i]].Keys ==>
      forall j :: IsTarget(results, i, j) ==>
        updated[labels[i]][labels[j]] == Bump(pairwise[labels[i]][labels[j]], OverlappedByRun(results[j], threshold, a))
  {
    updated := pairwise;
    var A := labels[i];
    for j := 0 to |results|
      invariant updated.Keys == pairwise.Keys
      invariant forall l :: l in pairwise && l != A ==> updated[l] == pairwise[l]
      invariant A in pairwise ==> updated[A].Keys == pairwise[A].Keys
      invariant DistinctLabels(results) && A in pairwise && TargetLabels(results, i) <= pairwise[A].Keys ==>
        forall j' :: IsTarget(results, i, j') ==>
          updated[A][labels[j']] == if j' < j then Bump(pairwise[A][labels[j']], OverlappedByRun(results[j'], threshold, a))
                                    else pairwise[A][labels[j']]
    {
      if j == i {
        continue;
      }
      if results[j].inputFile == results[i].inputFile {
        continue;
      }
      var B := labels[j];
      if !(A in updated && B in updated[A]) {
        continue;
      }
      var overlapped := IsOverlappedBy(a, Lookup(bySeqByRun, a.sequenceId, j), threshold);
      LookupCoversIff(results, bySeqByRun, j, a, threshold);
      var p := CountPair(updated[A][B], overlapped);
      BumpOne(updated, A, B, p);
      updated := updated[A := updated[A][B := p]];
    }
  }

  /** Counts one BGC into a pair's counts: as covered by the other run or not. */
  method CountPair(p: PairCounts, overlapped: bool) returns (p': PairCounts)
    ensures p' == Bump(p, overlapped)
  {
    if overlapped {
      p' := p.(nonUnique := p.nonUnique + 1);
    } else {
      p' := p.(unique := p.unique + 1);
    }
  }

  /** Assigning one pair's counts changes no key and no other entry. */
  lemma BumpOne(updated: map<string, map<string, PairCounts>>, a: string, b: string, p: PairCounts)
    requires a in updated && b in updated[a]
    ensures var u := updated[a := updated[a][b := p]];
      && u.Keys == updated.Keys && u[a].Keys == updated[a].Keys && u[a][b] == p
      && (forall l :: l in updated && l != a ==> u[l] == updated[l])
      && (forall l :: l in updated[a] && l != b ==> u[a][l] == updated[a][l])
  {
  }

  // ---------------------------------------------------------------------------------------------
  // The main pass

  /** The totals of run `k`: BGCs no other tool recovers, the rest, and all of them. */
  function TotalsOf(results: seq<GenomeMiningResult>, threshold: real, k: int): Counts
    requires 0 <= k < |results|
  {
    Counts(|UniqueBgcs(results, k, threshold)|, |NonUniqueBgcs(results, k, threshold)|, |results[k].bgcs|)
  }

  /** Run `k` against run `j`: its BGCs that `j` does not cover, and those it covers. */
  function PairOf(results: seq<GenomeMiningResult>, threshold: real, k: int, j: int): PairCounts
    requires 0 <= k < |results| && 0 <= j < |results|
  {
    PairCounts(|Filter(results[k].bgcs, Not(OverlappedBy(results[j], threshold)))|,
               |Filter(results[k].bgcs, OverlappedBy(results[j], threshold))|)
  }

  /** The same totals over the first `n` BGCs of run `k`. */
  function TotalsAfter(results: seq<GenomeMiningResult>, threshold: real, k: int, n: int): Counts
    requires 0 <= k < |results| && 0 <= n <= |results[k].bgcs|
  {
    var unique := UniqueIn(results, results[k].miningTool, threshold);
    Counts(|Filter(results[k].bgcs[..n], unique)|, |Filter(results[k].bgcs[..n], Not(unique))|, n)
  }

  /** How many BGCs of run `k` the main pass has classified when it is at BGC `m` of run `i`. */
  function Done(results: seq<GenomeMiningResult>, k: int, i: int, m: int): int
    requires 0 <= k < |results|
  {
    if k < i then |results[k].bgcs| else if k == i then m else 0
  }

  ghost predicate InPass(results: seq<GenomeMiningResult>, i: int, m: int) {
    0 <= i <= |results| && (i < |results| ==> 0 <= m <= |results[i].bgcs|) && (i == |results| ==> m == 0)
  }

  /** The totals table at BGC `m` of run `i`. */
  ghost predicate TotalsState(results: seq<GenomeMiningResult>, threshold: real, totals: map<string, Counts>, i: int, m: int)
    requires InPass(results, i, m)
  {
    totals.Keys == AllLabels(results)
    && (DistinctLabels(results) ==>
          forall k :: 0 <= k < |results| ==>
            totals[RunLabel(results[k])] == TotalsAfter(results, threshold, k, Done(results, k, i, m)))
  }

  /** The directional table at BGC `m` of run `i`. */
  ghost predicate PairwiseState(results: seq<GenomeMiningResult>, threshold: real,
                                pairwise: map<string, map<string, PairCounts>>, i: int, m: int)
    requires InPass(results, i, m)
  {
    pairwise.Keys == AllLabels(results)
    && (DistinctLabels(results) ==>
          (forall k :: 0 <= k < |results| ==> pairwise[RunLabel(results[k])].Keys == TargetLabels(results, k))
          && forall k, j :: 0 <= k < |results| && IsTarget(results, k, j) ==>
               pairwise[RunLabel(results[k])][RunLabel(results[j])]
                 == PairAfter(results, threshold, k, j, Done(results, k, i, m)))
  }

  /** One more BGC in a run's totals. */
  function Tally(c: Counts, unique: bool): Counts {
    if unique then Counts(c.unique + 1, c.nonUnique, c.total + 1) else Counts(c.unique, c.nonUnique + 1, c.total + 1)
  }

  /** Counts one BGC into a run's totals: as unique or not, and in the total. */
  method CountBgc(counts: Counts, isUnique: bool) returns (counts': Counts)
    ensures counts' == Tally(counts, isUnique)
  {
    counts' := counts;
    if isUnique {
      counts' := counts'.(unique := counts'.unique + 1);
    } else {
      counts' := counts'.(nonUnique := counts'.nonUnique + 1);
    }
    counts' := counts'.(total := counts'.total + 1);
  }

  /** Classifying BGC `m` of run `i` moves its run's totals one BGC on. */
  lemma TotalsStep(results: seq<GenomeMiningResult>, threshold: real, totals: map<string, Counts>,
                   totals': map<string, Counts>, i: int, m: int)
    requires 0 <= i < |results| && 0 <= m < |results[i].bgcs|
    requires TotalsState(results, threshold, totals, i, m)
    requires var run := RunLabel(results[i]);
      run in totals
      && totals' == totals[run := Tally(totals[run], GloballyUnique(results, results[i].miningTool, threshold, results[i].bgcs[m]))]
    ensures TotalsState(results, threshold, totals', i, m + 1)
  {
    if DistinctLabels(results) {
      var unique := UniqueIn(results, results[i].miningTool, threshold);
      FilterPrefix(results[i].bgcs, m, unique);
      FilterPrefix(results[i].bgcs, m, Not(unique));
    }
  }

  /** One more BGC of run `i` counted against run `j`. */
  lemma PairAfterStep(results: seq<GenomeMiningResult>, threshold: real, i: int, j: int, m: int)
    requires 0 <= i < |results| && 0 <= j < |results| && 0 <= m < |results[i].bgcs|
    ensures PairAfter(results, threshold, i, j, m + 1)
      == Bump(PairAfter(results, threshold, i, j, m), OverlappedByRun(results[j], threshold, results[i].bgcs[m]))
  {
    var overlapped := OverlappedBy(results[j], threshold);
    FilterPrefix(results[i].bgcs, m, overlapped);
    FilterPrefix(results[i].bgcs, m, Not(overlapped));
  }

  /** Counting BGC `m` of run `i` against the other runs moves its row one BGC on. */
  lemma PairwiseStep(results: seq<GenomeMiningResult>, threshold: real, pairwise: map<string, map<string, PairCounts>>,
                     pairwise': map<string, map<string, PairCounts>>, i: int, m: int)
    requires 0 <= i < |results| && 0 <= m < |results[i].bgcs|
    requires PairwiseState(results, threshold, pairwise, i, m)
    requires pairwise'.Keys == pairwise.Keys
    requires forall l :: l in pairwise && l != RunLabel(results[i]) ==> pairwise'[l] == pairwise[l]
    requires RunLabel(results[i]) in pairwise ==> pairwise'[RunLabel(results[i])].Keys == pairwise[RunLabel(results[i])].Keys
    requires DistinctLabels(results) && RunLabel(results[i]) in pairwise
             && TargetLabels(results, i) <= pairwise[RunLabel(results[i])].Keys ==>
      forall j :: IsTarget(results, i, j) ==>
        pairwise'[RunLabel(results[i])][RunLabel(results[j])]
          == Bump(pairwise[RunLabel(results[i])][RunLabel(results[j])], OverlappedByRun(results[j], threshold, results[i].bgcs[m]))
    ensures PairwiseState(results, threshold, pairwise', i, m + 1)
  {
    if DistinctLabels(results) {
      var run := RunLabel(results[i]);
      assert TargetLabels(results, i) <= pairwise[run].Keys;
      forall k | 0 <= k < |results| ensures pairwise'[RunLabel(results[k])].Keys == TargetLabels(results, k) {
        if k != i {
          assert RunLabel(results[k]) != run;
        }
      }
      forall k, j | 0 <= k < |results| && IsTarget(results, k, j)
        ensures pairwise'[RunLabel(results[k])][RunLabel(results[j])]
                  == PairAfter(results, threshold, k, j, Done(results, k, i, m + 1))
      {
        if k == i {
          PairAfterStep(results, threshold, i, j, m);
          assert pairwise'[run][RunLabel(results[j])]
            == Bump(pairwise[run][RunLabel(results[j])], OverlappedByRun(results[j], threshold, results[i].bgcs[m]));
        } else {
          assert RunLabel(results[k]) != run;
          assert pairwise'[RunLabel(results[k])] == pairwise[RunLabel(results[k])];
        }
      }
    }
  }

  /** Once every run is classified, the tables hold the counts over whole runs. */
  lemma FinalTables(results: seq<GenomeMiningResult>, threshold: real, k: int, j: int)
    requires 0 <= k < |results| && 0 <= j < |results|
    ensures TotalsAfter(results, threshold, k, |results[k].bgcs|) == TotalsOf(results, threshold, k)
    ensures PairAfter(results, threshold, k, j, |results[k].bgcs|) == PairOf(results, threshold, k, j)
  {
    assert results[k].bgcs[..|results[k].bgcs|] == results[k].bgcs;
  }

  /** After the last run, the tables hold the counts over whole runs. */
  lemma FinalState(results: seq<GenomeMiningResult>, threshold: real, totals: map<string, Counts>,
                   pairwise: map<string, map<string, PairCounts>>)
    requires TotalsState(results, threshold, totals, |results|, 0)
    requires PairwiseState(results, threshold, pairwise, |results|, 0)
    ensures DistinctLabels(results) ==>
      forall k :: 0 <= k < |results| ==>
        && totals[RunLabel(results[k])] == TotalsOf(results, threshold, k)
        && pairwise[RunLabel(results[k])].Keys == TargetLabels(results, k)
        && forall j :: IsTarget(results, k, j) ==>
             pairwise[RunLabel(results[k])][RunLabel(results[j])] == PairOf(results, threshold, k, j)
  {
    if DistinctLabels(results) {
      forall k | 0 <= k < |results|
        ensures totals[RunLabel(results[k])] == TotalsOf(results, threshold, k)
        ensures pairwise[RunLabel(results[k])].Keys == TargetLabels(results, k)
        ensures forall j :: IsTarget(results, k, j) ==>
                  pairwise[RunLabel(results[k])][RunLabel(results[j])] == PairOf(results, threshold, k, j)
      {
        assert Done(results, k, |results|, 0) == |results[k].bgcs|;
        FinalTables(results, threshold, k, k);
        forall j | IsTarget(results, k, j)
          ensures pairwise[RunLabel(results[k])][RunLabel(results[j])] == PairOf(results, threshold, k, j)
        {
          FinalTables(results, threshold, k, j);
        }
      }
    }
  }

  /** Classifies BGC `m` of run `i` and counts it into both tables. */
  method ClassifyBgc(results: seq<GenomeMiningResult>, threshold: real, i: int, m: int, labels: seq<string>,
                     bySeq: map<string, seq<Entry>>, bySeqByRun: map<string, map<int, seq<Bgc>>>,
                     totals: map<string, Counts>, pairwise: map<string, map<string, PairCounts>>)
    returns (isUnique: Result<bool>, totals': map<string, Counts>, pairwise': map<string, map<string, PairCounts>>)
    requires 0 <= i < |results| && 0 <= m < |results[i].bgcs|
    requires |labels| == |results| && forall k :: 0 <= k < |results| ==> labels[k] == RunLabel(results[k])
    requires forall s, e :: e in GetOrEmpty(bySeq, s) <==> IsEntry(results, e) && e.bgc.sequenceId == s
    requires forall s, j, b :: b in Lookup(bySeqByRun, s, j) <==> 0 <= j < |results| && b in results[j].bgcs && b.sequenceId == s
    requires TotalsState(results, threshold, totals, i, m)
    requires PairwiseState(results, threshold, pairwise, i, m)
    ensures !ValidThreshold(threshold) ==> isUnique == Err(ThresholdMessage)
    ensures ValidThreshold(threshold) ==>
      && isUnique == Ok(GloballyUnique(results, results[i].miningTool, threshold, results[i].bgcs[m]))
      && TotalsState(results, threshold, totals', i, m + 1)
      && PairwiseState(results, threshold, pairwise', i, m + 1)
  {
    var res := results[i];
    var A := labels[i];
    var a := res.bgcs[m];
    totals', pairwise' := totals, pairwise;
    var candidates := GlobalCandidates(GetOrEmpty(bySeq, a.sequenceId), res.miningTool);
    isUnique := IsUniqueAgainstCandidates(a, candidates, threshold);
    if isUnique.Err? {
      return;
    }
    CandidatesCoverIff(results, bySeq, res.miningTool, a, threshold);
    assert A in totals;
    var counts := CountBgc(totals[A], isUnique.value);
    totals' := totals[A := counts];
    TotalsStep(results, threshold, totals, totals', i, m);
    pairwise' := CountAgainstRuns(results, threshold, i, a, labels, bySeqByRun, pairwise);
    PairwiseStep(results, threshold, pairwise, pairwise', i, m);
  }

  /** Having classified every BGC of run `i` is being at the start of run `i + 1`. */
  lemma NextRun(results: seq<GenomeMiningResult>, threshold: real, totals: map<string, Counts>,
                pairwise: map<string, map<string, PairCounts>>, i: int)
    requires 0 <= i < |results|
    requires TotalsState(results, threshold, totals, i, |results[i].bgcs|)
    requires PairwiseState(results, threshold, pairwise, i, |results[i].bgcs|)
    ensures TotalsState(results, threshold, totals, i + 1, 0)
    ensures PairwiseState(results, threshold, pairwise, i + 1, 0)
  {
    assert forall k :: 0 <= k < |results| ==> Done(results, k, i, |results[i].bgcs|) == Done(results, k, i + 1, 0);
  }

  /** Classifies the BGCs of run `i`, in order, and counts them into both tables. */
  method ClassifyRun(results: seq<GenomeMiningResult>, threshold: real, i: int, labels: seq<string>,
                     bySeq: map<string, seq<Entry>>, bySeqByRun: map<string, map<int, seq<Bgc>>>,
                     totals: map<string, Counts>, pairwise: map<string, map<string, PairCounts>>)
    returns (error: Option<string>, uniques: seq<Bgc>, nonUniques: seq<Bgc>,
             totals': map<string, Counts>, pairwise': map<string, map<string, PairCounts>>)
    requires 0 <= i < |results|
    requires |labels| == |results| && forall k :: 0 <= k < |results| ==> labels[k] == RunLabel(results[k])
    requires forall s, e :: e in GetOrEmpty(bySeq, s) <==> IsEntry(results, e) && e.bgc.sequenceId == s
    requires forall s, j, b :: b in Lookup(bySeqByRun, s, j) <==> 0 <= j < |results| && b in results[j].bgcs && b.sequenceId == s
    requires TotalsState(results, threshold, totals, i, 0)
    requires PairwiseState(results, threshold, pairwise, i, 0)
    ensures error.Some? <==> !ValidThreshold(threshold) && |results[i].bgcs| > 0
    ensures error.Some? ==> error.value == ThresholdMessage
    ensures error.None? ==>
      && uniques == UniqueBgcs(results, i, threshold)
      && nonUniques == NonUniqueBgcs(results, i, threshold)
      && TotalsState(results, threshold, totals', i + 1, 0)
      && PairwiseState(results, threshold, pairwise', i + 1, 0)
  {
    var res := results[i];
    uniques, nonUniques, totals', pairwise' := [], [], totals, pairwise;
    ghost var unique := UniqueIn(results, res.miningTool, threshold);
    for m := 0 to |res.bgcs|
      invariant ValidThreshold(threshold) || m == 0
      invariant uniques == Filter(res.bgcs[..m], unique) && nonUniques == Filter(res.bgcs[..m], Not(unique))
      invariant TotalsState(results, threshold, totals', i, m)
      invariant PairwiseState(results, threshold, pairwise', i, m)
    {
      var a := res.bgcs[m];
      var isUnique;
      isUnique, totals', pairwise' := ClassifyBgc(results, threshold, i, m, labels, bySeq, bySeqByRun, totals', pairwise');
      if isUnique.Err? {
        return Some(isUnique.error), uniques, nonUniques, totals', pairwise';
      }
      assert isUnique.value == unique(a);
      FilterPrefix(res.bgcs, m, unique);
      FilterPrefix(res.bgcs, m, Not(unique));
      if isUnique.value {
        uniques := uniques + [a];
      } else {
        nonUniques := nonUniques + [a];
      }
    }
    assert res.bgcs[..|res.bgcs|] == res.bgcs;
    NextRun(results, threshold, totals', pairwise', i);
    error := None;
  }

  /** The tables as they are built, before any BGC is classified. */
  lemma InitialState(results: seq<GenomeMiningResult>, threshold: real, labels: seq<string>,
                     totals: map<string, Counts>, pairwise: map<string, map<string, PairCounts>>)
    requires |labels| == |results| && forall k :: 0 <= k < |results| ==> labels[k] == RunLabel(results[k])
    requires totals == map l | l in labels :: Counts(0, 0, 0)
    requires pairwise.Keys == AllLabels(results)
    requires forall l, l' :: l in pairwise && l' in pairwise[l] ==> pairwise[l][l'] == PairCounts(0, 0)
    requires DistinctLabels(results) ==>
      forall k :: 0 <= k < |results| ==> pairwise[RunLabel(results[k])].Keys == TargetLabels(results, k)
    ensures TotalsState(results, threshold, totals, 0, 0)
    ensures PairwiseState(results, threshold, pairwise, 0, 0)
  {
    assert totals.Keys == AllLabels(results) by {
      forall l | l in totals ensures l in AllLabels(results) {
        var k :| 0 <= k < |labels| && labels[k] == l;
      }
    }
    forall k | 0 <= k < |results| ensures results[k].bgcs[..0] == [] {
    }
  }

  /** Classifies every BGC of every run as recovered by another tool or not, and counts, for each
      ordered pair of runs on different input files, the BGCs of the first that the second
      covers. With no results there is nothing to compare; an invalid threshold fails at the first
      BGC looked at. */
  method ComputeUniqueness(results: seq<GenomeMiningResult>, threshold: real) returns (r: Result<UniquenessReport>)
    ensures |results| == 0 ==> r == Ok(UniquenessReport([], map[], map[]))
    ensures r.Err? <==> !ValidThreshold(threshold) && exists k :: 0 <= k < |results| && |results[k].bgcs| > 0
    ensures r.Err? ==> r.error == ThresholdMessage
    ensures r.Ok? ==>
      && |r.value.perRun| == |results|
      && (forall k :: 0 <= k < |results| ==>
            r.value.perRun[k] == RunUniqueness(results[k], UniqueBgcs(results, k, threshold), NonUniqueBgcs(results, k, threshold)))
      && r.value.totalsByTool.Keys == AllLabels(results)
      && r.value.pairwiseByTool.Keys == AllLabels(results)
    ensures r.Ok? && DistinctLabels(results) ==>
      forall k :: 0 <= k < |results| ==>
        && r.value.totalsByTool[RunLabel(results[k])] == TotalsOf(results, threshold, k)
        && r.value.pairwiseByTool[RunLabel(results[k])].Keys == TargetLabels(results, k)
        && forall j :: IsTarget(results, k, j) ==>
             r.value.pairwiseByTool[RunLabel(results[k])][RunLabel(results[j])] == PairOf(results, threshold, k, j)
  {
    if |results| == 0 {
      return Ok(UniquenessReport([], map[], map[]));
    }
    var bySeq := IndexEntriesBySequence(results);
    var bySeqByRun := IndexBySequenceAndRun(results, bySeq);
    var labels := MapSeq(results, RunLabel);
    var totals := map l | l in labels :: Counts(0, 0, 0);
    var pairwise := InitPairwise(results, labels);
    InitialState(results, threshold, labels, totals, pairwise);
    var error, perRun, totals', pairwise' := ClassifyAll(results, threshold, labels, bySeq, bySeqByRun, totals, pairwise);
    if error.Some? {
      return Err(error.value);
    }
    FinalState(results, threshold, totals', pairwise');
    return Ok(UniquenessReport(perRun, totals', pairwise'));
  }

  /** The main pass: every run in turn, stopping at the first error. */
  method ClassifyAll(results: seq<GenomeMiningResult>, threshold: real, labels: seq<string>,
                     bySeq: map<string, seq<Entry>>, bySeqByRun: map<string, map<int, seq<Bgc>>>,
                     totals: map<string, Counts>, pairwise: map<string, map<string, PairCounts>>)
    returns (error: Option<string>, perRun: seq<RunUniqueness>,
             totals': map<string, Counts>, pairwise': map<string, map<string, PairCounts>>)
    requires |labels| == |results| && forall k :: 0 <= k < |results| ==> labels[k] == RunLabel(results[k])
    requires forall s, e :: e in GetOrEmpty(bySeq, s) <==> IsEntry(results, e) && e.bgc.sequenceId == s
    requires forall s, j, b :: b in Lookup(bySeqByRun, s, j) <==> 0 <= j < |results| && b in results[j].bgcs && b.sequenceId == s
    requires TotalsState(results, threshold, totals, 0, 0)
    requires PairwiseState(results, threshold, pairwise, 0, 0)
    ensures error.Some? <==> !ValidThreshold(threshold) && exists k :: 0 <= k < |results| && |results[k].bgcs| > 0
    ensures error.Some? ==> error.value == ThresholdMessage
    ensures error.None? ==>
      && |perRun| == |results|
      && (forall k :: 0 <= k < |results| ==>
            perRun[k] == RunUniqueness(results[k], UniqueBgcs(results, k, threshold), NonUniqueBgcs(results, k, threshold)))
      && TotalsState(results, threshold, totals', |results|, 0)
      && PairwiseState(results, threshold, pairwise', |results|, 0)
  {
    perRun, totals', pairwise' := [], totals, pairwise;
    for i := 0 to |results|
      invariant ValidThreshold(threshold) || forall k :: 0 <= k < i ==> |results[k].bgcs| == 0
      invariant |perRun| == i
      invariant forall k :: 0 <= k < i ==>
        perRun[k] == RunUniqueness(results[k], UniqueBgcs(results, k, threshold), NonUniqueBgcs(results, k, threshold))
      invariant TotalsState(results, threshold, totals', i, 0)
      invariant PairwiseState(results, threshold, pairwise', i, 0)
    {
      var runError, uniques, nonUniques;
      runError, uniques, nonUniques, totals', pairwise' :=
        ClassifyRun(results, threshold, i, labels, bySeq, bySeqByRun, totals', pairwise');
      if runError.Some? {
        return runError, perRun, totals', pairwise';
      }
      perRun := perRun + [RunUniqueness(results[i], uniques, nonUniques)];
    }
    return None, perRun, totals', pairwise';
  }

  // ---------------------------------------------------------------------------------------------
  // Properties of the comparison

  /** The unique and non-unique BGCs of a run split it: together they are its BGCs, so the totals
      add up. */
  lemma TotalsAddUp(results: seq<GenomeMiningResult>, threshold: real, k: int)
    requires 0 <= k < |results|
    ensures multiset(UniqueBgcs(results, k, threshold)) + multiset(NonUniqueBgcs(results, k, threshold))
      == multiset(results[k].bgcs)
    ensures TotalsOf(results, threshold, k).unique + TotalsOf(results, threshold, k).nonUnique
      == TotalsOf(results, threshold, k).total
  {
    FilterPartition(results[k].bgcs, UniqueIn(results, results[k].miningTool, threshold));
  }

  /** Each directional entry counts every BGC of the first run exactly once. */
  lemma PairAddsUp(results: seq<GenomeMiningResult>, threshold: real, k: int, j: int)
    requires 0 <= k < |results| && 0 <= j < |results|
    ensures PairOf(results, threshold, k, j).unique + PairOf(results, threshold, k, j).nonUnique == |results[k].bgcs|
  {
    FilterPartition(results[k].bgcs, OverlappedBy(results[j], threshold));
  }

  /** Runs of the same tool never make a BGC non-unique: adding one changes nothing. */
  lemma SameToolRunIsIgnored(results: seq<GenomeMiningResult>, extra: GenomeMiningResult, threshold: real, a: Bgc)
    ensures GloballyUnique(results + [extra], extra.miningTool, threshold, a)
      == GloballyUnique(results, extra.miningTool, threshold, a)
  {
    var all := results + [extra];
    if !GloballyUnique(all, extra.miningTool, threshold, a) {
      var k :| 0 <= k < |all| && all[k].miningTool != extra.miningTool && OverlappedByRun(all[k], threshold, a);
      assert k < |results| && results[k] == all[k];
    }
    if !GloballyUnique(results, extra.miningTool, threshold, a) {
      var k :| 0 <= k < |results| && results[k].miningTool != extra.miningTool && OverlappedByRun(results[k], threshold, a);
      assert all[k] == results[k];
    }
  }

  /** When every run comes from the same tool, every BGC is unique. */
  lemma SingleToolAllUnique(results: seq<GenomeMiningResult>, threshold: real, k: int)
    requires 0 <= k < |results|
    requires forall j :: 0 <= j < |results| ==> results[j].miningTool == results[k].miningTool
    ensures UniqueBgcs(results, k, threshold) == results[k].bgcs
    ensures NonUniqueBgcs(results, k, threshold) == []
  {
    FilterAll(results[k].bgcs, UniqueIn(results, results[k].miningTool, threshold));
    FilterNone(results[k].bgcs, Not(UniqueIn(results, results[k].miningTool, threshold)));
  }

  /** A higher threshold never makes a BGC non-unique that was unique, so never fewer unique BGCs. */
  lemma HigherThresholdMoreUnique(results: seq<GenomeMiningResult>, low: real, high: real, k: int)
    requires 0 <= k < |results| && low <= high
    ensures forall a :: GloballyUnique(results, results[k].miningTool, low, a) ==>
      GloballyUnique(results, results[k].miningTool, high, a)
    ensures |UniqueBgcs(results, k, low)| <= |UniqueBgcs(results, k, high)|
  {
    forall a | GloballyUnique(results, results[k].miningTool, low, a)
      ensures GloballyUnique(results, results[k].miningTool, high, a)
    {
      forall j | 0 <= j < |results| && results[j].miningTool != results[k].miningTool
        ensures !OverlappedByRun(results[j], high, a)
      {
        assert !OverlappedByRun(results[j], low, a);
      }
    }
    FilterLengthMonotone(results[k].bgcs, UniqueIn(results, results[k].miningTool, low),
                         UniqueIn(results, results[k].miningTool, high));
  }

  /** An empty display label falls back to the input-file label, like a missing one. */
  lemma RunLabelExamples()
    ensures RunLabel(GenomeMiningResult("a.gbk", "a", "antiSMASH", [], Some("Sample A"))) == "Sample A [antiSMASH]"
    ensures RunLabel(GenomeMiningResult("a.gbk", "a", "antiSMASH", [], Some(""))) == "a [antiSMASH]"
    ensures RunLabel(GenomeMiningResult("a.gbk", "a", "GECCO", [], None)) == "a [GECCO]"
  {
  }

  /** The pairwise counts are directional: a short BGC inside a long one counts as covered in
      one direction and not in the other. */
  lemma PairwiseIsDirectional()
    ensures var short, long := Bgc("x", "s", 10, 19), Bgc("y", "s", 0, 99);
      var results := [GenomeMiningResult("a.gbk", "a", "antiSMASH", [short]),
                      GenomeMiningResult("b.gbk", "b", "GECCO", [long])];
      PairOf(results, 0.5, 0, 1) == PairCounts(0, 1) && PairOf(results, 0.5, 1, 0) == PairCounts(1, 0)
  {
    var short, long := Bgc("x", "s", 10, 19), Bgc("y", "s", 0, 99);
    var results := [GenomeMiningResult("a.gbk", "a", "antiSMASH", [short]),
                    GenomeMiningResult("b.gbk", "b", "GECCO", [long])];
    CoverageIsDirectional();
    assert OverlappedByRun(results[1], 0.5, short) by {
      assert long in results[1].bgcs;
    }
    assert !OverlappedByRun(results[0], 0.5, long);
    assert [short][..0] == [] && [long][..0] == [];
  }
}
