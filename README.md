# bgc-quast core, modelled in Dafny

bgc-quast evaluates genome-mining runs. It takes the biosynthetic gene clusters (BGCs) that
tools such as antiSMASH, GECCO or deepBGC report on assemblies, and reports on them in three
ways:

- it summarises each run in metric tables, grouped by completeness and product type;
- it compares the runs of different tools on the same input: which BGCs another tool also
  recovers, and directional run-against-run counts drawn as Venn diagrams;
- it maps assembly BGCs onto a reference genome through QUAST alignment blocks and classifies
  each reference BGC as missed, partially covered, covered, or covered by fragments.

This project models the core of that pipeline:

- the data records;
- the input helpers: product-type mapping, running-mode decision and file labels;
- the reference-coverage analysis, including the coordinate mapper and the status scan;
- the cross-tool uniqueness analysis;
- the metric engine and its registries;
- the report configuration manager;
- the basic metrics calculator and the report data frames;
- the report formatter: metric order, row labels, sort keys and HTML rows;
- the pairwise Venn-diagram driver;
- the experimental HTML saver.

Each source file is one Dafny module. Code built from expressions is modelled with functions and
datatypes. Code that updates state step by step is modelled with methods and loop invariants,
each proved equal to a specification function, and the properties are proved about those
functions. Python's dictionaries keep insertion order; `OrderedMaps.OrderedMap` models that
where the core reads the order back (configurations, groupings, rows and registries), and the
dictionaries kept as plain maps are listed under "## Left out".
Raised exceptions become `Result`/`Option` values. Floats are modelled as exact reals, with
Python's `int()` truncation and `round()` written out.

In the Venn-diagram routine (src/visualization/venn_diagram.py:54-60), the outer lobe sizes
`left_numeric` and `right_numeric` are computed from the unique counts but never used: the
drawing always gets outer sizes 10 and 10, and only the overlap size comes from the counts.
`VennDiagram.LobeSizes` keeps the computed values, `VennDiagram.PairwiseFigure` draws with
the fixed ones, and `VennDiagram.OnlyOverlapIsDrawn` and `VennDiagram.UnusedLobesExample`
state the difference.

Helper modules stand for Python built-ins:

- `Wrappers`: `Option` and `Result`;
- `Seqs`: filter, map and concatenation of lists;
- `Maps`: dictionaries built by a loop;
- `OrderedMaps`: insertion-ordered dictionaries;
- `Grouping`: group-by in first-seen order;
- `Sorting`: Python's stable `sorted` with an integer key;
- `StringOrder`: `sorted` on strings;
- `Strings`: `strip`, `lower`, `split`, `replace`, `rsplit` and `str(int)`;
- `Ints`: `max` and `min`.

## Model

| member | source | states |
|---|---|---|
| GenomeMiningResults.BgcDefaults | src/genome_mining_result.py:22-28 | a BGC built from its two identifiers has start and end 0, completeness Unknown, no product types and no metadata |
| GenomeMiningResults.RecordDefaults | src/genome_mining_result.py:43-46 | a genome-mining result starts with no BGCs, and a QUAST result starts with empty alignment indexes (lines 84-91) |
| GenomeMiningResults.CompletenessNames | src/genome_mining_result.py:26 | the completeness literal admits exactly "Complete", "Incomplete" and "Unknown", one per value |
| CompareToRefData.FromBgc | src/compare_to_ref_data.py:47-66 | the reference BGC carries every attribute of the BGC, with status MISSED and no intersections (the defaults at lines 44-45) |
| CompareToRefData.StatusValuesDistinct | src/compare_to_ref_data.py:26-30 | the four statuses carry distinct values 0 to 3 |
| CompareToRefData.IntersectionDefault | src/compare_to_ref_data.py:19-22 | an intersection is not reversed unless it says so |
| CompareToRefAnalyzer.TruncDiv | src/compare_to_ref_analyzer.py:266 | `int()` of an exact quotient by a positive divisor truncates toward zero: d*q <= n < d*(q+1) for n >= 0, and d*(q-1) < n <= d*q for n < 0 |
| CompareToRefAnalyzer.TruncDivBounds | src/compare_to_ref_analyzer.py:266 | truncation never crosses an integer bound of the exact quotient |
| CompareToRefAnalyzer.TruncDivMonotone | src/compare_to_ref_analyzer.py:266 | truncating division is monotone in the numerator |
| CompareToRefAnalyzer.ProjectBounds | src/compare_to_ref_analyzer.py:245-252 | a point k >= 0 bases into the block projects to at or after the reference start when measured from the start, and to at or before the reference end when measured from the end; k = 0 gives that end exactly |
| CompareToRefAnalyzer.ProjectShift | src/compare_to_ref_analyzer.py:245-252 | with the scale factor 1, projection is a shift by the offset between the blocks |
| CompareToRefAnalyzer.ProjectOrdered | src/compare_to_ref_analyzer.py:245-252 | on a block that does not shrink, two projected ends stay in order |
| CompareToRefAnalyzer.AssemblyBlockLength | src/compare_to_ref_analyzer.py:236-237 | the block spans at least one assembly base, whichever way its coordinates run |
| CompareToRefAnalyzer.AsmBgcCoordsOnRef | src/compare_to_ref_analyzer.py:213-266 | the mapping is reversed exactly when the assembly coordinates run backwards; the mapped ends are stated by the lemmas below |
| CompareToRefAnalyzer.MappedByOffsets | src/compare_to_ref_analyzer.py:239-265 | the mapped ends are the reference start and end moved by the clipped offsets, on both strands |
| CompareToRefAnalyzer.MapWholeBlock | src/compare_to_ref_analyzer.py:236-266 | an interval that spans the whole assembly block maps to exactly the reference block |
| CompareToRefAnalyzer.MapTranslation | src/compare_to_ref_analyzer.py:236-252 | on a forward block of equal lengths, the clipped interval is shifted by the distance between the blocks |
| CompareToRefAnalyzer.MapWithinBlock | src/compare_to_ref_analyzer.py:236-266 | an interval that meets the block lands inside the reference block |
| CompareToRefAnalyzer.MapOrdered | src/compare_to_ref_analyzer.py:236-266 | on a block that does not shrink toward the reference, a non-empty interval keeps start <= end |
| CompareToRefAnalyzer.MapCanInvertOnShrinkingBlock | src/compare_to_ref_analyzer.py:236-266 | on a shrinking block, a one-base interval can map to a start past its end |
| CompareToRefAnalyzer.MapForwardExample | src/compare_to_ref_analyzer.py:236-252 | a forward block of equal lengths shifts [120, 180] by 900 |
| CompareToRefAnalyzer.MapReverseExample | src/compare_to_ref_analyzer.py:253-266 | on a reverse block with scale 106/101, both ends are mapped from the opposite side and truncated |
| CompareToRefAnalyzer.ProjectFromStart | src/compare_to_ref_analyzer.py:245-252 | a forward block maps a point k bases in to the reference start plus k scaled by the block ratio, truncated; its contract is in ProjectBounds, ProjectShift and ProjectOrdered |
| CompareToRefAnalyzer.ProjectFromEnd | src/compare_to_ref_analyzer.py:253-266 | a reverse block maps a point k bases in to the reference end minus k scaled by the block ratio, truncated; its contract is in ProjectBounds and MapReverseExample |
| CompareToRefAnalyzer.DetermineRefBgcStatus | src/compare_to_ref_analyzer.py:122-166 | the loop returns the status of the scan specification with a one-base merge gap: MISSED with no intersections, COVERED as soon as one intersection contains the reference BGC, otherwise the last merged run decides between COVERED_BY_FRAGMENTS and PARTIALLY_COVERED; the lemmas below give its meaning |
| CompareToRefAnalyzer.StatusMissedIff | src/compare_to_ref_analyzer.py:140-141 | MISSED exactly when there are no intersections |
| CompareToRefAnalyzer.StatusCoveredIff | src/compare_to_ref_analyzer.py:147-153 | COVERED exactly when some single intersection contains the reference BGC |
| CompareToRefAnalyzer.RunIsCovered | src/compare_to_ref_analyzer.py:155-162 | with a gap of at most one base, every base of the current run lies in a scanned intersection |
| CompareToRefAnalyzer.RunStartsAfterHole | src/compare_to_ref_analyzer.py:155-162 | on sorted input, the run's end is the largest end so far, and a new run is preceded by an uncovered base |
| CompareToRefAnalyzer.StatusReflectsCoverage | src/compare_to_ref_analyzer.py:143-166 | on sorted, well-formed intersections that meet the reference BGC, the status is COVERED or COVERED_BY_FRAGMENTS exactly when every base of the reference BGC lies in some intersection |
| CompareToRefAnalyzer.HoleSplitsRunsExample | src/compare_to_ref_analyzer.py:155-166 | [50, 150] and [152, 250] only partly cover [100, 200] |
| CompareToRefAnalyzer.AbuttingMergeExample | src/compare_to_ref_analyzer.py:155-166 | [50, 150] and [151, 252] cover [100, 200] as fragments |
| CompareToRefAnalyzer.LeadingFragmentExample | src/compare_to_ref_analyzer.py:155-166 | an early fragment before a hole does not stop a later run from covering the BGC |
| CompareToRefAnalyzer.WiderGapBridgesHole | src/compare_to_ref_analyzer.py:155 | a two-base merge gap would bridge an uncovered base, so the one-base gap is needed |
| CompareToRefAnalyzer.NoGapSplitsAbutting | src/compare_to_ref_analyzer.py:155 | a zero-base merge gap would split abutting intersections that cover every base |
| CompareToRefAnalyzer.StatusOf | src/compare_to_ref_analyzer.py:122-166 | the status the scan assigns to sorted intersections; its contract is in DetermineRefBgcStatus, StatusMissedIff, StatusCoveredIff and StatusReflectsCoverage |
| CompareToRefAnalyzer.Merge | src/compare_to_ref_analyzer.py:155-162 | one step of the scan: a new run after a gap, otherwise the run extended; its contract is in RunIsCovered and RunStartsAfterHole |
| CompareToRefAnalyzer.GetIntersectingBgcsFromAlignment | src/compare_to_ref_analyzer.py:169-210 | the result is, in input order, the projection of each assembly BGC that meets the block and whose projection meets the reference BGC |
| CompareToRefAnalyzer.IntersectingBgcsExactly | src/compare_to_ref_analyzer.py:186-210 | a projection is in the result exactly when its BGC meets the block and the projection meets the reference BGC; each result meets the reference BGC |
| CompareToRefAnalyzer.IntersectingExample | src/compare_to_ref_analyzer.py:186-210 | of two BGCs on a shifted block, only the one that reaches the reference BGC is kept, with its projected coordinates |
| CompareToRefAnalyzer.Intersects | src/compare_to_ref_analyzer.py:186-210 | a BGC contributes an intersection when it meets the block and its projection meets the reference BGC; its contract is in IntersectingBgcsExactly |
| CompareToRefAnalyzer.IntersectingBgcs | src/compare_to_ref_analyzer.py:169-210 | the projections of the intersecting BGCs in input order; its contract is in GetIntersectingBgcsFromAlignment and IntersectingBgcsExactly |
| CompareToRefAnalyzer.IndexBySequence | src/compare_to_ref_analyzer.py:88-90 | each sequence maps to its assembly BGCs in input order, and the keys are exactly the sequences that carry BGCs |
| CompareToRefAnalyzer.ComputeReferenceCoverage | src/compare_to_ref_analyzer.py:59-119 | the loops produce the analysis of each reference BGC in order: its intersections through every alignment on its sequence, sorted by reference start, and the status of that list |
| CompareToRefAnalyzer.ReferenceCoverageShape | src/compare_to_ref_analyzer.py:92-119 | one entry per reference BGC, in order, carrying that BGC; the intersections are a stable sort of all collected intersections; the status is the scan's on them |
| CompareToRefAnalyzer.NoAlignmentsMeansMissed | src/compare_to_ref_analyzer.py:98-100 | a reference BGC on a sequence without alignments has no intersections and is MISSED |
| CompareToRefAnalyzer.AllIntersectionsMeet | src/compare_to_ref_analyzer.py:103-111 | every collected intersection meets the reference BGC |
| CompareToRefAnalyzer.AllIntersectionsWellFormed | src/compare_to_ref_analyzer.py:103-111 | with well-formed BGCs and blocks that do not shrink, every intersection has start <= end |
| CompareToRefAnalyzer.AnalysedStatusReflectsCoverage | src/compare_to_ref_analyzer.py:92-119 | end to end, under the same conditions: COVERED or COVERED_BY_FRAGMENTS exactly when every base of the reference BGC lies in a projected assembly BGC |
| CompareToRefAnalyzer.AllIntersections | src/compare_to_ref_analyzer.py:103-111 | the intersections through every alignment on the reference BGC's sequence; its contract is in AllIntersectionsMeet and AllIntersectionsWellFormed |
| CompareToRefAnalyzer.AnalyseReferenceBgc | src/compare_to_ref_analyzer.py:92-119 | one reference BGC with its sorted intersections and their status; its contract is in ReferenceCoverageShape and AnalysedStatusReflectsCoverage |
| CompareToRefAnalyzer.ReferenceCoverage | src/compare_to_ref_analyzer.py:59-119 | the analysis of every reference BGC against one assembly; its contract is in ComputeReferenceCoverage, ReferenceCoverageShape and NoAlignmentsMeansMissed |
| CompareToRefAnalyzer.FindQuast | src/compare_to_ref_analyzer.py:35-42 | it finds a QUAST result with the label, taken from the list, and finds none exactly when no result has that label |
| CompareToRefAnalyzer.FindQuastIsFirst | src/compare_to_ref_analyzer.py:35-42 | the QUAST result found is the first one with the label |
| CompareToRefAnalyzer.ComputeCoverage | src/compare_to_ref_analyzer.py:10-56 | the loop produces the coverage of every result keyed by input file, or the error for the first result without a QUAST result |
| CompareToRefAnalyzer.CoverageErrSticks | src/compare_to_ref_analyzer.py:43-47 | once an error is raised, later results do not change it |
| CompareToRefAnalyzer.CoverageErrIff | src/compare_to_ref_analyzer.py:43-47 | it fails exactly when some result has no QUAST result with its label, and the message names the first such result |
| CompareToRefAnalyzer.CoverageOkIsKeyed | src/compare_to_ref_analyzer.py:48-54 | on success, the dictionary is built by assigning each result's analysis under its input file |
| CompareToRefAnalyzer.CoverageOkEntries | src/compare_to_ref_analyzer.py:32-56 | on success, there is exactly one key per input file, and each key holds the analysis of the last result with that file against the first QUAST result with its label |
| CompareToRefAnalyzer.Coverage | src/compare_to_ref_analyzer.py:10-56 | the coverage of every assembly keyed by input file, or the first missing-QUAST error; its contract is in ComputeCoverage, CoverageErrIff, CoverageOkIsKeyed and CoverageOkEntries |
| CompareToRefAnalyzer.AnalyseAssembly | src/compare_to_ref_analyzer.py:48-54 | one assembly analysed against the QUAST result with its label; its contract is in CoverageOkEntries |
| CompareToRefAnalyzer.NoQuastMessage | src/compare_to_ref_analyzer.py:43-47 | the error for an assembly without a QUAST result; CoverageErrIff states it names the first such assembly |
| CompareToolsAnalyzer.OverlapLen | src/compare_tools_analyzer.py:7-20 | the overlap length is never negative |
| CompareToolsAnalyzer.OverlapLenProperties | src/compare_tools_analyzer.py:7-20 | the overlap is symmetric and at most either interval's length; it is zero exactly when the closed intervals share no base, in either direction |
| CompareToolsAnalyzer.OverlapLenExamples | src/compare_tools_analyzer.py:8-9 | [10,20] and [20,30] share one base, reversed endpoints change nothing, and [10,20] and [21,30] share none |
| CompareToolsAnalyzer.CoverageBounds | src/compare_tools_analyzer.py:23-29 | coverage is 0 for a BGC whose end precedes its start, lies in [0, 1], and is 1 when B contains A |
| CompareToolsAnalyzer.CoverageIsDirectional | src/compare_tools_analyzer.py:23-29 | a short BGC inside a long one is fully covered by it (1.0), while the long one is covered 0.1 by the short one |
| CompareToolsAnalyzer.ZeroThresholdNeedsSharedBase | src/compare_tools_analyzer.py:43 | at threshold 0, B covers A exactly when A is non-empty and the two share a base |
| CompareToolsAnalyzer.Coverage | src/compare_tools_analyzer.py:23-29 | the fraction of A that B covers; its contract is in CoverageBounds and CoverageIsDirectional |
| CompareToolsAnalyzer.Covers | src/compare_tools_analyzer.py:43 | B makes A non-unique when it covers a positive fraction of at least the threshold; its contract is in ZeroThresholdNeedsSharedBase and HigherThresholdMoreUnique |
| CompareToolsAnalyzer.ValidThreshold | src/compare_tools_analyzer.py:38-39 | the threshold is accepted exactly in [0, 1]; IsUniqueAgainstCandidates and ComputeUniqueness state the error otherwise |
| CompareToolsAnalyzer.IsUniqueAgainstCandidates | src/compare_tools_analyzer.py:32-45 | a threshold outside [0, 1] raises before any candidate is read; otherwise the result is true exactly when no candidate covers a positive fraction of A that is at least the threshold |
| CompareToolsAnalyzer.IsOverlappedBy | src/compare_tools_analyzer.py:167-172 | the early-exit loop finds exactly whether some BGC of the run covers A |
| CompareToolsAnalyzer.IndexEntriesBySequence | src/compare_tools_analyzer.py:87-91 | a sequence's entries are exactly the BGCs on that sequence, each with its run index and tool |
| CompareToolsAnalyzer.IndexBySequenceAndRun | src/compare_tools_analyzer.py:93-97 | the per-sequence, per-run lookup holds exactly the BGCs of that run on that sequence |
| CompareToolsAnalyzer.LookupCoversIff | src/compare_tools_analyzer.py:168 | checking the per-run lookup decides exactly whether run j covers A |
| CompareToolsAnalyzer.GlobalCandidatesMembers | src/compare_tools_analyzer.py:141-144 | the global candidates are the entries on the sequence found by another tool |
| CompareToolsAnalyzer.CandidatesCoverIff | src/compare_tools_analyzer.py:139-145 | the global check decides exactly whether a run of another tool covers A |
| CompareToolsAnalyzer.GloballyUnique | src/compare_tools_analyzer.py:139-145 | no run of another tool covers the BGC; its contract is in CandidatesCoverIff, SameToolRunIsIgnored and SingleToolAllUnique |
| CompareToolsAnalyzer.GlobalCandidates | src/compare_tools_analyzer.py:141-144 | the other tools' BGCs on the same sequence; its contract is in GlobalCandidatesMembers |
| CompareToolsAnalyzer.OverlappedByRun | src/compare_tools_analyzer.py:167-172 | some BGC of the run on the same sequence covers A; its contract is in IsOverlappedBy and LookupCoversIff |
| CompareToolsAnalyzer.PairwiseRow | src/compare_tools_analyzer.py:117-125 | run i's row has a zero entry for each run on another input file, and no others |
| CompareToolsAnalyzer.InitPairwise | src/compare_tools_analyzer.py:113-125 | the table has a row for each run label, every entry zero; with distinct labels, each row's keys are the labels of the runs on other files |
| CompareToolsAnalyzer.CountAgainstRuns | src/compare_tools_analyzer.py:156-177 | only run i's row changes; each entry for a run on another file counts A as non-unique if that run covers it, and as unique otherwise |
| CompareToolsAnalyzer.CountPair | src/compare_tools_analyzer.py:174-177 | a pair's counts gain one BGC: non-unique when the other run covers it, unique otherwise |
| CompareToolsAnalyzer.TotalsStep | src/compare_tools_analyzer.py:146-153 | classifying one BGC moves its run's totals one BGC on |
| CompareToolsAnalyzer.PairwiseStep | src/compare_tools_analyzer.py:156-177 | counting one BGC moves its run's row one BGC on |
| CompareToolsAnalyzer.ClassifyBgc | src/compare_tools_analyzer.py:136-177 | one BGC: an invalid threshold raises; otherwise the BGC is classified as globally unique or not and counted into both tables |
| CompareToolsAnalyzer.CountBgc | src/compare_tools_analyzer.py:146-153 | a run's totals gain one BGC: the unique or the non-unique count goes up by one, and so does the total |
| CompareToolsAnalyzer.ClassifyRun | src/compare_tools_analyzer.py:130-179 | a run: the unique and non-unique lists are its BGCs split in order, and the tables advance to the next run; a run with BGCs raises on an invalid threshold |
| CompareToolsAnalyzer.NextRun | src/compare_tools_analyzer.py:130-179 | having classified every BGC of run i is being at the start of run i + 1 |
| CompareToolsAnalyzer.InitialState | src/compare_tools_analyzer.py:106-125 | the initial tables are the state before any BGC is classified |
| CompareToolsAnalyzer.FinalTables | src/compare_tools_analyzer.py:130-185 | once the last BGC of a run is counted, the running counts are the whole-run counts |
| CompareToolsAnalyzer.FinalState | src/compare_tools_analyzer.py:181-185 | after the last run, with distinct labels, each run's totals and row hold its whole-run counts |
| CompareToolsAnalyzer.UniqueBgcs | src/compare_tools_analyzer.py:130-153 | a run's globally unique BGCs in order; its contract is in ClassifyRun, ComputeUniqueness and TotalsAddUp |
| CompareToolsAnalyzer.NonUniqueBgcs | src/compare_tools_analyzer.py:130-153 | a run's BGCs that another tool recovers, in order; its contract is in ClassifyRun, ComputeUniqueness and TotalsAddUp |
| CompareToolsAnalyzer.TotalsOf | src/compare_tools_analyzer.py:146-153 | a run's whole-run totals; its contract is in FinalState and TotalsAddUp |
| CompareToolsAnalyzer.PairOf | src/compare_tools_analyzer.py:156-177 | a run's whole-run counts against another run; its contract is in FinalState, PairAddsUp and PairwiseIsDirectional |
| CompareToolsAnalyzer.ComputeUniqueness | src/compare_tools_analyzer.py:49-185 | no results give empty tables; it fails exactly when the threshold is invalid and some run has a BGC; otherwise each run is split into the BGCs no other tool covers and the rest, in order; with distinct run labels, the totals and each directional entry for a run on another file are the exact counts |
| CompareToolsAnalyzer.ClassifyAll | src/compare_tools_analyzer.py:130-180 | the pass over the runs fails exactly when the threshold is invalid and some run has a BGC; otherwise every run is split into its globally unique and non-unique BGCs in order, and both tables hold the counts of every run |
| CompareToolsAnalyzer.TotalsAddUp | src/compare_tools_analyzer.py:146-153 | the unique and non-unique BGCs of a run partition it, so unique + non_unique == total |
| CompareToolsAnalyzer.PairAddsUp | src/compare_tools_analyzer.py:174-177 | each directional entry counts every BGC of the first run exactly once |
| CompareToolsAnalyzer.SameToolRunIsIgnored | src/compare_tools_analyzer.py:141-144 | adding a run of A's own tool never changes whether A is globally unique |
| CompareToolsAnalyzer.SingleToolAllUnique | src/compare_tools_analyzer.py:141-151 | when every run comes from one tool, every BGC is unique |
| CompareToolsAnalyzer.HigherThresholdMoreUnique | src/compare_tools_analyzer.py:43 | raising the threshold never turns a unique BGC non-unique, so a run never has fewer unique BGCs |
| CompareToolsAnalyzer.RunLabelExamples | src/compare_tools_analyzer.py:100-103 | the run label is the display label, or the file label when that is missing or empty, followed by the tool in brackets |
| CompareToolsAnalyzer.RunLabel | src/compare_tools_analyzer.py:100-103 | the display label or, when missing or empty, the file label, then the tool in brackets; its contract is in RunLabelExamples |
| CompareToolsAnalyzer.PairwiseIsDirectional | src/compare_tools_analyzer.py:155-177 | the pairwise counts are directional: a short BGC inside a long one is non-unique against the long one's run, but not the reverse |
| InputUtils.MappedClassesSpec | src/input_utils.py:80-86 | a class is listed exactly when some product maps to it, and an unmapped product stands for itself |
| InputUtils.MappedClassesBound | src/input_utils.py:80-86 | there are never more classes than products |
| InputUtils.MappedClasses | src/input_utils.py:80-86 | the classes of the products, an unmapped product standing for itself; its contract is in MappedClassesSpec, MappedClassesBound and MapProducts |
| InputUtils.MapProducts | src/input_utils.py:68-86 | the loop collects exactly the classes of the products |
| InputUtils.ReverseMappingSpec | src/input_utils.py:59-63 | a product is mapped exactly when some class lists it, and it is mapped to the last class that does |
| InputUtils.LoadReverseMapping | src/input_utils.py:44-65 | an empty mapping file gives the empty dictionary; otherwise the loops build the reverse mapping |
| InputUtils.AssignClass | src/input_utils.py:62-63 | every product of one class is sent to that class, overriding earlier entries, and every other entry is kept |
| InputUtils.ReverseMappingDomain | src/input_utils.py:59-63 | a product is in the reverse mapping exactly when some class lists it |
| InputUtils.ReverseMappingLastWins | src/input_utils.py:59-63 | a product maps to the last class that lists it |
| InputUtils.ReverseMapping | src/input_utils.py:59-63 | every product sent to the last class listing it; its contract is in ReverseMappingSpec, ReverseMappingDomain and ReverseMappingLastWins |
| InputUtils.RunningModeTable | src/input_utils.py:89-129 | each mode holds exactly for its inputs: reference comparison needs a reference and a single tool; UNKNOWN means differing tools together with a reference or differing labels; sample comparison means no reference, not both differing, and one result or differing labels; tool comparison means no reference, not exactly one result, and one label |
| InputUtils.SingleResultSameLabels | src/input_utils.py:108-117 | with one result, neither tools nor labels differ |
| InputUtils.DetermineRunningMode | src/input_utils.py:89-129 | the running mode from the reference, the tools and the file labels; its contract is in RunningModeTable and SingleResultSameLabels |
| InputUtils.SuffixSpec | src/input_utils.py:150-154 | a path suffix is empty, or a dot followed by at least one character and no other dot; the name is its stem followed by the suffix |
| InputUtils.FileLabelStripsSuffixes | src/input_utils.py:132-154 | a path that is not a file is an error; the label is the name without at most two suffixes, the outer one a compression suffix whenever two are removed; a name without an inner dot is its own label |
| InputUtils.SuffixAt | src/input_utils.py:150-154 | the suffix starts at the last dot when that dot neither starts nor ends the name |
| InputUtils.NameWithoutSlash | src/input_utils.py:154 | a path without a slash is its own file name |
| InputUtils.CompressedLabel | src/input_utils.py:148-154 | "example.txt.gz" style: a compression suffix and then one extension are removed |
| InputUtils.PlainLabel | src/input_utils.py:148-154 | "best.sample.json" style: only the last suffix is removed when it is not a compression suffix |
| InputUtils.BaseExtensionLowerCase | src/input_utils.py:157-171 | the base extension is always in lower case |
| InputUtils.SuffixCaseDisagreement | src/input_utils.py:148-171 | an upper-case compression suffix is not removed for the label, but the base extension looks past it |
| InputUtils.Name | src/input_utils.py:154 | the final component of a path; its contract is in NameWithoutSlash |
| InputUtils.Suffix | src/input_utils.py:150-154 | the suffix from the last dot of a name; its contract is in SuffixSpec and SuffixAt |
| InputUtils.FileLabel | src/input_utils.py:132-154 | the label of a file, or the error for a path that is not a file; its contract is in FileLabelStripsSuffixes, CompressedLabel and PlainLabel |
| InputUtils.BaseExtension | src/input_utils.py:157-171 | the lower-cased extension looking past a compression suffix; its contract is in BaseExtensionLowerCase and SuffixCaseDisagreement |
| Utils.RunningModeTable | src/utils.py:85-119 | each mode of the older decision holds exactly for its inputs: a reference always gives reference comparison; no reference with at most one result, or with differing labels and tools, gives UNKNOWN |
| Utils.RunningModeChange | src/utils.py:103-119 | the two decisions agree without a reference on two or more results; with a reference they agree exactly when the tools are the same; with one result or none the older one gives UNKNOWN where the newer one gives sample or tool comparison |
| Utils.DetermineRunningMode | src/utils.py:85-119 | the older running-mode decision; its contract is in Utils.RunningModeTable and RunningModeChange |
| Metrics.ProductTypeKeyRule | src/metrics.py:47-54 | the product-type key is the single product type, "Hybrid" for several, and "Unknown" for none |
| Metrics.SumWithin | src/metrics.py:65-68 | a sum of n values in [lo, hi] lies in [n*lo, n*hi] |
| Metrics.MeanWithin | src/metrics.py:65-68 | the mean of values in [lo, hi] lies in [lo, hi] |
| Metrics.MeanLengthBounds | src/metrics.py:65-68 | the mean length is 0 exactly when no BGC has end > start; otherwise it lies between the shortest and longest such length |
| Metrics.MeanLengthUniform | src/metrics.py:65-68 | BGCs that all have the same positive length have exactly that length as their mean length |
| Metrics.RegistriesAfterLoad | src/metrics.py:42-68 | the decorators register the grouping keys "completeness" and "product_type" and the metrics "total_bgc_count" and "mean_bgc_length" |
| Metrics.MetricsEngine.constructor | src/metrics.py:80-81 | the engine holds the BGCs it is given |
| Metrics.MetricsEngine.Compute | src/metrics.py:83-116 | an unregistered grouping key is an error naming every unregistered key; otherwise the group keys are the key tuples in first-seen order, and each group has every registered metric applied to exactly the BGCs with that tuple |
| Metrics.MetricsEngine.MetricsPerGroup | src/metrics.py:112-114 | the result has a row for exactly the groups, each holding every registered metric applied to that group |
| Metrics.MetricsEngine.GroupByKeys | src/metrics.py:104-110 | the grouping loop gives an exact grouping: each tuple maps to the BGCs with that tuple, in order |
| Metrics.MetricsRow | src/metrics.py:112-114 | every registered metric, applied to the group |
| Metrics.SampleCompletenessGroups | tests/test_metrics.py:8-37 | on the test data, grouping by completeness gives two groups, holding the first and third BGCs and the second BGC |
| Metrics.GroupByCompletenessExample | tests/test_metrics.py:39-43 | on the test data, the counts are 2 and 1 and both mean lengths are 100 |
| Metrics.CompletenessAndProductTypeKeys | src/metrics.py:42-54 | a BGC with no product types is keyed ("Incomplete", "Unknown"), and one with two product types ("Complete", "Hybrid") |
| Metrics.EmptyInputGivesNoGroups | tests/test_metrics.py:120-125 | no BGCs give no groups |
| Metrics.InvalidKeyExample | tests/test_metrics.py:128-143 | an unregistered key gives the message "Invalid grouping keys: invalid_key" |
| Metrics.InvalidKeysListedInOrder | src/metrics.py:95-98 | several unregistered keys are listed comma-separated in request order, without the registered ones |
| Metrics.GroupCountsAddUp | src/metrics.py:108-114 | every BGC lands in the group of its own tuple, so the group sizes add up to the number of BGCs |
| Metrics.ByCompleteness | src/metrics.py:42-44 | the completeness grouping key; its contract is in CompletenessAndProductTypeKeys |
| Metrics.ByProductType | src/metrics.py:47-54 | the product-type grouping key; its contract is in ProductTypeKeyRule |
| Metrics.TotalCount | src/metrics.py:60-62 | the number of BGCs; GroupByCompletenessExample and GroupCountsAddUp state its values |
| Metrics.MeanLength | src/metrics.py:65-68 | the mean length over BGCs with end > start, 0 without any; its contract is in MeanLengthBounds and MeanLengthUniform |
| Metrics.InvalidKeysMessage | src/metrics.py:95-98 | the error naming the unregistered keys; its contract is in InvalidKeysListedInOrder and InvalidKeyExample |
| Metrics.GroupKey | src/metrics.py:104-110 | the tuple of grouping-key values of a BGC; its contract is in CompletenessAndProductTypeKeys and GroupCountsAddUp |
| Metrics.GroupedBy | src/metrics.py:83-116 | what the engine computes for registered keys; its contract is in MetricsEngine.Compute and GroupCountsAddUp |
| Grouping.GroupsPartition | src/metrics.py:105-110 | grouping keys are distinct and are exactly the keys of the elements; every group is non-empty; each element is in its own key's group and only there |
| Grouping.GroupSizesAddUp | src/metrics.py:105-110 | the group sizes add up to the length of the list |
| Grouping.GroupingStep | src/metrics.py:108-110 | appending the next element under its key keeps the grouping exact |
| ReportingMetrics.Registry.constructor | src/reporting/metrics.py:10-11 | a new registry is empty |
| ReportingMetrics.Registry.Register | src/reporting/metrics.py:13-15 | the name now maps to the function, no other name changes, and a name registered again keeps its place in the listing |
| ReportingMetrics.Registry.Get | src/reporting/metrics.py:17-21 | a registered name gives its function, and an unknown one gives the error naming it |
| ReportingMetrics.Registry.List | src/reporting/metrics.py:23-25 | the names, each once, in first-registration order |
| ReportingMetrics.RegistrationOrder | src/reporting/metrics.py:13-25 | registrations from an empty registry list each name once at its first registration and keep its last function |
| ReportingMetrics.GroupingKeysAgree | src/reporting/metrics.py:77-91 | both grouping keys agree with the first engine's, so the product type follows the single / "Hybrid" / "Unknown" rule |
| ReportingMetrics.MetricsAgree | src/reporting/metrics.py:95-109 | the metrics agree with the first engine's, and the early return for no BGCs gives 0 |
| ReportingMetrics.ByCompleteness | src/reporting/metrics.py:77-91 | the completeness grouping function; its contract is in GroupingKeysAgree |
| ReportingMetrics.ByProductType | src/reporting/metrics.py:77-91 | the product-type grouping function; its contract is in GroupingKeysAgree |
| ReportingMetrics.TotalBgcCount | src/reporting/metrics.py:95-109 | the count metric; its contract is in MetricsAgree |
| ReportingMetrics.MeanBgcLength | src/reporting/metrics.py:95-109 | the mean-length metric, 0 for no BGCs; its contract is in MetricsAgree |
| ReportingMetrics.LoadGroupingRegistry | src/reporting/metrics.py:50-91 | once loaded, the grouping registry lists "completeness" and then "product_type" with their functions |
| ReportingMetrics.LoadMetricRegistry | src/reporting/metrics.py:51-109 | once loaded, the metric registry lists "total_bgc_count" and then "mean_bgc_length" with their functions |
| MetricsCalculators.GroupingCombinationsSpec | src/reporting/metrics_calculators.py:116-143 | the combinations start with the empty one and then each configured dimension alone, in configuration order; every later one is a configured combination; every combination uses configured dimensions only, and every configured combination whose dimensions are all configured is computed |
| MetricsCalculators.KeyValuesSpec | src/reporting/metrics_calculators.py:167 | the key tuple exists exactly when no grouping function raises, with one value per function, in order |
| MetricsCalculators.KeyOfSpec | src/reporting/metrics_calculators.py:164-174 | a BGC's key has one position per grouping function: its values, or "unknown" in every position when a function raises |
| MetricsCalculators.GroupedPartition | src/reporting/metrics_calculators.py:162-176 | each BGC is in the group of its own key; each group is non-empty and holds exactly the BGCs with its key, in order; the group sizes add up to the number of BGCs |
| MetricsCalculators.KeyLength | src/reporting/metrics_calculators.py:158-176 | every group key has one position per grouping function, and the total grouping's key is empty |
| MetricsCalculators.LookupKeepsFunction | src/reporting/metrics_calculators.py:87-89 | a dimension named twice keeps the function registered under it |
| MetricsCalculators.FuncsForSpec | src/reporting/metrics_calculators.py:87-89 | one grouping function per distinct dimension, in order of first mention, each the one registered under its dimension |
| MetricsCalculators.FirstMissing | src/reporting/metrics_calculators.py:88 | the index of the first name that is not registered, or none exactly when all are registered |
| MetricsCalculators.TotalGroupingIsWhole | src/reporting/metrics_calculators.py:158-160 | the total grouping gives one value per metric over all the BGCs, with an empty grouping, even with no BGCs |
| MetricsCalculators.UnknownDimensionRaises | src/reporting/metrics_calculators.py:87-89 | an unknown dimension ends the result's computation with the error naming the first unknown one |
| MetricsCalculators.GroupRowsShape | src/reporting/metrics_calculators.py:95-112 | one value per group and metric, each for the file and one of the names, with the grouping pairing the dimensions with a group's key |
| MetricsCalculators.MetricsCount | src/reporting/metrics_calculators.py:65-114 | with every dimension and metric registered, a result gets exactly one value per group and metric |
| MetricsCalculators.NoBgcsNoGroups | src/reporting/metrics_calculators.py:162-176 | with no BGCs, a combination with at least one dimension yields no values |
| MetricsCalculators.RowGroupings | src/reporting/metrics_calculators.py:100-103 | with distinct registered dimensions, each value's grouping lists exactly the combination's dimensions, in order |
| MetricsCalculators.ZipKeys | src/reporting/metrics_calculators.py:103 | zipping distinct dimensions with a key of the same length gives a dictionary listing the dimensions in order |
| MetricsCalculators.SingleResult | src/reporting/metrics_calculators.py:48-61 | with one result, a combination's values are that result's |
| MetricsCalculators.NoBgcsGroupedCombination | src/reporting/metrics_calculators.py:128-143 | a result without BGCs gets nothing from any combination after the total one |
| MetricsCalculators.NoBgcsOnlyTotals | src/reporting/metrics_calculators.py:31-63 | a result without BGCs contributes exactly the ungrouped values, one per configured metric, in order |
| MetricsCalculators.NoBgcsExample | tests/test_metrics_calculators.py:107-138 | one result without BGCs gives exactly two values, the total count and the mean length, both 0 with an empty grouping |
| MetricsCalculators.NoBgcsTwoMetrics | tests/test_metrics_calculators.py:107-138 | with two configured metrics, a result without BGCs gives exactly those two metrics over no BGCs, in configuration order |
| MetricsCalculators.GroupingCombinations | src/reporting/metrics_calculators.py:116-143 | the combinations to compute; its contract is in GroupingCombinationsSpec |
| MetricsCalculators.KeyValues | src/reporting/metrics_calculators.py:167 | the grouping functions' values on a BGC, none once one raises; its contract is in KeyValuesSpec |
| MetricsCalculators.KeyOf | src/reporting/metrics_calculators.py:164-174 | the key a BGC is grouped under; its contract is in KeyOfSpec and KeyLength |
| MetricsCalculators.Grouped | src/reporting/metrics_calculators.py:145-176 | the groups of the BGCs in first-seen order; its contract is in GroupedPartition, TotalGroupingIsWhole and NoBgcsNoGroups |
| MetricsCalculators.FuncsFor | src/reporting/metrics_calculators.py:87-89 | the grouping functions of the distinct dimensions; its contract is in FuncsForSpec and LookupKeepsFunction |
| MetricsCalculators.GroupRows | src/reporting/metrics_calculators.py:96-112 | one group's values, or the first unknown metric's error; its contract is in GroupMetricRows and GroupRowsShape |
| MetricsCalculators.MetricsForBgcs | src/reporting/metrics_calculators.py:65-114 | one result's values under one combination; its contract is in CalculateAllMetricsForBgcs, MetricsCount and UnknownDimensionRaises |
| MetricsCalculators.CombinationMetrics | src/reporting/metrics_calculators.py:50-61 | one combination's values over all results; its contract is in MetricsForCombination and SingleResult |
| MetricsCalculators.AllMetrics | src/reporting/metrics_calculators.py:31-63 | every combination's values; its contract is in CalculateMetrics, NoBgcsOnlyTotals and NoBgcsExample |
| MetricsCalculators.BasicMetricsCalculator.constructor | src/reporting/metrics_calculators.py:26-29 | the calculator keeps the results and the configuration, and its metric names are the configured metrics' names |
| MetricsCalculators.BasicMetricsCalculator.CalculateMetrics | src/reporting/metrics_calculators.py:31-63 | the loops give every combination's values, combinations outermost and results inside, a result whose computation raises contributing nothing |
| MetricsCalculators.BasicMetricsCalculator.MetricsForCombination | src/reporting/metrics_calculators.py:50-61 | the loop over the results gives the combination's values |
| MetricsCalculators.BasicMetricsCalculator.CalculateAllMetricsForBgcs | src/reporting/metrics_calculators.py:65-114 | the values of one result under one combination, or the error that ends them |
| MetricsCalculators.BasicMetricsCalculator.LookupGroupingFunctions | src/reporting/metrics_calculators.py:87-89 | the first unknown dimension raises with its name; otherwise one function per distinct dimension |
| MetricsCalculators.BasicMetricsCalculator.GroupBgcs | src/reporting/metrics_calculators.py:145-176 | the grouping loop gives exactly the specified groups |
| MetricsCalculators.BasicMetricsCalculator.MetricRows | src/reporting/metrics_calculators.py:95-112 | the values of every group, or the error for an unknown metric once there is a group |
| MetricsCalculators.BasicMetricsCalculator.GroupMetricRows | src/reporting/metrics_calculators.py:96-112 | the first unknown metric raises with its name; otherwise one value per metric name, in order |
| MetricsCalculators.BasicMetricsCalculator.GenerateGroupingCombinations | src/reporting/metrics_calculators.py:116-143 | the loops build exactly the specified combinations |
| MetricsCalculators.CompareToRefMetricsCalculator.CalculateMetrics | src/reporting/metrics_calculators.py:186-195 | the reference calculator computes no values |
| ReportConfigs.ParsedMetricsSpec | src/reporting/report_config.py:66-75 | the metric entries parse exactly when each has a name and a display name, one configuration per entry in order, the description defaulting to ""; otherwise the error is the missing key of the first malformed entry |
| ReportConfigs.ParsedMetricsOk | src/reporting/report_config.py:66-75 | the metric entries parse exactly when each has a name and a display name, giving one configuration per entry in order |
| ReportConfigs.ParsedMetricsErr | src/reporting/report_config.py:66-75 | a failed parse reports the missing key of the first malformed entry |
| ReportConfigs.ParseDefaults | src/reporting/report_config.py:64-91 | an empty section gives the default configuration; a metric without description gets ""; a dimension without keys includes the total and has no order |
| ReportConfigs.ParseReportConfig | src/reporting/report_config.py:64-91 | the parsing loops give exactly the specified configuration, or the specified error |
| ReportConfigs.ParsedMetricsErrorPersists | src/reporting/report_config.py:68-75 | a malformed entry makes the whole list fail with the error of the first failure |
| ReportConfigs.ParseUnparseMetrics | src/reporting/report_config.py:66-75 | metric configurations written back to entries parse to themselves |
| ReportConfigs.ParseUnparseDimensions | src/reporting/report_config.py:78-83 | dimension configurations written back to their pairs parse to the same mapping, in the same order |
| ReportConfigs.ParseUnparse | src/reporting/report_config.py:64-91 | parsing inverts writing back: every configuration whose dimensions form a mapping survives the round trip |
| ReportConfigs.ParseMetric | src/reporting/report_config.py:69-75 | one metric entry, with a default description, or the missing key; its contract is in ParsedMetricsSpec and ParseUnparseMetrics |
| ReportConfigs.ParsedMetrics | src/reporting/report_config.py:66-75 | the metric entries in order, or the first error; its contract is in ParsedMetricsSpec, ParsedMetricsOk and ParsedMetricsErr |
| ReportConfigs.ParsedDimensions | src/reporting/report_config.py:78-83 | the dimensions with their defaults, in order; its contract is in ParseDefaults and ParseUnparseDimensions |
| ReportConfigs.ParsedReportConfig | src/reporting/report_config.py:64-91 | one report type's configuration, or the error; its contract is in ParseReportConfig, ParseDefaults and ParseUnparse |
| ReportConfigs.DedupByNameSpec | src/reporting/report_config.py:111-113 | deduplicating metrics keeps one metric per name, with the names in order of first occurrence and each name's last definition |
| ReportConfigs.KeyedByValueHasKey | src/reporting/report_config.py:111-113 | the metric kept under a name carries that name |
| ReportConfigs.DedupCombinationsSpec | src/reporting/report_config.py:114-118 | deduplicating combinations keeps each distinct combination once, at its first occurrence |
| ReportConfigs.SelfPairsKeepKey | src/reporting/report_config.py:114-118 | the combination kept under a tuple is that tuple |
| ReportConfigs.AccumulateErrorPersists | src/reporting/report_config.py:102-104 | an unknown type ends the merge with its error |
| ReportConfigs.AccumulateErrorSpec | src/reporting/report_config.py:102-104 | the merge fails exactly when some requested type is unknown, and the error names the first one |
| ReportConfigs.AccumulateOk | src/reporting/report_config.py:102-104 | the merge succeeds exactly when every requested type is known |
| ReportConfigs.AccumulateFirstUnknown | src/reporting/report_config.py:102-104 | a failed merge names the first unknown type |
| ReportConfigs.AccumulateLists | src/reporting/report_config.py:101-108 | a successful merge has the metrics and combinations of the types, concatenated in request order |
| ReportConfigs.AccumulateDimensions | src/reporting/report_config.py:107 | each merged dimension holds the configuration of the last type that has it, and the dimensions still form a mapping |
| ReportConfigs.CombinedSpec | src/reporting/report_config.py:99-119 | the merged configuration is the error naming the first unknown type, or the metrics of all types deduplicated by name in order of first occurrence, the dimensions merged with later types overriding earlier ones, and the distinct combinations in order of first request |
| ReportConfigs.Accumulate | src/reporting/report_config.py:101-108 | the merge loop over the requested types; its contract is in AccumulateOk, AccumulateFirstUnknown, AccumulateLists and AccumulateDimensions |
| ReportConfigs.DedupByName | src/reporting/report_config.py:111-113 | the metrics deduplicated by name; its contract is in DedupByNameSpec and KeyedByValueHasKey |
| ReportConfigs.DedupCombinations | src/reporting/report_config.py:114-118 | the combinations deduplicated; its contract is in DedupCombinationsSpec and SelfPairsKeepKey |
| ReportConfigs.Combined | src/reporting/report_config.py:99-119 | the merged configuration of the requested types; its contract is in CombinedSpec and GetCombinedConfig |
| ReportConfigs.ReportConfigManager.constructor | src/reporting/report_config.py:41-48 | a new manager holds no configurations |
| ReportConfigs.ReportConfigManager.GetConfig | src/reporting/report_config.py:93-97 | a known type gives its configuration, and an unknown one gives the error naming it |
| ReportConfigs.ReportConfigManager.GetCombinedConfig | src/reporting/report_config.py:99-119 | the method computes the merged configuration of the requested types, building it fresh |
| ReportConfigs.ReportConfigManager.ListReportTypes | src/reporting/report_config.py:121-123 | the report types, each once, in load order |
| ReportConfigs.Load | src/reporting/report_config.py:50-62 | loading succeeds exactly when every section parses, and then holds each type's configuration in document order; otherwise it gives the error of a malformed section |
| ReportConfigs.ParseSections | src/reporting/report_config.py:56-57 | the loop over the sections gives exactly the in-order parse of the document |
| ReportConfigs.ParsedSectionsErrorPersists | src/reporting/report_config.py:56-57 | once a section fails to parse, the loop's result is that section's error whatever follows |
| ReportConfigs.ParsedSectionsOk | src/reporting/report_config.py:56-57 | the sections parse exactly when every section parses |
| ReportConfigs.ParsedSectionsAllParse | src/reporting/report_config.py:56-57 | a successful load has a well-formed configuration for every section |
| ReportConfigs.ParsedSectionsSomeFails | src/reporting/report_config.py:56-57 | a failed load has a malformed section |
| ReportConfigs.ParsedSectionsValue | src/reporting/report_config.py:56-57 | a successful load maps each report type to its section's configuration, in document order |
| ReportConfigs.ParsedSectionsErr | src/reporting/report_config.py:56-57 | a failed load reports the error of a malformed section |
| ReportConfigs.LoadedValid | src/reporting/report_config.py:56-57 | the loaded mapping lists the report types in document order, each with a well-formed configuration |
| ReportConfigs.ParsedSections | src/reporting/report_config.py:56-57 | the sections parsed in order, or the first error; its contract is in ParsedSectionsOk, ParsedSectionsValue and ParsedSectionsErr |
| ReportData.RunningModeValuesDistinct | src/reporting/report_data.py:10-18 | the four running modes have four different string values |
| ReportData.SeriesRowColumns | src/reporting/report_data.py:58-66 | a row's columns are "file_path", "metric_name" and "value", then the grouping dimensions that are not base columns, in grouping order |
| ReportData.SeriesRowValues | src/reporting/report_data.py:58-66 | each grouping entry appears in the row, overriding a base column of the same name; the other base columns hold the path as text, the metric name and the value |
| ReportData.FrameColumns | src/reporting/report_data.py:69-75 | the table starts with the three base columns, lists each column once, has one row per metric value, and has a column exactly when some row has that key |
| ReportData.ToSeriesRow | src/reporting/report_data.py:58-66 | the row of one metric value; its contract is in SeriesRowColumns and SeriesRowValues |
| ReportData.CreateDataFrameFromMetrics | src/reporting/report_data.py:69-75 | the table of the metric values; its contract is in FrameColumns |
| Report.FromBasic | src/report.py:36-40 | the reference report carries the basic report's metrics and no coverage yet |
| Report.FromBasicRoundTrip | src/report.py:36-40 | converting to a reference report and reading the metrics back is lossless |
| Report.RunningModeValuesDistinct | src/report.py:67-75 | the four running modes carry distinct values 1 to 4 |
| Report.BasicReportDefault | src/report.py:19-21 | a basic report starts with no metrics |
| BasicAnalyzer.GenerateMetrics | src/basic_analyzer.py:9-32 | the four groupings, "total", "by_type", "by_completeness" and "by_type_completeness", each the engine's result for its keys; the total has one group, or none without BGCs |
| BasicAnalyzer.UngroupedIsOneGroup | src/basic_analyzer.py:28 | with no grouping keys, all BGCs form one group, or none when there are no BGCs |
| BasicAnalyzer.GenerateMetricsForAll | src/basic_analyzer.py:35-50 | the loop keys each run's metrics by its input file, later runs overwriting earlier ones |
| BasicAnalyzer.OneEntryPerInputFile | src/basic_analyzer.py:47-50 | there is one entry per distinct input file, holding the metrics of the last run with that file |
| BasicAnalyzer.GenerateBasicReport | src/basic_analyzer.py:53-67 | the basic report wraps the per-file metrics unchanged |
| BasicAnalyzer.MetricsFor | src/basic_analyzer.py:9-32 | the four groupings of one run; its contract is in GenerateMetrics and UngroupedIsOneGroup |
| ReportFormatters.MetricOrderSpec | src/reporting/report_formatter.py:128-133 | a metric's order is the index of its first configured occurrence, and the number of configured metrics exactly when it is not configured |
| ReportFormatters.DisplayName | src/reporting/report_formatter.py:146-151 | a configured metric shows its first configuration's display name, any other metric its own name |
| ReportFormatters.DimensionValueOrderSpec | src/reporting/report_formatter.py:135-144 | a known value orders by its first position in the dimension's order list, an unknown value after all known ones, and an unconfigured dimension gives 0 |
| ReportFormatters.FoundValueSpec | src/reporting/report_formatter.py:105-110 | the search finds a value exactly when some pair carries the dimension, and what it finds is that pair's value |
| ReportFormatters.FoundNonTotal | src/reporting/report_formatter.py:79-83 | a dimension is found among the row's grouping values exactly when it is a grouping dimension present in the row, with the row's value |
| ReportFormatters.LabelSpec | src/reporting/report_formatter.py:62-83 | the label is the display name followed by the present grouping values in dimension order, or by "(Total)" when none is present |
| ReportFormatters.SortKeyShape | src/reporting/report_formatter.py:85-118 | every sort key starts with the metric order and then the category 0, 1 or 2 by the number of present grouping values |
| ReportFormatters.SingleDimensionKey | src/reporting/report_formatter.py:90-99 | a row with one grouping value sorts by the dimension's position among the grouping dimensions (never the fallback 999), then by its value's order |
| ReportFormatters.MultiDimensionKey | src/reporting/report_formatter.py:100-118 | a row with several grouping values has one key part per grouping dimension: its value's order, or infinity when it has no value or an empty one |
| ReportFormatters.MetricOrder | src/reporting/report_formatter.py:128-133 | the position of a metric's first configuration; its contract is in MetricOrderSpec |
| ReportFormatters.DimensionValueOrder | src/reporting/report_formatter.py:135-144 | the position of a value in its dimension's order; its contract is in DimensionValueOrderSpec |
| ReportFormatters.FoundValue | src/reporting/report_formatter.py:105-110 | the value of the first pair for a dimension; its contract is in FoundValueSpec and FindValue |
| ReportFormatters.RowLabel | src/reporting/report_formatter.py:62-83 | the row label; its contract is in LabelSpec |
| ReportFormatters.SortKey | src/reporting/report_formatter.py:85-118 | the row's sort key; its contract is in SortKeyShape, SingleDimensionKey and MultiDimensionKey |
| ReportFormatters.KeyLessIrreflexive | src/reporting/report_formatter.py:32 | the tuple order on sort keys is irreflexive |
| ReportFormatters.KeyLessTransitive | src/reporting/report_formatter.py:32 | the tuple order on sort keys is transitive |
| ReportFormatters.KeyLessTotal | src/reporting/report_formatter.py:32 | any two different sort keys are ordered one way or the other |
| ReportFormatters.MetricOrderFirst | src/reporting/report_formatter.py:73-118 | a row of an earlier configured metric sorts before any row of a later one |
| ReportFormatters.CategoryOrder | src/reporting/report_formatter.py:85-118 | within one metric, a total row sorts before single-dimension rows and those before multi-dimension rows |
| ReportFormatters.KeyLess | src/reporting/report_formatter.py:32 | Python's tuple order on sort keys; its contract is in KeyLessIrreflexive, KeyLessTransitive and KeyLessTotal |
| ReportFormatters.ReferenceFirstSpec | src/reporting/report_formatter.py:166-182 | with a non-empty reference label the columns become the reference columns then the others, each in their original order; otherwise the order is kept |
| ReportFormatters.ReferenceFirstPermutation | src/reporting/report_formatter.py:179-182 | the reordering is a permutation of the columns |
| ReportFormatters.ReferenceColumnsFirst | src/reporting/report_formatter.py:179-182 | no other column comes before a reference column |
| ReportFormatters.ReferenceFirst | src/reporting/report_formatter.py:166-182 | the columns with the reference's first; its contract is in ReferenceFirstSpec, ReferenceFirstPermutation and ReferenceColumnsFirst |
| ReportFormatters.HtmlRowsSpec | src/reporting/report_formatter.py:216-231 | the HTML rows are a file-label header and a mining-tool header giving back every column, then one row per table row with its label and every cell, a null cell written "0" |
| ReportFormatters.BuildHtmlRows | src/reporting/report_formatter.py:216-231 | the loops build exactly the HTML rows specified above |
| ReportFormatters.BuildHtmlRow | src/reporting/report_formatter.py:225-231 | the inner loop builds one row: its label, then each cell's text |
| ReportFormatters.FindValue | src/reporting/report_formatter.py:105-110 | the search loop returns the first pair's value for the dimension, or nothing |
| ReportFormatters.HtmlRow | src/reporting/report_formatter.py:225-231 | one HTML row: the label and then each cell's text; its contract is in BuildHtmlRow |
| ReportFormatters.HtmlRows | src/reporting/report_formatter.py:216-231 | the rows embedded in the HTML report; its contract is in HtmlRowsSpec and BuildHtmlRows |
| ReportFormatters.DataFrameTableBuilder.constructor | src/reporting/report_formatter.py:16-17 | the builder keeps its configuration |
| ReportFormatters.DataFrameTableBuilder.GetMetricOrder | src/reporting/report_formatter.py:128-133 | the loop returns the metric order specified above |
| ReportFormatters.DataFrameTableBuilder.GetMetricDisplayName | src/reporting/report_formatter.py:146-151 | the loop returns the display name specified above |
| ReportFormatters.DataFrameTableBuilder.CreateRowLabelAndSortKey | src/reporting/report_formatter.py:50-126 | returns the label and sort key specified above |
| ReportFormatters.DataFrameTableBuilder.CollectGroupingValues | src/reporting/report_formatter.py:76-83 | collects, in dimension order, the present dimensions with their values, and the values alone |
| ReportFormatters.DataFrameTableBuilder.MultiDimensionParts | src/reporting/report_formatter.py:104-116 | builds one key part per grouping dimension, as specified above |
| VennDiagram.StartsWithSelf | src/visualization/venn_diagram.py:14-18 | every string starts with itself |
| VennDiagram.FirstCharDiffers | src/visualization/venn_diagram.py:14-18 | a string does not start with a prefix whose first character differs |
| VennDiagram.StripUnchanged | src/visualization/venn_diagram.py:12 | stripping a name without surrounding whitespace changes nothing |
| VennDiagram.CanonicalLabels | src/visualization/venn_diagram.py:14-19 | each canonical spelling matches its own prefix and none checked before it |
| VennDiagram.NormalizeToolLabelSpec | src/visualization/venn_diagram.py:10-20 | a label is "deepBGC", "antiSMASH" or "GECCO" exactly when the stripped lower-case name starts with that tool's prefix and with no earlier one; otherwise it is the stripped name |
| VennDiagram.NormalizeToolLabelIdempotent | src/visualization/venn_diagram.py:10-20 | normalising a label a second time changes nothing |
| VennDiagram.NormalizeToolLabel | src/visualization/venn_diagram.py:10-20 | the display label of a tool; its contract is in NormalizeToolLabelSpec and NormalizeToolLabelIdempotent |
| VennDiagram.CountOf | src/visualization/venn_diagram.py:38-46 | a count is the table's entry for the pair and field when there is one, and 0 otherwise |
| VennDiagram.CountsOfUniqueness | src/visualization/venn_diagram.py:38-46 | read from the uniqueness table, the counts are those the tool comparison computed, and 0 for pairs it did not count |
| VennDiagram.LobeSizes | src/visualization/venn_diagram.py:54-56 | the three sizes the routine computes: each outer value is at least 1 and keeps its count exactly when that is positive, and the overlap is the overlap size; the two outer values are never used (see OnlyOverlapIsDrawn) |
| VennDiagram.OverlapSize | src/visualization/venn_diagram.py:54 | the overlap size is the smaller covered count, raised to at least 6 when either run has covered BGCs and to at least 1 otherwise, and is one of those two values |
| VennDiagram.RoundHalfEven | src/visualization/venn_diagram.py:82 | `round` gives an integer within one half of its argument, and the even one on a tie |
| VennDiagram.FigureShowsExactCounts | src/visualization/venn_diagram.py:38-82 | the texts of a diagram read back as the exact unique counts of both directions; the outer lobes are drawn at the fixed size 10 and the overlap at least 1, at least 6 when A has covered BGCs |
| VennDiagram.ThresholdPercent | src/visualization/venn_diagram.py:82 | the threshold as a rounded whole percentage; its contract is in RoundHalfEven |
| VennDiagram.PairwiseFigure | src/visualization/venn_diagram.py:38-82 | one diagram: labels, region sizes, texts and title; its contract is in FigureShowsExactCounts and OnlyOverlapIsDrawn |
| VennDiagram.OnlyOverlapIsDrawn | src/visualization/venn_diagram.py:54-64 | of the three sizes computed, only the overlap reaches the drawing; both outer lobes are drawn at 10 |
| VennDiagram.UnusedLobesExample | src/visualization/venn_diagram.py:54-64 | three uncovered BGCs of A and none of B compute outer sizes 3 and 1, yet both lobes are drawn at 10 |
| VennDiagram.OffsetClosedForm | src/visualization/venn_diagram.py:114 | the pairs whose first position is before `i` number i(2n - i - 1)/2 |
| VennDiagram.PairsCount | src/visualization/venn_diagram.py:114 | there are n(n - 1)/2 unordered pairs of n labels |
| VennDiagram.PairsAt | src/visualization/venn_diagram.py:114 | the pair of positions i < j is at its lexicographic place among the pairs |
| VennDiagram.PairsMembers | src/visualization/venn_diagram.py:114 | every pair is the pair of two positions i < j |
| VennDiagram.PairsImageAt | src/visualization/venn_diagram.py:114-124 | a result computed for each pair in order holds, at the place of positions i < j, the value for those two labels |
| VennDiagram.PairsImageMembers | src/visualization/venn_diagram.py:114-124 | every such result is the value for two labels at positions i < j |
| VennDiagram.Pairs | src/visualization/venn_diagram.py:114 | `combinations(xs, 2)`; its contract is in PairsCount, PairsAt and PairsMembers |
| VennDiagram.Tools | src/visualization/venn_diagram.py:106-107 | the run labels are the table's keys in sorted order, and none without a table |
| VennDiagram.ForEachPair | src/visualization/venn_diagram.py:114-124 | the loop appends one result per pair, in the order of the pairs |
| VennDiagram.GeneratePairwiseVennDiagrams | src/visualization/venn_diagram.py:94-126 | one file per unordered pair of the sorted labels, n(n - 1)/2 of them in the order of `combinations`, each named after the two normalised labels and the rounded percentage under the sub-folder |
| VennDiagram.VennPath | src/visualization/venn_diagram.py:103-116 | the file of one diagram, named after the two normalised labels and the percentage; its contract is in GeneratePairwiseVennDiagrams |
| HtmlSaver.Cells | dev/html_report_experiments/html_saver.py:10-14 | a line's cells are its tab-separated pieces, a blank one after the first replaced by "0" |
| HtmlSaver.FillBlankCells | dev/html_report_experiments/html_saver.py:12-14 | the loop overwrites, in place, every blank cell after the first with "0" and leaves the others |
| HtmlSaver.LineCells | dev/html_report_experiments/html_saver.py:10-14 | splitting and filling one line gives its cells as specified above |
| HtmlSaver.ReadTsvRows | dev/html_report_experiments/html_saver.py:4-17 | the loop returns the cells of each line that is not blank, in order |
| HtmlSaver.TsvRowsSpec | dev/html_report_experiments/html_saver.py:7-16 | each row is the cells of some non-blank line, in line order, and a file of blank lines gives no rows |
| HtmlSaver.CellsSpec | dev/html_report_experiments/html_saver.py:10-14 | a line has one more cell than tabs once its line ending is removed; the pieces hold no tab and, joined with tabs, give that line back; the label cell is kept and each later cell is its piece or "0" when that is blank |
| HtmlSaver.BlankCell | dev/html_report_experiments/html_saver.py:13 | a cell is blank exactly when it is all whitespace |
| HtmlSaver.FillCell | dev/html_report_experiments/html_saver.py:12-14 | a blank cell after the first reads "0"; its contract is in Cells, BlankCell and FillBlankCells |
| HtmlSaver.TsvRows | dev/html_report_experiments/html_saver.py:7-16 | the rows of the non-blank lines; its contract is in TsvRowsSpec and ReadTsvRows |
| HtmlSaver.FillTemplateSpec | dev/html_report_experiments/html_saver.py:32-34 | each substitution replaces every occurrence of its placeholder, from the left, and the pieces it splits the text into give it back when rejoined with the placeholder |
| HtmlSaver.FillTemplateWithoutPlaceholders | dev/html_report_experiments/html_saver.py:32-34 | a template without placeholders is left as it is |
| HtmlSaver.FillTemplate | dev/html_report_experiments/html_saver.py:32-34 | the page with its three placeholders replaced in turn; its contract is in FillTemplateSpec and FillTemplateWithoutPlaceholders |
| StringOrder.StrLeTotal | src/visualization/venn_diagram.py:107 | any two strings are ordered one way or the other |
| StringOrder.StrLeTransitive | src/visualization/venn_diagram.py:107 | the string order is transitive |
| StringOrder.StrLeAntisymmetric | src/visualization/venn_diagram.py:107 | two strings ordered both ways are equal |
| StringOrder.Sort | src/visualization/venn_diagram.py:107 | `sorted` returns an ordered permutation of its input |
| Sorting.SortBy | src/compare_to_ref_analyzer.py:113-115 | sorting by a key returns a permutation ordered by the key |
| Sorting.SortByStable | src/compare_to_ref_analyzer.py:113-115 | the sort is stable: the elements with any one key keep their relative order |
| Strings.Lower | src/visualization/venn_diagram.py:13 | lower-casing maps each character to its lower-case form and keeps the length |
| Strings.StripIdempotent | src/visualization/venn_diagram.py:12 | stripping twice is stripping once |
| Strings.SplitOn | dev/html_report_experiments/html_saver.py:10 | splitting gives at least one piece, none holding the separator, and the pieces joined with the separator give the text back |
| Strings.Replace | dev/html_report_experiments/html_saver.py:32-34 | replacing is splitting at the pattern and joining with the replacement |
| Strings.ReplaceIdentity | dev/html_report_experiments/html_saver.py:32-34 | replacing a pattern that does not occur, or a pattern by itself, changes nothing |
| Strings.IntToStringRoundTrip | src/visualization/venn_diagram.py:68-76 | reading back the decimal text of an integer gives the integer, so different counts are shown differently |

## Left out
- Floating point: coordinates scaled by the block factor, coverage fractions, means and `threshold * 100` are exact reals; IEEE rounding artefacts are not reproduced.
- CompareToolsAnalyzer.IsUniqueAgainstCandidates: the error message carries the threshold's text only as a fixed message, because Python's float formatting is not modelled.
- File and format I/O: JSON and YAML reading (`open_file`, `get_json_from_file`, the YAML reads of the mapping and the report configurations), the reads and writes of the HTML experiment and every file write are left out; their parsed contents are parameters, and `json.dumps` of the rows is a parameter of the template filling.
- ReportConfigs.Load: it requires the report-type names to be distinct, as the keys of a YAML mapping are.
- InputUtils.FileLabel: whether the path names an existing file is a parameter; paths are plain strings, so pathlib's normalisation (repeated or trailing slashes) is not modelled, and joining paths is concatenation with "/".
- Strings.Lower and Strings.Strip: only ASCII letters are lower-cased and only ASCII whitespace is stripped; Unicode case mapping and Unicode spaces are not modelled.
- Strings.SplitOn and Strings.Replace: only non-empty patterns are modelled, which is all the source uses.
- Reading a text file's lines translates universal newlines in Python; the model takes the lines as given.
- src/genome_mining_parser.py is not part of this model: every parser there is a stub that raises.
- Rendering: the pandas pivot table, its sorting, `to_string` and `to_csv`, the asset and template loading of `write_html`, and the matplotlib and `venn2` drawing with its label overrides are not modelled; the model stops at the row labels, sort keys, column order, HTML rows, the region sizes of a diagram (two fixed outer lobes and the computed overlap) and the texts they are given.
- Orchestration and the command line (src/reporting/report_builder.py, src/reporting/report_writer.py, src/report_writer.py, src/option_parser.py, src/pipeline_helper.py, src/config.py, bgc-quast.py) are not part of this model.
- The empty subclasses `CompareToolsReport` and `CompareSamplesReport` of src/report.py add nothing and have no counterpart.
- The copies of `load_reverse_mapping` and `map_products` in src/utils.py are identical to those of src/input_utils.py and are modelled once, in InputUtils; the older running-mode table of src/utils.py has its own members in Utils.
- InputUtils.MapProducts: the result is a Python set, whose iteration order is unobservable, so it is a Dafny set.
- CompareToolsAnalyzer.ComputeUniqueness: totals and pairwise counts are stated for distinct run labels; when two runs share a label the source makes them share counters, which the model computes but does not characterise.
- `display_label` is read by src/compare_tools_analyzer.py:101 but is not a field of the result record; it is an optional string that falls back to the file label.
- Metrics.MetricsEngine.Compute: the check at src/metrics.py:99-102 compares a list of metric names with itself and never fails, so it has no counterpart.
- Registries: the module-level registries filled by decorators at import time are given to the calculators as maps of their contents (ReportingMetrics.LoadGroupingRegistry and LoadMetricRegistry state what they hold).
- MetricsCalculators: a grouping function that raises is a grouping function that returns no value, and a result whose metrics raise is skipped; the printed warnings are left out.
- MetricsCalculators.CompareToRefMetricsCalculator.CalculateMetrics: the shown source returns no metrics; the 18-metric behaviour asserted by tests/test_metrics_calculators.py:251-294 belongs to a later version and is not modelled.
- tests/test_metrics_calculators.py passes a mining tool and uses status names that the shown source does not have; the calculators follow the source.
- tests/test_input_utils.py:35-50 expects UNKNOWN for a reference run with two differently labelled samples of one tool; the code gives COMPARE_TO_REFERENCE, and the model follows the code (InputUtils.RunningModeTable).
- tests/test_compare_to_ref_analyzer.py passes an `allowed_gap` argument, uses other status names and expects a list from `compute_coverage`; the model follows the shown code, generalising its merge rule to a gap of which the source is the instance 1.
- tests/test_report_formatter.py:87 expects a lower-case "(total)" label; the code writes "(Total)", as ReportFormatters.LabelSpec states.
- The conversion of pairwise counts with `int()` and the `or {}` fallback for a missing table are modelled as integer counts that read as 0 when absent.
- Key order of some dictionaries: the reference coverage that `compute_coverage` returns (CompareToRefAnalyzer.ComputeCoverage and Coverage), the per-file metrics of a report (`Report.BasicMetrics`, BasicAnalyzer.GenerateMetricsForAll) and `CompareToRefReport.refBgcCoverage`, the four groupings of BasicAnalyzer.MetricsFor, and the totals and pairwise tables of CompareToolsAnalyzer.ComputeUniqueness are plain Dafny maps. Their keys and values are modelled, but not the insertion order in which src/report_writer.py:43 and the JSON output iterate them.
- VennDiagram.VennPath: two different run labels whose normalised labels coincide give the same file name; the model states the names but not their collisions.
- test_metrics_calculators and test_report_config cases built from literal data are stated as general lemmas over all inputs rather than on the literals.
