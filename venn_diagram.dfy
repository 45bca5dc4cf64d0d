/** The pairwise Venn diagrams of the tool comparison: the display label of a tool, the counts
    read for a pair of runs, the region sizes given to the drawing (two fixed outer lobes and an
    overlap computed from the counts), and the files written, one per unordered pair of runs.
    The drawing itself is not modelled. */
module VennDiagram {
  import opened Wrappers
  import opened Seqs
  import opened Ints
  import opened Strings
  import opened StringOrder
  import opened OrderedMaps
  import CompareToolsAnalyzer

  // Tool labels

  function StartsWith(s: string, prefix: string): bool {
    |prefix| <= |s| && s[..|prefix|] == prefix
  }

  /** The display label of a tool: a stripped name whose lower-case form starts with "deepbgc",
      "antismash" or "gecco" (checked in that order) becomes the tool's canonical spelling; any
      other name is kept, stripped. */
  function NormalizeToolLabel(name: string): string {
    var s := Strip(name);
    var low := Lower(s);
    if StartsWith(low, "deepbgc") then "deepBGC"
    else if StartsWith(low, "antismash") then "antiSMASH"
    else if StartsWith(low, "gecco") then "GECCO"
    else s
  }

  lemma StartsWithSelf(s: string)
    ensures StartsWith(s, s)
  {
    assert s[..|s|] == s;
  }

  lemma FirstCharDiffers(s: string, prefix: string)
    requires |s| > 0 && |prefix| > 0 && s[0] != prefix[0]
    ensures !StartsWith(s, prefix)
  {
    if |prefix| <= |s| {
      assert s[..|prefix|][0] == s[0];
    }
  }

  /** A name without surrounding whitespace is its own stripped form. */
  lemma StripUnchanged(s: string)
    requires |s| > 0 && !IsSpace(s[0]) && !IsSpace(s[|s| - 1])
    ensures Strip(s) == s
  {
  }

  /** The canonical spellings are their own labels. */
  lemma CanonicalLabels()
    ensures Strip("deepBGC") == "deepBGC" && StartsWith(Lower("deepBGC"), "deepbgc")
    ensures Strip("antiSMASH") == "antiSMASH" && StartsWith(Lower("antiSMASH"), "antismash")
      && !StartsWith(Lower("antiSMASH"), "deepbgc")
    ensures Strip("GECCO") == "GECCO" && StartsWith(Lower("GECCO"), "gecco")
      && !StartsWith(Lower("GECCO"), "deepbgc") && !StartsWith(Lower("GECCO"), "antismash")
  {
    CanonicalDeepBgc();
    CanonicalAntiSmash();
    CanonicalGecco();
    PrefixesDiffer();
  }

  lemma CanonicalDeepBgc()
    ensures Strip("deepBGC") == "deepBGC" && Lower("deepBGC") == "deepbgc" && StartsWith("deepbgc", "deepbgc")
  {
    CanonicalLabel("deepBGC", "deepbgc");
  }

  lemma CanonicalAntiSmash()
    ensures Strip("antiSMASH") == "antiSMASH" && Lower("antiSMASH") == "antismash"
    ensures StartsWith("antismash", "antismash")
  {
    CanonicalLabel("antiSMASH", "antismash");
  }

  lemma CanonicalGecco()
    ensures Strip("GECCO") == "GECCO" && Lower("GECCO") == "gecco"
    ensures StartsWith("gecco", "gecco")
  {
    CanonicalLabel("GECCO", "gecco");
  }

  /** The three prefixes differ in their first character, so none starts with another. */
  lemma PrefixesDiffer()
    ensures !StartsWith("antismash", "deepbgc") && !StartsWith("gecco", "deepbgc") && !StartsWith("gecco", "antismash")
  {
    FirstCharDiffers("antismash", "deepbgc");
    FirstCharDiffers("gecco", "deepbgc");
    FirstCharDiffers("gecco", "antismash");
  }

  /** A name without surrounding whitespace whose lower-case form is `low` is its own stripped
      form, and `low` starts with itself. */
  lemma CanonicalLabel(name: string, low: string)
    requires |name| > 0 && !IsSpace(name[0]) && !IsSpace(name[|name| - 1])
    requires |name| == |low| && forall i :: 0 <= i < |name| ==> LowerChar(name[i]) == low[i]
    ensures Strip(name) == name && Lower(name) == low && StartsWith(low, low)
  {
    StripUnchanged(name);
    StartsWithSelf(low);
  }

  /** Each canonical label comes exactly from the names with its prefix (and none of an earlier
      one); every other name keeps its stripped spelling. */
  lemma NormalizeToolLabelSpec(name: string)
    ensures var low := Lower(Strip(name)); var r := NormalizeToolLabel(name);
      && (r == "deepBGC" <==> StartsWith(low, "deepbgc"))
      && (r == "antiSMASH" <==> !StartsWith(low, "deepbgc") && StartsWith(low, "antismash"))
      && (r == "GECCO" <==> !StartsWith(low, "deepbgc") && !StartsWith(low, "antismash") && StartsWith(low, "gecco"))
      && (r == Strip(name) || r == "deepBGC" || r == "antiSMASH" || r == "GECCO")
  {
    CanonicalLabels();
  }

  /** Normalising a label again changes nothing. */
  lemma NormalizeToolLabelIdempotent(name: string)
    ensures NormalizeToolLabel(NormalizeToolLabel(name)) == NormalizeToolLabel(name)
  {
    var r := NormalizeToolLabel(name);
    if r == "deepBGC" || r == "antiSMASH" || r == "GECCO" {
      CanonicalLabels();
    } else {
      var s := Strip(name);
      assert r == s;
      StripIdempotent(name);
      assert Strip(r) == s;
    }
  }

  // Counts and lobes

  /** One entry of the pairwise table: the counts by field name ("unique", "non_unique"). */
  type CountRow = map<string, int>

  /** The pairwise table of the metadata: for each run, for each other run, its counts. */
  type PairwiseTable = OrderedMap<string, map<string, CountRow>>

  /** A count of the pairwise table; a missing table, row or field reads as 0. */
  function CountOf(pairwise: Option<PairwiseTable>, a: string, b: string, field: string): (r: int)
    ensures r != 0 ==> (pairwise.Some? && a in pairwise.value.entries && b in pairwise.value.entries[a]
      && field in pairwise.value.entries[a][b] && r == pairwise.value.entries[a][b][field])
    ensures (pairwise.Some? && a in pairwise.value.entries && b in pairwise.value.entries[a]
      && field in pairwise.value.entries[a][b]) ==> r == pairwise.value.entries[a][b][field]
  {
    if pairwise.None? || a !in pairwise.value.entries then 0
    else
      var row := pairwise.value.entries[a];
      if b !in row || field !in row[b] then 0 else row[b][field]
  }

  /** The table the uniqueness pass writes, as the metadata holds it. */
  function RowOf(counts: CompareToolsAnalyzer.PairCounts): CountRow {
    map["unique" := counts.unique, "non_unique" := counts.nonUnique]
  }

  /** Read from the uniqueness pass's table, the counts are the pass's own counts; pairs the pass
      did not count read as 0. */
  lemma CountsOfUniqueness(table: PairwiseTable, pairwise: map<string, map<string, CompareToolsAnalyzer.PairCounts>>, a: string, b: string)
    requires table.entries == map x | x in pairwise :: map y | y in pairwise[x] :: RowOf(pairwise[x][y])
    ensures a in pairwise && b in pairwise[a] ==>
      CountOf(Some(table), a, b, "unique") == pairwise[a][b].unique
      && CountOf(Some(table), a, b, "non_unique") == pairwise[a][b].nonUnique
    ensures !(a in pairwise && b in pairwise[a]) ==>
      CountOf(Some(table), a, b, "unique") == 0 && CountOf(Some(table), a, b, "non_unique") == 0
  {
  }

  /** Three region sizes: left lobe, overlap, right lobe. */
  datatype Lobes = Lobes(left: int, inter: int, right: int)

  /** The overlap size handed to the drawing: the smaller covered count, raised to at least
      `minIntersection` when either run has BGCs the other covers, and to at least 1 otherwise. */
  function OverlapSize(aNonUnique: int, bNonUnique: int, minIntersection: int): (r: int)
    ensures r >= Min(aNonUnique, bNonUnique)
    ensures r >= (if aNonUnique != 0 || bNonUnique != 0 then minIntersection else 1)
    ensures r == Min(aNonUnique, bNonUnique)
      || r == (if aNonUnique != 0 || bNonUnique != 0 then minIntersection else 1)
  {
    Max(Min(aNonUnique, bNonUnique), if aNonUnique != 0 || bNonUnique != 0 then minIntersection else 1)
  }

  /** The three sizes the plotting routine computes. Each outer value is at least 1 and keeps its
      exact count whenever that is positive. Only the overlap is ever handed to the drawing; the
      two outer values are computed and then left unused. */
  function LobeSizes(aUnique: int, aNonUnique: int, bUnique: int, bNonUnique: int, minIntersection: int): (r: Lobes)
    ensures r.left >= 1 && r.right >= 1
    ensures r.left == aUnique <==> aUnique >= 1
    ensures r.right == bUnique <==> bUnique >= 1
    ensures r.inter == OverlapSize(aNonUnique, bNonUnique, minIntersection)
  {
    Lobes(Max(aUnique, 1), OverlapSize(aNonUnique, bNonUnique, minIntersection), Max(bUnique, 1))
  }

  /** The smallest overlap drawn when either run has covered BGCs. */
  const MinIntersectionForShape := 6

  /** The size every outer lobe is drawn at, whatever the counts. */
  const FixedLobe := 10

  /** `round(x)`: the nearest integer, ties to the even one. */
  function RoundHalfEven(x: real): (r: int)
    ensures -0.5 <= r as real - x <= 0.5
    ensures (r as real - x == 0.5 || x - r as real == 0.5) ==> r % 2 == 0
  {
    var f := x.Floor;
    var frac := x - f as real;
    if frac < 0.5 then f
    else if frac > 0.5 then f + 1
    else if f % 2 == 0 then f
    else f + 1
  }

  /** The threshold as a whole percentage, as titles and file names show it. */
  function ThresholdPercent(threshold: real): int {
    RoundHalfEven(threshold * 100.0)
  }

  /** What one diagram shows: the two labels, the region sizes it is drawn with, the exact
      counts as text, and the title. */
  datatype Figure = Figure(labelA: string, labelB: string, lobes: Lobes,
                           leftText: string, centerText: string, rightText: string, title: string)

  /** The diagram of run `toolA` against run `toolB`: its left text is A's BGCs not covered by
      B, its right text B's not covered by A, and its centre both covered counts. The outer lobes
      are drawn at the fixed size and only the overlap size comes from the counts. */
  function PairwiseFigure(pairwise: Option<PairwiseTable>, toolA: string, toolB: string, threshold: real): Figure {
    var aUnique := CountOf(pairwise, toolA, toolB, "unique");
    var aNonUnique := CountOf(pairwise, toolA, toolB, "non_unique");
    var bUnique := CountOf(pairwise, toolB, toolA, "unique");
    var bNonUnique := CountOf(pairwise, toolB, toolA, "non_unique");
    var labelA := NormalizeToolLabel(toolA);
    var labelB := NormalizeToolLabel(toolB);
    Figure(labelA, labelB, Lobes(FixedLobe, OverlapSize(aNonUnique, bNonUnique, MinIntersectionForShape), FixedLobe),
           IntToString(aUnique), IntToString(aNonUnique) + " / " + IntToString(bNonUnique), IntToString(bUnique),
           "Overlap between " + labelA + " and " + labelB + "\n(overlap threshold=" + IntToString(ThresholdPercent(threshold)) + "%)")
  }

  /** The shapes do not carry the counts, but the texts carry the exact counts of both
      directions. */
  lemma FigureShowsExactCounts(pairwise: Option<PairwiseTable>, toolA: string, toolB: string, threshold: real)
    ensures var fig := PairwiseFigure(pairwise, toolA, toolB, threshold);
      && ParseInt(fig.leftText) == CountOf(pairwise, toolA, toolB, "unique")
      && ParseInt(fig.rightText) == CountOf(pairwise, toolB, toolA, "unique")
      && fig.lobes.left == FixedLobe && fig.lobes.right == FixedLobe && fig.lobes.inter >= 1
      && (CountOf(pairwise, toolA, toolB, "non_unique") != 0 ==> fig.lobes.inter >= MinIntersectionForShape)
  {
    IntToStringRoundTrip(CountOf(pairwise, toolA, toolB, "unique"));
    IntToStringRoundTrip(CountOf(pairwise, toolB, toolA, "unique"));
  }

  /** Of the three sizes the routine computes, only the overlap reaches the drawing: the outer
      lobes are drawn at the fixed size whatever the unique counts are. */
  lemma OnlyOverlapIsDrawn(pairwise: Option<PairwiseTable>, toolA: string, toolB: string, threshold: real)
    ensures var fig := PairwiseFigure(pairwise, toolA, toolB, threshold);
      var computed := LobeSizes(CountOf(pairwise, toolA, toolB, "unique"), CountOf(pairwise, toolA, toolB, "non_unique"),
                                CountOf(pairwise, toolB, toolA, "unique"), CountOf(pairwise, toolB, toolA, "non_unique"),
                                MinIntersectionForShape);
      && fig.lobes == Lobes(FixedLobe, computed.inter, FixedLobe)
  {
  }

  /** With three BGCs of A uncovered by B and none of B uncovered by A, the computed outer values
      are 3 and 1, yet both lobes are drawn at 10. */
  lemma UnusedLobesExample()
    ensures var table := OrderedMap(["A", "B"], map["A" := map["B" := map["unique" := 3, "non_unique" := 2]],
                                                  "B" := map["A" := map["unique" := 0, "non_unique" := 2]]]);
      && LobeSizes(3, 2, 0, 2, MinIntersectionForShape) == Lobes(3, 6, 1)
      && PairwiseFigure(Some(table), "A", "B", 0.5).lobes == Lobes(10, 6, 10)
  {
  }

  // Pairs and files

  /** `combinations(xs, 2)`: each pair of positions i < j, by i and then by j. */
  function Pairs<T>(xs: seq<T>): seq<(T, T)>
    decreases |xs|
  {
    if |xs| == 0 then []
    else seq(|xs| - 1, k requires 0 <= k < |xs| - 1 => (xs[0], xs[k + 1])) + Pairs(xs[1..])
  }

  /** Where the pairs of first position `i` start among `n` elements: after n - 1 + n - 2 + ...
      pairs of the earlier first positions. */
  function Offset(n: nat, i: nat): nat
    requires i <= n
  {
    if i == 0 then 0 else (n - 1) + Offset(n - 1, i - 1)
  }

  lemma {:induction false} OffsetClosedForm(n: nat, i: nat)
    requires i <= n
    ensures 2 * Offset(n, i) == i * (2 * n - i - 1)
  {
    if i > 0 {
      OffsetClosedForm(n - 1, i - 1);
      var m := 2 * n - i - 1;
      assert 2 * (n - 1) - (i - 1) - 1 == m - 1;
      assert (i - 1) * (m - 1) == i * m - i - m + 1;
    }
  }

  /** There are n(n - 1)/2 pairs. */
  lemma {:induction false} PairsCount<T>(xs: seq<T>)
    ensures |Pairs(xs)| == Offset(|xs|, |xs|)
    ensures 2 * |Pairs(xs)| == |xs| * (|xs| - 1)
    decreases |xs|
  {
    if |xs| > 0 {
      PairsCount(xs[1..]);
    }
    OffsetClosedForm(|xs|, |xs|);
    assert 2 * |xs| - |xs| - 1 == |xs| - 1;
  }

  /** The position of the pair of positions i < j among the pairs of `n` elements. */
  function PairIndex(n: nat, i: nat, j: nat): nat
    requires i < j <= n
  {
    Offset(n, i) + (j - i - 1)
  }

  /** The pair of positions i < j sits at `PairIndex(n, i, j)`. */
  lemma {:induction false} PairsAt<T>(xs: seq<T>, i: nat, j: nat)
    requires i < j < |xs|
    ensures PairIndex(|xs|, i, j) < |Pairs(xs)|
    ensures Pairs(xs)[PairIndex(|xs|, i, j)] == (xs[i], xs[j])
    decreases |xs|
  {
    var head := seq(|xs| - 1, k requires 0 <= k < |xs| - 1 => (xs[0], xs[k + 1]));
    assert Pairs(xs) == head + Pairs(xs[1..]);
    if i > 0 {
      PairsAt(xs[1..], i - 1, j - 1);
    }
  }

  /** Every pair is one of positions i < j. */
  lemma {:induction false} PairsMembers<T>(xs: seq<T>, k: nat)
    requires k < |Pairs(xs)|
    ensures exists i, j :: 0 <= i < j < |xs| && Pairs(xs)[k] == (xs[i], xs[j])
    decreases |xs|
  {
    var head := seq(|xs| - 1, k requires 0 <= k < |xs| - 1 => (xs[0], xs[k + 1]));
    assert Pairs(xs) == head + Pairs(xs[1..]);
    if k < |head| {
      assert Pairs(xs)[k] == (xs[0], xs[k + 1]);
    } else {
      PairsMembers(xs[1..], k - |head|);
      var i, j :| 0 <= i < j < |xs| - 1 && Pairs(xs[1..])[k - |head|] == (xs[1..][i], xs[1..][j]);
      assert Pairs(xs)[k] == (xs[i + 1], xs[j + 1]);
    }
  }

  /** What is computed for each pair, in the order of the pairs, has n(n - 1)/2 values, the
      value of positions i < j at `PairIndex(n, i, j)`. */
  lemma PairsImageAt<T, U>(xs: seq<T>, f: (T, T) -> U, out: seq<U>)
    requires |out| == |Pairs(xs)|
    requires forall m :: 0 <= m < |out| ==> out[m] == f(Pairs(xs)[m].0, Pairs(xs)[m].1)
    ensures forall i, j :: 0 <= i < j < |xs| ==>
      PairIndex(|xs|, i, j) < |out| && out[PairIndex(|xs|, i, j)] == f(xs[i], xs[j])
  {
    forall i, j | 0 <= i < j < |xs|
      ensures PairIndex(|xs|, i, j) < |out| && out[PairIndex(|xs|, i, j)] == f(xs[i], xs[j])
    {
      PairsAt(xs, i, j);
    }
  }

  /** Every value computed for the pairs is that of some positions i < j. */
  lemma PairsImageMembers<T, U>(xs: seq<T>, f: (T, T) -> U, out: seq<U>)
    requires |out| == |Pairs(xs)|
    requires forall m :: 0 <= m < |out| ==> out[m] == f(Pairs(xs)[m].0, Pairs(xs)[m].1)
    ensures forall k :: 0 <= k < |out| ==> exists i, j :: 0 <= i < j < |xs| && out[k] == f(xs[i], xs[j])
  {
    forall k | 0 <= k < |out|
      ensures exists i, j :: 0 <= i < j < |xs| && out[k] == f(xs[i], xs[j])
    {
      PairsMembers(xs, k);
      var i, j :| 0 <= i < j < |xs| && Pairs(xs)[k] == (xs[i], xs[j]);
      assert out[k] == f(xs[i], xs[j]);
    }
  }

  /** The run labels of the pairwise table, sorted. */
  function Tools(pairwise: Option<PairwiseTable>): (r: seq<string>)
    ensures Sorted(r)
    ensures pairwise.Some? ==> multiset(r) == multiset(pairwise.value.keys)
    ensures pairwise.None? ==> r == []
  {
    if pairwise.None? then [] else Sort(pairwise.value.keys)
  }

  /** `a / b` on paths. */
  function JoinPath(a: string, b: string): string {
    a + "/" + b
  }

  /** The file of the diagram of `a` against `b`: "{A}_{B}_{percent}.png" under the output
      directory's sub-folder, with the normalised labels. */
  function VennPath(outputDir: string, subfolder: string, percent: int, a: string, b: string): string {
    JoinPath(JoinPath(outputDir, subfolder),
             NormalizeToolLabel(a) + "_" + NormalizeToolLabel(b) + "_" + IntToString(percent) + ".png")
  }

  /** The value of `f` for each pair, in order. */
  method ForEachPair<T, U>(pairs: seq<(T, T)>, f: (T, T) -> U) returns (out: seq<U>)
    ensures |out| == |pairs|
    ensures forall m :: 0 <= m < |pairs| ==> out[m] == f(pairs[m].0, pairs[m].1)
  {
    out := [];
    for k := 0 to |pairs|
      invariant |out| == k
      invariant forall m :: 0 <= m < k ==> out[m] == f(pairs[m].0, pairs[m].1)
    {
      out := out + [f(pairs[k].0, pairs[k].1)];
    }
  }

  /** The paths of the diagrams, one per unordered pair of the sorted run labels, in the order of
      `combinations`: n(n - 1)/2 of them, the pair of sorted positions i < j at
      `PairIndex(n, i, j)`, and every path that of such a pair. */
  method GeneratePairwiseVennDiagrams(pairwise: Option<PairwiseTable>, outputDir: string, threshold: real, subfolder: string)
    returns (saved: seq<string>)
    ensures var tools := Tools(pairwise); var pct := ThresholdPercent(threshold);
      && 2 * |saved| == |tools| * (|tools| - 1)
      && (forall i, j :: 0 <= i < j < |tools| ==>
            PairIndex(|tools|, i, j) < |saved|
            && saved[PairIndex(|tools|, i, j)] == VennPath(outputDir, subfolder, pct, tools[i], tools[j]))
      && (forall k :: 0 <= k < |saved| ==> exists i, j :: (0 <= i < j < |tools|
            && saved[k] == VennPath(outputDir, subfolder, pct, tools[i], tools[j])))
  {
    var tools := Tools(pairwise);
    var pct := ThresholdPercent(threshold);
    var path := (a: string, b: string) => VennPath(outputDir, subfolder, pct, a, b);
    saved := ForEachPair(Pairs(tools), path);
    PairsCount(tools);
    PairsImageAt(tools, path, saved);
    PairsImageMembers(tools, path, saved);
  }
}
