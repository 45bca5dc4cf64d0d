/** Classification of reference BGCs by how well the BGCs found on an assembly recover them,
    through the assembly-to-reference alignments. */
module CompareToRefAnalyzer {
  import opened Wrappers
  import opened Seqs
  import opened Sorting
  import opened GenomeMiningResults
  import opened CompareToRefData
  import opened Maps
  import opened Ints


  /** `int(n / d)` for a positive `d`: the exact quotient truncated toward zero. */
  function TruncDiv(n: int, d: int): (q: int)
    requires d > 0
    ensures n >= 0 ==> d * q <= n < d * (q + 1)
    ensures n < 0 ==> d * (q - 1) < n <= d * q
  {
    if n >= 0 then n / d else -((-n) / d)
  }

  lemma MulMono(d: int, a: int, b: int)
    requires d > 0
    ensures a <= b <==> d * a <= d * b
    ensures a < b <==> d * a < d * b
  {
    assert d * b - d * a == d * (b - a);
  }

  /** Truncation never moves past an integer bound of the exact quotient. */
  lemma TruncDivBounds(n: int, d: int, x: int)
    requires d > 0
    ensures n >= x * d ==> TruncDiv(n, d) >= x
    ensures n <= x * d ==> TruncDiv(n, d) <= x
  {
    var q := TruncDiv(n, d);
    MulMono(d, q, x);
    MulMono(d, x, q + 1);
    MulMono(d, q - 1, x);
  }

  /** Truncating division is monotone in the numerator. */
  lemma TruncDivMonotone(n1: int, n2: int, d: int)
    requires d > 0 && n1 <= n2
    ensures TruncDiv(n1, d) <= TruncDiv(n2, d)
  {
    var q1, q2 := TruncDiv(n1, d), TruncDiv(n2, d);
    MulMono(d, q1, q2 + 1);
    MulMono(d, q1 - 1, q2);
    if n1 < 0 <= n2 {
      MulMono(d, q1, 1);
      MulMono(d, -1, q2);
    }
  }

  /** The reference coordinate `refStart + k * r / a`, truncated: the start of a block, `k`
      bases into it, at scale `r / a`. */
  function ProjectFromStart(refStart: int, k: int, r: int, a: int): int
    requires a > 0
  {
    TruncDiv(refStart * a + k * r, a)
  }

  /** The reference coordinate `refEnd - k * r / a`, truncated. */
  function ProjectFromEnd(refEnd: int, k: int, r: int, a: int): int
    requires a > 0
  {
    TruncDiv(refEnd * a - k * r, a)
  }

  lemma ProjectBounds(refStart: int, refEnd: int, k: int, r: int, a: int)
    requires a > 0 && k >= 0 && r >= 0
    ensures ProjectFromStart(refStart, k, r, a) >= refStart
    ensures ProjectFromEnd(refEnd, k, r, a) <= refEnd
    ensures k == 0 ==> ProjectFromStart(refStart, k, r, a) == refStart
    ensures k == 0 ==> ProjectFromEnd(refEnd, k, r, a) == refEnd
  {
    assert k * r >= 0;
    TruncDivBounds(refStart * a + k * r, a, refStart);
    TruncDivBounds(refEnd * a - k * r, a, refEnd);
  }

  lemma ProjectShift(refStart: int, refEnd: int, k: int, a: int)
    requires a > 0
    ensures ProjectFromStart(refStart, k, a, a) == refStart + k
    ensures ProjectFromEnd(refEnd, k, a, a) == refEnd - k
  {
    assert refStart * a + k * a == (refStart + k) * a;
    assert refEnd * a - k * a == (refEnd - k) * a;
    TruncDivBounds((refStart + k) * a, a, refStart + k);
    TruncDivBounds((refEnd - k) * a, a, refEnd - k);
  }

  /** Two ends projected from opposite sides of a block of `r >= a` reference bases stay in
      order as long as they leave at least one base between them on the assembly. */
  lemma ProjectOrdered(refStart: int, k1: int, k2: int, r: int, a: int)
    requires a > 0 && k1 >= 0 && k2 >= 0 && k1 + k2 <= a - 1 && r >= a
    ensures ProjectFromStart(refStart, k1, r, a) <= ProjectFromEnd(refStart + r - 1, k2, r, a)
  {
    var w := a - 1 - k1 - k2;
    var n1, n2 := refStart * a + k1 * r, (refStart + r - 1) * a - k2 * r;
    assert n2 - n1 == r * (1 + w) - a by {
      assert n2 - n1 == r * a - a - (k1 + k2) * r;
      assert r * a - (k1 + k2) * r == r * (a - k1 - k2);
    }
    assert r * (1 + w) >= a by {
      assert r * (1 + w) == r + r * w;
      assert r * w >= 0;
    }
    TruncDivMonotone(n1, n2, a);
  }

  /** The projection of an assembly interval onto the reference. */
  datatype Mapped = Mapped(start: int, end: int, reversed: bool)

  /** Number of assembly bases in the block; the block's direction does not matter. */
  function AssemblyBlockLength(aln: AlignmentInfo): (n: int)
    ensures n >= 1
  {
    if aln.assemblyEnd >= aln.assemblyStart then aln.assemblyEnd - aln.assemblyStart + 1
    else aln.assemblyStart - aln.assemblyEnd + 1
  }

  function RefBlockLength(aln: AlignmentInfo): int {
    aln.refEnd - aln.refStart + 1
  }

  /** Maps `[start, end]` on the assembly through one alignment block: the interval is first cut
      to the block, then each end is carried over with the scale factor
      `RefBlockLength / AssemblyBlockLength` (kept as an exact fraction) and truncated toward
      zero. On the reverse strand the interval's end maps to the reference start. */
  function AsmBgcCoordsOnRef(start: int, end: int, aln: AlignmentInfo): (m: Mapped)
    ensures m.reversed <==> aln.assemblyStart > aln.assemblyEnd
  {
    var a, r := AssemblyBlockLength(aln), RefBlockLength(aln);
    if aln.assemblyStart <= aln.assemblyEnd then
      var s, e := Max(start, aln.assemblyStart), Min(end, aln.assemblyEnd);
      Mapped(ProjectFromStart(aln.refStart, s - aln.assemblyStart, r, a),
             ProjectFromEnd(aln.refEnd, aln.assemblyEnd - e, r, a),
             false)
    else
      var s, e := Max(start, aln.assemblyEnd), Min(end, aln.assemblyStart);
      Mapped(ProjectFromStart(aln.refStart, aln.assemblyStart - e, r, a),
             ProjectFromEnd(aln.refEnd, s - aln.assemblyEnd, r, a),
             true)
  }

  /** How far into the block, from its start and from its end on the reference, the clipped
      interval begins and ends (in assembly bases). */
  function Offsets(start: int, end: int, aln: AlignmentInfo): (int, int) {
    if aln.assemblyStart <= aln.assemblyEnd then
      (Max(start, aln.assemblyStart) - aln.assemblyStart, aln.assemblyEnd - Min(end, aln.assemblyEnd))
    else
      (aln.assemblyStart - Min(end, aln.assemblyStart), Max(start, aln.assemblyEnd) - aln.assemblyEnd)
  }

  lemma MappedByOffsets(start: int, end: int, aln: AlignmentInfo)
    ensures var (k1, k2) := Offsets(start, end, aln);
      AsmBgcCoordsOnRef(start, end, aln).start
        == ProjectFromStart(aln.refStart, k1, RefBlockLength(aln), AssemblyBlockLength(aln)) &&
      AsmBgcCoordsOnRef(start, end, aln).end
        == ProjectFromEnd(aln.refEnd, k2, RefBlockLength(aln), AssemblyBlockLength(aln))
  {
  }

  /** A query that spans the whole aligned block maps to exactly the reference block. */
  lemma MapWholeBlock(start: int, end: int, aln: AlignmentInfo)
    requires start <= Min(aln.assemblyStart, aln.assemblyEnd)
    requires end >= Max(aln.assemblyStart, aln.assemblyEnd)
    ensures AsmBgcCoordsOnRef(start, end, aln).start == aln.refStart
    ensures AsmBgcCoordsOnRef(start, end, aln).end == aln.refEnd
  {
    MappedByOffsets(start, end, aln);
    var (k1, k2) := Offsets(start, end, aln);
    assert k1 == 0 && k2 == 0;
    assert ProjectFromStart(aln.refStart, 0, RefBlockLength(aln), AssemblyBlockLength(aln)) == aln.refStart by {
      TruncDivBounds(aln.refStart * AssemblyBlockLength(aln), AssemblyBlockLength(aln), aln.refStart);
    }
    assert ProjectFromEnd(aln.refEnd, 0, RefBlockLength(aln), AssemblyBlockLength(aln)) == aln.refEnd by {
      TruncDivBounds(aln.refEnd * AssemblyBlockLength(aln), AssemblyBlockLength(aln), aln.refEnd);
    }
  }

  /** When the block has the same length on both sequences, the mapping shifts the clipped
      interval by the offset between the two blocks. */
  lemma MapTranslation(start: int, end: int, aln: AlignmentInfo)
    requires RefBlockLength(aln) == AssemblyBlockLength(aln)
    ensures var (k1, k2) := Offsets(start, end, aln);
      AsmBgcCoordsOnRef(start, end, aln).start == aln.refStart + k1 &&
      AsmBgcCoordsOnRef(start, end, aln).end == aln.refEnd - k2
  {
    MappedByOffsets(start, end, aln);
    var (k1, k2) := Offsets(start, end, aln);
    ProjectShift(aln.refStart, aln.refEnd, k1, AssemblyBlockLength(aln));
    ProjectShift(aln.refStart, aln.refEnd, k2, AssemblyBlockLength(aln));
  }

  /** An interval that meets the block lands inside the reference block. */
  lemma MapWithinBlock(start: int, end: int, aln: AlignmentInfo)
    requires aln.refStart <= aln.refEnd
    requires start <= Max(aln.assemblyStart, aln.assemblyEnd)
    requires end >= Min(aln.assemblyStart, aln.assemblyEnd)
    ensures aln.refStart <= AsmBgcCoordsOnRef(start, end, aln).start
    ensures AsmBgcCoordsOnRef(start, end, aln).end <= aln.refEnd
  {
    MappedByOffsets(start, end, aln);
    var (k1, k2) := Offsets(start, end, aln);
    ProjectBounds(aln.refStart, aln.refEnd, k1, RefBlockLength(aln), AssemblyBlockLength(aln));
    ProjectBounds(aln.refStart, aln.refEnd, k2, RefBlockLength(aln), AssemblyBlockLength(aln));
  }

  /** On a block that does not shrink toward the reference, a non-empty interval that meets the
      block keeps its orientation: the mapped start is not past the mapped end. */
  lemma MapOrdered(start: int, end: int, aln: AlignmentInfo)
    requires start <= end
    requires start <= Max(aln.assemblyStart, aln.assemblyEnd)
    requires end >= Min(aln.assemblyStart, aln.assemblyEnd)
    requires RefBlockLength(aln) >= AssemblyBlockLength(aln)
    ensures AsmBgcCoordsOnRef(start, end, aln).start <= AsmBgcCoordsOnRef(start, end, aln).end
  {
    MappedByOffsets(start, end, aln);
    var (k1, k2) := Offsets(start, end, aln);
    assert k1 >= 0 && k2 >= 0 && k1 + k2 <= AssemblyBlockLength(aln) - 1;
    assert aln.refEnd == aln.refStart + RefBlockLength(aln) - 1;
    ProjectOrdered(aln.refStart, k1, k2, RefBlockLength(aln), AssemblyBlockLength(aln));
  }

  /** On a block that shrinks toward the reference, a one-base interval can come out with its
      start past its end. */
  lemma MapCanInvertOnShrinkingBlock()
    ensures var m := AsmBgcCoordsOnRef(10, 10, AlignmentInfo("a", "r", 0, 49, 0, 99, 50));
      m.start == 5 && m.end == 4
  {
    TruncDivBounds(500, 100, 5);
    TruncDivBounds(450, 100, 4);
  }

  /** The forward example: a block of equal lengths shifts `[120, 180]` by 900. */
  lemma MapForwardExample()
    ensures AsmBgcCoordsOnRef(120, 180, AlignmentInfo("a", "r", 1000, 1100, 100, 200, 0))
      == Mapped(1020, 1080, false)
  {
    MapTranslation(120, 180, AlignmentInfo("a", "r", 1000, 1100, 100, 200, 0));
  }

  /** The reverse-strand example: scale 106/101, both ends truncated. */
  lemma MapReverseExample()
    ensures AsmBgcCoordsOnRef(150, 180, AlignmentInfo("a", "r", 900, 1005, 200, 100, 5))
      == Mapped(920, 952, true)
  {
    TruncDivBounds(900 * 101 + 20 * 106, 101, 920);
    TruncDivBounds(900 * 101 + 20 * 106, 101, 921);
    TruncDivBounds(1005 * 101 - 50 * 106, 101, 952);
    TruncDivBounds(1005 * 101 - 50 * 106, 101, 953);
  }

  // ---------------------------------------------------------------------------------------------
  // Status of a reference BGC

  /** The span `[lo, hi]` of the run of intersections currently being merged. */
  datatype Run = Run(lo: int, hi: int)

  /** One scan step: an intersection that starts more than `gap` bases after the run's end
      starts a new run, any other extends the run's end. The scan in the source uses `gap = 1`. */
  function Merge(run: Run, x: Intersection, gap: int): Run {
    if x.startInRef > run.hi + gap then Run(x.startInRef, x.endInRef)
    else Run(run.lo, Max(run.hi, x.endInRef))
  }

  /** The run after scanning the first `n` intersections, starting from the first one's span. */
  function RunAfter(xs: seq<Intersection>, n: nat, gap: int): Run
    requires 0 < |xs| && n <= |xs|
  {
    if n == 0 then Run(xs[0].startInRef, xs[0].endInRef)
    else Merge(RunAfter(xs, n - 1, gap), xs[n - 1], gap)
  }

  predicate ContainsRef(x: Intersection, refStart: int, refEnd: int) {
    x.startInRef <= refStart && x.endInRef >= refEnd
  }

  /** The status the scan assigns: MISSED without intersections, COVERED as soon as one
      intersection contains the reference BGC, otherwise decided by the last run alone. */
  function StatusOf(refStart: int, refEnd: int, xs: seq<Intersection>, gap: int): Status {
    if |xs| == 0 then Missed
    else if exists i :: 0 <= i < |xs| && ContainsRef(xs[i], refStart, refEnd) then Covered
    else
      var run := RunAfter(xs, |xs|, gap);
      if run.lo <= refStart && run.hi >= refEnd then CoveredByFragments else PartiallyCovered
  }

  /** The scan over the intersections, which the source expects sorted by `startInRef`. */
  method DetermineRefBgcStatus(ref: ReferenceBgc) returns (status: Status)
    ensures status == StatusOf(ref.bgc.start, ref.bgc.end, ref.intersectingAssemblyBgcs, 1)
  {
    var xs := ref.intersectingAssemblyBgcs;
    if |xs| == 0 {
      return Missed;
    }
    var minStart, maxEnd := xs[0].startInRef, xs[0].endInRef;
    for i := 0 to |xs|
      invariant Run(minStart, maxEnd) == RunAfter(xs, i, 1)
      invariant forall k :: 0 <= k < i ==> !ContainsRef(xs[k], ref.bgc.start, ref.bgc.end)
    {
      var x := xs[i];
      if x.startInRef <= ref.bgc.start && x.endInRef >= ref.bgc.end {
        return Covered;
      }
      if x.startInRef > maxEnd + 1 {
        minStart, maxEnd := x.startInRef, x.endInRef;
      } else {
        maxEnd := Max(maxEnd, x.endInRef);
      }
    }
    if minStart <= ref.bgc.start && maxEnd >= ref.bgc.end {
      return CoveredByFragments;
    }
    return PartiallyCovered;
  }

  predicate CoversPoint(xs: seq<Intersection>, p: int) {
    exists k :: 0 <= k < |xs| && xs[k].startInRef <= p <= xs[k].endInRef
  }

  function StartInRef(x: Intersection): int {
    x.startInRef
  }

  predicate WellFormed(xs: seq<Intersection>) {
    forall k :: 0 <= k < |xs| ==> xs[k].startInRef <= xs[k].endInRef
  }

  /** Every intersection meets the reference BGC, as the alignment filter guarantees. */
  predicate AllMeet(xs: seq<Intersection>, refStart: int, refEnd: int) {
    forall k :: 0 <= k < |xs| ==> xs[k].startInRef <= refEnd && xs[k].endInRef >= refStart
  }

  /** MISSED is reported exactly for an empty intersection list. */
  lemma StatusMissedIff(refStart: int, refEnd: int, xs: seq<Intersection>, gap: int)
    ensures StatusOf(refStart, refEnd, xs, gap) == Missed <==> |xs| == 0
  {
  }

  /** COVERED is reported exactly when one intersection alone contains the reference BGC,
      whatever the others are. */
  lemma StatusCoveredIff(refStart: int, refEnd: int, xs: seq<Intersection>, gap: int)
    ensures StatusOf(refStart, refEnd, xs, gap) == Covered
      <==> exists i :: 0 <= i < |xs| && ContainsRef(xs[i], refStart, refEnd)
  {
  }

  /** With a gap of at most one base, every base of the current run lies in an intersection
      scanned so far: merging never bridges a hole. */
  lemma {:induction false} RunIsCovered(xs: seq<Intersection>, n: nat, gap: int, p: int)
    requires 0 < n <= |xs| && gap <= 1
    requires RunAfter(xs, n, gap).lo <= p <= RunAfter(xs, n, gap).hi
    ensures CoversPoint(xs[..n], p)
  {
    var x := xs[n - 1];
    if n == 1 {
      assert xs[..n][0] == x;
    } else if x.startInRef > RunAfter(xs, n - 1, gap).hi + gap || p > RunAfter(xs, n - 1, gap).hi {
      assert xs[..n][n - 1] == x;
    } else {
      RunIsCovered(xs, n - 1, gap, p);
      var k :| 0 <= k < n - 1 && xs[..n - 1][k].startInRef <= p <= xs[..n - 1][k].endInRef;
      assert xs[..n][k] == xs[..n - 1][k];
    }
  }

  /** With a gap of at least one base, on sorted, well-formed intersections that all meet the
      reference: the run's end is the largest end scanned so far, and a run that does not begin
      at the first intersection is preceded by a base of the reference that no intersection
      covers. */
  lemma {:induction false} RunStartsAfterHole(refStart: int, refEnd: int, xs: seq<Intersection>, n: nat, gap: int)
    requires 0 < n <= |xs| && gap >= 1
    requires WellFormed(xs) && SortedBy(xs, StartInRef) && AllMeet(xs, refStart, refEnd)
    ensures forall k :: 0 <= k < n ==> xs[k].endInRef <= RunAfter(xs, n, gap).hi
    ensures var lo := RunAfter(xs, n, gap).lo;
      lo == xs[0].startInRef || (refStart <= lo - 1 <= refEnd && !CoversPoint(xs, lo - 1))
  {
    if n > 1 {
      RunStartsAfterHole(refStart, refEnd, xs, n - 1, gap);
      var run, x := RunAfter(xs, n - 1, gap), xs[n - 1];
      if x.startInRef > run.hi + gap {
        var p := x.startInRef - 1;
        assert xs[0].endInRef <= run.hi;
        forall k | 0 <= k < |xs| ensures !(xs[k].startInRef <= p <= xs[k].endInRef) {
          if k >= n - 1 {
            assert StartInRef(xs[n - 1]) <= StartInRef(xs[k]);
          }
        }
      }
    }
  }

  /** The scan reports COVERED or COVERED_BY_FRAGMENTS exactly when every base of the reference
      BGC lies in some intersection, for sorted, well-formed intersections that all meet it. */
  lemma StatusReflectsCoverage(refStart: int, refEnd: int, xs: seq<Intersection>)
    requires refStart <= refEnd
    requires WellFormed(xs) && SortedBy(xs, StartInRef) && AllMeet(xs, refStart, refEnd)
    ensures StatusOf(refStart, refEnd, xs, 1) in {Covered, CoveredByFragments}
      <==> forall p :: refStart <= p <= refEnd ==> CoversPoint(xs, p)
  {
    var status := StatusOf(refStart, refEnd, xs, 1);
    if status == CoveredByFragments {
      forall p | refStart <= p <= refEnd ensures CoversPoint(xs, p) {
        RunIsCovered(xs, |xs|, 1, p);
        assert xs[..|xs|] == xs;
      }
    }
    if (forall p :: refStart <= p <= refEnd ==> CoversPoint(xs, p)) && status != Covered {
      assert CoversPoint(xs, refStart);
      var ks :| 0 <= ks < |xs| && xs[ks].startInRef <= refStart <= xs[ks].endInRef;
      assert CoversPoint(xs, refEnd);
      var ke :| 0 <= ke < |xs| && xs[ke].startInRef <= refEnd <= xs[ke].endInRef;
      RunStartsAfterHole(refStart, refEnd, xs, |xs|, 1);
      assert StartInRef(xs[0]) <= StartInRef(xs[ks]);
    }
  }

  /** A one-base hole splits the runs: `[50, 150]` and `[152, 250]` only partly cover
      `[100, 200]`. */
  lemma HoleSplitsRunsExample()
    ensures StatusOf(100, 200, [Intersection(Bgc("a", "s"), 50, 150), Intersection(Bgc("b", "s"), 152, 250)], 1)
      == PartiallyCovered
  {
    var xs := [Intersection(Bgc("a", "s"), 50, 150), Intersection(Bgc("b", "s"), 152, 250)];
    assert !ContainsRef(xs[0], 100, 200) && !ContainsRef(xs[1], 100, 200);
    assert RunAfter(xs, 2, 1) == Run(152, 250);
  }

  /** Abutting intersections merge: `[50, 150]` and `[151, 252]` cover `[100, 200]` as fragments. */
  lemma AbuttingMergeExample()
    ensures StatusOf(100, 200, [Intersection(Bgc("a", "s"), 50, 150), Intersection(Bgc("b", "s"), 151, 252)], 1)
      == CoveredByFragments
  {
    var xs := [Intersection(Bgc("a", "s"), 50, 150), Intersection(Bgc("b", "s"), 151, 252)];
    assert !ContainsRef(xs[0], 100, 200) && !ContainsRef(xs[1], 100, 200);
    assert RunAfter(xs, 2, 1) == Run(50, 252);
  }

  /** A leading fragment that ends before a hole does not stop the later run from qualifying. */
  lemma LeadingFragmentExample()
    ensures StatusOf(100, 200, [Intersection(Bgc("a", "s"), 50, 95), Intersection(Bgc("b", "s"), 99, 150),
                                Intersection(Bgc("c", "s"), 130, 200)], 1)
      == CoveredByFragments
  {
    var xs := [Intersection(Bgc("a", "s"), 50, 95), Intersection(Bgc("b", "s"), 99, 150),
               Intersection(Bgc("c", "s"), 130, 200)];
    assert !ContainsRef(xs[0], 100, 200) && !ContainsRef(xs[1], 100, 200) && !ContainsRef(xs[2], 100, 200);
    assert RunAfter(xs, 3, 1) == Run(99, 200);
  }

  /** With a gap of two bases the scan would bridge the uncovered base 151. */
  lemma WiderGapBridgesHole()
    ensures StatusOf(100, 200, [Intersection(Bgc("a", "s"), 100, 150), Intersection(Bgc("b", "s"), 152, 200)], 2)
      == CoveredByFragments
    ensures !CoversPoint([Intersection(Bgc("a", "s"), 100, 150), Intersection(Bgc("b", "s"), 152, 200)], 151)
  {
    var xs := [Intersection(Bgc("a", "s"), 100, 150), Intersection(Bgc("b", "s"), 152, 200)];
    assert !ContainsRef(xs[0], 100, 200) && !ContainsRef(xs[1], 100, 200);
    assert RunAfter(xs, 2, 2) == Run(100, 200);
  }

  /** With no gap allowed the scan would split abutting intersections that cover every base. */
  lemma NoGapSplitsAbutting()
    ensures StatusOf(100, 200, [Intersection(Bgc("a", "s"), 100, 150), Intersection(Bgc("b", "s"), 151, 200)], 0)
      == PartiallyCovered
  {
    var xs := [Intersection(Bgc("a", "s"), 100, 150), Intersection(Bgc("b", "s"), 151, 200)];
    assert !ContainsRef(xs[0], 100, 200) && !ContainsRef(xs[1], 100, 200);
    assert RunAfter(xs, 2, 0) == Run(151, 200);
  }

  // ---------------------------------------------------------------------------------------------
  // Intersections through one alignment

  /** The BGC meets the block's assembly span, on either strand (closed intervals). */
  predicate MeetsBlock(b: Bgc, aln: AlignmentInfo) {
    b.start <= Max(aln.assemblyEnd, aln.assemblyStart) && b.end >= Min(aln.assemblyStart, aln.assemblyEnd)
  }

  function IntersectionOf(b: Bgc, aln: AlignmentInfo): Intersection {
    var m := AsmBgcCoordsOnRef(b.start, b.end, aln);
    Intersection(b, m.start, m.end, m.reversed)
  }

  /** The BGC meets the block and its projection meets the reference BGC (closed intervals). */
  predicate Intersects(ref: ReferenceBgc, aln: AlignmentInfo, b: Bgc) {
    MeetsBlock(b, aln) &&
    IntersectionOf(b, aln).startInRef <= ref.bgc.end && IntersectionOf(b, aln).endInRef >= ref.bgc.start
  }

  function IntersectsWith(ref: ReferenceBgc, aln: AlignmentInfo): Bgc -> bool {
    b => Intersects(ref, aln, b)
  }

  function ProjectThrough(aln: AlignmentInfo): Bgc -> Intersection {
    b => IntersectionOf(b, aln)
  }

  /** The projections of the BGCs that intersect the reference BGC through `aln`, in input order. */
  function IntersectingBgcs(ref: ReferenceBgc, aln: AlignmentInfo, bgcs: seq<Bgc>): seq<Intersection> {
    MapSeq(Filter(bgcs, IntersectsWith(ref, aln)), ProjectThrough(aln))
  }

  method GetIntersectingBgcsFromAlignment(ref: ReferenceBgc, aln: AlignmentInfo, bgcs: seq<Bgc>)
    returns (intersections: seq<Intersection>)
    ensures intersections == IntersectingBgcs(ref, aln, bgcs)
  {
    intersections := [];
    for i := 0 to |bgcs|
      invariant intersections == IntersectingBgcs(ref, aln, bgcs[..i])
    {
      var b := bgcs[i];
      FilterPrefix(bgcs, i, IntersectsWith(ref, aln));
      if b.start <= Max(aln.assemblyEnd, aln.assemblyStart) && b.end >= Min(aln.assemblyStart, aln.assemblyEnd) {
        var m := AsmBgcCoordsOnRef(b.start, b.end, aln);
        if m.start <= ref.bgc.end && m.end >= ref.bgc.start {
          MapSeqSnoc(Filter(bgcs[..i], IntersectsWith(ref, aln)), b, ProjectThrough(aln));
          intersections := intersections + [Intersection(b, m.start, m.end, m.reversed)];
        }
      }
    }
    assert bgcs[..|bgcs|] == bgcs;
  }

  /** Exactly the BGCs that meet the block and whose projection meets the reference BGC
      contribute, each through its own projection. */
  lemma IntersectingBgcsExactly(ref: ReferenceBgc, aln: AlignmentInfo, bgcs: seq<Bgc>)
    ensures var r := IntersectingBgcs(ref, aln, bgcs);
      (forall x :: x in r ==> exists b :: b in bgcs && Intersects(ref, aln, b) && x == IntersectionOf(b, aln)) &&
      (forall b :: b in bgcs && Intersects(ref, aln, b) ==> IntersectionOf(b, aln) in r) &&
      AllMeet(r, ref.bgc.start, ref.bgc.end)
  {
    var kept := Filter(bgcs, IntersectsWith(ref, aln));
    var r := IntersectingBgcs(ref, aln, bgcs);
    FilterMembers(bgcs, IntersectsWith(ref, aln));
    forall x | x in r ensures exists b :: b in bgcs && Intersects(ref, aln, b) && x == IntersectionOf(b, aln) {
      var i :| 0 <= i < |r| && r[i] == x;
      assert IntersectsWith(ref, aln)(kept[i]);
    }
    forall b | b in bgcs && Intersects(ref, aln, b) ensures IntersectionOf(b, aln) in r {
      var i :| 0 <= i < |bgcs| && bgcs[i] == b;
      assert IntersectsWith(ref, aln)(bgcs[i]);
      var j :| 0 <= j < |kept| && kept[j] == b;
      assert r[j] == IntersectionOf(b, aln);
    }
    forall k | 0 <= k < |r| ensures r[k].startInRef <= ref.bgc.end && r[k].endInRef >= ref.bgc.start {
      assert IntersectsWith(ref, aln)(kept[k]);
    }
  }

  /** Of `[20, 90]` and `[10, 19]` on a block shifted by 80 bases, only the first reaches the
      reference BGC `[110, 200]`, projected to `[100, 170]`. */
  lemma IntersectingExample()
    ensures var aln := AlignmentInfo("chr1", "ref", 90, 180, 10, 100, 0);
      var inside, outside := Bgc("x", "chr1", 20, 90), Bgc("y", "chr1", 10, 19);
      IntersectingBgcs(FromBgc(Bgc("r", "ref", 110, 200)), aln, [inside, outside])
        == [Intersection(inside, 100, 170, false)]
  {
    var aln := AlignmentInfo("chr1", "ref", 90, 180, 10, 100, 0);
    var inside, outside := Bgc("x", "chr1", 20, 90), Bgc("y", "chr1", 10, 19);
    MapTranslation(20, 90, aln);
    MapTranslation(10, 19, aln);
    assert IntersectionOf(outside, aln).endInRef == 99;
    assert Filter([inside, outside], IntersectsWith(FromBgc(Bgc("r", "ref", 110, 200)), aln)) == [inside] by {
      assert [inside, outside][..1] == [inside];
      assert [inside][..0] == [];
    }
  }

  // ---------------------------------------------------------------------------------------------
  // Coverage of every reference BGC by one assembly

  function OnSequence(id: string): Bgc -> bool {
    (b: Bgc) => b.sequenceId == id
  }

  /** Builds the assembly BGCs grouped by sequence, keeping their order. */
  method IndexBySequence(bgcs: seq<Bgc>) returns (bySeq: map<string, seq<Bgc>>)
    ensures forall id :: id in bySeq <==> exists b :: b in bgcs && b.sequenceId == id
    ensures forall id :: GetOrEmpty(bySeq, id) == Filter(bgcs, OnSequence(id))
  {
    var ids := set b | b in bgcs :: b.sequenceId;
    bySeq := map id | id in ids :: [];
    for i := 0 to |bgcs|
      invariant bySeq.Keys == ids
      invariant forall id :: id in ids ==> bySeq[id] == Filter(bgcs[..i], OnSequence(id))
    {
      var b := bgcs[i];
      bySeq := bySeq[b.sequenceId := bySeq[b.sequenceId] + [b]];
      forall id | id in ids ensures bySeq[id] == Filter(bgcs[..i + 1], OnSequence(id)) {
        FilterPrefix(bgcs, i, OnSequence(id));
      }
    }
    assert bgcs[..|bgcs|] == bgcs;
    forall id ensures GetOrEmpty(bySeq, id) == Filter(bgcs, OnSequence(id)) {
      if id !in bySeq {
        FilterNone(bgcs, OnSequence(id));
      }
    }
  }

  /** All intersections of the reference BGC through the alignments `alns`, alignment by
      alignment, each against the assembly BGCs on the alignment's assembly sequence. */
  function AllIntersections(ref: ReferenceBgc, alns: seq<AlignmentInfo>, bgcs: seq<Bgc>): seq<Intersection>
    decreases |alns|
  {
    if |alns| == 0 then []
    else
      var aln := alns[|alns| - 1];
      AllIntersections(ref, alns[..|alns| - 1], bgcs)
        + IntersectingBgcs(ref, aln, Filter(bgcs, OnSequence(aln.assemblySeqId)))
  }

  /** The analysed reference BGC: its intersections sorted by reference start, and the status the
      scan gives on that sorted list. */
  function AnalyseReferenceBgc(assembly: GenomeMiningResult, quast: QuastResult, b: Bgc): ReferenceBgc {
    var ref := FromBgc(b);
    var alns := GetOrEmpty(quast.referenceSequences, b.sequenceId);
    var sorted := SortBy(AllIntersections(ref, alns, assembly.bgcs), StartInRef);
    ReferenceBgc(b, StatusOf(b.start, b.end, sorted, 1), sorted)
  }

  function AnalyseWith(assembly: GenomeMiningResult, quast: QuastResult): Bgc -> ReferenceBgc {
    b => AnalyseReferenceBgc(assembly, quast, b)
  }

  function ReferenceCoverage(assembly: GenomeMiningResult, quast: QuastResult, reference: GenomeMiningResult): seq<ReferenceBgc> {
    MapSeq(reference.bgcs, AnalyseWith(assembly, quast))
  }

  method ComputeReferenceCoverage(assembly: GenomeMiningResult, quast: QuastResult, reference: GenomeMiningResult)
    returns (refBgcs: seq<ReferenceBgc>)
    ensures refBgcs == ReferenceCoverage(assembly, quast, reference)
  {
    var bySeq := IndexBySequence(assembly.bgcs);
    refBgcs := [];
    for i := 0 to |reference.bgcs|
      invariant refBgcs == ReferenceCoverage(assembly, quast, reference.(bgcs := reference.bgcs[..i]))
    {
      var b := reference.bgcs[i];
      var ref := FromBgc(b);
      var alns := GetOrEmpty(quast.referenceSequences, ref.bgc.sequenceId);
      var intersections := [];
      for j := 0 to |alns|
        invariant intersections == AllIntersections(ref, alns[..j], assembly.bgcs)
      {
        var aln := alns[j];
        var found := GetIntersectingBgcsFromAlignment(ref, aln, GetOrEmpty(bySeq, aln.assemblySeqId));
        assert alns[..j + 1][..j] == alns[..j];
        intersections := intersections + found;
      }
      assert alns[..|alns|] == alns;
      ref := ref.(intersectingAssemblyBgcs := SortBy(intersections, StartInRef));
      var status := DetermineRefBgcStatus(ref);
      ref := ref.(status := status);
      MapSeqPrefix(reference.bgcs, i, AnalyseWith(assembly, quast));
      refBgcs := refBgcs + [ref];
    }
    assert reference.bgcs[..|reference.bgcs|] == reference.bgcs;
  }

  /** One analysed reference BGC per input reference BGC, in input order, each carrying the
      input BGC unchanged, its intersections as a stable sort by reference start of all
      intersections through all alignments on its sequence, and the status of that sorted list. */
  lemma ReferenceCoverageShape(assembly: GenomeMiningResult, quast: QuastResult, reference: GenomeMiningResult, i: int)
    requires 0 <= i < |reference.bgcs|
    ensures |ReferenceCoverage(assembly, quast, reference)| == |reference.bgcs|
    ensures var b, r := reference.bgcs[i], ReferenceCoverage(assembly, quast, reference)[i];
      var all := AllIntersections(FromBgc(b), GetOrEmpty(quast.referenceSequences, b.sequenceId), assembly.bgcs);
      r.bgc == b &&
      SortedBy(r.intersectingAssemblyBgcs, StartInRef) &&
      multiset(r.intersectingAssemblyBgcs) == multiset(all) &&
      (forall k :: Filter(r.intersectingAssemblyBgcs, KeyIs(StartInRef, k)) == Filter(all, KeyIs(StartInRef, k))) &&
      r.status == StatusOf(b.start, b.end, r.intersectingAssemblyBgcs, 1)
  {
    var b := reference.bgcs[i];
    var all := AllIntersections(FromBgc(b), GetOrEmpty(quast.referenceSequences, b.sequenceId), assembly.bgcs);
    forall k ensures Filter(SortBy(all, StartInRef), KeyIs(StartInRef, k)) == Filter(all, KeyIs(StartInRef, k)) {
      SortByStable(all, StartInRef, k);
    }
  }

  /** A reference BGC on a sequence without alignments has no intersections and is MISSED. */
  lemma NoAlignmentsMeansMissed(assembly: GenomeMiningResult, quast: QuastResult, b: Bgc)
    requires GetOrEmpty(quast.referenceSequences, b.sequenceId) == []
    ensures AnalyseReferenceBgc(assembly, quast, b).intersectingAssemblyBgcs == []
    ensures AnalyseReferenceBgc(assembly, quast, b).status == Missed
  {
  }

  /** Every intersection collected for a reference BGC meets it. */
  lemma {:induction false} AllIntersectionsMeet(ref: ReferenceBgc, alns: seq<AlignmentInfo>, bgcs: seq<Bgc>)
    ensures forall x :: x in AllIntersections(ref, alns, bgcs) ==>
      x.startInRef <= ref.bgc.end && x.endInRef >= ref.bgc.start
    decreases |alns|
  {
    if |alns| > 0 {
      var aln := alns[|alns| - 1];
      AllIntersectionsMeet(ref, alns[..|alns| - 1], bgcs);
      var found := IntersectingBgcs(ref, aln, Filter(bgcs, OnSequence(aln.assemblySeqId)));
      IntersectingBgcsExactly(ref, aln, Filter(bgcs, OnSequence(aln.assemblySeqId)));
      forall x | x in found ensures x.startInRef <= ref.bgc.end && x.endInRef >= ref.bgc.start {
        var k :| 0 <= k < |found| && found[k] == x;
      }
    }
  }

  /** When the assembly BGCs are well-formed and no alignment block shrinks toward the
      reference, every collected intersection is well-formed. */
  lemma {:induction false} AllIntersectionsWellFormed(ref: ReferenceBgc, alns: seq<AlignmentInfo>, bgcs: seq<Bgc>)
    requires forall b :: b in bgcs ==> b.start <= b.end
    requires forall aln :: aln in alns ==> RefBlockLength(aln) >= AssemblyBlockLength(aln)
    ensures forall x :: x in AllIntersections(ref, alns, bgcs) ==> x.startInRef <= x.endInRef
    decreases |alns|
  {
    if |alns| > 0 {
      var aln := alns[|alns| - 1];
      var onSeq := Filter(bgcs, OnSequence(aln.assemblySeqId));
      AllIntersectionsWellFormed(ref, alns[..|alns| - 1], bgcs);
      IntersectingBgcsExactly(ref, aln, onSeq);
      FilterMembers(bgcs, OnSequence(aln.assemblySeqId));
      forall x | x in IntersectingBgcs(ref, aln, onSeq) ensures x.startInRef <= x.endInRef {
        var b :| b in onSeq && Intersects(ref, aln, b) && x == IntersectionOf(b, aln);
        var j :| 0 <= j < |onSeq| && onSeq[j] == b;
        MapOrdered(b.start, b.end, aln);
      }
    }
  }

  /** End to end: when the assembly BGCs are well-formed and no alignment block shrinks toward
      the reference, a reference BGC is reported COVERED or COVERED_BY_FRAGMENTS exactly when
      every one of its bases lies in some projected assembly BGC. */
  lemma AnalysedStatusReflectsCoverage(assembly: GenomeMiningResult, quast: QuastResult, b: Bgc)
    requires b.start <= b.end
    requires forall a :: a in assembly.bgcs ==> a.start <= a.end
    requires forall aln :: aln in GetOrEmpty(quast.referenceSequences, b.sequenceId) ==>
      RefBlockLength(aln) >= AssemblyBlockLength(aln)
    ensures var r := AnalyseReferenceBgc(assembly, quast, b);
      (r.status in {Covered, CoveredByFragments} <==>
        forall p :: b.start <= p <= b.end ==> CoversPoint(r.intersectingAssemblyBgcs, p))
  {
    var alns := GetOrEmpty(quast.referenceSequences, b.sequenceId);
    var all := AllIntersections(FromBgc(b), alns, assembly.bgcs);
    var sorted := SortBy(all, StartInRef);
    AllIntersectionsMeet(FromBgc(b), alns, assembly.bgcs);
    AllIntersectionsWellFormed(FromBgc(b), alns, assembly.bgcs);
    forall k | 0 <= k < |sorted|
      ensures sorted[k].startInRef <= sorted[k].endInRef
      ensures sorted[k].startInRef <= b.end && sorted[k].endInRef >= b.start
    {
      assert sorted[k] in multiset(sorted);
    }
    StatusReflectsCoverage(b.start, b.end, sorted);
  }

  // ---------------------------------------------------------------------------------------------
  // Coverage for every assembly

  /** The first QUAST result whose label is `fileLabel`. */
  function FindQuast(quasts: seq<QuastResult>, fileLabel: string): (r: Option<QuastResult>)
    ensures r.Some? ==> r.value in quasts && r.value.inputFileLabel == fileLabel
    ensures r.None? <==> forall q :: q in quasts ==> q.inputFileLabel != fileLabel
  {
    if |quasts| == 0 then None
    else if quasts[0].inputFileLabel == fileLabel then Some(quasts[0])
    else
      assert forall q :: q in quasts ==> q == quasts[0] || q in quasts[1..];
      FindQuast(quasts[1..], fileLabel)
  }

  /** The QUAST result found is the first one with the label. */
  lemma {:induction false} FindQuastIsFirst(quasts: seq<QuastResult>, fileLabel: string)
    requires FindQuast(quasts, fileLabel).Some?
    ensures exists i :: 0 <= i < |quasts| && quasts[i] == FindQuast(quasts, fileLabel).value &&
                        forall j :: 0 <= j < i ==> quasts[j].inputFileLabel != fileLabel
  {
    if quasts[0].inputFileLabel != fileLabel {
      FindQuastIsFirst(quasts[1..], fileLabel);
      var i :| 0 <= i < |quasts[1..]| && quasts[1..][i] == FindQuast(quasts, fileLabel).value &&
        forall j :: 0 <= j < i ==> quasts[1..][j].inputFileLabel != fileLabel;
      forall j | 0 <= j < i + 1 ensures quasts[j].inputFileLabel != fileLabel {
        if j > 0 {
          assert quasts[j] == quasts[1..][j - 1];
        }
      }
      assert quasts[i + 1] == FindQuast(quasts, fileLabel).value;
    } else {
      assert quasts[0] == FindQuast(quasts, fileLabel).value;
    }
  }

  function NoQuastMessage(fileLabel: string): string {
    "No QUAST result found for genome mining result: " + fileLabel
  }

  /** The result after the first `n` assembly results: an error for the first one without a
      QUAST result, or the coverage keyed by input file, later results overwriting earlier ones. */
  function CoverageUpTo(results: seq<GenomeMiningResult>, reference: GenomeMiningResult, quasts: seq<QuastResult>, n: nat)
    : Result<map<string, seq<ReferenceBgc>>>
    requires n <= |results|
  {
    if n == 0 then Ok(map[])
    else match CoverageUpTo(results, reference, quasts, n - 1)
      case Err(e) => Err(e)
      case Ok(m) =>
        var res := results[n - 1];
        match FindQuast(quasts, res.inputFileLabel)
        case None => Err(NoQuastMessage(res.inputFileLabel))
        case Some(q) => Ok(m[res.inputFile := ReferenceCoverage(res, q, reference)])
  }

  function Coverage(results: seq<GenomeMiningResult>, reference: GenomeMiningResult, quasts: seq<QuastResult>)
    : Result<map<string, seq<ReferenceBgc>>>
  {
    CoverageUpTo(results, reference, quasts, |results|)
  }

  method ComputeCoverage(results: seq<GenomeMiningResult>, reference: GenomeMiningResult, quasts: seq<QuastResult>)
    returns (coverage: Result<map<string, seq<ReferenceBgc>>>)
    ensures coverage == Coverage(results, reference, quasts)
  {
    var byFile := map[];
    for i := 0 to |results|
      invariant CoverageUpTo(results, reference, quasts, i) == Ok(byFile)
    {
      var res := results[i];
      var quast := FindQuast(quasts, res.inputFileLabel);
      if quast.None? {
        CoverageErrSticks(results, reference, quasts, i + 1, |results|);
        return Err(NoQuastMessage(res.inputFileLabel));
      }
      var refBgcs := ComputeReferenceCoverage(res, quast.value, reference);
      byFile := byFile[res.inputFile := refBgcs];
    }
    coverage := Ok(byFile);
  }

  lemma {:induction false} CoverageErrSticks(results: seq<GenomeMiningResult>, reference: GenomeMiningResult,
                                             quasts: seq<QuastResult>, n: nat, m: nat)
    requires n <= m <= |results|
    requires CoverageUpTo(results, reference, quasts, n).Err?
    ensures CoverageUpTo(results, reference, quasts, m) == CoverageUpTo(results, reference, quasts, n)
    decreases m
  {
    if m > n {
      CoverageErrSticks(results, reference, quasts, n, m - 1);
    }
  }

  /** The coverage fails exactly when some assembly result has no QUAST result with its label,
      and the message names the first such result. */
  lemma {:induction false} CoverageErrIff(results: seq<GenomeMiningResult>, reference: GenomeMiningResult,
                                          quasts: seq<QuastResult>, n: nat)
    requires n <= |results|
    ensures CoverageUpTo(results, reference, quasts, n).Err?
      <==> exists i :: 0 <= i < n && FindQuast(quasts, results[i].inputFileLabel).None?
    ensures CoverageUpTo(results, reference, quasts, n).Err? ==>
      exists i :: 0 <= i < n && FindQuast(quasts, results[i].inputFileLabel).None? &&
        (forall j :: 0 <= j < i ==> FindQuast(quasts, results[j].inputFileLabel).Some?) &&
        CoverageUpTo(results, reference, quasts, n).error == NoQuastMessage(results[i].inputFileLabel)
    decreases n
  {
    if n > 0 {
      CoverageErrIff(results, reference, quasts, n - 1);
      var prev := CoverageUpTo(results, reference, quasts, n - 1);
      var res := results[n - 1];
      if prev.Err? {
        assert CoverageUpTo(results, reference, quasts, n) == prev;
      } else if FindQuast(quasts, res.inputFileLabel).None? {
        assert CoverageUpTo(results, reference, quasts, n) == Err(NoQuastMessage(res.inputFileLabel));
      } else {
        assert CoverageUpTo(results, reference, quasts, n).Ok?;
      }
    }
  }

  function InputFileOf(res: GenomeMiningResult): string {
    res.inputFile
  }

  /** The analysis of one assembly result against the QUAST result with its label. */
  function AnalyseAssembly(quasts: seq<QuastResult>, reference: GenomeMiningResult): GenomeMiningResult -> seq<ReferenceBgc> {
    (res: GenomeMiningResult) => match FindQuast(quasts, res.inputFileLabel)
      case Some(q) => ReferenceCoverage(res, q, reference)
      case None => []
  }

  lemma {:induction false} CoverageOkIsKeyed(results: seq<GenomeMiningResult>, reference: GenomeMiningResult,
                                             quasts: seq<QuastResult>, n: nat)
    requires n <= |results|
    requires CoverageUpTo(results, reference, quasts, n).Ok?
    ensures CoverageUpTo(results, reference, quasts, n).value
      == KeyedBy(results[..n], InputFileOf, AnalyseAssembly(quasts, reference))
    decreases n
  {
    if n > 0 {
      var res, analyse := results[n - 1], AnalyseAssembly(quasts, reference);
      var prev := CoverageUpTo(results, reference, quasts, n - 1);
      assert prev.Ok?;
      CoverageOkIsKeyed(results, reference, quasts, n - 1);
      assert CoverageUpTo(results, reference, quasts, n).value == prev.value[res.inputFile := analyse(res)] by {
        assert FindQuast(quasts, res.inputFileLabel).Some?;
      }
      KeyedByPrefix(results, n - 1, InputFileOf, analyse);
    }
  }

  /** On success the coverage has one entry per input file, holding the analysis of the last
      assembly result with that file against the first QUAST result with its label. */
  lemma CoverageOkEntries(results: seq<GenomeMiningResult>, reference: GenomeMiningResult, quasts: seq<QuastResult>)
    requires Coverage(results, reference, quasts).Ok?
    ensures var m := Coverage(results, reference, quasts).value;
      (forall i :: 0 <= i < |results| ==> results[i].inputFile in m) &&
      (forall f :: f in m ==> exists i :: 0 <= i < |results| && results[i].inputFile == f) &&
      (forall i :: 0 <= i < |results| && (forall j :: i < j < |results| ==> results[j].inputFile != results[i].inputFile) ==>
        FindQuast(quasts, results[i].inputFileLabel).Some? &&
        m[results[i].inputFile] == ReferenceCoverage(results[i], FindQuast(quasts, results[i].inputFileLabel).value, reference))
  {
    var n := |results|;
    CoverageOkIsKeyed(results, reference, quasts, n);
    assert results[..n] == results;
    KeyedByKeys(results, InputFileOf, AnalyseAssembly(quasts, reference));
    CoverageErrIff(results, reference, quasts, n);
    forall i | 0 <= i < n && (forall j :: i < j < n ==> results[j].inputFile != results[i].inputFile)
      ensures FindQuast(quasts, results[i].inputFileLabel).Some?
      ensures Coverage(results, reference, quasts).value[results[i].inputFile]
        == ReferenceCoverage(results[i], FindQuast(quasts, results[i].inputFileLabel).value, reference)
    {
      KeyedByLastWins(results, InputFileOf, AnalyseAssembly(quasts, reference), i);
    }
  }
}
