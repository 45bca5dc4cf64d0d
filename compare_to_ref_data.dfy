/** Results of comparing an assembly's BGCs with the BGCs of a reference genome. */
module CompareToRefData {
  import opened GenomeMiningResults

  /** An assembly BGC projected onto the reference sequence. */
  datatype Intersection = Intersection(
    assemblyBgc: Bgc,
    startInRef: int,
    endInRef: int,
    reversed: bool := false)

  /** How well a reference BGC is recovered by the assembly BGCs. */
  datatype Status = Missed | PartiallyCovered | Covered | CoveredByFragments
  {
    /** The enum's integer value. */
    function Value(): int {
      match this
      case Missed => 0
      case PartiallyCovered => 1
      case Covered => 2
      case CoveredByFragments => 3
    }
  }

  /** A reference BGC together with the analysis results attached to it. */
  datatype ReferenceBgc = ReferenceBgc(
    bgc: Bgc,
    status: Status := Missed,
    intersectingAssemblyBgcs: seq<Intersection> := [])

  /** A reference BGC that carries every attribute of `b` and no analysis yet. */
  function FromBgc(b: Bgc): (r: ReferenceBgc)
    ensures r.bgc.bgcId == b.bgcId && r.bgc.sequenceId == b.sequenceId
    ensures r.bgc.start == b.start && r.bgc.end == b.end
    ensures r.bgc.completeness == b.completeness && r.bgc.productTypes == b.productTypes
    ensures r.bgc.metadata == b.metadata
    ensures r.status == Missed && r.intersectingAssemblyBgcs == []
  {
    ReferenceBgc(Bgc(b.bgcId, b.sequenceId, b.start, b.end, b.completeness, b.productTypes, b.metadata))
  }

  /** The four statuses carry four different values, 0 to 3. */
  lemma StatusValuesDistinct(s: Status, t: Status)
    ensures 0 <= s.Value() <= 3
    ensures s.Value() == t.Value() <==> s == t
  {
  }

  lemma IntersectionDefault(b: Bgc, s: int, e: int)
    ensures !Intersection(b, s, e).reversed
  {
  }
}
