/** The records a genome-mining run produces: BGCs, the run itself, and QUAST alignment data. */
module GenomeMiningResults {
  import opened Wrappers

  /** The three values the `completeness` literal type admits. */
  datatype Completeness = Complete | Incomplete | Unknown
  {
    function Name(): string {
      match this
      case Complete => "Complete"
      case Incomplete => "Incomplete"
      case Unknown => "Unknown"
    }
  }

  /** A biosynthetic gene cluster on one sequence, with the dataclass defaults. */
  datatype Bgc = Bgc(
    bgcId: string,
    sequenceId: string,
    start: int := 0,
    end: int := 0,
    completeness: Completeness := Unknown,
    productTypes: seq<string> := [],
    metadata: Option<map<string, string>> := None)

  /** One tool's result on one input file. `displayLabel` is read by the cross-tool comparison
      although the record declares no such field; it is optional here and falls back to
      `inputFileLabel` where it is used. */
  datatype GenomeMiningResult = GenomeMiningResult(
    inputFile: string,
    inputFileLabel: string,
    miningTool: string,
    bgcs: seq<Bgc> := [],
    displayLabel: Option<string> := None)

  /** One alignment block between an assembly sequence and a reference sequence; the assembly
      coordinates run backwards (`assemblyStart > assemblyEnd`) on the reverse strand. */
  datatype AlignmentInfo = AlignmentInfo(
    assemblySeqId: string,
    refSeqId: string,
    refStart: int,
    refEnd: int,
    assemblyStart: int,
    assemblyEnd: int,
    lenDiff: int)

  /** Alignments of one assembly, indexed by assembly sequence and by reference sequence. */
  datatype QuastResult = QuastResult(
    inputDir: string,
    inputFileLabel: string,
    assemblySequences: map<string, seq<AlignmentInfo>> := map[],
    referenceSequences: map<string, seq<AlignmentInfo>> := map[])

  /** The completeness literal accepts exactly its three names. */
  lemma CompletenessNames(c: Completeness)
    ensures c.Name() in {"Complete", "Incomplete", "Unknown"}
    ensures c.Name() == "Complete" <==> c == Complete
    ensures c.Name() == "Incomplete" <==> c == Incomplete
  {
  }

  /** A BGC built from its two identifiers alone takes the declared defaults. */
  lemma BgcDefaults(bgcId: string, sequenceId: string)
    ensures var b := Bgc(bgcId, sequenceId);
      b.start == 0 && b.end == 0 && b.completeness == Unknown && b.productTypes == [] && b.metadata == None
  {
  }

  lemma RecordDefaults(inputFile: string, fileLabel: string, tool: string, dir: string)
    ensures GenomeMiningResult(inputFile, fileLabel, tool).bgcs == []
    ensures QuastResult(dir, fileLabel).assemblySequences == map[]
    ensures QuastResult(dir, fileLabel).referenceSequences == map[]
  {
  }
}
