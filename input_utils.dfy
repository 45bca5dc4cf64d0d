/** Helpers over the inputs: mapping product names to BGC classes, deciding the running mode from
    the mining results, and deriving file labels and extensions from paths. */
module InputUtils {
  import opened Wrappers
  import opened Strings
  import opened GenomeMiningResults
  import opened ReportData

  // Product classes

  /** The class of a product, or the product itself when it is not mapped. */
  function ClassOf(productToClass: map<string, string>, product: string): string {
    if product in productToClass then productToClass[product] else product
  }

  /** The classes of the products, each once. */
  function MappedClasses(products: seq<string>, productToClass: map<string, string>): set<string>
    decreases |products|
  {
    if |products| == 0 then {}
    else MappedClasses(products[..|products| - 1], productToClass) + {ClassOf(productToClass, products[|products| - 1])}
  }

  /** A class is listed exactly when some product maps to it; an unmapped product stands for
      itself. */
  lemma {:induction false} MappedClassesSpec(products: seq<string>, productToClass: map<string, string>)
    ensures forall c :: c in MappedClasses(products, productToClass) <==>
      exists i :: 0 <= i < |products| && ClassOf(productToClass, products[i]) == c
    ensures forall i :: 0 <= i < |products| && products[i] !in productToClass ==>
      products[i] in MappedClasses(products, productToClass)
    decreases |products|
  {
    if |products| > 0 {
      var init := products[..|products| - 1];
      MappedClassesSpec(init, productToClass);
      forall i | 0 <= i < |products| && products[i] !in productToClass
        ensures products[i] in MappedClasses(products, productToClass)
      {
        if i < |init| {
          assert init[i] == products[i];
        }
      }
      forall c ensures c in MappedClasses(products, productToClass) <==>
        exists i :: 0 <= i < |products| && ClassOf(productToClass, products[i]) == c
      {
        if c in MappedClasses(init, productToClass) {
          var i :| 0 <= i < |init| && ClassOf(productToClass, init[i]) == c;
          assert products[i] == init[i];
        }
        if exists i :: 0 <= i < |products| && ClassOf(productToClass, products[i]) == c {
          var i :| 0 <= i < |products| && ClassOf(productToClass, products[i]) == c;
          if i < |init| {
            assert init[i] == products[i];
          }
        }
      }
    }
  }

  /** There are never more classes than products. */
  lemma {:induction false} MappedClassesBound(products: seq<string>, productToClass: map<string, string>)
    ensures |MappedClasses(products, productToClass)| <= |products|
    decreases |products|
  {
    if |products| > 0 {
      MappedClassesBound(products[..|products| - 1], productToClass);
    }
  }

  /** The classes of a BGC's products, collected into a set. */
  method MapProducts(products: seq<string>, productToClass: map<string, string>) returns (classes: set<string>)
    ensures classes == MappedClasses(products, productToClass)
  {
    classes := {};
    for i := 0 to |products|
      invariant classes == MappedClasses(products[..i], productToClass)
    {
      assert products[..i + 1][..i] == products[..i];
      classes := classes + {ClassOf(productToClass, products[i])};
    }
    assert products[..|products|] == products;
  }

  /** The product-to-class map of a class-to-products mapping: every product of a class is sent to
      that class, later classes overwriting earlier ones. */
  function ReverseMapping(mapping: seq<(string, seq<string>)>): map<string, string>
    decreases |mapping|
  {
    if |mapping| == 0 then map[]
    else
      var last := mapping[|mapping| - 1];
      ReverseMapping(mapping[..|mapping| - 1]) + map p | p in last.1 :: last.0
  }

  /** A product is mapped exactly when some class lists it, and it is mapped to the last class
      that does. */
  lemma ReverseMappingSpec(mapping: seq<(string, seq<string>)>, p: string)
    ensures p in ReverseMapping(mapping) <==> exists i :: 0 <= i < |mapping| && p in mapping[i].1
    ensures forall i :: 0 <= i < |mapping| && p in mapping[i].1 && (forall k :: i < k < |mapping| ==> p !in mapping[k].1) ==>
      p in ReverseMapping(mapping) && ReverseMapping(mapping)[p] == mapping[i].0
  {
    ReverseMappingDomain(mapping, p);
    forall i | 0 <= i < |mapping| && p in mapping[i].1 && (forall k :: i < k < |mapping| ==> p !in mapping[k].1)
      ensures p in ReverseMapping(mapping) && ReverseMapping(mapping)[p] == mapping[i].0
    {
      ReverseMappingLastWins(mapping, p, i);
    }
  }

  lemma {:induction false} ReverseMappingDomain(mapping: seq<(string, seq<string>)>, p: string)
    ensures p in ReverseMapping(mapping) <==> exists i :: 0 <= i < |mapping| && p in mapping[i].1
    decreases |mapping|
  {
    if |mapping| > 0 {
      var n := |mapping| - 1;
      var init := mapping[..n];
      ReverseMappingDomain(init, p);
      if p in ReverseMapping(init) {
        var i :| 0 <= i < |init| && p in init[i].1;
        assert mapping[i] == init[i];
      }
      if p !in mapping[n].1 && exists i :: 0 <= i < |mapping| && p in mapping[i].1 {
        var i :| 0 <= i < |mapping| && p in mapping[i].1;
        assert init[i] == mapping[i];
      }
    }
  }

  lemma {:induction false} ReverseMappingLastWins(mapping: seq<(string, seq<string>)>, p: string, i: nat)
    requires i < |mapping| && p in mapping[i].1
    requires forall k :: i < k < |mapping| ==> p !in mapping[k].1
    ensures p in ReverseMapping(mapping) && ReverseMapping(mapping)[p] == mapping[i].0
    decreases |mapping|
  {
    var n := |mapping| - 1;
    if i < n {
      var init := mapping[..n];
      assert forall k :: i < k < |init| ==> init[k] == mapping[k];
      ReverseMappingLastWins(init, p, i);
    }
  }

  /** The reverse mapping of a loaded mapping file; an empty file gives the empty map. */
  method LoadReverseMapping(mapping: Option<seq<(string, seq<string>)>>) returns (productToClass: map<string, string>)
    ensures mapping.None? ==> productToClass == map[]
    ensures mapping.Some? ==> productToClass == ReverseMapping(mapping.value)
  {
    if mapping.None? {
      return map[];
    }
    var pairs := mapping.value;
    productToClass := map[];
    for i := 0 to |pairs|
      invariant productToClass == ReverseMapping(pairs[..i])
    {
      var (mainClass, products) := pairs[i];
      productToClass := AssignClass(productToClass, mainClass, products);
      assert pairs[..i + 1][..i] == pairs[..i];
    }
    assert pairs[..|pairs|] == pairs;
  }

  /** The inner loop: every product of one class is sent to that class. */
  method AssignClass(before: map<string, string>, mainClass: string, products: seq<string>)
    returns (productToClass: map<string, string>)
    ensures productToClass == before + map p | p in products :: mainClass
  {
    productToClass := before;
    for j := 0 to |products|
      invariant productToClass == before + map p | p in products[..j] :: mainClass
    {
      assert products[..j + 1] == products[..j] + [products[j]];
      productToClass := productToClass[products[j] := mainClass];
    }
    assert products[..|products|] == products;
  }

  // Running mode

  /** Whether some result was produced by another tool than the first result. */
  predicate DifferentMiningTools(results: seq<GenomeMiningResult>) {
    exists i :: 0 <= i < |results| && results[i].miningTool != results[0].miningTool
  }

  /** Whether some result has another file label than the first result. */
  predicate DifferentFileLabels(results: seq<GenomeMiningResult>) {
    exists i :: 0 <= i < |results| && results[i].inputFileLabel != results[0].inputFileLabel
  }

  /** The running mode: comparison to the reference when there is one and every result comes from
      the same tool; otherwise a comparison of tools (one label) or of samples (one tool, or a
      single result); unknown when both labels and tools differ. */
  function DetermineRunningMode(reference: Option<GenomeMiningResult>, results: seq<GenomeMiningResult>): RunningMode {
    var tools := DifferentMiningTools(results);
    var labels := DifferentFileLabels(results);
    if reference.Some? then (if tools then RunningMode.Unknown else CompareToReference)
    else if labels && tools then RunningMode.Unknown
    else if |results| == 1 || labels then CompareSamples
    else CompareTools
  }

  /** The decision table, each mode with exactly the inputs that lead to it. */
  lemma RunningModeTable(reference: Option<GenomeMiningResult>, results: seq<GenomeMiningResult>)
    ensures DetermineRunningMode(reference, results) == CompareToReference <==>
      reference.Some? && forall i :: 0 <= i < |results| ==> results[i].miningTool == results[0].miningTool
    ensures DetermineRunningMode(reference, results) == RunningMode.Unknown <==>
      (reference.Some? || DifferentFileLabels(results)) && DifferentMiningTools(results)
    ensures DetermineRunningMode(reference, results) == CompareSamples <==>
      reference.None? && !(DifferentFileLabels(results) && DifferentMiningTools(results))
      && (|results| == 1 || DifferentFileLabels(results))
    ensures DetermineRunningMode(reference, results) == CompareTools <==>
      reference.None? && |results| != 1 && !DifferentFileLabels(results)
  {
  }

  /** With one result, the labels and tools cannot differ. */
  lemma SingleResultSameLabels(results: seq<GenomeMiningResult>)
    requires |results| == 1
    ensures !DifferentMiningTools(results) && !DifferentFileLabels(results)
  {
  }

  // File labels and extensions

  const CompressionSuffixes: seq<string> := [".gz", ".bz2", ".bgz", ".zst", ".xz", ".zip", ".bgzf"]

  /** The final component of a path. */
  function Name(path: string): string {
    match LastIndexOf(path, '/')
    case None => path
    case Some(i) => path[i + 1..]
  }

  /** The suffix of a file name: from its last dot, unless that dot starts or ends the name. */
  function Suffix(name: string): string {
    match LastIndexOf(name, '.')
    case None => ""
    case Some(i) => if 0 < i < |name| - 1 then name[i..] else ""
  }

  /** The name without its suffix. */
  function WithoutSuffix(name: string): string {
    name[..|name| - |Suffix(name)|]
  }

  /** A suffix is empty or a dot followed by at least one character and no other dot; the name is
      its stem followed by the suffix, and a stem before a suffix is never empty. */
  lemma SuffixSpec(name: string)
    ensures name == WithoutSuffix(name) + Suffix(name)
    ensures Suffix(name) != "" ==> (|Suffix(name)| >= 2 && Suffix(name)[0] == '.'
      && (forall j :: 1 <= j < |Suffix(name)| ==> Suffix(name)[j] != '.') && |WithoutSuffix(name)| > 0)
    ensures (forall j :: 1 <= j < |name| ==> name[j] != '.') ==> Suffix(name) == ""
  {
  }

  /** The label of a file: its name without one compression suffix (matched case-sensitively) and
      then without one extension; a path that is not an existing file is an error. */
  function FileLabel(path: string, isFile: bool): Result<string> {
    if !isFile then Err("Provided path " + path + " is not a valid file.")
    else
      var name := Name(path);
      var uncompressed := if Suffix(name) in CompressionSuffixes then WithoutSuffix(name) else name;
      Ok(WithoutSuffix(uncompressed))
  }

  /** The lower-cased extension of a file, looking past one compression suffix (matched
      case-insensitively). */
  function BaseExtension(path: string): string {
    var name := Name(path);
    if Lower(Suffix(name)) in CompressionSuffixes then Lower(Suffix(WithoutSuffix(name)))
    else Lower(Suffix(name))
  }

  /** The label is the file name with at most two suffixes removed, the outer one a compression
      suffix whenever two are; a name without an inner dot is its own label; a path that is not a
      file is an error. */
  lemma FileLabelStripsSuffixes(path: string)
    ensures var name := Name(path); var stem := FileLabel(path, true).value;
      || name == stem
      || name == stem + Suffix(name)
      || (Suffix(name) in CompressionSuffixes && name == stem + Suffix(WithoutSuffix(name)) + Suffix(name))
    ensures var name := Name(path);
      (forall j :: 1 <= j < |name| ==> name[j] != '.') ==> FileLabel(path, true) == Ok(name)
    ensures FileLabel(path, false).Err?
  {
    var name := Name(path);
    SuffixSpec(name);
    SuffixSpec(WithoutSuffix(name));
    if forall j :: 1 <= j < |name| ==> name[j] != '.' {
      assert "" !in CompressionSuffixes;
      assert WithoutSuffix(name) == name;
    }
  }

  /** The extension is always in lower case. */
  lemma BaseExtensionLowerCase(path: string)
    ensures Lower(BaseExtension(path)) == BaseExtension(path)
  {
    var name := Name(path);
    if Lower(Suffix(name)) in CompressionSuffixes {
      LowerIdempotent(Suffix(WithoutSuffix(name)));
    } else {
      LowerIdempotent(Suffix(name));
    }
  }

  /** The suffix starting at the last dot `i` of a name, when that dot neither starts nor ends it. */
  lemma SuffixAt(name: string, i: nat)
    requires 0 < i < |name| - 1 && name[i] == '.'
    requires forall j :: i < j < |name| ==> name[j] != '.'
    ensures Suffix(name) == name[i..] && WithoutSuffix(name) == name[..i]
  {
  }

  /** A path without a slash is its own file name. */
  lemma NameWithoutSlash(path: string)
    requires forall j :: 0 <= j < |path| ==> path[j] != '/'
    ensures Name(path) == path
  {
  }

  /** A name whose last suffix, at `i`, is a compression suffix and whose inner suffix starts at
      `k` is labelled with what comes before `k`. */
  lemma CompressedLabel(name: string, k: nat, i: nat)
    requires forall j :: 0 <= j < |name| ==> name[j] != '/'
    requires 0 < k < i - 1 && i < |name| - 1 && name[k] == '.' && name[i] == '.'
    requires forall j :: k < j < |name| && j != i ==> name[j] != '.'
    requires name[i..] in CompressionSuffixes
    ensures FileLabel(name, true) == Ok(name[..k])
  {
    NameWithoutSlash(name);
    SuffixAt(name, i);
    SuffixAt(name[..i], k);
    assert name[..i][..k] == name[..k];
  }

  /** A name whose last suffix, at `i`, is not a compression suffix loses only that suffix. */
  lemma PlainLabel(name: string, i: nat)
    requires forall j :: 0 <= j < |name| ==> name[j] != '/'
    requires 0 < i < |name| - 1 && name[i] == '.'
    requires forall j :: i < j < |name| ==> name[j] != '.'
    requires name[i..] !in CompressionSuffixes
    ensures FileLabel(name, true) == Ok(name[..i])
  {
    NameWithoutSlash(name);
    SuffixAt(name, i);
  }

  /** A compression suffix in upper case is not recognised for the label, so only it is removed,
      while the extension looks past it: the two operations disagree on such names. */
  lemma SuffixCaseDisagreement(path: string)
    requires Suffix(Name(path)) !in CompressionSuffixes
    requires Lower(Suffix(Name(path))) in CompressionSuffixes
    ensures FileLabel(path, true) == Ok(WithoutSuffix(WithoutSuffix(Name(path))) + Suffix(WithoutSuffix(Name(path))))
    ensures BaseExtension(path) == Lower(Suffix(WithoutSuffix(Name(path))))
  {
    SuffixSpec(WithoutSuffix(Name(path)));
  }
}
