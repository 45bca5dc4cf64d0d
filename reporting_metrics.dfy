/** The report pipeline's registries of grouping keys and metrics, and the functions registered
    in them when the module is loaded. */
module ReportingMetrics {
  import opened Wrappers
  import opened Seqs
  import opened Maps
  import opened Grouping
  import opened OrderedMaps
  import opened GenomeMiningResults
  import Metrics

  /** A grouping-key function; `None` stands for a call that raises. */
  type GroupingFunction = Bgc -> Option<string>

  /** A metric over a group of BGCs; values are exact reals. */
  type MetricFunction = seq<Bgc> -> real

  /** A name-to-function registry. Both registries of the source behave alike and differ only
      in the message of the error for an unknown name, held in `unknownPrefix`. */
  class Registry<F> {
    var functions: OrderedMap<string, F>
    const unknownPrefix: string

    ghost predicate Valid()
      reads this
    {
      functions.Valid()
    }

    constructor(unknownPrefix: string)
      ensures Valid()
      ensures functions == Empty() && this.unknownPrefix == unknownPrefix
    {
      functions := Empty();
      this.unknownPrefix := unknownPrefix;
    }

    /** Registers `f` under `name`; a second registration replaces the function and keeps the
        name's place in the listing. */
    method Register(name: string, f: F)
      requires Valid()
      modifies this
      ensures Valid()
      ensures functions == old(functions).Put(name, f)
      ensures name in functions.entries && functions.entries[name] == f
      ensures forall n :: n != name ==> (n in functions.entries <==> n in old(functions).entries)
      ensures forall n :: n != name && n in functions.entries ==> functions.entries[n] == old(functions).entries[n]
    {
      PutValid(functions, name, f);
      functions := functions.Put(name, f);
    }

    /** The function registered under `name`, or the error for an unknown name. */
    method Get(name: string) returns (r: Result<F>)
      ensures name in functions.entries <==> r.Ok?
      ensures r.Ok? ==> r.value == functions.entries[name]
      ensures r.Err? ==> r.error == unknownPrefix + name
    {
      if name !in functions.entries {
        return Err(unknownPrefix + name);
      }
      return Ok(functions.entries[name]);
    }

    /** The registered names in first-registration order. */
    method List() returns (names: seq<string>)
      requires Valid()
      ensures names == functions.keys
      ensures Distinct(names) && forall n :: n in names <==> n in functions.entries
    {
      names := functions.keys;
    }
  }

  /** Registering the pairs one after another, from an empty registry, lists each name once at
      its first registration and keeps its last function. */
  lemma RegistrationOrder<F>(registrations: seq<(string, F)>)
    ensures FromPairs(registrations).keys == FirstSeen(MapSeq(registrations, PairKey))
    ensures FromPairs(registrations).entries == KeyedBy(registrations, PairKey, PairValue)
    ensures forall i :: 0 <= i < |registrations| ==> registrations[i].0 in FromPairs(registrations).keys
  {
    FromPairsSpec(registrations);
    forall i | 0 <= i < |registrations| ensures registrations[i].0 in FromPairs(registrations).keys {
      assert MapSeq(registrations, PairKey)[i] == registrations[i].0;
      FirstSeenHas(MapSeq(registrations, PairKey), registrations[i].0);
    }
  }

  // Grouping keys

  function ByCompleteness(b: Bgc): string {
    b.completeness.Name()
  }

  function ByProductType(b: Bgc): string {
    if |b.productTypes| == 1 then b.productTypes[0]
    else if |b.productTypes| > 1 then "Hybrid"
    else "Unknown"
  }

  /** Both grouping keys agree with the first engine's, so they follow the same single /
      "Hybrid" / "Unknown" rule. */
  lemma GroupingKeysAgree(b: Bgc)
    ensures ByCompleteness(b) == Metrics.ByCompleteness(b)
    ensures ByProductType(b) == Metrics.ByProductType(b)
    ensures |b.productTypes| > 1 ==> ByProductType(b) == "Hybrid"
    ensures |b.productTypes| == 0 ==> ByProductType(b) == "Unknown"
  {
    Metrics.ProductTypeKeyRule(b);
  }

  // Metrics

  function TotalBgcCount(bgcs: seq<Bgc>): real {
    |bgcs| as real
  }

  /** Mean of `end - start` over the BGCs with `end > start`; 0 for no BGCs or none such. */
  function MeanBgcLength(bgcs: seq<Bgc>): real {
    if |bgcs| == 0 then 0.0
    else
      var lengths := MapSeq(Filter(bgcs, Metrics.HasPositiveLength), Metrics.Length);
      if |lengths| == 0 then 0.0 else Metrics.Mean(lengths)
  }

  /** The metrics agree with the first engine's; the early return for an empty list changes
      nothing. */
  lemma MetricsAgree(bgcs: seq<Bgc>)
    ensures TotalBgcCount(bgcs) == Metrics.TotalCount(bgcs)
    ensures MeanBgcLength(bgcs) == Metrics.MeanLength(bgcs)
    ensures bgcs == [] ==> MeanBgcLength(bgcs) == 0.0
  {
  }

  const GroupingUnknownPrefix := "Unknown grouping key: "
  const MetricUnknownPrefix := "Unknown metric: "

  function Lift(key: Bgc -> string): GroupingFunction {
    b => Some(key(b))
  }

  const LoadedGroupingFunctions: map<string, GroupingFunction> :=
    map["completeness" := Lift(ByCompleteness), "product_type" := Lift(ByProductType)]

  const LoadedMetricFunctions: map<string, MetricFunction> :=
    map["total_bgc_count" := TotalBgcCount, "mean_bgc_length" := MeanBgcLength]

  /** The grouping registry once the module is loaded: the decorators register completeness and
      then product type. */
  method LoadGroupingRegistry() returns (grouping: Registry<GroupingFunction>)
    ensures fresh(grouping) && grouping.Valid()
    ensures grouping.unknownPrefix == GroupingUnknownPrefix
    ensures grouping.functions.keys == ["completeness", "product_type"]
    ensures grouping.functions.entries == LoadedGroupingFunctions
  {
    grouping := new Registry(GroupingUnknownPrefix);
    grouping.Register("completeness", Lift(ByCompleteness));
    grouping.Register("product_type", Lift(ByProductType));
  }

  /** The metric registry once the module is loaded: the total count and then the mean length. */
  method LoadMetricRegistry() returns (metrics: Registry<MetricFunction>)
    ensures fresh(metrics) && metrics.Valid()
    ensures metrics.unknownPrefix == MetricUnknownPrefix
    ensures metrics.functions.keys == ["total_bgc_count", "mean_bgc_length"]
    ensures metrics.functions.entries == LoadedMetricFunctions
  {
    metrics := new Registry(MetricUnknownPrefix);
    metrics.Register("total_bgc_count", TotalBgcCount);
    metrics.Register("mean_bgc_length", MeanBgcLength);
  }
}
