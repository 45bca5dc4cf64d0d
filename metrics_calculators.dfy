/** The report pipeline's metric calculators: for every grouping combination and every genome-mining
    result, each configured metric over each group of the result's BGCs. */
module MetricsCalculators {
  import opened Wrappers
  import opened Seqs
  import opened Maps
  import opened Grouping
  import opened OrderedMaps
  import opened GenomeMiningResults
  import opened ReportingMetrics
  import opened ReportConfigs
  import opened ReportData

  const UnknownValue := "unknown"

  // Grouping combinations

  function Singleton(d: string): seq<string> {
    [d]
  }

  /** Whether every dimension of a combination is configured. */
  function AllConfigured(dims: seq<string>): seq<string> -> bool {
    combo => forall d :: d in combo ==> d in dims
  }

  /** The combinations to compute: no grouping, each configured dimension alone in configuration
      order, then the configured combinations whose dimensions are all configured. */
  function GroupingCombinations(config: ReportConfig): seq<seq<string>> {
    var dims := config.groupingDimensions.keys;
    [[]] + MapSeq(dims, Singleton) + Filter(config.groupingCombinations, AllConfigured(dims))
  }

  /** The combinations start with the empty one and the single dimensions in order; every
      combination uses configured dimensions only, and every configured combination that does is
      computed. */
  lemma GroupingCombinationsSpec(config: ReportConfig)
    ensures var cs := GroupingCombinations(config); var dims := config.groupingDimensions.keys;
      && |cs| >= 1 + |dims| && cs[0] == []
      && (forall i :: 0 <= i < |dims| ==> cs[1 + i] == [dims[i]])
      && (forall i :: 1 + |dims| <= i < |cs| ==> cs[i] in config.groupingCombinations)
      && (forall c :: c in cs ==> forall d :: d in c ==> d in dims)
      && (forall c :: c in config.groupingCombinations && (forall d :: d in c ==> d in dims) ==> c in cs)
  {
    var dims := config.groupingDimensions.keys;
    var cs := GroupingCombinations(config);
    var kept := Filter(config.groupingCombinations, AllConfigured(dims));
    FilterMembers(config.groupingCombinations, AllConfigured(dims));
    forall i | 1 + |dims| <= i < |cs| ensures cs[i] in config.groupingCombinations && AllConfigured(dims)(cs[i]) {
      assert cs[i] == kept[i - 1 - |dims|];
    }
    forall c | c in cs ensures forall d :: d in c ==> d in dims {
      var i :| 0 <= i < |cs| && cs[i] == c;
      if 1 + |dims| <= i {
        assert AllConfigured(dims)(cs[i]);
      } else if i > 0 {
        assert c == [dims[i - 1]];
      }
    }
    forall c | c in config.groupingCombinations && (forall d :: d in c ==> d in dims) ensures c in cs {
      var i :| 0 <= i < |config.groupingCombinations| && config.groupingCombinations[i] == c;
      assert AllConfigured(dims)(config.groupingCombinations[i]);
      var j :| 0 <= j < |kept| && kept[j] == c;
      assert cs[1 + |dims| + j] == c;
    }
  }

  // Grouping keys

  /** The values of the grouping functions on a BGC, in order; `None` once one of them raises. */
  function KeyValues(funcs: seq<GroupingFunction>, b: Bgc): Option<seq<string>>
    decreases |funcs|
  {
    if |funcs| == 0 then Some([])
    else
      match KeyValues(funcs[..|funcs| - 1], b)
      case None => None
      case Some(vs) =>
        match funcs[|funcs| - 1](b)
        case None => None
        case Some(v) => Some(vs + [v])
  }

  function UnknownKey(n: nat): seq<string> {
    seq(n, _ => UnknownValue)
  }

  /** The key a BGC is grouped under. */
  function KeyOf(funcs: seq<GroupingFunction>): Bgc -> seq<string> {
    b => match KeyValues(funcs, b) case Some(vs) => vs case None => UnknownKey(|funcs|)
  }

  lemma {:induction false} KeyValuesSpec(funcs: seq<GroupingFunction>, b: Bgc)
    ensures KeyValues(funcs, b).Some? <==> forall i :: 0 <= i < |funcs| ==> funcs[i](b).Some?
    ensures KeyValues(funcs, b).Some? ==> |KeyValues(funcs, b).value| == |funcs|
    ensures KeyValues(funcs, b).Some? ==> forall i :: 0 <= i < |funcs| ==> KeyValues(funcs, b).value[i] == funcs[i](b).value
    decreases |funcs|
  {
    if |funcs| > 0 {
      var init := funcs[..|funcs| - 1];
      KeyValuesSpec(init, b);
      assert forall i :: 0 <= i < |init| ==> init[i] == funcs[i];
    }
  }

  /** A BGC's key is the tuple of its grouping values, one per function, or "unknown" in every
      position when a grouping function raises. */
  lemma KeyOfSpec(funcs: seq<GroupingFunction>, b: Bgc)
    ensures |KeyOf(funcs)(b)| == |funcs|
    ensures (forall i :: 0 <= i < |funcs| ==> funcs[i](b).Some?) ==>
      forall i :: 0 <= i < |funcs| ==> KeyOf(funcs)(b)[i] == funcs[i](b).value
    ensures (exists i :: 0 <= i < |funcs| && funcs[i](b).None?) ==>
      forall i :: 0 <= i < |funcs| ==> KeyOf(funcs)(b)[i] == UnknownValue
  {
    KeyValuesSpec(funcs, b);
  }

  /** The groups of the BGCs: with no grouping function every BGC, even none, is under the empty
      key; otherwise the BGCs are grouped by key, the keys in order of first occurrence. */
  function Grouped(bgcs: seq<Bgc>, funcs: seq<GroupingFunction>): OrderedMap<seq<string>, seq<Bgc>> {
    if |funcs| == 0 then OrderedMap([[]], map[[] := bgcs])
    else
      var ks := KeysOf(bgcs, KeyOf(funcs));
      OrderedMap(ks, map k | k in ks :: GroupOf(bgcs, KeyOf(funcs), k))
  }

  /** The groups partition the BGCs: each BGC is in the group of its own key, each group holds
      only BGCs of its key in list order, no group is empty unless there are no grouping
      functions, and the group sizes add up to the number of BGCs. */
  lemma GroupedPartition(bgcs: seq<Bgc>, funcs: seq<GroupingFunction>)
    requires |funcs| > 0
    ensures Grouped(bgcs, funcs).Valid()
    ensures forall i :: 0 <= i < |bgcs| ==> (KeyOf(funcs)(bgcs[i]) in Grouped(bgcs, funcs).entries
      && bgcs[i] in Grouped(bgcs, funcs).entries[KeyOf(funcs)(bgcs[i])])
    ensures forall k :: k in Grouped(bgcs, funcs).entries ==> (|Grouped(bgcs, funcs).entries[k]| > 0
      && Grouped(bgcs, funcs).entries[k] == Filter(bgcs, HasKey(KeyOf(funcs), k)))
    ensures SizeSum(bgcs, KeyOf(funcs), Grouped(bgcs, funcs).keys) == |bgcs|
  {
    var key := KeyOf(funcs);
    GroupsPartition(bgcs, key);
    GroupSizesAddUp(bgcs, key);
    forall i | 0 <= i < |bgcs| ensures key(bgcs[i]) in KeysOf(bgcs, key) {
      assert exists j :: 0 <= j < |bgcs| && key(bgcs[j]) == key(bgcs[i]);
    }
  }

  // Looking up the grouping functions

  function Raising(): GroupingFunction {
    b => None
  }

  function LookupPair(g: map<string, GroupingFunction>): string -> (string, GroupingFunction) {
    d => (d, if d in g then g[d] else Raising())
  }

  /** The values of `{dim: registry.get(dim) for dim in dims}` once every dimension is known. */
  function FuncsFor(g: map<string, GroupingFunction>, dims: seq<string>): seq<GroupingFunction> {
    var pairs := MapSeq(dims, LookupPair(g));
    FromPairsSpec(pairs);
    FromPairs(pairs).Values()
  }

  lemma {:induction false} LookupKeepsFunction(g: map<string, GroupingFunction>, dims: seq<string>, d: string)
    requires d in g
    requires d in KeyedBy(MapSeq(dims, LookupPair(g)), PairKey, PairValue)
    ensures KeyedBy(MapSeq(dims, LookupPair(g)), PairKey, PairValue)[d] == g[d]
    decreases |dims|
  {
    var n := |dims|;
    if n > 0 {
      var init := dims[..n - 1];
      MapSeqSnoc(init, dims[n - 1], LookupPair(g));
      assert dims == init + [dims[n - 1]];
      KeyedBySnoc(MapSeq(init, LookupPair(g)), LookupPair(g)(dims[n - 1]), PairKey, PairValue);
      if d != dims[n - 1] {
        LookupKeepsFunction(g, init, d);
      }
    }
  }

  /** One grouping function per distinct dimension, in order of first mention, each the one
      registered under its dimension. */
  lemma FuncsForSpec(g: map<string, GroupingFunction>, dims: seq<string>)
    requires forall i :: 0 <= i < |dims| ==> dims[i] in g
    ensures |FuncsFor(g, dims)| == |FirstSeen(dims)|
    ensures forall i :: 0 <= i < |FirstSeen(dims)| ==> FirstSeen(dims)[i] in g && FuncsFor(g, dims)[i] == g[FirstSeen(dims)[i]]
  {
    var pairs := MapSeq(dims, LookupPair(g));
    FromPairsSpec(pairs);
    assert MapSeq(pairs, PairKey) == dims;
    var d := FromPairs(pairs);
    forall i | 0 <= i < |FirstSeen(dims)| ensures FirstSeen(dims)[i] in g && FuncsFor(g, dims)[i] == g[FirstSeen(dims)[i]] {
      var k := FirstSeen(dims)[i];
      FirstSeenHas(dims, k);
      assert k in d.entries;
      LookupKeepsFunction(g, dims, k);
    }
  }

  /** The index of the first name missing from `m`, if any. */
  function FirstMissing<V>(xs: seq<string>, m: map<string, V>): (r: Option<nat>)
    ensures r.None? <==> forall i :: 0 <= i < |xs| ==> xs[i] in m
    ensures r.Some? ==> r.value < |xs| && xs[r.value] !in m && forall j :: 0 <= j < r.value ==> xs[j] in m
    decreases |xs|
  {
    if |xs| == 0 then None
    else if xs[0] !in m then Some(0)
    else
      match FirstMissing(xs[1..], m)
      case None => None
      case Some(j) => Some(j + 1)
  }

  /** A name missing from `m` after names that are all present is the first missing one. */
  lemma FirstMissingAt<V>(xs: seq<string>, m: map<string, V>, i: nat)
    requires i < |xs| && xs[i] !in m
    requires forall j :: 0 <= j < i ==> xs[j] in m
    ensures FirstMissing(xs, m) == Some(i)
  {
    var r := FirstMissing(xs, m);
    assert r.Some?;
  }

  /** One more looked-up dimension assigns its function into the dictionary built so far. */
  lemma LookupStep(g: map<string, GroupingFunction>, dims: seq<string>, i: nat)
    requires i < |dims| && dims[i] in g
    ensures FromPairs(MapSeq(dims[..i + 1], LookupPair(g)))
      == FromPairs(MapSeq(dims[..i], LookupPair(g))).Put(dims[i], g[dims[i]])
  {
    var pairs := MapSeq(dims[..i + 1], LookupPair(g));
    MapSeqPrefix(dims, i, LookupPair(g));
    assert pairs[..i] == MapSeq(dims[..i], LookupPair(g));
  }

  // The metric values of one result under one combination

  function MetricOf(m: map<string, MetricFunction>, name: string): MetricFunction {
    if name in m then m[name] else TotalBgcCount
  }

  function GroupAt(grouped: OrderedMap<seq<string>, seq<Bgc>>, key: seq<string>): seq<Bgc> {
    if key in grouped.entries then grouped.entries[key] else []
  }

  /** The metric value of one metric over one group, tagged with the grouping values. */
  function RowOf(m: map<string, MetricFunction>, group: seq<Bgc>, inputFile: string, key: seq<string>, dims: seq<string>): string -> MetricValue {
    name => MetricValue(inputFile, name, MetricOf(m, name)(group), FromPairs(Zip(dims, key)))
  }

  function GroupRows(m: map<string, MetricFunction>, grouped: OrderedMap<seq<string>, seq<Bgc>>, inputFile: string,
      names: seq<string>, dims: seq<string>): seq<string> -> seq<MetricValue> {
    key => MapSeq(names, RowOf(m, GroupAt(grouped, key), inputFile, key, dims))
  }

  /** The metric rows of the groups, or the error of the first unknown metric if there is a group. */
  function RowsForGroups(m: map<string, MetricFunction>, grouped: OrderedMap<seq<string>, seq<Bgc>>, inputFile: string,
      names: seq<string>, dims: seq<string>): Result<seq<MetricValue>> {
    if |grouped.keys| > 0 && FirstMissing(names, m).Some? then Err(MetricUnknownPrefix + names[FirstMissing(names, m).value])
    else Ok(Concat(MapSeq(grouped.keys, GroupRows(m, grouped, inputFile, names, dims))))
  }

  /** One result under one combination: an unknown dimension raises first; then every group gets
      one value per metric name, an unknown metric raising once there is a group. */
  function MetricsForBgcs(g: map<string, GroupingFunction>, m: map<string, MetricFunction>,
      bgcs: seq<Bgc>, inputFile: string, names: seq<string>, dims: seq<string>): Result<seq<MetricValue>> {
    match FirstMissing(dims, g)
    case Some(i) => Err(GroupingUnknownPrefix + dims[i])
    case None => RowsForGroups(m, Grouped(bgcs, FuncsFor(g, dims)), inputFile, names, dims)
  }

  /** What one result contributes: its values, or nothing when computing them raised. */
  function ResultMetrics(g: map<string, GroupingFunction>, m: map<string, MetricFunction>,
      names: seq<string>, dims: seq<string>): GenomeMiningResult -> seq<MetricValue> {
    (res: GenomeMiningResult) => match MetricsForBgcs(g, m, res.bgcs, res.inputFile, names, dims) case Ok(v) => v case Err(_) => []
  }

  function CombinationMetrics(g: map<string, GroupingFunction>, m: map<string, MetricFunction>,
      results: seq<GenomeMiningResult>, names: seq<string>): seq<string> -> seq<MetricValue> {
    dims => Concat(MapSeq(results, ResultMetrics(g, m, names, dims)))
  }

  /** All metric values: combinations outermost, results inside. */
  function AllMetrics(g: map<string, GroupingFunction>, m: map<string, MetricFunction>,
      results: seq<GenomeMiningResult>, config: ReportConfig): seq<MetricValue> {
    Concat(MapSeq(GroupingCombinations(config), CombinationMetrics(g, m, results, MapSeq(config.metrics, MetricName))))
  }

  /** The total grouping has a single group, all the BGCs, and one value per metric over it with
      an empty grouping. */
  lemma TotalGroupingIsWhole(g: map<string, GroupingFunction>, m: map<string, MetricFunction>,
      bgcs: seq<Bgc>, inputFile: string, names: seq<string>)
    requires forall i :: 0 <= i < |names| ==> names[i] in m
    ensures MetricsForBgcs(g, m, bgcs, inputFile, names, []).Ok?
    ensures |MetricsForBgcs(g, m, bgcs, inputFile, names, []).value| == |names|
    ensures forall i :: 0 <= i < |names| ==>
      MetricsForBgcs(g, m, bgcs, inputFile, names, []).value[i] == MetricValue(inputFile, names[i], m[names[i]](bgcs), Empty())
  {
    var pairs := MapSeq([], LookupPair(g));
    assert FromPairs(pairs) == Empty();
    assert FuncsFor(g, []) == [];
    var grouped := Grouped(bgcs, []);
    assert grouped.keys == [[]];
    var row := RowOf(m, bgcs, inputFile, [], []);
    var rows := MapSeq(grouped.keys, GroupRows(m, grouped, inputFile, names, []));
    assert rows[0] == MapSeq(names, row);
    assert Concat(rows) == rows[0];
    assert FromPairs(Zip([], [])) == Empty<string, string>();
    forall i | 0 <= i < |names|
      ensures MapSeq(names, row)[i] == MetricValue(inputFile, names[i], m[names[i]](bgcs), Empty())
    {
      assert MetricOf(m, names[i]) == m[names[i]];
    }
  }

  /** An unknown dimension ends the computation for the result, naming the first unknown one. */
  lemma UnknownDimensionRaises(g: map<string, GroupingFunction>, m: map<string, MetricFunction>,
      bgcs: seq<Bgc>, inputFile: string, names: seq<string>, dims: seq<string>, i: nat)
    requires i < |dims| && dims[i] !in g
    requires forall j :: 0 <= j < i ==> dims[j] in g
    ensures MetricsForBgcs(g, m, bgcs, inputFile, names, dims) == Err(GroupingUnknownPrefix + dims[i])
  {
    var r := FirstMissing(dims, g);
    assert r.Some?;
    assert r.value == i;
  }

  /** The rows of the groups: one per group and metric name, each for the file and one of the
      names, grouped by one of the group keys. */
  lemma {:induction false} GroupRowsShape(m: map<string, MetricFunction>, grouped: OrderedMap<seq<string>, seq<Bgc>>,
      inputFile: string, names: seq<string>, dims: seq<string>)
    ensures |Concat(MapSeq(grouped.keys, GroupRows(m, grouped, inputFile, names, dims)))| == |grouped.keys| * |names|
    ensures forall v :: v in Concat(MapSeq(grouped.keys, GroupRows(m, grouped, inputFile, names, dims))) ==>
      v.filePath == inputFile && v.metricName in names
      && exists i :: 0 <= i < |grouped.keys| && v.grouping == FromPairs(Zip(dims, grouped.keys[i]))
  {
    var rows := MapSeq(grouped.keys, GroupRows(m, grouped, inputFile, names, dims));
    ConcatUniformLength(rows, |names|);
    forall v: MetricValue | v in Concat(rows)
      ensures v.filePath == inputFile && v.metricName in names
      ensures exists i :: 0 <= i < |grouped.keys| && v.grouping == FromPairs(Zip(dims, grouped.keys[i]))
    {
      ConcatMember(rows, v);
      var i :| 0 <= i < |rows| && v in rows[i];
      var j :| 0 <= j < |names| && rows[i][j] == v;
      assert v == RowOf(m, GroupAt(grouped, grouped.keys[i]), inputFile, grouped.keys[i], dims)(names[j]);
    }
  }

  /** With every dimension and metric registered, a result gets exactly one value per group and
      metric, each for its file and one of the metrics. */
  lemma MetricsCount(g: map<string, GroupingFunction>, m: map<string, MetricFunction>,
      bgcs: seq<Bgc>, inputFile: string, names: seq<string>, dims: seq<string>)
    requires forall i :: 0 <= i < |dims| ==> dims[i] in g
    requires forall i :: 0 <= i < |names| ==> names[i] in m
    ensures MetricsForBgcs(g, m, bgcs, inputFile, names, dims).Ok?
    ensures |MetricsForBgcs(g, m, bgcs, inputFile, names, dims).value| == |Grouped(bgcs, FuncsFor(g, dims)).keys| * |names|
    ensures forall v :: v in MetricsForBgcs(g, m, bgcs, inputFile, names, dims).value ==>
      v.filePath == inputFile && v.metricName in names
  {
    GroupRowsShape(m, Grouped(bgcs, FuncsFor(g, dims)), inputFile, names, dims);
  }

  /** With no BGCs, a combination of at least one registered dimension yields nothing. */
  lemma NoBgcsNoGroups(g: map<string, GroupingFunction>, m: map<string, MetricFunction>,
      inputFile: string, names: seq<string>, dims: seq<string>)
    requires |dims| > 0
    requires forall i :: 0 <= i < |dims| ==> dims[i] in g
    ensures MetricsForBgcs(g, m, [], inputFile, names, dims) == Ok([])
  {
    FuncsForSpec(g, dims);
    FirstSeenHas(dims, dims[0]);
    assert |FuncsFor(g, dims)| > 0;
  }

  /** Each value's grouping has exactly the combination's dimensions as keys, in order, when the
      combination names each registered dimension once; it is empty for the total grouping. */
  lemma RowGroupings(g: map<string, GroupingFunction>, m: map<string, MetricFunction>,
      bgcs: seq<Bgc>, inputFile: string, names: seq<string>, dims: seq<string>)
    requires Distinct(dims)
    requires forall i :: 0 <= i < |dims| ==> dims[i] in g
    requires forall i :: 0 <= i < |names| ==> names[i] in m
    ensures forall v :: v in MetricsForBgcs(g, m, bgcs, inputFile, names, dims).value ==> v.grouping.keys == dims
  {
    var funcs := FuncsFor(g, dims);
    var grouped := Grouped(bgcs, funcs);
    FuncsForSpec(g, dims);
    FirstSeenOfDistinct(dims);
    GroupRowsShape(m, grouped, inputFile, names, dims);
    forall i | 0 <= i < |grouped.keys| ensures FromPairs(Zip(dims, grouped.keys[i])).keys == dims {
      KeyLength(bgcs, funcs, grouped.keys[i]);
      ZipKeys(dims, grouped.keys[i]);
    }
  }

  /** Zipping distinct dimensions with a key of the same length gives a map listing the
      dimensions in order. */
  lemma ZipKeys(dims: seq<string>, key: seq<string>)
    requires Distinct(dims) && |key| == |dims|
    ensures FromPairs(Zip(dims, key)).keys == dims
  {
    var zipped := Zip(dims, key);
    FromPairsSpec(zipped);
    assert MapSeq(zipped, PairKey) == dims;
    FirstSeenOfDistinct(dims);
  }

  /** Only one result: the combination's values are that result's. */
  lemma SingleResult(g: map<string, GroupingFunction>, m: map<string, MetricFunction>,
      res: GenomeMiningResult, names: seq<string>, dims: seq<string>)
    ensures CombinationMetrics(g, m, [res], names)(dims) == ResultMetrics(g, m, names, dims)(res)
  {
    var parts := MapSeq([res], ResultMetrics(g, m, names, dims));
    assert parts[..0] == [];
    assert Concat(parts) == Concat(parts[..0]) + parts[0];
  }

  /** A result without BGCs gets nothing from a combination after the first. */
  lemma NoBgcsGroupedCombination(g: map<string, GroupingFunction>, m: map<string, MetricFunction>,
      res: GenomeMiningResult, config: ReportConfig, i: nat)
    requires res.bgcs == []
    requires forall i :: 0 <= i < |config.groupingDimensions.keys| ==> config.groupingDimensions.keys[i] in g
    requires forall i :: 0 <= i < |config.groupingCombinations| ==> |config.groupingCombinations[i]| > 0
    requires 1 <= i < |GroupingCombinations(config)|
    ensures CombinationMetrics(g, m, [res], MapSeq(config.metrics, MetricName))(GroupingCombinations(config)[i]) == []
  {
    var names := MapSeq(config.metrics, MetricName);
    var dims := config.groupingDimensions.keys;
    var cs := GroupingCombinations(config);
    GroupingCombinationsSpec(config);
    assert cs[i] in cs;
    if i <= |dims| {
      assert cs[i] == [dims[i - 1]];
    } else {
      assert cs[i] in config.groupingCombinations;
    }
    forall j | 0 <= j < |cs[i]| ensures cs[i][j] in g {
      assert cs[i][j] in dims;
    }
    NoBgcsNoGroups(g, m, res.inputFile, names, cs[i]);
    SingleResult(g, m, res, names, cs[i]);
  }

  /** A result without BGCs contributes exactly the ungrouped values, one per configured metric
      over the empty list, when its metrics and dimensions are registered and every configured
      combination names at least one dimension. */
  lemma NoBgcsOnlyTotals(g: map<string, GroupingFunction>, m: map<string, MetricFunction>,
      res: GenomeMiningResult, config: ReportConfig)
    requires res.bgcs == []
    requires forall i :: 0 <= i < |config.metrics| ==> config.metrics[i].name in m
    requires forall i :: 0 <= i < |config.groupingDimensions.keys| ==> config.groupingDimensions.keys[i] in g
    requires forall i :: 0 <= i < |config.groupingCombinations| ==> |config.groupingCombinations[i]| > 0
    ensures |AllMetrics(g, m, [res], config)| == |config.metrics|
    ensures forall i :: 0 <= i < |config.metrics| ==>
      (AllMetrics(g, m, [res], config)[i]
       == MetricValue(res.inputFile, config.metrics[i].name, m[config.metrics[i].name]([]), Empty()))
  {
    var names := MapSeq(config.metrics, MetricName);
    assert forall i :: 0 <= i < |names| ==> names[i] == config.metrics[i].name;
    var cs := GroupingCombinations(config);
    var parts := MapSeq(cs, CombinationMetrics(g, m, [res], names));
    forall i | 1 <= i < |cs| ensures |parts[i]| == 0 {
      NoBgcsGroupedCombination(g, m, res, config, i);
    }
    OnlyFirstPart(parts);
    TotalGroupingIsWhole(g, m, [], res.inputFile, names);
    SingleResult(g, m, res, names, []);
  }

  lemma OnlyFirstPart<T>(parts: seq<seq<T>>)
    requires |parts| > 0
    requires forall i :: 1 <= i < |parts| ==> |parts[i]| == 0
    ensures Concat(parts) == parts[0]
  {
    ConcatFront(parts);
    ConcatUniformLength(parts[1..], 0);
  }

  /** One result without BGCs, the registered metrics and both dimensions, alone and combined:
      only the ungrouped values remain, both zero. */
  lemma NoBgcsExample()
    ensures AllMetrics(LoadedGroupingFunctions, LoadedMetricFunctions, [SampleResult], SampleConfig)
      == [MetricValue("sample.gbk", "total_bgc_count", 0.0), MetricValue("sample.gbk", "mean_bgc_length", 0.0)]
  {
    var metrics := SampleConfig.metrics;
    assert metrics[0].name == "total_bgc_count" && metrics[1].name == "mean_bgc_length";
    NoBgcsTwoMetrics(LoadedGroupingFunctions, LoadedMetricFunctions, SampleResult, SampleConfig);
    assert LoadedMetricFunctions["total_bgc_count"]([]) == 0.0;
    assert LoadedMetricFunctions["mean_bgc_length"]([]) == 0.0;
  }

  lemma NoBgcsTwoMetrics(g: map<string, GroupingFunction>, m: map<string, MetricFunction>,
      res: GenomeMiningResult, config: ReportConfig)
    requires res.bgcs == [] && |config.metrics| == 2
    requires forall i :: 0 <= i < |config.metrics| ==> config.metrics[i].name in m
    requires forall i :: 0 <= i < |config.groupingDimensions.keys| ==> config.groupingDimensions.keys[i] in g
    requires forall i :: 0 <= i < |config.groupingCombinations| ==> |config.groupingCombinations[i]| > 0
    ensures AllMetrics(g, m, [res], config)
      == [MetricValue(res.inputFile, config.metrics[0].name, m[config.metrics[0].name]([])),
          MetricValue(res.inputFile, config.metrics[1].name, m[config.metrics[1].name]([]))]
  {
    NoBgcsOnlyTotals(g, m, res, config);
    var r := AllMetrics(g, m, [res], config);
    TwoElements(r, r[0], r[1]);
  }

  const SampleResult := GenomeMiningResult("sample.gbk", "sample", "antiSMASH")

  const SampleConfig := ReportConfig(
    [MetricConfig("total_bgc_count", "Total BGCs"), MetricConfig("mean_bgc_length", "Mean BGC length")],
    OrderedMap(["product_type", "completeness"],
      map["product_type" := GroupingDimensionConfig(), "completeness" := GroupingDimensionConfig()]),
    [["product_type", "completeness"]])

  /** Every group key has one position per grouping function. */
  lemma KeyLength(bgcs: seq<Bgc>, funcs: seq<GroupingFunction>, key: seq<string>)
    requires key in Grouped(bgcs, funcs).keys
    ensures |key| == |funcs|
  {
    if |funcs| > 0 {
      GroupsPartition(bgcs, KeyOf(funcs));
      var i :| 0 <= i < |bgcs| && KeyOf(funcs)(bgcs[i]) == key;
      KeyOfSpec(funcs, bgcs[i]);
    }
  }

  /** Computes the configured metrics of the results; the registries are the module-level ones. */
  class BasicMetricsCalculator {
    const results: seq<GenomeMiningResult>
    const config: ReportConfig
    const metricNames: seq<string>
    const groupingRegistry: Registry<GroupingFunction>
    const metricRegistry: Registry<MetricFunction>

    /** The registries are the module-level ones, recognised by their error messages. */
    predicate UsesModuleRegistries() {
      groupingRegistry.unknownPrefix == GroupingUnknownPrefix && metricRegistry.unknownPrefix == MetricUnknownPrefix
    }

    constructor(results: seq<GenomeMiningResult>, config: ReportConfig,
        groupingRegistry: Registry<GroupingFunction>, metricRegistry: Registry<MetricFunction>)
      requires groupingRegistry.unknownPrefix == GroupingUnknownPrefix && metricRegistry.unknownPrefix == MetricUnknownPrefix
      ensures UsesModuleRegistries()
      ensures this.results == results && this.config == config
      ensures this.groupingRegistry == groupingRegistry && this.metricRegistry == metricRegistry
      ensures metricNames == MapSeq(config.metrics, MetricName)
    {
      this.results := results;
      this.config := config;
      this.groupingRegistry := groupingRegistry;
      this.metricRegistry := metricRegistry;
      metricNames := MapSeq(config.metrics, MetricName);
    }

    /** Every combination, every result; a result whose computation raises is skipped. */
    method CalculateMetrics() returns (all: seq<MetricValue>)
      requires UsesModuleRegistries()
      ensures all == AllMetrics(groupingRegistry.functions.entries, metricRegistry.functions.entries, results, config)
    {
      var names := MapSeq(config.metrics, MetricName);
      var combinations := GenerateGroupingCombinations(config);
      var perCombination := CombinationMetrics(groupingRegistry.functions.entries, metricRegistry.functions.entries, results, names);
      all := [];
      for c := 0 to |combinations|
        invariant all == Concat(MapSeq(combinations[..c], perCombination))
      {
        var values := MetricsForCombination(names, combinations[c]);
        ConcatSnocStep(combinations, c, perCombination);
        all := all + values;
      }
      assert combinations[..|combinations|] == combinations;
    }

    /** The inner loop over the results for one combination. */
    method MetricsForCombination(names: seq<string>, dims: seq<string>) returns (all: seq<MetricValue>)
      requires UsesModuleRegistries()
      ensures all == CombinationMetrics(groupingRegistry.functions.entries, metricRegistry.functions.entries, results, names)(dims)
    {
      var perResult := ResultMetrics(groupingRegistry.functions.entries, metricRegistry.functions.entries, names, dims);
      all := [];
      for k := 0 to |results|
        invariant all == Concat(MapSeq(results[..k], perResult))
      {
        var r := CalculateAllMetricsForBgcs(results[k].bgcs, results[k].inputFile, names, dims);
        assert MapSeq(results[..k + 1], perResult)[..k] == MapSeq(results[..k], perResult);
        if r.Ok? {
          all := all + r.value;
        }
      }
      assert results[..|results|] == results;
    }

    /** The metric values of one result under one combination, or the error that ends them. */
    method CalculateAllMetricsForBgcs(bgcs: seq<Bgc>, inputFile: string, names: seq<string>, dims: seq<string>)
      returns (r: Result<seq<MetricValue>>)
      requires UsesModuleRegistries()
      ensures r == MetricsForBgcs(groupingRegistry.functions.entries, metricRegistry.functions.entries, bgcs, inputFile, names, dims)
    {
      var funcs := LookupGroupingFunctions(dims);
      if funcs.Err? {
        return Err(funcs.error);
      }
      var grouped := GroupBgcs(bgcs, funcs.value);
      GroupedValid(bgcs, funcs.value);
      r := MetricRows(grouped, inputFile, names, dims);
    }

    /** The grouping functions of the dimensions, one per distinct dimension; the first unknown
        dimension raises. */
    method LookupGroupingFunctions(dims: seq<string>) returns (r: Result<seq<GroupingFunction>>)
      requires UsesModuleRegistries()
      ensures FirstMissing(dims, groupingRegistry.functions.entries).Some? ==>
        r == Err(GroupingUnknownPrefix + dims[FirstMissing(dims, groupingRegistry.functions.entries).value])
      ensures FirstMissing(dims, groupingRegistry.functions.entries).None? ==>
        r == Ok(FuncsFor(groupingRegistry.functions.entries, dims))
    {
      var g := groupingRegistry.functions.entries;
      var funcs: OrderedMap<string, GroupingFunction> := Empty();
      for i := 0 to |dims|
        invariant funcs == FromPairs(MapSeq(dims[..i], LookupPair(g)))
        invariant forall j :: 0 <= j < i ==> dims[j] in g
      {
        var f := groupingRegistry.Get(dims[i]);
        if f.Err? {
          FirstMissingAt(dims, g, i);
          return Err(f.error);
        }
        LookupStep(g, dims, i);
        funcs := funcs.Put(dims[i], f.value);
      }
      assert dims[..|dims|] == dims;
      FromPairsSpec(MapSeq(dims, LookupPair(g)));
      r := Ok(funcs.Values());
    }

    /** The grouping loop, proved against `Grouped`. */
    method GroupBgcs(bgcs: seq<Bgc>, funcs: seq<GroupingFunction>) returns (grouped: OrderedMap<seq<string>, seq<Bgc>>)
      ensures grouped == Grouped(bgcs, funcs)
    {
      if |funcs| == 0 {
        return OrderedMap([[]], map[[] := bgcs]);
      }
      var key := KeyOf(funcs);
      var order: seq<seq<string>> := [];
      var groups: map<seq<string>, seq<Bgc>> := map[];
      EmptyGrouping(key);
      for i := 0 to |bgcs|
        invariant IsGrouping(bgcs[..i], key, order, groups)
      {
        var k := KeyValues(funcs, bgcs[i]);
        var tuple := if k.Some? then k.value else UnknownKey(|funcs|);
        GroupingStep(bgcs, i, key, order, groups);
        if tuple !in groups {
          order := order + [tuple];
        }
        groups := groups[tuple := GetOrEmpty(groups, tuple) + [bgcs[i]]];
      }
      assert bgcs[..|bgcs|] == bgcs;
      grouped := OrderedMap(order, groups);
    }

    /** The metric rows of every group; an unknown metric raises at the first group. */
    method MetricRows(grouped: OrderedMap<seq<string>, seq<Bgc>>, inputFile: string, names: seq<string>, dims: seq<string>)
      returns (r: Result<seq<MetricValue>>)
      requires UsesModuleRegistries()
      requires grouped.Valid()
      ensures r == RowsForGroups(metricRegistry.functions.entries, grouped, inputFile, names, dims)
    {
      var perGroup := GroupRows(metricRegistry.functions.entries, grouped, inputFile, names, dims);
      var rows: seq<MetricValue> := [];
      for gi := 0 to |grouped.keys|
        invariant rows == Concat(MapSeq(grouped.keys[..gi], perGroup))
        invariant gi > 0 ==> FirstMissing(names, metricRegistry.functions.entries).None?
      {
        var key := grouped.keys[gi];
        var values := GroupMetricRows(grouped.entries[key], inputFile, key, names, dims);
        if values.Err? {
          return Err(values.error);
        }
        assert values.value == perGroup(key);
        ConcatSnocStep(grouped.keys, gi, perGroup);
        rows := rows + values.value;
      }
      assert grouped.keys[..|grouped.keys|] == grouped.keys;
      r := Ok(rows);
    }

    /** The value of each metric, in order, over one group; the first unknown metric raises. */
    method GroupMetricRows(group: seq<Bgc>, inputFile: string, key: seq<string>, names: seq<string>, dims: seq<string>)
      returns (r: Result<seq<MetricValue>>)
      requires UsesModuleRegistries()
      ensures FirstMissing(names, metricRegistry.functions.entries).Some? ==>
        r == Err(MetricUnknownPrefix + names[FirstMissing(names, metricRegistry.functions.entries).value])
      ensures FirstMissing(names, metricRegistry.functions.entries).None? ==>
        r == Ok(MapSeq(names, RowOf(metricRegistry.functions.entries, group, inputFile, key, dims)))
    {
      var perMetric := RowOf(metricRegistry.functions.entries, group, inputFile, key, dims);
      var rows: seq<MetricValue> := [];
      for j := 0 to |names|
        invariant rows == MapSeq(names[..j], perMetric)
        invariant forall j' :: 0 <= j' < j ==> names[j'] in metricRegistry.functions.entries
      {
        var f := metricRegistry.Get(names[j]);
        if f.Err? {
          FirstMissingAt(names, metricRegistry.functions.entries, j);
          return Err(f.error);
        }
        MapSeqPrefix(names, j, perMetric);
        assert MetricOf(metricRegistry.functions.entries, names[j]) == f.value;
        assert perMetric(names[j]) == MetricValue(inputFile, names[j], f.value(group), FromPairs(Zip(dims, key)));
        rows := rows + [MetricValue(inputFile, names[j], f.value(group), FromPairs(Zip(dims, key)))];
      }
      assert names[..|names|] == names;
      r := Ok(rows);
    }

    /** The combinations loop, proved against `GroupingCombinations`. */
    method GenerateGroupingCombinations(config: ReportConfig) returns (combinations: seq<seq<string>>)
      ensures combinations == GroupingCombinations(config)
    {
      var dims := config.groupingDimensions.keys;
      combinations := [[]];
      for i := 0 to |dims|
        invariant combinations == [[]] + MapSeq(dims[..i], Singleton)
      {
        MapSeqPrefix(dims, i, Singleton);
        combinations := combinations + [[dims[i]]];
      }
      assert dims[..|dims|] == dims;
      var singles := combinations;
      var cs := config.groupingCombinations;
      for i := 0 to |cs|
        invariant combinations == singles + Filter(cs[..i], AllConfigured(dims))
      {
        FilterPrefix(cs, i, AllConfigured(dims));
        if forall d :: d in cs[i] ==> d in dims {
          combinations := combinations + [cs[i]];
        }
      }
      assert cs[..|cs|] == cs;
    }
  }

  /** One more element of the outer list appends its image to the concatenation. */
  lemma ConcatSnocStep<T, U>(xs: seq<T>, n: nat, f: T -> seq<U>)
    requires n < |xs|
    ensures Concat(MapSeq(xs[..n + 1], f)) == Concat(MapSeq(xs[..n], f)) + f(xs[n])
  {
    assert MapSeq(xs[..n + 1], f)[..n] == MapSeq(xs[..n], f);
  }

  lemma GroupedValid(bgcs: seq<Bgc>, funcs: seq<GroupingFunction>)
    ensures Grouped(bgcs, funcs).Valid()
  {
    if |funcs| > 0 {
      GroupedPartition(bgcs, funcs);
    }
  }

  /** The calculator for comparisons with a reference computes nothing yet. */
  class CompareToRefMetricsCalculator {
    const results: seq<GenomeMiningResult>
    const config: ReportConfig

    constructor(results: seq<GenomeMiningResult>, config: ReportConfig)
      ensures this.results == results && this.config == config
    {
      this.results := results;
      this.config := config;
    }

    method CalculateMetrics() returns (all: seq<MetricValue>)
      ensures all == []
    {
      all := [];
    }
  }
}
