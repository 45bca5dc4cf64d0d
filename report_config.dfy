/** Report configurations: a report type's configuration read from the loaded YAML mapping, and
    the lookup and merge of the configurations of several report types. */
module ReportConfigs {
  import opened Wrappers
  import opened Seqs
  import opened Maps
  import opened Grouping
  import opened OrderedMaps

  datatype MetricConfig = MetricConfig(name: string, displayName: string, description: string := "")

  datatype GroupingDimensionConfig = GroupingDimensionConfig(includeTotal: bool := true, order: seq<string> := [])

  datatype ReportConfig = ReportConfig(
    metrics: seq<MetricConfig> := [],
    groupingDimensions: OrderedMap<string, GroupingDimensionConfig> := OrderedMap([], map[]),
    groupingCombinations: seq<seq<string>> := [])

  /** A metric entry of the loaded YAML; any key may be missing. */
  datatype RawMetric = RawMetric(name: Option<string>, displayName: Option<string>, description: Option<string>)

  /** A grouping dimension entry of the loaded YAML. */
  datatype RawDimension = RawDimension(includeTotal: Option<bool>, order: Option<seq<string>>)

  /** A report type's section of the loaded YAML; a mapping is given by its key-value pairs in
      document order. */
  datatype RawReportConfig = RawReportConfig(
    metrics: Option<seq<RawMetric>>,
    groupingDimensions: Option<seq<(string, RawDimension)>>,
    groupingCombinations: Option<seq<seq<string>>>)

  /** The message of the `KeyError` raised for a missing key. */
  function MissingKey(key: string): string {
    "'" + key + "'"
  }

  function ParseMetric(m: RawMetric): Result<MetricConfig> {
    if m.name.None? then Err(MissingKey("name"))
    else if m.displayName.None? then Err(MissingKey("display_name"))
    else Ok(MetricConfig(m.name.value, m.displayName.value, m.description.GetOr("")))
  }

  function ParseDimension(d: RawDimension): GroupingDimensionConfig {
    GroupingDimensionConfig(d.includeTotal.GetOr(true), d.order.GetOr([]))
  }

  function ParseDimensionPair(p: (string, RawDimension)): (string, GroupingDimensionConfig) {
    (p.0, ParseDimension(p.1))
  }

  /** The metric entries parsed in order; the first malformed one raises. */
  function ParsedMetrics(ms: seq<RawMetric>): Result<seq<MetricConfig>>
    decreases |ms|
  {
    if |ms| == 0 then Ok([])
    else
      match ParsedMetrics(ms[..|ms| - 1])
      case Err(e) => Err(e)
      case Ok(init) =>
        match ParseMetric(ms[|ms| - 1])
        case Err(e) => Err(e)
        case Ok(m) => Ok(init + [m])
  }

  function ParsedDimensions(raw: RawReportConfig): OrderedMap<string, GroupingDimensionConfig> {
    FromPairs(MapSeq(raw.groupingDimensions.GetOr([]), ParseDimensionPair))
  }

  /** A report type's configuration: missing sections are empty, and missing optional keys take
      their defaults. */
  function ParsedReportConfig(raw: RawReportConfig): Result<ReportConfig> {
    match ParsedMetrics(raw.metrics.GetOr([]))
    case Err(e) => Err(e)
    case Ok(metrics) => Ok(ReportConfig(metrics, ParsedDimensions(raw), raw.groupingCombinations.GetOr([])))
  }

  function DefaultedMetric(m: RawMetric): MetricConfig
    requires m.name.Some? && m.displayName.Some?
  {
    MetricConfig(m.name.value, m.displayName.value, m.description.GetOr(""))
  }

  /** Parsing the metric entries succeeds exactly when each has a name and a display name, and then
      gives one configuration per entry, with "" for a missing description; otherwise the error is
      that of the first malformed entry. */
  lemma ParsedMetricsSpec(ms: seq<RawMetric>)
    ensures ParsedMetrics(ms).Ok? <==> forall i :: 0 <= i < |ms| ==> ms[i].name.Some? && ms[i].displayName.Some?
    ensures ParsedMetrics(ms).Ok? ==> |ParsedMetrics(ms).value| == |ms|
    ensures ParsedMetrics(ms).Ok? ==> forall i :: 0 <= i < |ms| ==> ParsedMetrics(ms).value[i] == DefaultedMetric(ms[i])
    ensures ParsedMetrics(ms).Err? ==> exists i :: (0 <= i < |ms|
      && ParseMetric(ms[i]).Err? && ParsedMetrics(ms).error == ParseMetric(ms[i]).error
      && forall j :: 0 <= j < i ==> ParseMetric(ms[j]).Ok?)
  {
    ParsedMetricsOk(ms);
    ParsedMetricsErr(ms);
  }

  lemma {:induction false} ParsedMetricsOk(ms: seq<RawMetric>)
    ensures ParsedMetrics(ms).Ok? <==> forall i :: 0 <= i < |ms| ==> ms[i].name.Some? && ms[i].displayName.Some?
    ensures ParsedMetrics(ms).Ok? ==> |ParsedMetrics(ms).value| == |ms|
    ensures ParsedMetrics(ms).Ok? ==> forall i :: 0 <= i < |ms| ==> ParsedMetrics(ms).value[i] == DefaultedMetric(ms[i])
    decreases |ms|
  {
    if |ms| > 0 {
      var init := ms[..|ms| - 1];
      ParsedMetricsOk(init);
      assert forall j :: 0 <= j < |ms| - 1 ==> ms[j] == init[j];
    }
  }

  lemma {:induction false} ParsedMetricsErr(ms: seq<RawMetric>)
    ensures ParsedMetrics(ms).Err? ==> exists i :: (0 <= i < |ms|
      && ParseMetric(ms[i]).Err? && ParsedMetrics(ms).error == ParseMetric(ms[i]).error
      && forall j :: 0 <= j < i ==> ParseMetric(ms[j]).Ok?)
    decreases |ms|
  {
    if |ms| > 0 {
      var init := ms[..|ms| - 1];
      ParsedMetricsErr(init);
      if ParsedMetrics(init).Err? {
        var i :| 0 <= i < |init| && ParseMetric(init[i]).Err? && ParsedMetrics(init).error == ParseMetric(init[i]).error
          && forall j :: 0 <= j < i ==> ParseMetric(init[j]).Ok?;
        assert ms[i] == init[i];
        assert forall j :: 0 <= j < i ==> ms[j] == init[j];
        assert ParsedMetrics(ms).error == ParseMetric(ms[i]).error;
      } else if ParseMetric(ms[|ms| - 1]).Err? {
        ParsedMetricsOk(init);
        var i := |ms| - 1;
        assert forall j :: 0 <= j < i ==> ms[j] == init[j] && ParseMetric(init[j]).Ok?;
        assert ParsedMetrics(ms).error == ParseMetric(ms[i]).error;
      }
    }
  }

  /** Parsing an empty section gives the default configuration, and the optional keys default to
      "", `true` and `[]`. */
  lemma ParseDefaults(name: string, displayName: string)
    ensures ParsedReportConfig(RawReportConfig(None, None, None)) == Ok(ReportConfig())
    ensures ParseMetric(RawMetric(Some(name), Some(displayName), None)) == Ok(MetricConfig(name, displayName))
    ensures ParseMetric(RawMetric(Some(name), Some(displayName), None)).value.description == ""
    ensures ParseDimension(RawDimension(None, None)) == GroupingDimensionConfig(true, [])
  {
    assert FromPairs(MapSeq([], ParseDimensionPair)) == Empty<string, GroupingDimensionConfig>();
  }

  /** The loop of the parser, proved against `ParsedReportConfig`. */
  method ParseReportConfig(raw: RawReportConfig) returns (r: Result<ReportConfig>)
    ensures r == ParsedReportConfig(raw)
  {
    var ms := raw.metrics.GetOr([]);
    var metrics: seq<MetricConfig> := [];
    for i := 0 to |ms|
      invariant ParsedMetrics(ms[..i]) == Ok(metrics)
    {
      assert ms[..i + 1][..i] == ms[..i];
      var m := ms[i];
      if m.name.None? {
        ParsedMetricsErrorPersists(ms, i + 1);
        return Err(MissingKey("name"));
      }
      if m.displayName.None? {
        ParsedMetricsErrorPersists(ms, i + 1);
        return Err(MissingKey("display_name"));
      }
      metrics := metrics + [MetricConfig(m.name.value, m.displayName.value, m.description.GetOr(""))];
    }
    assert ms[..|ms|] == ms;
    var ds := raw.groupingDimensions.GetOr([]);
    var dims: OrderedMap<string, GroupingDimensionConfig> := Empty();
    for i := 0 to |ds|
      invariant dims == FromPairs(MapSeq(ds[..i], ParseDimensionPair))
    {
      MapSeqPrefix(ds, i, ParseDimensionPair);
      assert MapSeq(ds[..i + 1], ParseDimensionPair)[..i] == MapSeq(ds[..i], ParseDimensionPair);
      dims := dims.Put(ds[i].0, ParseDimension(ds[i].1));
    }
    assert ds[..|ds|] == ds;
    r := Ok(ReportConfig(metrics, dims, raw.groupingCombinations.GetOr([])));
  }

  /** A malformed entry makes the whole list fail with the error of the first failure. */
  lemma {:induction false} ParsedMetricsErrorPersists(ms: seq<RawMetric>, n: nat)
    requires n <= |ms|
    requires ParsedMetrics(ms[..n]).Err?
    ensures ParsedMetrics(ms) == ParsedMetrics(ms[..n])
    decreases |ms| - n
  {
    if n < |ms| {
      assert ms[..n + 1][..n] == ms[..n];
      ParsedMetricsErrorPersists(ms, n + 1);
    } else {
      assert ms[..n] == ms;
    }
  }

  // Writing a configuration back into the loaded form.

  function UnparseMetric(m: MetricConfig): RawMetric {
    RawMetric(Some(m.name), Some(m.displayName), Some(m.description))
  }

  function UnparseDimension(d: GroupingDimensionConfig): RawDimension {
    RawDimension(Some(d.includeTotal), Some(d.order))
  }

  function UnparseDimensions(dims: OrderedMap<string, GroupingDimensionConfig>): seq<(string, RawDimension)>
    requires dims.Valid()
  {
    seq(|dims.keys|, i requires 0 <= i < |dims.keys| && dims.Valid() => (dims.keys[i], UnparseDimension(dims.entries[dims.keys[i]])))
  }

  function Unparse(c: ReportConfig): RawReportConfig
    requires c.groupingDimensions.Valid()
  {
    RawReportConfig(Some(MapSeq(c.metrics, UnparseMetric)), Some(UnparseDimensions(c.groupingDimensions)), Some(c.groupingCombinations))
  }

  lemma {:induction false} ParseUnparseMetrics(ms: seq<MetricConfig>)
    ensures ParsedMetrics(MapSeq(ms, UnparseMetric)) == Ok(ms)
    decreases |ms|
  {
    if |ms| > 0 {
      var init := ms[..|ms| - 1];
      ParseUnparseMetrics(init);
      assert MapSeq(ms, UnparseMetric)[..|ms| - 1] == MapSeq(init, UnparseMetric);
      assert ms == init + [ms[|ms| - 1]];
    }
  }

  /** A mapping written out as its pairs and read back is the same mapping. */
  lemma ParseUnparseDimensions(dims: OrderedMap<string, GroupingDimensionConfig>)
    requires dims.Valid()
    ensures FromPairs(MapSeq(UnparseDimensions(dims), ParseDimensionPair)) == dims
  {
    var pairs := MapSeq(UnparseDimensions(dims), ParseDimensionPair);
    assert FromPairs(pairs).keys == dims.keys by {
      ReparsedPairs(dims);
      FromPairsSpec(pairs);
      FirstSeenOfDistinct(dims.keys);
    }
    ReparsedEntries(dims);
  }

  /** The rebuilt dictionary holds the mapping's entries. */
  lemma ReparsedEntries(dims: OrderedMap<string, GroupingDimensionConfig>)
    requires dims.Valid()
    ensures FromPairs(MapSeq(UnparseDimensions(dims), ParseDimensionPair)).entries == dims.entries
  {
    var pairs := MapSeq(UnparseDimensions(dims), ParseDimensionPair);
    ReparsedPairs(dims);
    FromPairsSpec(pairs);
    var kb := KeyedBy(pairs, PairKey, PairValue);
    forall k | k in kb ensures k in dims.entries && kb[k] == dims.entries[k] {
      KeyedByKeys(pairs, PairKey, PairValue);
      var i :| 0 <= i < |pairs| && PairKey(pairs[i]) == k;
      ReparsedEntry(dims, pairs, i);
    }
    forall k | k in dims.entries ensures k in kb {
      var i :| 0 <= i < |dims.keys| && dims.keys[i] == k;
      ReparsedEntry(dims, pairs, i);
    }
  }

  /** The written-back dimensions, parsed again, are the pairs of the mapping in its order. */
  lemma ReparsedPairs(dims: OrderedMap<string, GroupingDimensionConfig>)
    requires dims.Valid()
    ensures var pairs := MapSeq(UnparseDimensions(dims), ParseDimensionPair);
      && |pairs| == |dims.keys|
      && MapSeq(pairs, PairKey) == dims.keys
      && forall i :: 0 <= i < |pairs| ==> pairs[i] == (dims.keys[i], dims.entries[dims.keys[i]])
  {
    var pairs := MapSeq(UnparseDimensions(dims), ParseDimensionPair);
    forall i | 0 <= i < |pairs| ensures pairs[i] == (dims.keys[i], dims.entries[dims.keys[i]]) {
      var d := dims.entries[dims.keys[i]];
      assert ParseDimension(UnparseDimension(d)) == d;
    }
  }

  /** Each key of the mapping keeps its entry through the rebuilt dictionary. */
  lemma ReparsedEntry(dims: OrderedMap<string, GroupingDimensionConfig>, pairs: seq<(string, GroupingDimensionConfig)>, i: int)
    requires dims.Valid() && 0 <= i < |dims.keys| && |pairs| == |dims.keys|
    requires forall j :: 0 <= j < |pairs| ==> pairs[j] == (dims.keys[j], dims.entries[dims.keys[j]])
    ensures dims.keys[i] in KeyedBy(pairs, PairKey, PairValue)
    ensures KeyedBy(pairs, PairKey, PairValue)[dims.keys[i]] == dims.entries[dims.keys[i]]
  {
    forall j | i < j < |pairs| ensures PairKey(pairs[j]) != PairKey(pairs[i]) {
      assert dims.keys[j] != dims.keys[i];
    }
    KeyedByLastWins(pairs, PairKey, PairValue, i);
  }

  /** Parsing inverts writing back: every configuration whose dimensions form a mapping survives
      the round trip unchanged. */
  lemma ParseUnparse(c: ReportConfig)
    requires c.groupingDimensions.Valid()
    ensures ParsedReportConfig(Unparse(c)) == Ok(c)
  {
    ParseUnparseMetrics(c.metrics);
    ParseUnparseDimensions(c.groupingDimensions);
  }

  // Merging the configurations of several report types.

  const UnknownReportTypePrefix := "Unknown report type: "

  /** The configuration appended and updated with another report type's, before deduplication. */
  function Extend(acc: ReportConfig, c: ReportConfig): ReportConfig
    requires c.groupingDimensions.Valid()
  {
    ReportConfig(acc.metrics + c.metrics, Update(acc.groupingDimensions, c.groupingDimensions), acc.groupingCombinations + c.groupingCombinations)
  }

  ghost predicate WellFormed(configs: map<string, ReportConfig>) {
    forall t :: t in configs ==> configs[t].groupingDimensions.Valid()
  }

  /** The merge loop: each requested type in turn, stopping at the first unknown one. */
  function Accumulate(configs: map<string, ReportConfig>, types: seq<string>): Result<ReportConfig>
    requires WellFormed(configs)
    decreases |types|
  {
    if |types| == 0 then Ok(ReportConfig())
    else
      match Accumulate(configs, types[..|types| - 1])
      case Err(e) => Err(e)
      case Ok(acc) =>
        var t := types[|types| - 1];
        if t !in configs then Err(UnknownReportTypePrefix + t) else Ok(Extend(acc, configs[t]))
  }

  function NamePair(m: MetricConfig): (string, MetricConfig) {
    (m.name, m)
  }

  function SelfPair<T>(x: T): (T, T) {
    (x, x)
  }

  function MetricName(m: MetricConfig): string {
    m.name
  }

  /** `{m.name: m for m in metrics}.values()`. */
  function DedupByName(metrics: seq<MetricConfig>): seq<MetricConfig> {
    var pairs := MapSeq(metrics, NamePair);
    FromPairsSpec(pairs);
    FromPairs(pairs).Values()
  }

  /** `{tuple(c): c for c in combinations}.values()`. */
  function DedupCombinations(combinations: seq<seq<string>>): seq<seq<string>> {
    var pairs := MapSeq(combinations, SelfPair);
    FromPairsSpec(pairs);
    FromPairs(pairs).Values()
  }

  function Combined(configs: map<string, ReportConfig>, types: seq<string>): Result<ReportConfig>
    requires WellFormed(configs)
  {
    match Accumulate(configs, types)
    case Err(e) => Err(e)
    case Ok(acc) => Ok(ReportConfig(DedupByName(acc.metrics), acc.groupingDimensions, DedupCombinations(acc.groupingCombinations)))
  }

  /** Deduplicating metrics keeps one metric per name, the names in the order of their first
      occurrence, and for each name its last definition. */
  lemma DedupByNameSpec(metrics: seq<MetricConfig>)
    ensures MapSeq(DedupByName(metrics), MetricName) == FirstSeen(MapSeq(metrics, MetricName))
    ensures Distinct(MapSeq(DedupByName(metrics), MetricName))
    ensures forall i :: (0 <= i < |metrics| && (forall j :: i < j < |metrics| ==> metrics[j].name != metrics[i].name)
      ==> metrics[i] in DedupByName(metrics))
  {
    var pairs := MapSeq(metrics, NamePair);
    FromPairsSpec(pairs);
    var d := FromPairs(pairs);
    assert MapSeq(pairs, PairKey) == MapSeq(metrics, MetricName);
    var r := DedupByName(metrics);
    forall j | 0 <= j < |r| ensures r[j].name == d.keys[j] {
      assert d.keys[j] in d.entries;
      var k := d.keys[j];
      KeyedByKeys(pairs, PairKey, PairValue);
      var i :| 0 <= i < |pairs| && PairKey(pairs[i]) == k;
      KeyedByValueHasKey(metrics, k);
    }
    assert MapSeq(r, MetricName) == d.keys;
    FirstSeenMembers(MapSeq(metrics, MetricName));
    forall i | 0 <= i < |metrics| && (forall j :: i < j < |metrics| ==> metrics[j].name != metrics[i].name)
      ensures metrics[i] in r
    {
      KeyedByLastWins(pairs, PairKey, PairValue, i);
      FirstSeenHas(MapSeq(metrics, MetricName), metrics[i].name);
      var j :| 0 <= j < |d.keys| && d.keys[j] == metrics[i].name;
      assert r[j] == metrics[i];
    }
  }

  /** The metric kept under a name carries that name. */
  lemma {:induction false} KeyedByValueHasKey(metrics: seq<MetricConfig>, k: string)
    requires k in KeyedBy(MapSeq(metrics, NamePair), PairKey, PairValue)
    ensures KeyedBy(MapSeq(metrics, NamePair), PairKey, PairValue)[k].name == k
    decreases |metrics|
  {
    var n := |metrics|;
    if n > 0 {
      var init := metrics[..n - 1];
      MapSeqSnoc(init, metrics[n - 1], NamePair);
      assert metrics == init + [metrics[n - 1]];
      KeyedBySnoc(MapSeq(init, NamePair), NamePair(metrics[n - 1]), PairKey, PairValue);
      if k != metrics[n - 1].name {
        KeyedByValueHasKey(init, k);
      }
    }
  }

  /** Deduplicating combinations keeps each distinct combination once, at its first occurrence. */
  lemma DedupCombinationsSpec(combinations: seq<seq<string>>)
    ensures DedupCombinations(combinations) == FirstSeen(combinations)
  {
    var pairs := MapSeq(combinations, SelfPair);
    FromPairsSpec(pairs);
    var d := FromPairs(pairs);
    assert MapSeq(pairs, PairKey) == combinations;
    forall j | 0 <= j < |d.keys| ensures d.entries[d.keys[j]] == d.keys[j] {
      assert d.keys[j] in d.entries;
      SelfPairsKeepKey(combinations, d.keys[j]);
    }
  }

  lemma {:induction false} SelfPairsKeepKey(combinations: seq<seq<string>>, k: seq<string>)
    requires k in KeyedBy(MapSeq(combinations, SelfPair), PairKey, PairValue)
    ensures KeyedBy(MapSeq(combinations, SelfPair), PairKey, PairValue)[k] == k
    decreases |combinations|
  {
    var n := |combinations|;
    if n > 0 {
      var init := combinations[..n - 1];
      MapSeqSnoc(init, combinations[n - 1], SelfPair);
      assert combinations == init + [combinations[n - 1]];
      KeyedBySnoc(MapSeq(init, SelfPair), SelfPair(combinations[n - 1]), PairKey, PairValue);
      if k != combinations[n - 1] {
        SelfPairsKeepKey(init, k);
      }
    }
  }

  /** An unknown type ends the merge with its error. */
  lemma {:induction false} AccumulateErrorPersists(configs: map<string, ReportConfig>, types: seq<string>, n: nat)
    requires WellFormed(configs)
    requires n <= |types|
    requires Accumulate(configs, types[..n]).Err?
    ensures Accumulate(configs, types) == Accumulate(configs, types[..n])
    decreases |types| - n
  {
    if n < |types| {
      assert types[..n + 1][..n] == types[..n];
      AccumulateErrorPersists(configs, types, n + 1);
    } else {
      assert types[..n] == types;
    }
  }

  /** The merge fails exactly when some requested type is unknown, and then names the first
      one. */
  lemma AccumulateErrorSpec(configs: map<string, ReportConfig>, types: seq<string>)
    requires WellFormed(configs)
    ensures Accumulate(configs, types).Err? <==> exists i :: 0 <= i < |types| && types[i] !in configs
    ensures Accumulate(configs, types).Err? ==> exists i :: (0 <= i < |types| && types[i] !in configs
      && (forall j :: 0 <= j < i ==> types[j] in configs)
      && Accumulate(configs, types).error == UnknownReportTypePrefix + types[i])
  {
    AccumulateOk(configs, types);
    AccumulateFirstUnknown(configs, types);
  }

  lemma {:induction false} AccumulateOk(configs: map<string, ReportConfig>, types: seq<string>)
    requires WellFormed(configs)
    ensures Accumulate(configs, types).Ok? <==> forall i :: 0 <= i < |types| ==> types[i] in configs
    decreases |types|
  {
    if |types| > 0 {
      var init := types[..|types| - 1];
      AccumulateOk(configs, init);
      assert forall j :: 0 <= j < |init| ==> types[j] == init[j];
    }
  }

  lemma {:induction false} AccumulateFirstUnknown(configs: map<string, ReportConfig>, types: seq<string>)
    requires WellFormed(configs)
    ensures Accumulate(configs, types).Err? ==> exists i :: (0 <= i < |types| && types[i] !in configs
      && (forall j :: 0 <= j < i ==> types[j] in configs)
      && Accumulate(configs, types).error == UnknownReportTypePrefix + types[i])
    decreases |types|
  {
    if |types| > 0 {
      var init := types[..|types| - 1];
      AccumulateFirstUnknown(configs, init);
      if Accumulate(configs, init).Err? {
        var i :| 0 <= i < |init| && init[i] !in configs && (forall j :: 0 <= j < i ==> init[j] in configs)
          && Accumulate(configs, init).error == UnknownReportTypePrefix + init[i];
        assert types[i] == init[i];
        assert forall j :: 0 <= j < i ==> types[j] == init[j];
      } else if types[|types| - 1] !in configs {
        AccumulateOk(configs, init);
        var i := |types| - 1;
        assert forall j :: 0 <= j < i ==> types[j] == init[j];
      }
    }
  }

  /** A successful merge has the metrics and the combinations of the types in request order. */
  lemma {:induction false} AccumulateLists(configs: map<string, ReportConfig>, types: seq<string>)
    requires WellFormed(configs)
    requires Accumulate(configs, types).Ok?
    ensures Accumulate(configs, types).value.metrics == Concat(MapSeq(types, MetricsOf(configs)))
    ensures Accumulate(configs, types).value.groupingCombinations == Concat(MapSeq(types, CombinationsOf(configs)))
    decreases |types|
  {
    if |types| > 0 {
      var init := types[..|types| - 1];
      AccumulateLists(configs, init);
      assert MapSeq(types, MetricsOf(configs))[..|types| - 1] == MapSeq(init, MetricsOf(configs));
      assert MapSeq(types, CombinationsOf(configs))[..|types| - 1] == MapSeq(init, CombinationsOf(configs));
    }
  }

  /** A successful merge holds, for each dimension, the configuration of the last type that has
      it, and its dimensions still form a mapping. */
  lemma {:induction false} AccumulateDimensions(configs: map<string, ReportConfig>, types: seq<string>)
    requires WellFormed(configs)
    requires Accumulate(configs, types).Ok?
    ensures Accumulate(configs, types).value.groupingDimensions.Valid()
    ensures Accumulate(configs, types).value.groupingDimensions.entries == MergedDimensions(configs, types)
    decreases |types|
  {
    if |types| > 0 {
      var init := types[..|types| - 1];
      var t := types[|types| - 1];
      AccumulateDimensions(configs, init);
      var acc := Accumulate(configs, init).value;
      var c := configs[t];
      PutAllKeys(acc.groupingDimensions, c.groupingDimensions.keys, c.groupingDimensions.entries);
      PutAllEntries(acc.groupingDimensions, c.groupingDimensions.keys, c.groupingDimensions.entries);
      assert Restrict(c.groupingDimensions.entries, c.groupingDimensions.keys) == c.groupingDimensions.entries;
    }
  }

  function MetricsOf(configs: map<string, ReportConfig>): string -> seq<MetricConfig> {
    t => if t in configs then configs[t].metrics else []
  }

  function CombinationsOf(configs: map<string, ReportConfig>): string -> seq<seq<string>> {
    t => if t in configs then configs[t].groupingCombinations else []
  }

  /** The dimension entries of the types, each later type's entries overriding earlier ones. */
  function MergedDimensions(configs: map<string, ReportConfig>, types: seq<string>): map<string, GroupingDimensionConfig>
    decreases |types|
  {
    if |types| == 0 then map[]
    else
      var t := types[|types| - 1];
      MergedDimensions(configs, types[..|types| - 1]) + (if t in configs then configs[t].groupingDimensions.entries else map[])
  }

  /** The merged configuration: an error naming the first unknown type, or the metrics of all
      requested types one per name, the later types' dimension entries overriding, and the
      distinct combinations in order of first request. */
  lemma CombinedSpec(configs: map<string, ReportConfig>, types: seq<string>)
    requires WellFormed(configs)
    ensures Combined(configs, types).Err? <==> exists i :: 0 <= i < |types| && types[i] !in configs
    ensures Combined(configs, types).Err? ==> exists i :: (0 <= i < |types| && types[i] !in configs
      && (forall j :: 0 <= j < i ==> types[j] in configs)
      && Combined(configs, types).error == UnknownReportTypePrefix + types[i])
    ensures Combined(configs, types).Ok? ==>
      var c := Combined(configs, types).value;
      && MapSeq(c.metrics, MetricName) == FirstSeen(MapSeq(Concat(MapSeq(types, MetricsOf(configs))), MetricName))
      && c.groupingDimensions.entries == MergedDimensions(configs, types)
      && c.groupingCombinations == FirstSeen(Concat(MapSeq(types, CombinationsOf(configs))))
  {
    AccumulateErrorSpec(configs, types);
    if Accumulate(configs, types).Ok? {
      var acc := Accumulate(configs, types).value;
      AccumulateLists(configs, types);
      AccumulateDimensions(configs, types);
      DedupByNameSpec(acc.metrics);
      DedupCombinationsSpec(acc.groupingCombinations);
    }
  }

  /** The configurations of the report types, keyed by type, in the order they were loaded. */
  class ReportConfigManager {
    var configs: OrderedMap<string, ReportConfig>

    ghost predicate Valid()
      reads this
    {
      configs.Valid() && WellFormed(configs.entries)
    }

    constructor()
      ensures Valid() && configs == Empty()
    {
      configs := Empty();
    }

    /** The configuration of one report type, or the error for an unknown type. */
    method GetConfig(reportType: string) returns (r: Result<ReportConfig>)
      ensures r.Ok? <==> reportType in configs.entries
      ensures r.Ok? ==> r.value == configs.entries[reportType]
      ensures r.Err? ==> r.error == UnknownReportTypePrefix + reportType
    {
      if reportType !in configs.entries {
        return Err(UnknownReportTypePrefix + reportType);
      }
      return Ok(configs.entries[reportType]);
    }

    /** The merged configuration of the requested types, built fresh: the stored configurations
        are not changed. */
    method GetCombinedConfig(reportTypes: seq<string>) returns (r: Result<ReportConfig>)
      requires Valid()
      ensures r == Combined(configs.entries, reportTypes)
    {
      var combined := ReportConfig();
      for i := 0 to |reportTypes|
        invariant Accumulate(configs.entries, reportTypes[..i]) == Ok(combined)
      {
        var t := reportTypes[i];
        assert reportTypes[..i + 1][..i] == reportTypes[..i];
        if t !in configs.entries {
          AccumulateErrorPersists(configs.entries, reportTypes, i + 1);
          return Err(UnknownReportTypePrefix + t);
        }
        var c := configs.entries[t];
        combined := ReportConfig(
          combined.metrics + c.metrics,
          Update(combined.groupingDimensions, c.groupingDimensions),
          combined.groupingCombinations + c.groupingCombinations);
      }
      assert reportTypes[..|reportTypes|] == reportTypes;
      r := Ok(ReportConfig(DedupByName(combined.metrics), combined.groupingDimensions, DedupCombinations(combined.groupingCombinations)));
    }

    /** The report types in load order. */
    method ListReportTypes() returns (types: seq<string>)
      requires Valid()
      ensures types == configs.keys
      ensures Distinct(types) && forall t :: t in types <==> t in configs.entries
    {
      types := configs.keys;
    }
  }

  function ParsedPair(p: (string, RawReportConfig)): (string, ReportConfig) {
    (p.0, match ParsedReportConfig(p.1) case Ok(c) => c case Err(_) => ReportConfig())
  }

  /** Loading the configuration mapping: each report type's section parsed in order; the first
      malformed section raises. */
  method Load(raw: seq<(string, RawReportConfig)>) returns (r: Result<ReportConfigManager>)
    requires Distinct(MapSeq(raw, PairKey))
    ensures r.Ok? <==> forall i :: 0 <= i < |raw| ==> ParsedReportConfig(raw[i].1).Ok?
    ensures r.Ok? ==> fresh(r.value) && r.value.Valid()
    ensures r.Ok? ==> r.value.configs == FromPairs(MapSeq(raw, ParsedPair))
    ensures r.Ok? ==> r.value.configs.keys == MapSeq(raw, PairKey)
    ensures r.Err? ==> exists i :: (0 <= i < |raw| && ParsedReportConfig(raw[i].1).Err?
      && r.error == ParsedReportConfig(raw[i].1).error)
  {
    var configs := ParseSections(raw);
    ParsedSectionsOk(raw);
    ParsedSectionsValue(raw);
    ParsedSectionsErr(raw);
    if configs.Err? {
      return Err(configs.error);
    }
    LoadedValid(raw);
    var m := new ReportConfigManager();
    m.configs := configs.value;
    return Ok(m);
  }

  /** The sections parsed in order into the mapping of report types; the first malformed
      section's error is the result. */
  function ParsedSections(raw: seq<(string, RawReportConfig)>): Result<OrderedMap<string, ReportConfig>>
    decreases |raw|
  {
    if |raw| == 0 then Ok(Empty())
    else
      match ParsedSections(raw[..|raw| - 1])
      case Err(e) => Err(e)
      case Ok(init) =>
        match ParsedReportConfig(raw[|raw| - 1].1)
        case Err(e) => Err(e)
        case Ok(c) => Ok(init.Put(raw[|raw| - 1].0, c))
  }

  /** The loop of `Load`: each section parsed in order into the mapping of report types. */
  method ParseSections(raw: seq<(string, RawReportConfig)>) returns (r: Result<OrderedMap<string, ReportConfig>>)
    ensures r == ParsedSections(raw)
  {
    var configs: OrderedMap<string, ReportConfig> := Empty();
    for i := 0 to |raw|
      invariant ParsedSections(raw[..i]) == Ok(configs)
    {
      assert raw[..i + 1][..i] == raw[..i];
      var c := ParseReportConfig(raw[i].1);
      if c.Err? {
        ParsedSectionsErrorPersists(raw, i + 1);
        return Err(c.error);
      }
      configs := configs.Put(raw[i].0, c.value);
    }
    assert raw[..|raw|] == raw;
    return Ok(configs);
  }

  /** Once a prefix of the sections fails to parse, the whole list fails with the same error. */
  lemma {:induction false} ParsedSectionsErrorPersists(raw: seq<(string, RawReportConfig)>, n: nat)
    requires n <= |raw| && ParsedSections(raw[..n]).Err?
    ensures ParsedSections(raw) == ParsedSections(raw[..n])
    decreases |raw| - n
  {
    if n < |raw| {
      assert raw[..n + 1][..n] == raw[..n];
      ParsedSectionsErrorPersists(raw, n + 1);
    } else {
      assert raw[..n] == raw;
    }
  }

  /** The sections parse exactly when every section parses. */
  lemma ParsedSectionsOk(raw: seq<(string, RawReportConfig)>)
    ensures ParsedSections(raw).Ok? <==> forall i :: 0 <= i < |raw| ==> ParsedReportConfig(raw[i].1).Ok?
  {
    ParsedSectionsAllParse(raw);
    ParsedSectionsSomeFails(raw);
  }

  /** Parsed sections are each well-formed. */
  lemma {:induction false} ParsedSectionsAllParse(raw: seq<(string, RawReportConfig)>)
    ensures ParsedSections(raw).Ok? ==> forall i :: 0 <= i < |raw| ==> ParsedReportConfig(raw[i].1).Ok?
    decreases |raw|
  {
    if |raw| > 0 && ParsedSections(raw).Ok? {
      var n := |raw| - 1;
      var init := raw[..n];
      assert ParsedSections(init).Ok? && ParsedReportConfig(raw[n].1).Ok?;
      ParsedSectionsAllParse(init);
      forall i | 0 <= i < |raw| ensures ParsedReportConfig(raw[i].1).Ok? {
        if i < n {
          assert init[i] == raw[i];
        }
      }
    }
  }

  /** A failed parse has a malformed section. */
  lemma {:induction false} ParsedSectionsSomeFails(raw: seq<(string, RawReportConfig)>)
    ensures ParsedSections(raw).Err? ==> exists i :: 0 <= i < |raw| && ParsedReportConfig(raw[i].1).Err?
    decreases |raw|
  {
    if |raw| > 0 && ParsedSections(raw).Err? {
      var n := |raw| - 1;
      var init := raw[..n];
      if ParsedSections(init).Err? {
        ParsedSectionsSomeFails(init);
        var i :| 0 <= i < |init| && ParsedReportConfig(init[i].1).Err?;
        assert init[i] == raw[i];
      } else {
        assert ParsedReportConfig(raw[n].1).Err?;
      }
    }
  }

  /** When the sections parse, the mapping holds each section's configuration under its
      report type, in document order. */
  lemma {:induction false} ParsedSectionsValue(raw: seq<(string, RawReportConfig)>)
    ensures ParsedSections(raw).Ok? ==> ParsedSections(raw).value == FromPairs(MapSeq(raw, ParsedPair))
    decreases |raw|
  {
    if |raw| > 0 && ParsedSections(raw).Ok? {
      var n := |raw| - 1;
      var init := raw[..n];
      ParsedSectionsValue(init);
      var c := ParsedReportConfig(raw[n].1);
      assert ParsedSections(init).Ok? && c.Ok?;
      LoadStep(raw, n, c.value);
      assert raw[..n + 1] == raw;
    }
  }

  /** A failure is the error of some malformed section. */
  lemma {:induction false} ParsedSectionsErr(raw: seq<(string, RawReportConfig)>)
    ensures ParsedSections(raw).Err? ==> exists i :: (0 <= i < |raw| && ParsedReportConfig(raw[i].1).Err?
      && ParsedSections(raw).error == ParsedReportConfig(raw[i].1).error)
    decreases |raw|
  {
    if |raw| > 0 {
      var n := |raw| - 1;
      var init := raw[..n];
      ParsedSectionsErr(init);
      if ParsedSections(init).Err? {
        var i :| 0 <= i < |init| && ParsedReportConfig(init[i].1).Err?
          && ParsedSections(init).error == ParsedReportConfig(init[i].1).error;
        assert init[i] == raw[i];
      } else if ParsedReportConfig(raw[n].1).Err? {
        assert 0 <= n < |raw| && ParsedSections(raw).error == ParsedReportConfig(raw[n].1).error;
      }
    }
  }

  /** Loading one more well-formed section assigns its configuration under its report type. */
  lemma LoadStep(raw: seq<(string, RawReportConfig)>, i: int, c: ReportConfig)
    requires 0 <= i < |raw| && ParsedReportConfig(raw[i].1) == Ok(c)
    ensures FromPairs(MapSeq(raw[..i + 1], ParsedPair)) == FromPairs(MapSeq(raw[..i], ParsedPair)).Put(raw[i].0, c)
  {
    MapSeqPrefix(raw, i, ParsedPair);
    assert MapSeq(raw[..i + 1], ParsedPair)[..i] == MapSeq(raw[..i], ParsedPair);
  }

  /** The loaded mapping has the report types in document order, each with a well-formed
      configuration. */
  lemma LoadedValid(raw: seq<(string, RawReportConfig)>)
    requires Distinct(MapSeq(raw, PairKey))
    ensures FromPairs(MapSeq(raw, ParsedPair)).Valid()
    ensures WellFormed(FromPairs(MapSeq(raw, ParsedPair)).entries)
    ensures FromPairs(MapSeq(raw, ParsedPair)).keys == MapSeq(raw, PairKey)
  {
    var pairs := MapSeq(raw, ParsedPair);
    FromPairsSpec(pairs);
    assert MapSeq(pairs, PairKey) == MapSeq(raw, PairKey);
    FirstSeenOfDistinct(MapSeq(raw, PairKey));
    forall t | t in FromPairs(pairs).entries ensures FromPairs(pairs).entries[t].groupingDimensions.Valid() {
      KeyedByKeys(pairs, PairKey, PairValue);
      ParsedPairsWellFormed(raw, t);
    }
  }

  lemma {:induction false} ParsedPairsWellFormed(raw: seq<(string, RawReportConfig)>, t: string)
    requires t in KeyedBy(MapSeq(raw, ParsedPair), PairKey, PairValue)
    ensures KeyedBy(MapSeq(raw, ParsedPair), PairKey, PairValue)[t].groupingDimensions.Valid()
    decreases |raw|
  {
    var n := |raw|;
    if n > 0 {
      var init := raw[..n - 1];
      MapSeqSnoc(init, raw[n - 1], ParsedPair);
      assert raw == init + [raw[n - 1]];
      KeyedBySnoc(MapSeq(init, ParsedPair), ParsedPair(raw[n - 1]), PairKey, PairValue);
      if t != raw[n - 1].0 {
        ParsedPairsWellFormed(init, t);
      } else {
        FromPairsSpec(MapSeq(raw[n - 1].1.groupingDimensions.GetOr([]), ParseDimensionPair));
      }
    }
  }
}
