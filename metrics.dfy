/** The first metrics engine: grouping keys and metrics registered by name, and an engine that
    groups BGCs by a tuple of grouping keys and applies every registered metric to every group.
    Metric values are exact reals (see the README on floats). */
module Metrics {
  import opened Wrappers
  import opened Seqs
  import opened Grouping
  import opened Strings
  import opened GenomeMiningResults

  type KeyFunction = Bgc -> string
  type MetricFunction = seq<Bgc> -> real

  // Grouping keys

  function ByCompleteness(b: Bgc): string {
    b.completeness.Name()
  }

  /** The product type of a BGC with exactly one, "Hybrid" for several, "Unknown" for none. */
  function ByProductType(b: Bgc): string {
    if |b.productTypes| == 1 then b.productTypes[0]
    else if |b.productTypes| > 1 then "Hybrid"
    else "Unknown"
  }

  lemma ProductTypeKeyRule(b: Bgc)
    ensures |b.productTypes| == 1 ==> ByProductType(b) == b.productTypes[0]
    ensures |b.productTypes| > 1 ==> ByProductType(b) == "Hybrid"
    ensures |b.productTypes| == 0 ==> ByProductType(b) == "Unknown"
    ensures ByProductType(b) in b.productTypes || ByProductType(b) in {"Hybrid", "Unknown"}
  {
  }

  // Metrics

  function TotalCount(bgcs: seq<Bgc>): real {
    |bgcs| as real
  }

  predicate HasPositiveLength(b: Bgc) {
    b.end > b.start
  }

  function Length(b: Bgc): int {
    b.end - b.start
  }

  function Sum(xs: seq<int>): int
    decreases |xs|
  {
    if |xs| == 0 then 0 else Sum(xs[..|xs| - 1]) + xs[|xs| - 1]
  }

  /** `statistics.mean` on a non-empty list, exactly. */
  function Mean(xs: seq<int>): real
    requires |xs| > 0
  {
    Sum(xs) as real / |xs| as real
  }

  /** The lengths `end - start` of the BGCs with `end > start`, in order. */
  function PositiveLengths(bgcs: seq<Bgc>): seq<int> {
    MapSeq(Filter(bgcs, HasPositiveLength), Length)
  }

  /** Mean length over the BGCs with `end > start`; 0 when there are none. */
  function MeanLength(bgcs: seq<Bgc>): real {
    var lengths := PositiveLengths(bgcs);
    if |lengths| == 0 then 0.0 else Mean(lengths)
  }

  lemma {:induction false} SumWithin(xs: seq<int>, lo: int, hi: int)
    requires forall i :: 0 <= i < |xs| ==> lo <= xs[i] <= hi
    ensures |xs| * lo <= Sum(xs) <= |xs| * hi
    decreases |xs|
  {
    if |xs| > 0 {
      SumWithin(xs[..|xs| - 1], lo, hi);
    }
  }

  lemma QuotientWithin(sum: int, n: int, lo: int, hi: int)
    requires n > 0 && n * lo <= sum <= n * hi
    ensures lo as real <= sum as real / n as real <= hi as real
  {
    var q := sum as real / n as real;
    assert q * n as real == sum as real;
    assert (n * lo) as real == n as real * lo as real;
    assert (n * hi) as real == n as real * hi as real;
  }

  lemma MeanWithin(xs: seq<int>, lo: int, hi: int)
    requires |xs| > 0
    requires forall i :: 0 <= i < |xs| ==> lo <= xs[i] <= hi
    ensures lo as real <= Mean(xs) <= hi as real
  {
    SumWithin(xs, lo, hi);
    QuotientWithin(Sum(xs), |xs|, lo, hi);
  }

  /** The mean length is 0 exactly when no BGC has `end > start`; otherwise it lies between the
      shortest and the longest such length, so it is positive. */
  lemma MeanLengthBounds(bgcs: seq<Bgc>, lo: int, hi: int)
    requires forall i :: 0 <= i < |bgcs| && HasPositiveLength(bgcs[i]) ==> lo <= Length(bgcs[i]) <= hi
    ensures MeanLength(bgcs) == 0.0 <==> forall i :: 0 <= i < |bgcs| ==> !HasPositiveLength(bgcs[i])
    ensures (exists i :: 0 <= i < |bgcs| && HasPositiveLength(bgcs[i])) ==>
      lo as real <= MeanLength(bgcs) <= hi as real && MeanLength(bgcs) > 0.0
  {
    var kept := Filter(bgcs, HasPositiveLength);
    var lengths := PositiveLengths(bgcs);
    FilterMembers(bgcs, HasPositiveLength);
    forall j | 0 <= j < |lengths| ensures lo <= lengths[j] <= hi && lengths[j] >= 1 {
      var i :| 0 <= i < |bgcs| && bgcs[i] == kept[j];
    }
    if exists i :: 0 <= i < |bgcs| && HasPositiveLength(bgcs[i]) {
      var i :| 0 <= i < |bgcs| && HasPositiveLength(bgcs[i]);
      assert bgcs[i] in kept;
      MeanWithin(lengths, lo, hi);
      MeanWithin(lengths, 1, hi);
    } else {
      FilterNone(bgcs, HasPositiveLength);
    }
  }

  // Registries, as the decorators leave them once the module is loaded

  const GroupingKeyRegistry: map<string, KeyFunction> :=
    map["completeness" := ByCompleteness, "product_type" := ByProductType]

  /** The metric names in registration order. */
  const MetricNames: seq<string> := ["total_bgc_count", "mean_bgc_length"]

  const MetricRegistry: map<string, MetricFunction> :=
    map["total_bgc_count" := TotalCount, "mean_bgc_length" := MeanLength]

  lemma RegistriesAfterLoad()
    ensures GroupingKeyRegistry.Keys == {"completeness", "product_type"}
    ensures MetricRegistry.Keys == {"total_bgc_count", "mean_bgc_length"}
    ensures forall n :: n in MetricRegistry <==> n in MetricNames
  {
  }

  predicate Unregistered(name: string) {
    name !in GroupingKeyRegistry
  }

  /** The error message listing every unregistered key, in request order. */
  function InvalidKeysMessage(groupBy: seq<string>): string {
    "Invalid grouping keys: " + Join(", ", Filter(groupBy, Unregistered))
  }

  /** The value of the grouping key `name` for `b`; only read for registered names. */
  function KeyValue(name: string, b: Bgc): string {
    if name in GroupingKeyRegistry then GroupingKeyRegistry[name](b) else ""
  }

  /** The tuple of grouping-key values of a BGC, in `group_by` order. */
  function GroupKey(groupBy: seq<string>): Bgc -> seq<string> {
    b => MapSeq(groupBy, (name: string) => KeyValue(name, b))
  }

  /** Every registered metric applied to one group. */
  function MetricsOf(group: seq<Bgc>): map<string, real> {
    map name | name in MetricRegistry :: MetricRegistry[name](group)
  }

  /** The engine's result: the group keys in first-seen order and each group's metrics. */
  datatype GroupedMetrics = GroupedMetrics(groups: seq<seq<string>>, metrics: map<seq<string>, map<string, real>>)

  /** What `compute(groupBy)` returns for `bgcs` when every key is registered. */
  function GroupedBy(bgcs: seq<Bgc>, groupBy: seq<string>): GroupedMetrics {
    var key := GroupKey(groupBy);
    GroupedMetrics(KeysOf(bgcs, key), map g | g in KeysOf(bgcs, key) :: MetricsOf(GroupOf(bgcs, key, g)))
  }

  class MetricsEngine {
    const bgcs: seq<Bgc>

    constructor(bgcs: seq<Bgc>)
      ensures this.bgcs == bgcs
    {
      this.bgcs := bgcs;
    }

    /** Groups the BGCs by the keys `groupBy` and computes every metric per group; an
        unregistered key is an error naming all unregistered keys. */
    method Compute(groupBy: seq<string>) returns (r: Result<GroupedMetrics>)
      ensures r.Err? <==> exists name :: name in groupBy && Unregistered(name)
      ensures r.Err? ==> r.error == InvalidKeysMessage(groupBy)
      ensures r.Ok? ==> r.value.groups == KeysOf(bgcs, GroupKey(groupBy))
      ensures r.Ok? ==> forall key :: key in r.value.metrics <==> key in r.value.groups
      ensures r.Ok? ==> forall key :: key in r.value.metrics ==>
        r.value.metrics[key] == MetricsOf(GroupOf(bgcs, GroupKey(groupBy), key))
      ensures r.Ok? ==> r.value == GroupedBy(bgcs, groupBy)
    {
      var unknown := Filter(groupBy, Unregistered);
      FilterMembers(groupBy, Unregistered);
      if unknown != [] {
        assert unknown[0] in groupBy;
        return Err(InvalidKeysMessage(groupBy));
      }
      var groups, grouped := GroupByKeys(groupBy);
      var metrics := MetricsPerGroup(groups, grouped);
      return Ok(GroupedMetrics(groups, metrics));
    }

    /** The outer loop: the metrics row of every group, keyed by the group's key tuple. */
    static method MetricsPerGroup(groups: seq<seq<string>>, grouped: map<seq<string>, seq<Bgc>>)
      returns (metrics: map<seq<string>, map<string, real>>)
      requires forall key :: key in groups ==> key in grouped
      ensures forall key :: key in metrics <==> key in groups
      ensures forall key :: key in metrics ==> metrics[key] == MetricsOf(grouped[key])
    {
      metrics := map[];
      for g := 0 to |groups|
        invariant forall key :: key in metrics <==> key in groups[..g]
        invariant forall key :: key in metrics ==> metrics[key] == MetricsOf(grouped[key])
      {
        var row := MetricsRow(grouped[groups[g]]);
        metrics := metrics[groups[g] := row];
      }
      assert groups[..|groups|] == groups;
    }

    /** The grouping loop: each BGC is appended to the list of its key tuple. */
    method GroupByKeys(groupBy: seq<string>) returns (groups: seq<seq<string>>, grouped: map<seq<string>, seq<Bgc>>)
      requires forall name :: name in groupBy ==> name in GroupingKeyRegistry
      ensures IsGrouping(bgcs, GroupKey(groupBy), groups, grouped)
    {
      var keyFuncs := seq(|groupBy|, i requires 0 <= i < |groupBy| && groupBy[i] in GroupingKeyRegistry =>
        GroupingKeyRegistry[groupBy[i]]);
      ghost var key := GroupKey(groupBy);
      groups := [];
      grouped := map[];
      EmptyGrouping(key);
      for i := 0 to |bgcs|
        invariant IsGrouping(bgcs[..i], key, groups, grouped)
      {
        var bgc := bgcs[i];
        var k := seq(|keyFuncs|, j requires 0 <= j < |keyFuncs| => keyFuncs[j](bgc));
        assert k == key(bgc);
        GroupingStep(bgcs, i, key, groups, grouped);
        if k !in grouped {
          groups := groups + [k];
        }
        grouped := grouped[k := (if k in grouped then grouped[k] else []) + [bgc]];
      }
      assert bgcs[..|bgcs|] == bgcs;
    }
  }

  /** The inner loop: every registered metric, in registration order, applied to one group. */
  method MetricsRow(group: seq<Bgc>) returns (row: map<string, real>)
    ensures row == MetricsOf(group)
  {
    row := map[];
    for m := 0 to |MetricNames|
      invariant forall name :: name in row <==> name in MetricNames[..m]
      invariant forall name :: name in row ==> row[name] == MetricRegistry[name](group)
    {
      row := row[MetricNames[m] := MetricRegistry[MetricNames[m]](group)];
    }
    assert MetricNames[..|MetricNames|] == MetricNames;
  }

  // The engine on the test data: three BGCs, two complete and one incomplete

  const SampleBgcs: seq<Bgc> := [
    Bgc("id", "_", 0, 100, Complete, ["PKS"]),
    Bgc("id", "_", 50, 150, Incomplete, ["NRPS"]),
    Bgc("id", "_", 200, 300, Complete, ["PKS"])]

  lemma SampleCompletenessKeys()
    ensures var key := GroupKey(["completeness"]);
      key(SampleBgcs[0]) == ["Complete"] && key(SampleBgcs[1]) == ["Incomplete"] && key(SampleBgcs[2]) == ["Complete"]
  {
  }

  lemma SampleCompletenessGroups()
    ensures var key := GroupKey(["completeness"]);
      && KeysOf(SampleBgcs, key) == [["Complete"], ["Incomplete"]]
      && GroupOf(SampleBgcs, key, ["Complete"]) == [SampleBgcs[0], SampleBgcs[2]]
      && GroupOf(SampleBgcs, key, ["Incomplete"]) == [SampleBgcs[1]]
  {
    var key := GroupKey(["completeness"]);
    var s := SampleBgcs;
    var c, i := ["Complete"], ["Incomplete"];
    SampleCompletenessKeys();
    assert s == [s[0]] + [s[1]] + [s[2]];
    assert [s[0]] + [s[1]] == [s[0], s[1]] && [s[0], s[1]] + [s[2]] == s;
    MapSeqSnoc([s[0]], s[1], key);
    MapSeqSnoc([s[0], s[1]], s[2], key);
    assert MapSeq(s, key) == [c, i, c];
    FirstSeenSnoc([], c);
    FirstSeenSnoc([c], i);
    FirstSeenSnoc([c, i], c);
    assert [] + [c] == [c] && [c] + [i] == [c, i] && [c, i] + [c] == [c, i, c];
    FilterSnoc([s[0]], s[1], HasKey(key, c));
    FilterSnoc([s[0], s[1]], s[2], HasKey(key, c));
    FilterSnoc([s[0]], s[1], HasKey(key, i));
    FilterSnoc([s[0], s[1]], s[2], HasKey(key, i));
    assert Filter([s[0]], HasKey(key, c)) == [s[0]];
    assert Filter([s[0]], HasKey(key, i)) == [];
  }

  /** Grouping the sample by completeness gives the groups ("Complete",) and ("Incomplete",)
      with counts 2 and 1 and mean length 100 in both. */
  lemma GroupByCompletenessExample()
    ensures KeysOf(SampleBgcs, GroupKey(["completeness"])) == [["Complete"], ["Incomplete"]]
    ensures TotalCount(GroupOf(SampleBgcs, GroupKey(["completeness"]), ["Complete"])) == 2.0
    ensures TotalCount(GroupOf(SampleBgcs, GroupKey(["completeness"]), ["Incomplete"])) == 1.0
    ensures MeanLength(GroupOf(SampleBgcs, GroupKey(["completeness"]), ["Complete"])) == 100.0
    ensures MeanLength(GroupOf(SampleBgcs, GroupKey(["completeness"]), ["Incomplete"])) == 100.0
  {
    var s := SampleBgcs;
    SampleCompletenessGroups();
    MeanLengthUniform([s[0], s[2]], 100);
    MeanLengthUniform([s[1]], 100);
  }

  /** BGCs that all have the same positive length have that length as their mean length. */
  lemma MeanLengthUniform(group: seq<Bgc>, len: int)
    requires |group| > 0 && len > 0
    requires forall i :: 0 <= i < |group| ==> Length(group[i]) == len
    ensures MeanLength(group) == len as real
  {
    FilterAll(group, HasPositiveLength);
    var lengths := MapSeq(group, Length);
    assert PositiveLengths(group) == lengths;
    SumWithin(lengths, len, len);
    ScaledMean(|group|, len);
  }

  lemma ScaledMean(n: int, len: int)
    requires n > 0
    ensures (n * len) as real / n as real == len as real
  {
    assert (n * len) as real == n as real * len as real;
  }

  /** A BGC without product types is keyed "Unknown" by product type, so grouping an incomplete
      one by completeness and product type yields ("Incomplete", "Unknown"), and a BGC with two
      product types yields "Hybrid". */
  lemma CompletenessAndProductTypeKeys()
    ensures GroupKey(["completeness", "product_type"])(Bgc("id", "_", end := 150, completeness := Incomplete))
      == ["Incomplete", "Unknown"]
    ensures GroupKey(["completeness", "product_type"])(Bgc("id", "_", 200, 300, Complete, ["PKS", "NRPS"]))
      == ["Complete", "Hybrid"]
  {
  }

  /** Grouping no BGCs gives no groups, so the result is empty. */
  lemma EmptyInputGivesNoGroups(groupBy: seq<string>)
    ensures KeysOf([], GroupKey(groupBy)) == []
  {
  }

  lemma UnregisteredFilterExample()
    ensures Filter(["completeness", "foo", "bar"], Unregistered) == ["foo", "bar"]
  {
    FilterSnoc([], "completeness", Unregistered);
    FilterSnoc(["completeness"], "foo", Unregistered);
    FilterSnoc(["completeness", "foo"], "bar", Unregistered);
    assert [] + ["completeness"] == ["completeness"];
    assert ["completeness"] + ["foo"] == ["completeness", "foo"];
    assert ["completeness", "foo"] + ["bar"] == ["completeness", "foo", "bar"];
  }

  /** A request for an unregistered key names it in the message. */
  lemma InvalidKeyExample()
    ensures InvalidKeysMessage(["invalid_key"]) == "Invalid grouping keys: invalid_key"
  {
    FilterSnoc([], "invalid_key", Unregistered);
    assert [] + ["invalid_key"] == ["invalid_key"];
  }

  /** Several unregistered keys are listed comma-separated, registered ones left out. */
  lemma InvalidKeysListedInOrder()
    ensures InvalidKeysMessage(["completeness", "foo", "bar"]) == "Invalid grouping keys: foo, bar"
  {
    UnregisteredFilterExample();
    assert ["foo", "bar"][1..] == ["bar"];
    assert Join(", ", ["foo", "bar"]) == "foo" + ", " + "bar";
  }

  /** Per-group counts add up to the number of BGCs: every BGC lands in exactly one group. */
  lemma GroupCountsAddUp(bgcs: seq<Bgc>, groupBy: seq<string>)
    ensures SizeSum(bgcs, GroupKey(groupBy), KeysOf(bgcs, GroupKey(groupBy))) == |bgcs|
    ensures forall i :: 0 <= i < |bgcs| ==> bgcs[i] in GroupOf(bgcs, GroupKey(groupBy), GroupKey(groupBy)(bgcs[i]))
    ensures forall key :: key in KeysOf(bgcs, GroupKey(groupBy)) ==>
      TotalCount(GroupOf(bgcs, GroupKey(groupBy), key)) >= 1.0
  {
    GroupSizesAddUp(bgcs, GroupKey(groupBy));
    GroupsPartition(bgcs, GroupKey(groupBy));
  }
}
