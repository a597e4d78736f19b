/** Per-layer compute reports grouped by convolution stage
    (sparsesim/computecyclesplot.py and sparsesim/computecyclesplot_128x128.py).

    A report is the `(LayerID, Total Cycles)` column pair of a COMPUTE_REPORT.csv;
    whether a report file exists and what it holds is an input (`fs`). */
module Grouping {
  import opened Text
  import Runner
  import CfgGen
  import Product

  /** One row of a report: layer id and total cycles. */
  type Rows = seq<(int, int)>

  datatype Group = Group(name: string, ids: set<int>)

  /** `conv_groups` of computecyclesplot.py. */
  const Groups5: seq<Group> := [
    Group("Conv1", {0}),
    Group("Conv2", {1, 2, 3, 4}),
    Group("Conv3", {5, 6, 7, 8, 9}),
    Group("Conv4", {10, 11, 12, 13, 14}),
    Group("Conv5", {15, 16, 17, 18, 19})]

  /** `conv_groups` of computecyclesplot_128x128.py: the same and the FC layer. */
  const Groups6: seq<Group> := Groups5 + [Group("FC", {20})]

  /** `layer_cycles[layer_cycles['LayerID'].isin(ids)][' Total Cycles'].sum()`
      over the first `n` rows; an empty selection sums to 0. */
  function Total(rows: Rows, ids: set<int>, n: nat): int
    requires n <= |rows|
  {
    if n == 0 then 0
    else Total(rows, ids, n - 1) + (if rows[n - 1].0 in ids then rows[n - 1].1 else 0)
  }

  /** `group_layers_by_conv`: one `(group, total)` entry per group, in order,
      each carrying the summed Total Cycles of the rows whose LayerID is in
      that group. */
  function GroupLayers(rows: Rows, groups: seq<Group>): (r: seq<(string, int)>)
    ensures |r| == |groups|
    ensures forall g :: 0 <= g < |groups| ==> r[g].0 == groups[g].name
    ensures forall g :: 0 <= g < |groups| ==> r[g].1 == Total(rows, groups[g].ids, |rows|)
  {
    seq(|groups|, g requires 0 <= g < |groups| => (groups[g].name, Total(rows, groups[g].ids, |rows|)))
  }

  /** The ids of the first `n` groups. */
  function Union(groups: seq<Group>, n: nat): set<int>
    requires n <= |groups|
  {
    if n == 0 then {} else Union(groups, n - 1) + groups[n - 1].ids
  }

  predicate PairwiseDisjoint(groups: seq<Group>) {
    forall g, h :: 0 <= g < h < |groups| ==> groups[g].ids * groups[h].ids == {}
  }

  /** The sum of the totals of the first `n` groups. */
  function SumTotals(rows: Rows, groups: seq<Group>, n: nat): int
    requires n <= |groups|
  {
    if n == 0 then 0 else SumTotals(rows, groups, n - 1) + Total(rows, groups[n - 1].ids, |rows|)
  }

  /** The five stage groups are disjoint and cover exactly the layers 0..19. */
  lemma Groups5Partition()
    ensures PairwiseDisjoint(Groups5)
    ensures forall id :: id in Union(Groups5, |Groups5|) <==> 0 <= id <= 19
  {
    Groups5Disjoint();
    Groups5Cover();
  }

  lemma Groups5Disjoint()
    ensures PairwiseDisjoint(Groups5)
  {
    forall g, h | 0 <= g < h < |Groups5|
      ensures Groups5[g].ids * Groups5[h].ids == {}
    {
      forall id | id in Groups5[g].ids
        ensures id !in Groups5[h].ids
      {
        assert g == 0 ==> id == 0;
        assert g == 1 ==> 1 <= id <= 4;
        assert g == 2 ==> 5 <= id <= 9;
        assert g == 3 ==> 10 <= id <= 14;
      }
    }
  }

  lemma Groups5Cover()
    ensures forall id :: id in Union(Groups5, |Groups5|) <==> 0 <= id <= 19
  {
    forall id
      ensures id in Union(Groups5, 5) <==> 0 <= id <= 19
    {
      UnionMembers(Groups5, 5, id);
      if 0 <= id <= 19 {
        var g := if id == 0 then 0 else id / 5 + 1;
        Groups5Range(g, id);
      } else {
        forall g | 0 <= g < 5
          ensures id !in Groups5[g].ids
        {
          Groups5Range(g, id);
        }
      }
    }
  }

  /** Group `g` of the five holds one contiguous run of layer ids. */
  lemma Groups5Range(g: nat, id: int)
    requires g < 5
    ensures g == 0 ==> (id in Groups5[g].ids <==> id == 0)
    ensures g == 1 ==> (id in Groups5[g].ids <==> 1 <= id <= 4)
    ensures g >= 2 ==> (id in Groups5[g].ids <==> 5 * (g - 1) <= id <= 5 * g - 1)
  {
  }

  /** An id is in the union of the first `n` groups exactly when one of them holds it. */
  lemma {:induction false} UnionMembers(groups: seq<Group>, n: nat, id: int)
    requires n <= |groups|
    ensures id in Union(groups, n) <==> exists g :: 0 <= g < n && id in groups[g].ids
  {
    if n > 0 {
      UnionMembers(groups, n - 1, id);
    }
  }

  /** The six groups of the 128x128 script are disjoint and cover exactly 0..20. */
  lemma Groups6Partition()
    ensures PairwiseDisjoint(Groups6)
    ensures forall id :: id in Union(Groups6, |Groups6|) <==> 0 <= id <= 20
  {
    Groups5Partition();
    assert Union(Groups6, 5) == Union(Groups5, 5) by {
      UnionPrefix(Groups5, [Group("FC", {20})], 5);
    }
    assert Groups6[5].ids == {20};
    forall g, h | 0 <= g < h < |Groups6|
      ensures Groups6[g].ids * Groups6[h].ids == {}
    {
      if h < 5 {
        assert Groups6[g] == Groups5[g] && Groups6[h] == Groups5[h];
      } else {
        assert Groups6[g] == Groups5[g];
        InUnion(Groups5, 5, g, 20);
      }
    }
  }

  lemma {:induction false} UnionPrefix(a: seq<Group>, b: seq<Group>, n: nat)
    requires n <= |a|
    ensures Union(a + b, n) == Union(a, n)
  {
    if n > 0 {
      UnionPrefix(a, b, n - 1);
      assert (a + b)[n - 1] == a[n - 1];
    }
  }

  /** Totals over disjoint id sets add up to the total over their union. */
  lemma {:induction false} TotalUnion(rows: Rows, a: set<int>, b: set<int>, n: nat)
    requires n <= |rows| && a * b == {}
    ensures Total(rows, a + b, n) == Total(rows, a, n) + Total(rows, b, n)
  {
    if n > 0 {
      TotalUnion(rows, a, b, n - 1);
      var id := rows[n - 1].0;
      if id in a {
        assert id !in b by {
          assert id in b ==> id in a * b;
        }
      }
    }
  }

  /** The union of the first groups shares no id with a later group. */
  lemma {:induction false} UnionDisjoint(groups: seq<Group>, n: nat, h: nat)
    requires PairwiseDisjoint(groups) && n <= h < |groups|
    ensures Union(groups, n) * groups[h].ids == {}
  {
    if n > 0 {
      UnionDisjoint(groups, n - 1, h);
      assert groups[n - 1].ids * groups[h].ids == {};
    }
  }

  /** For disjoint groups, the group totals add up to the total over all rows
      whose layer is in some group. */
  lemma {:induction false} PartitionSum(rows: Rows, groups: seq<Group>, n: nat)
    requires PairwiseDisjoint(groups) && n <= |groups|
    ensures SumTotals(rows, groups, n) == Total(rows, Union(groups, n), |rows|)
  {
    if n == 0 {
      TotalEmpty(rows, |rows|);
    } else {
      PartitionSum(rows, groups, n - 1);
      UnionDisjoint(groups, n - 1, n - 1);
      TotalUnion(rows, Union(groups, n - 1), groups[n - 1].ids, |rows|);
    }
  }

  lemma {:induction false} TotalEmpty(rows: Rows, n: nat)
    requires n <= |rows|
    ensures Total(rows, {}, n) == 0
  {
    if n > 0 {
      TotalEmpty(rows, n - 1);
    }
  }

  /** A group none of whose layers occurs in the report totals 0. */
  lemma {:induction false} TotalOfAbsent(rows: Rows, ids: set<int>, n: nat)
    requires n <= |rows| && forall k :: 0 <= k < n ==> rows[k].0 !in ids
    ensures Total(rows, ids, n) == 0
  {
    if n > 0 {
      TotalOfAbsent(rows, ids, n - 1);
    }
  }

  /** A row whose layer is in no group changes no group's total. */
  lemma RowOutsideIgnored(rows: Rows, groups: seq<Group>, extra: (int, int))
    requires extra.0 !in Union(groups, |groups|)
    ensures GroupLayers(rows + [extra], groups) == GroupLayers(rows, groups)
  {
    forall g | 0 <= g < |groups|
      ensures Total(rows + [extra], groups[g].ids, |rows| + 1) == Total(rows, groups[g].ids, |rows|)
    {
      InUnion(groups, |groups|, g, extra.0);
      TotalPrefix(rows, [extra], groups[g].ids, |rows|);
    }
  }

  /** An id of a group is in the union of any prefix containing that group. */
  lemma {:induction false} InUnion(groups: seq<Group>, n: nat, g: nat, id: int)
    requires g < n <= |groups|
    ensures id in groups[g].ids ==> id in Union(groups, n)
  {
    if g < n - 1 {
      InUnion(groups, n - 1, g, id);
    }
  }

  lemma {:induction false} TotalPrefix(a: Rows, b: Rows, ids: set<int>, n: nat)
    requires n <= |a|
    ensures Total(a + b, ids, n) == Total(a, ids, n)
  {
    if n > 0 {
      TotalPrefix(a, b, ids, n - 1);
      assert (a + b)[n - 1] == a[n - 1];
    }
  }

  /** The cycles of the rows, among the first `n`, whose layer lies in `lo..hi`. */
  function TotalInRange(rows: Rows, lo: int, hi: int, n: nat): int
    requires n <= |rows|
  {
    if n == 0 then 0
    else TotalInRange(rows, lo, hi, n - 1) + (if lo <= rows[n - 1].0 <= hi then rows[n - 1].1 else 0)
  }

  /** A total over a set of ids is the total over a range holding the same ids. */
  lemma {:induction false} TotalIsRange(rows: Rows, ids: set<int>, lo: int, hi: int, n: nat)
    requires n <= |rows| && forall id :: id in ids <==> lo <= id <= hi
    ensures Total(rows, ids, n) == TotalInRange(rows, lo, hi, n)
  {
    if n > 0 {
      TotalIsRange(rows, ids, lo, hi, n - 1);
    }
  }

  /** The sum of the values of the first `n` entries of a grouping. */
  function SumValues(r: seq<(string, int)>, n: nat): int
    requires n <= |r|
  {
    if n == 0 then 0 else SumValues(r, n - 1) + r[n - 1].1
  }

  /** The values `group_layers_by_conv` returns add up to the group totals. */
  lemma {:induction false} GroupedSum(rows: Rows, groups: seq<Group>, n: nat)
    requires n <= |groups|
    ensures SumValues(GroupLayers(rows, groups), n) == SumTotals(rows, groups, n)
  {
    if n > 0 {
      GroupedSum(rows, groups, n - 1);
    }
  }

  /** The five stage values `group_layers_by_conv` returns for a report add up
      to the cycles of its layers 0..19, and the six of the 128x128 script to
      those of its layers 0..20: rows of other layers count nowhere, and no
      row counts twice. */
  lemma StageTotalsSum(rows: Rows)
    ensures SumValues(GroupLayers(rows, Groups5), 5) == TotalInRange(rows, 0, 19, |rows|)
    ensures SumValues(GroupLayers(rows, Groups6), 6) == TotalInRange(rows, 0, 20, |rows|)
  {
    GroupedSum(rows, Groups5, 5);
    GroupedSum(rows, Groups6, 6);
    Groups5Partition();
    Groups6Partition();
    PartitionSum(rows, Groups5, 5);
    PartitionSum(rows, Groups6, 6);
    TotalIsRange(rows, Union(Groups5, 5), 0, 19, |rows|);
    TotalIsRange(rows, Union(Groups6, 6), 0, 20, |rows|);
  }

  /** Which of the two plotting scripts. */
  datatype Variant =
    | Plain     // computecyclesplot.py
    | Array128  // computecyclesplot_128x128.py

  function Groups(v: Variant): seq<Group> {
    match v
    case Plain => Groups5
    case Array128 => Groups6
  }

  /** The directory `read_compute_cycles` looks in. */
  function ReportDir(v: Variant, model: string, size: string, sparsity: string): string {
    match v
    case Plain => model + "_" + size + "_" + sparsity
    case Array128 => model + "_" + size + "_" + sparsity + "_128x128"
  }

  function ReportPath(v: Variant, model: string, size: string, sparsity: string): string {
    match v
    case Plain => "sparsity_results/" + ReportDir(v, model, size, sparsity) + "/COMPUTE_REPORT.csv"
    case Array128 => "sparsity_results_128x128/" + ReportDir(v, model, size, sparsity) + "/COMPUTE_REPORT.csv"
  }

  /** The report directories of the 128x128 script are the run names
      myconfigs128x128 gives its configs. */
  lemma ReportDirIsRunName(model: string, size: (string, nat), sparsity: (string, (nat, nat)))
    ensures ReportDir(Array128, model, size.0, sparsity.0)
            == CfgGen.MyConfig(model, size, sparsity, ("128x128", (128, 128))).runName
  {
  }

  /** `cycles_by_memory` for one model and sparsity: the grouped report of each
      size whose report exists, in size order. */
  function CyclesByMemory(fs: string -> Option<Rows>, v: Variant, model: string, sparsity: string,
                          sizes: seq<string>): (r: seq<seq<(string, int)>>)
    ensures |r| <= |sizes|
  {
    Runner.Collect(Reports(fs, v, model, sparsity, sizes))
  }

  function Reports(fs: string -> Option<Rows>, v: Variant, model: string, sparsity: string,
                   sizes: seq<string>): (r: seq<Option<seq<(string, int)>>>)
    ensures |r| == |sizes|
  {
    seq(|sizes|, i requires 0 <= i < |sizes| =>
      match fs(ReportPath(v, model, sizes[i], sparsity))
      case None => None
      case Some(rows) => Some(GroupLayers(rows, Groups(v))))
  }

  /** One entry per existing report: all sizes when every report exists, and
      each entry is the grouping of a report that exists. */
  lemma CyclesByMemoryEntries(fs: string -> Option<Rows>, v: Variant, model: string, sparsity: string,
                              sizes: seq<string>, k: nat)
    ensures (forall i :: 0 <= i < |sizes| ==> fs(ReportPath(v, model, sizes[i], sparsity)).Some?)
            ==> |CyclesByMemory(fs, v, model, sparsity, sizes)| == |sizes|
    ensures k < |CyclesByMemory(fs, v, model, sparsity, sizes)| ==>
              exists i :: 0 <= i < |sizes| && fs(ReportPath(v, model, sizes[i], sparsity)).Some?
                && CyclesByMemory(fs, v, model, sparsity, sizes)[k]
                   == GroupLayers(fs(ReportPath(v, model, sizes[i], sparsity)).value, Groups(v))
  {
    var xs := Reports(fs, v, model, sparsity, sizes);
    if forall i :: 0 <= i < |sizes| ==> fs(ReportPath(v, model, sizes[i], sparsity)).Some? {
      Runner.CollectAllPresent(xs, |xs|);
    }
    if k < |CyclesByMemory(fs, v, model, sparsity, sizes)| {
      Runner.CollectFrom(xs, |xs|, k);
    }
  }

  /** When every report exists, entry `i` is the grouping of the `i`-th size's
      report: the entries follow the sizes, as the plot pairs them with the
      memory sizes. */
  lemma CyclesByMemoryInOrder(fs: string -> Option<Rows>, v: Variant, model: string, sparsity: string,
                              sizes: seq<string>)
    requires forall i :: 0 <= i < |sizes| ==> fs(ReportPath(v, model, sizes[i], sparsity)).Some?
    ensures |CyclesByMemory(fs, v, model, sparsity, sizes)| == |sizes|
    ensures forall i :: 0 <= i < |sizes| ==>
              CyclesByMemory(fs, v, model, sparsity, sizes)[i]
              == GroupLayers(fs(ReportPath(v, model, sizes[i], sparsity)).value, Groups(v))
  {
    Runner.CollectAllPresent(Reports(fs, v, model, sparsity, sizes), |sizes|);
  }

  /** One entry per existing report: the length of `cycles_by_memory` is the
      number of sizes whose report exists. */
  lemma CyclesByMemoryCount(fs: string -> Option<Rows>, v: Variant, model: string, sparsity: string,
                            sizes: seq<string>)
    ensures |CyclesByMemory(fs, v, model, sparsity, sizes)| == Runner.Present(Reports(fs, v, model, sparsity, sizes))
  {
    Runner.CollectCount(Reports(fs, v, model, sparsity, sizes));
  }

  /** The loop over sizes in order: one more size appends the grouping of its
      report when that report exists, and nothing when it does not. */
  lemma CyclesByMemoryAppend(fs: string -> Option<Rows>, v: Variant, model: string, sparsity: string,
                             sizes: seq<string>, size: string)
    ensures CyclesByMemory(fs, v, model, sparsity, sizes + [size])
            == CyclesByMemory(fs, v, model, sparsity, sizes)
               + match fs(ReportPath(v, model, size, sparsity))
                 case None => []
                 case Some(rows) => [GroupLayers(rows, Groups(v))]
  {
    var xs := Reports(fs, v, model, sparsity, sizes);
    var ys := Reports(fs, v, model, sparsity, [size]);
    assert Reports(fs, v, model, sparsity, sizes + [size]) == xs + ys;
    Runner.CollectAppend(xs, ys);
    assert Runner.CollectUpTo(ys, 0) == [];
  }

  /** No sizes, no entries. */
  lemma CyclesByMemoryEmpty(fs: string -> Option<Rows>, v: Variant, model: string, sparsity: string)
    ensures CyclesByMemory(fs, v, model, sparsity, []) == []
  {
  }

  /** `cycles_dict`: for each model and sparsity (model outer), the key
      `f'{model}_{sparsity}'` and its `cycles_by_memory`. */
  function CyclesDict(fs: string -> Option<Rows>, v: Variant, models: seq<string>, sparsities: seq<string>,
                      sizes: seq<string>): (d: seq<(string, seq<seq<(string, int)>>)>)
    ensures |d| == |models| * |sparsities|
  {
    CyclesDictUpTo(fs, v, models, sparsities, sizes, |models|)
  }

  function CyclesDictUpTo(fs: string -> Option<Rows>, v: Variant, models: seq<string>, sparsities: seq<string>,
                          sizes: seq<string>, n: nat): (d: seq<(string, seq<seq<(string, int)>>)>)
    requires n <= |models|
    ensures |d| == n * |sparsities|
  {
    if n == 0 then []
    else
      var m := models[n - 1];
      CyclesDictUpTo(fs, v, models, sparsities, sizes, n - 1)
      + seq(|sparsities|, j requires 0 <= j < |sparsities| =>
              (m + "_" + sparsities[j], CyclesByMemory(fs, v, m, sparsities[j], sizes)))
  }

  /** The entry for the `i`-th model and `j`-th sparsity sits at position
      `i * |sparsities| + j` (model outer, sparsity inner) and carries the key
      `<model>_<sparsity>` and that pair's `cycles_by_memory`. */
  lemma CyclesDictAt(fs: string -> Option<Rows>, v: Variant, models: seq<string>, sparsities: seq<string>,
                     sizes: seq<string>, i: nat, j: nat)
    requires i < |models| && j < |sparsities|
    ensures Product.Position(i, |sparsities|, j) < |CyclesDict(fs, v, models, sparsities, sizes)|
    ensures CyclesDict(fs, v, models, sparsities, sizes)[Product.Position(i, |sparsities|, j)]
            == (models[i] + "_" + sparsities[j], CyclesByMemory(fs, v, models[i], sparsities[j], sizes))
  {
    CyclesDictUpToAt(fs, v, models, sparsities, sizes, |models|, i, j);
  }

  /** With distinct models and distinct `_`-free sparsity labels, the entries of
      two different (model, sparsity) pairs have different keys, so building the
      dict overwrites nothing. */
  lemma CyclesDictKeysDistinct(fs: string -> Option<Rows>, v: Variant, models: seq<string>,
                               sparsities: seq<string>, sizes: seq<string>, i: nat, j: nat, i': nat, j': nat)
    requires i < |models| && i' < |models| && j < |sparsities| && j' < |sparsities|
    requires forall a, b :: 0 <= a < b < |models| ==> models[a] != models[b]
    requires forall a, b :: 0 <= a < b < |sparsities| ==> sparsities[a] != sparsities[b]
    requires forall a :: 0 <= a < |sparsities| ==> '_' !in sparsities[a]
    requires i != i' || j != j'
    ensures var d := CyclesDict(fs, v, models, sparsities, sizes);
            Product.Position(i, |sparsities|, j) < |d| && Product.Position(i', |sparsities|, j') < |d|
    ensures var d := CyclesDict(fs, v, models, sparsities, sizes);
            d[Product.Position(i, |sparsities|, j)].0 != d[Product.Position(i', |sparsities|, j')].0
  {
    CyclesDictAt(fs, v, models, sparsities, sizes, i, j);
    CyclesDictAt(fs, v, models, sparsities, sizes, i', j');
    DictKeyInjective(models[i], sparsities[j], models[i'], sparsities[j']);
  }

  lemma {:induction false} CyclesDictUpToAt(fs: string -> Option<Rows>, v: Variant, models: seq<string>,
                                            sparsities: seq<string>, sizes: seq<string>, n: nat, i: nat, j: nat)
    requires i < n <= |models| && j < |sparsities|
    ensures Product.Position(i, |sparsities|, j) < n * |sparsities|
    ensures CyclesDictUpTo(fs, v, models, sparsities, sizes, n)[Product.Position(i, |sparsities|, j)]
            == (models[i] + "_" + sparsities[j], CyclesByMemory(fs, v, models[i], sparsities[j], sizes))
  {
    var prev := CyclesDictUpTo(fs, v, models, sparsities, sizes, n - 1);
    var p := Product.Position(i, |sparsities|, j);
    assert n * |sparsities| == (n - 1) * |sparsities| + |sparsities|;
    if i == n - 1 {
      assert p == |prev| + j;
    } else {
      CyclesDictUpToAt(fs, v, models, sparsities, sizes, n - 1, i, j);
    }
  }

  /** Equal keys come from equal model and sparsity when the sparsity label holds
      no `_`, so no entry of `cycles_dict` overwrites another. */
  lemma DictKeyInjective(m: string, s: string, m': string, s': string)
    requires '_' !in s && '_' !in s'
    ensures m + "_" + s == m' + "_" + s' ==> m == m' && s == s'
  {
    SplitConcat(m, s, '_');
    SplitConcat(m', s', '_');
    SplitNoSep(s, '_');
    SplitNoSep(s', '_');
    assert m + "_" + s == m + ['_'] + s;
    assert m' + "_" + s' == m' + ['_'] + s';
    if m + "_" + s == m' + "_" + s' {
      var f, f' := Split(m, '_'), Split(m', '_');
      assert f + [s] == f' + [s'];
      assert f == (f + [s])[..|f|] == (f' + [s'])[..|f'|] == f';
      JoinSplit(m, '_');
      JoinSplit(m', '_');
      assert (f + [s])[|f|] == s;
    }
  }

  // The `__main__` lists of the two scripts.
  const PlainSizes: seq<string> := ["1mb", "5mb", "10mb", "50mb", "100mb"]
  const PlainOnChip: seq<nat> := [1, 5, 10, 50, 100]
  const Sizes128: seq<string> := ["16kb", "64kb", "256kb", "1mb"]
  const OnChip128: seq<nat> := [16, 64, 256, 1024]
  const Sparsities: seq<string> := ["1s4", "2s4", "4s4"]

  /** `[x*3 for x in on_chip_memory_sizes]`. */
  function TripleMemory(sizes: seq<nat>): (r: seq<nat>)
    ensures |r| == |sizes|
  {
    seq(|sizes|, i requires 0 <= i < |sizes| => sizes[i] * 3)
  }

  /** The plotted memory of the 128x128 script is the whole on-chip SRAM of the
      config run for that size: each listed size is the kB value myconfigs128x128
      gives its label, and the three SRAMs of such a config add up to the plotted
      value. */
  lemma PlottedMemoryIsTotalSram(model: string, sparsity: (string, (nat, nat)), i: nat)
    requires i < |Sizes128|
    ensures (Sizes128[i], OnChip128[i]) in CfgGen.MySizes
    ensures var c := CfgGen.MyConfig(model, (Sizes128[i], OnChip128[i]), sparsity, ("128x128", (128, 128)));
            c.ifmapSramKb + c.filterSramKb + c.ofmapSramKb == TripleMemory(OnChip128)[i]
  {
    assert CfgGen.MySizes[1] == ("16kb", 16) && CfgGen.MySizes[2] == ("64kb", 64);
    assert CfgGen.MySizes[3] == ("256kb", 256) && CfgGen.MySizes[4] == ("1mb", 1024);
  }
}
