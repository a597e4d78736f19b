/** The two config generators, configs/myconfigs128x128/cfg_gen.py and
    configs/vit_cfgs/cfg_gen.py. Each walks the product of its axes in loop
    order and writes one config per combination. The config is modelled as
    the record of the fields its template fills in, plus its first line, which
    is the command that runs it behind `# `. */
module CfgGen {
  import opened Text
  import Product
  import Sweep

  /** One `label: value` entry of an axis dict, in insertion order. */
  type Axis<V> = seq<(string, V)>

  datatype Config = Config(
    runName: string,
    path: string,          // os.path.join(output_path, f"{run_name}.cfg")
    header: string,        // first line of the written file
    arrayHeight: nat,
    arrayWidth: nat,
    ifmapSramKb: nat,
    filterSramKb: nat,
    ofmapSramKb: nat,
    nonZeroElems: Option<nat>,  // only the myconfigs template has NonZeroElems
    blockSize: nat)

  const OutputPath := "./"

  // configs/myconfigs128x128/cfg_gen.py
  const MyModels: seq<string> := ["Resnet18"]
  const MySizes: Axis<nat> := [("1kb", 1), ("16kb", 16), ("64kb", 64), ("256kb", 256), ("1mb", 1024),
                               ("5mb", 5120), ("10mb", 10240), ("50mb", 51200), ("100mb", 102400)]
  const MySparsities: Axis<(nat, nat)> := [("1s4", (1, 4)), ("2s4", (2, 4)), ("4s4", (4, 4))]
  const MyArrays: Axis<(nat, nat)> := [("128x128", (128, 128))]

  // configs/vit_cfgs/cfg_gen.py
  const VitModels: seq<string> := ["vit_l", "vit_s", "vit_b"]
  const VitSizes: Axis<nat> := [("5mb", 5120), ("1mb", 1024), ("256kb", 256), ("64kb", 64)]
  const VitBlocks: Axis<nat> := [("b4", 4), ("b8", 8), ("b16", 16)]
  const VitArrays: Axis<(nat, nat)> := [("128x128", (128, 128)), ("64x64", (64, 64))]

  /** `f"{a}_{b}_{c}_{d}"`. */
  function RunName(a: string, b: string, c: string, d: string): string {
    a + "_" + b + "_" + c + "_" + d
  }

  /** The name splits into the fields of its first label (the model, which may
      itself hold `_`) followed by the other three labels, when those hold no `_`. */
  lemma RunNameFields(a: string, b: string, c: string, d: string)
    requires '_' !in b && '_' !in c && '_' !in d
    ensures Split(RunName(a, b, c, d), '_') == Split(a, '_') + [b, c, d]
  {
    assert [b, c, d][1..] == [c, d] && [c, d][1..] == [d];
    assert Join([c, d], '_') == c + "_" + d;
    assert Join([b, c, d], '_') == b + "_" + (c + "_" + d);
    assert RunName(a, b, c, d) == a + ['_'] + Join([b, c, d], '_');
    SplitConcat(a, Join([b, c, d], '_'), '_');
    SplitJoin([b, c, d], '_');
  }

  /** Equal run names have equal labels. */
  lemma RunNameInjective(a: string, b: string, c: string, d: string, a': string, b': string, c': string, d': string)
    requires '_' !in b && '_' !in c && '_' !in d && '_' !in b' && '_' !in c' && '_' !in d'
    ensures RunName(a, b, c, d) == RunName(a', b', c', d') ==> a == a' && b == b' && c == c' && d == d'
  {
    RunNameFields(a, b, c, d);
    RunNameFields(a', b', c', d');
    if RunName(a, b, c, d) == RunName(a', b', c', d') {
      var f, f' := Split(a, '_'), Split(a', '_');
      assert f + [b, c, d] == f' + [b', c', d'];
      assert |f| == |f'|;
      assert f == (f + [b, c, d])[..|f|] == (f' + [b', c', d'])[..|f'|] == f';
      JoinSplit(a, '_');
      JoinSplit(a', '_');
      assert (f + [b, c, d])[|f|..] == [b, c, d];
      assert (f' + [b', c', d'])[|f'|..] == [b', c', d'];
    }
  }

  /** The run command written in the header of a myconfigs config. */
  function MyCommandWords(arrayLabel: string, runName: string, model: string): seq<string> {
    ["python3", "scalesim/scale.py", "-c", "configs/myconfigs" + arrayLabel + "/" + runName + ".cfg",
     "-t", "topologies/conv_nets/" + model + ".csv", "-p", "sparsesim/sparsity_results", ">", runName + ".txt"]
  }

  /** The run command of a vit config: its header without `# `, and the entry
      appended to `commands`. */
  function VitCommandWords(runName: string, model: string): seq<string> {
    ["python3", "scalesim/scale.py", "-c", "configs/vit_cfgs/" + runName + ".cfg",
     "-t", "topologies/sparsity/" + model + ".csv", "-p", "sparsity_results/vit_results", "-i", "gemm",
     ">", runName + ".txt"]
  }

  function VitCommand(runName: string, model: string): string {
    Join(VitCommandWords(runName, model), ' ')
  }

  /** `generate_formatted_cfg` of myconfigs128x128. */
  function MyConfig(model: string, size: (string, nat), sparsity: (string, (nat, nat)),
                    arraySize: (string, (nat, nat))): Config
  {
    var run := RunName(model, size.0, sparsity.0, arraySize.0);
    Config(run, Sweep.PathJoin(OutputPath, run + ".cfg"),
           "# " + Join(MyCommandWords(arraySize.0, run, model), ' '),
           arraySize.1.0, arraySize.1.1, size.1, size.1, size.1, Some(sparsity.1.0), sparsity.1.1)
  }

  /** `generate_formatted_cfg` of vit_cfgs, without its append to `commands`. */
  function VitConfig(model: string, size: (string, nat), block: (string, nat),
                     arraySize: (string, (nat, nat))): Config
  {
    var run := RunName(model, size.0, block.0, arraySize.0);
    Config(run, Sweep.PathJoin(OutputPath, run + ".cfg"), "# " + VitCommand(run, model),
           arraySize.1.0, arraySize.1.1, size.1, size.1, size.1, None, block.1)
  }

  /** The loop order of myconfigs128x128: model > size > sparsity > arraysize. */
  function MyPoints(models: seq<string>, sizes: Axis<nat>, sparsities: Axis<(nat, nat)>,
                    arrays: Axis<(nat, nat)>): seq<(string, ((string, nat), ((string, (nat, nat)), (string, (nat, nat)))))>
  {
    Product.Pairs(models, Product.Pairs(sizes, Product.Pairs(sparsities, arrays)))
  }

  /** The loop order of vit_cfgs: model > arraysize > size > block. */
  function VitPoints(models: seq<string>, arrays: Axis<(nat, nat)>, sizes: Axis<nat>,
                     blocks: Axis<nat>): seq<(string, ((string, (nat, nat)), ((string, nat), (string, nat))))>
  {
    Product.Pairs(models, Product.Pairs(arrays, Product.Pairs(sizes, blocks)))
  }

  function MyConfigs(models: seq<string>, sizes: Axis<nat>, sparsities: Axis<(nat, nat)>,
                     arrays: Axis<(nat, nat)>): (cs: seq<Config>)
    ensures |cs| == |MyPoints(models, sizes, sparsities, arrays)|
  {
    var pts := MyPoints(models, sizes, sparsities, arrays);
    seq(|pts|, k requires 0 <= k < |pts| => MyConfig(pts[k].0, pts[k].1.0, pts[k].1.1.0, pts[k].1.1.1))
  }

  /** The vit loop: one config and one command per combination, the command
      appended by the same call that writes the config. */
  method GenerateVit(models: seq<string>, arrays: Axis<(nat, nat)>, sizes: Axis<nat>, blocks: Axis<nat>)
    returns (configs: seq<Config>, commands: seq<string>)
    ensures |configs| == |commands| == |VitPoints(models, arrays, sizes, blocks)|
    ensures forall k :: 0 <= k < |configs| ==>
              var p := VitPoints(models, arrays, sizes, blocks)[k];
              configs[k] == VitConfig(p.0, p.1.1.0, p.1.1.1, p.1.0)
              && configs[k].header == "# " + commands[k]
              && commands[k] == VitCommand(configs[k].runName, p.0)
  {
    var pts := VitPoints(models, arrays, sizes, blocks);
    configs := [];
    commands := [];
    var k := 0;
    while k < |pts|
      invariant 0 <= k <= |pts|
      invariant |configs| == |commands| == k
      invariant forall i :: 0 <= i < k ==>
                  configs[i] == VitConfig(pts[i].0, pts[i].1.1.0, pts[i].1.1.1, pts[i].1.0)
                  && configs[i].header == "# " + commands[i]
                  && commands[i] == VitCommand(configs[i].runName, pts[i].0)
    {
      var p := pts[k];
      var c := VitConfig(p.0, p.1.1.0, p.1.1.1, p.1.0);
      configs := configs + [c];
      commands := commands + [VitCommand(c.runName, p.0)];
      k := k + 1;
    }
  }

  /** cmds.txt: every command followed by a newline, in order. */
  function CmdsText(commands: seq<string>): (t: string)
    ensures |commands| == 0 ==> t == ""
  {
    if |commands| == 0 then ""
    else CmdsText(commands[..|commands| - 1]) + commands[|commands| - 1] + "\n"
  }

  /** cmds.txt is the commands joined by newlines, with a newline after the last. */
  lemma {:induction false} CmdsTextJoin(commands: seq<string>)
    ensures CmdsText(commands) == Join(commands + [""], '\n')
  {
    if |commands| > 0 {
      var init := commands[..|commands| - 1];
      var last := commands[|commands| - 1];
      CmdsTextJoin(init);
      assert commands + [""] == (init + [last]) + [""];
      JoinAppend(init + [last], [""], '\n');
      if |init| > 0 {
        JoinAppend(init, [last], '\n');
        JoinAppend(init, [""], '\n');
      } else {
        assert init + [last] == [last];
      }
    }
  }

  /** Reading cmds.txt back line by line gives the commands, then the empty
      text after the final newline. */
  lemma CmdsTextLines(commands: seq<string>)
    requires forall k :: 0 <= k < |commands| ==> '\n' !in commands[k]
    ensures Split(CmdsText(commands), '\n') == commands + [""]
  {
    var lines := commands + [""];
    forall k | 0 <= k < |lines|
      ensures '\n' !in lines[k]
    {
      if k < |commands| {
        assert lines[k] == commands[k];
      }
    }
    CmdsTextJoin(commands);
    SplitJoin(lines, '\n');
    assert Split(Join(lines, '\n'), '\n') == lines;
  }

  /** No two entries of an axis share a label. */
  predicate DistinctLabels<V>(axis: Axis<V>) {
    forall i, j :: 0 <= i < j < |axis| ==> axis[i].0 != axis[j].0
  }

  /** A model name that survives space-splitting, line reading and path joining. */
  predicate CleanModel(s: string) {
    |s| > 0 && ' ' !in s && '\n' !in s && '\r' !in s && '/' !in s
  }

  /** An axis label that also survives `_`-splitting. */
  predicate CleanLabel(s: string) {
    CleanModel(s) && '_' !in s
  }

  predicate CleanAxis<V>(axis: Axis<V>) {
    DistinctLabels(axis) && forall i :: 0 <= i < |axis| ==> CleanLabel(axis[i].0)
  }

  predicate CleanModels(models: seq<string>) {
    Product.Distinct(models) && forall i :: 0 <= i < |models| ==> CleanModel(models[i])
  }

  lemma DistinctLabelsDistinct<V>(axis: Axis<V>)
    requires DistinctLabels(axis)
    ensures Product.Distinct(axis)
  {
  }

  /** Two entries of an axis with distinct labels and the same label are the same entry. */
  lemma SameLabelSameEntry<V>(axis: Axis<V>, x: (string, V), y: (string, V))
    requires DistinctLabels(axis) && x in axis && y in axis && x.0 == y.0
    ensures x == y
  {
    var i :| 0 <= i < |axis| && axis[i] == x;
    var j :| 0 <= j < |axis| && axis[j] == y;
  }

  lemma SameLabelSameEntryIf<V>(axis: Axis<V>, x: (string, V), y: (string, V))
    requires DistinctLabels(axis) && x in axis && y in axis
    ensures x.0 == y.0 ==> x == y
  {
    if x.0 == y.0 {
      SameLabelSameEntry(axis, x, y);
    }
  }

  /** A generator writes one config per combination of its axes. */
  lemma ConfigCounts(models: seq<string>, sizes: Axis<nat>, sparsities: Axis<(nat, nat)>, arrays: Axis<(nat, nat)>,
                     blocks: Axis<nat>)
    ensures |MyConfigs(models, sizes, sparsities, arrays)| == |models| * (|sizes| * (|sparsities| * |arrays|))
    ensures |VitPoints(models, arrays, sizes, blocks)| == |models| * (|arrays| * (|sizes| * |blocks|))
  {
    Product.PairsCount(sparsities, arrays);
    Product.PairsCount(sizes, Product.Pairs(sparsities, arrays));
    Product.PairsCount(models, Product.Pairs(sizes, Product.Pairs(sparsities, arrays)));
    Product.PairsCount(sizes, blocks);
    Product.PairsCount(arrays, Product.Pairs(sizes, blocks));
    Product.PairsCount(models, Product.Pairs(arrays, Product.Pairs(sizes, blocks)));
  }

  /** 1 * 9 * 3 * 1 = 27 configs and 3 * 2 * 4 * 3 = 72 configs and commands. */
  method ListedCounts() returns (my: nat, vit: nat)
    ensures my == |MyConfigs(MyModels, MySizes, MySparsities, MyArrays)| == 27
    ensures vit == |VitPoints(VitModels, VitArrays, VitSizes, VitBlocks)| == 72
  {
    ConfigCounts(MyModels, MySizes, MySparsities, MyArrays, VitBlocks);
    ConfigCounts(VitModels, VitSizes, MySparsities, VitArrays, VitBlocks);
    var cs := MyConfigs(MyModels, MySizes, MySparsities, MyArrays);
    var configs, commands := GenerateVit(VitModels, VitArrays, VitSizes, VitBlocks);
    my := |cs|;
    vit := |configs|;
  }

  /** The myconfigs loops in order: model slowest, array size fastest. */
  lemma MyOrder(models: seq<string>, sizes: Axis<nat>, sparsities: Axis<(nat, nat)>, arrays: Axis<(nat, nat)>,
                mi: nat, si: nat, pi: nat, ai: nat)
    requires mi < |models| && si < |sizes| && pi < |sparsities| && ai < |arrays|
    ensures var k := Product.Position(mi, |sizes| * (|sparsities| * |arrays|),
                                      Product.Position(si, |sparsities| * |arrays|, Product.Position(pi, |arrays|, ai)));
            k < |MyConfigs(models, sizes, sparsities, arrays)|
            && MyConfigs(models, sizes, sparsities, arrays)[k] == MyConfig(models[mi], sizes[si], sparsities[pi], arrays[ai])
  {
    MyPointAt(models, sizes, sparsities, arrays, mi, si, pi, ai);
  }

  lemma MyPointAt(models: seq<string>, sizes: Axis<nat>, sparsities: Axis<(nat, nat)>, arrays: Axis<(nat, nat)>,
                  mi: nat, si: nat, pi: nat, ai: nat)
    requires mi < |models| && si < |sizes| && pi < |sparsities| && ai < |arrays|
    ensures var k := Product.Position(mi, |sizes| * (|sparsities| * |arrays|),
                                      Product.Position(si, |sparsities| * |arrays|, Product.Position(pi, |arrays|, ai)));
            k < |MyPoints(models, sizes, sparsities, arrays)|
            && MyPoints(models, sizes, sparsities, arrays)[k] == (models[mi], (sizes[si], (sparsities[pi], arrays[ai])))
  {
    var inner := Product.Pairs(sparsities, arrays);
    var middle := Product.Pairs(sizes, inner);
    var i1 := pi * |arrays| + ai;
    Product.PairsIndex(sparsities, arrays, pi, ai);
    assert |inner| == |sparsities| * |arrays|;
    var i2 := si * |inner| + i1;
    Product.PairsIndex(sizes, inner, si, i1);
    assert |middle| == |sizes| * |inner|;
    Product.PairsIndex(models, middle, mi, i2);
  }

  /** The vit loops in order: model slowest, then array size, size, block. */
  lemma VitOrder(models: seq<string>, arrays: Axis<(nat, nat)>, sizes: Axis<nat>, blocks: Axis<nat>,
                 mi: nat, ai: nat, si: nat, bi: nat)
    requires mi < |models| && ai < |arrays| && si < |sizes| && bi < |blocks|
    ensures var k := Product.Position(mi, |arrays| * (|sizes| * |blocks|),
                                      Product.Position(ai, |sizes| * |blocks|, Product.Position(si, |blocks|, bi)));
            k < |VitPoints(models, arrays, sizes, blocks)|
            && VitPoints(models, arrays, sizes, blocks)[k] == (models[mi], (arrays[ai], (sizes[si], blocks[bi])))
  {
    var inner := Product.Pairs(sizes, blocks);
    var middle := Product.Pairs(arrays, inner);
    var i1 := si * |blocks| + bi;
    Product.PairsIndex(sizes, blocks, si, bi);
    assert |inner| == |sizes| * |blocks|;
    var i2 := ai * |inner| + i1;
    Product.PairsIndex(arrays, inner, ai, i1);
    assert |middle| == |arrays| * |inner|;
    Product.PairsIndex(models, middle, mi, i2);
  }

  /** Each component of a myconfigs combination comes from its axis. */
  lemma MyPointIn(models: seq<string>, sizes: Axis<nat>, sparsities: Axis<(nat, nat)>, arrays: Axis<(nat, nat)>,
                  k: nat)
    requires k < |MyPoints(models, sizes, sparsities, arrays)|
    ensures var p := MyPoints(models, sizes, sparsities, arrays)[k];
            p.0 in models && p.1.0 in sizes && p.1.1.0 in sparsities && p.1.1.1 in arrays
  {
    var inner := Product.Pairs(sparsities, arrays);
    var middle := Product.Pairs(sizes, inner);
    var p := MyPoints(models, sizes, sparsities, arrays)[k];
    Product.PairsIn(models, middle, k);
    var m :| 0 <= m < |middle| && middle[m] == p.1;
    Product.PairsIn(sizes, inner, m);
    var n :| 0 <= n < |inner| && inner[n] == p.1.1;
    Product.PairsIn(sparsities, arrays, n);
  }

  /** The same for vit_cfgs. */
  lemma VitPointIn(models: seq<string>, arrays: Axis<(nat, nat)>, sizes: Axis<nat>, blocks: Axis<nat>, k: nat)
    requires k < |VitPoints(models, arrays, sizes, blocks)|
    ensures var p := VitPoints(models, arrays, sizes, blocks)[k];
            p.0 in models && p.1.0 in arrays && p.1.1.0 in sizes && p.1.1.1 in blocks
  {
    var inner := Product.Pairs(sizes, blocks);
    var middle := Product.Pairs(arrays, inner);
    var p := VitPoints(models, arrays, sizes, blocks)[k];
    Product.PairsIn(models, middle, k);
    var m :| 0 <= m < |middle| && middle[m] == p.1;
    Product.PairsIn(arrays, inner, m);
    var n :| 0 <= n < |inner| && inner[n] == p.1.1;
    Product.PairsIn(sizes, blocks, n);
  }

  /** The template field mapping of myconfigs128x128, read off the run name:
      the name's four fields are the model and three axis labels, the three SRAM
      sizes are the size label's value, NonZeroElems and BlockSize are the
      sparsity label's (N, M), the array dimensions the array label's pair, and
      the file sits at `./{run_name}.cfg`. */
  lemma MyConfigFields(models: seq<string>, sizes: Axis<nat>, sparsities: Axis<(nat, nat)>, arrays: Axis<(nat, nat)>,
                       k: nat)
    requires CleanModels(models) && CleanAxis(sizes) && CleanAxis(sparsities) && CleanAxis(arrays)
    requires k < |MyConfigs(models, sizes, sparsities, arrays)|
    ensures var c := MyConfigs(models, sizes, sparsities, arrays)[k];
            var f := Split(c.runName, '_');
            var n := |f| - 3;
            n >= 1 && Join(f[..n], '_') in models
            && (f[n], c.ifmapSramKb) in sizes && c.filterSramKb == c.ifmapSramKb && c.ofmapSramKb == c.ifmapSramKb
            && c.nonZeroElems.Some? && (f[n + 1], (c.nonZeroElems.value, c.blockSize)) in sparsities
            && (f[n + 2], (c.arrayHeight, c.arrayWidth)) in arrays
            && c.path == "./" + c.runName + ".cfg"
  {
    MyPointIn(models, sizes, sparsities, arrays, k);
    var p := MyPoints(models, sizes, sparsities, arrays)[k];
    RunNameFields(p.0, p.1.0.0, p.1.1.0.0, p.1.1.1.0);
    FieldsPrefix(p.0, [p.1.0.0, p.1.1.0.0, p.1.1.1.0]);
    RunNamePath(p.0, p.1.0.0, p.1.1.0.0, p.1.1.1.0);
  }

  /** The vit field mapping: BlockSize is the block label's value and the three
      SRAM sizes the size label's. */
  lemma VitConfigFields(models: seq<string>, arrays: Axis<(nat, nat)>, sizes: Axis<nat>, blocks: Axis<nat>, k: nat)
    requires CleanModels(models) && CleanAxis(arrays) && CleanAxis(sizes) && CleanAxis(blocks)
    requires k < |VitPoints(models, arrays, sizes, blocks)|
    ensures var p := VitPoints(models, arrays, sizes, blocks)[k];
            var c := VitConfig(p.0, p.1.1.0, p.1.1.1, p.1.0);
            var f := Split(c.runName, '_');
            var n := |f| - 3;
            n >= 1 && Join(f[..n], '_') in models
            && (f[n], c.ifmapSramKb) in sizes && c.filterSramKb == c.ifmapSramKb && c.ofmapSramKb == c.ifmapSramKb
            && c.nonZeroElems.None? && (f[n + 1], c.blockSize) in blocks
            && (f[n + 2], (c.arrayHeight, c.arrayWidth)) in arrays
            && c.path == "./" + c.runName + ".cfg"
  {
    VitPointIn(models, arrays, sizes, blocks, k);
    var p := VitPoints(models, arrays, sizes, blocks)[k];
    RunNameFields(p.0, p.1.1.0.0, p.1.1.1.0, p.1.0.0);
    FieldsPrefix(p.0, [p.1.1.0.0, p.1.1.1.0, p.1.0.0]);
    RunNamePath(p.0, p.1.1.0.0, p.1.1.1.0, p.1.0.0);
  }

  /** The fields before the last three rejoin to the model. */
  lemma FieldsPrefix(a: string, rest: seq<string>)
    ensures (Split(a, '_') + rest)[..|Split(a, '_')|] == Split(a, '_')
    ensures Join(Split(a, '_'), '_') == a
  {
    assert (Split(a, '_') + rest)[..|Split(a, '_')|] == Split(a, '_');
    JoinSplit(a, '_');
  }

  /** `os.path.join("./", f"{run_name}.cfg")`. */
  lemma RunNamePath(a: string, b: string, c: string, d: string)
    requires |a| > 0 && a[0] != '/'
    ensures Sweep.PathJoin(OutputPath, RunName(a, b, c, d) + ".cfg") == "./" + RunName(a, b, c, d) + ".cfg"
  {
    assert (RunName(a, b, c, d) + ".cfg")[0] == a[0];
  }

  /** With clean axes every myconfigs run name is different. */
  lemma MyRunNamesDistinct(models: seq<string>, sizes: Axis<nat>, sparsities: Axis<(nat, nat)>,
                           arrays: Axis<(nat, nat)>)
    requires CleanModels(models) && CleanAxis(sizes) && CleanAxis(sparsities) && CleanAxis(arrays)
    ensures var cs := MyConfigs(models, sizes, sparsities, arrays);
            forall i, j :: 0 <= i < j < |cs| ==> cs[i].runName != cs[j].runName
  {
    var cs := MyConfigs(models, sizes, sparsities, arrays);
    var pts := MyPoints(models, sizes, sparsities, arrays);
    Product.PairsDistinct(sparsities, arrays);
    Product.PairsDistinct(sizes, Product.Pairs(sparsities, arrays));
    Product.PairsDistinct(models, Product.Pairs(sizes, Product.Pairs(sparsities, arrays)));
    forall i, j | 0 <= i < j < |cs|
      ensures cs[i].runName != cs[j].runName
    {
      MyPointIn(models, sizes, sparsities, arrays, i);
      MyPointIn(models, sizes, sparsities, arrays, j);
      var p, q := pts[i], pts[j];
      RunNameInjective(p.0, p.1.0.0, p.1.1.0.0, p.1.1.1.0, q.0, q.1.0.0, q.1.1.0.0, q.1.1.1.0);
      SameLabelSameEntryIf(sizes, p.1.0, q.1.0);
      SameLabelSameEntryIf(sparsities, p.1.1.0, q.1.1.0);
      SameLabelSameEntryIf(arrays, p.1.1.1, q.1.1.1);
    }
  }

  /** With clean axes every vit run name is different. */
  lemma VitRunNamesDistinct(models: seq<string>, arrays: Axis<(nat, nat)>, sizes: Axis<nat>, blocks: Axis<nat>)
    requires CleanModels(models) && CleanAxis(arrays) && CleanAxis(sizes) && CleanAxis(blocks)
    ensures var pts := VitPoints(models, arrays, sizes, blocks);
            forall i, j :: 0 <= i < j < |pts| ==>
              RunName(pts[i].0, pts[i].1.1.0.0, pts[i].1.1.1.0, pts[i].1.0.0)
              != RunName(pts[j].0, pts[j].1.1.0.0, pts[j].1.1.1.0, pts[j].1.0.0)
  {
    var pts := VitPoints(models, arrays, sizes, blocks);
    Product.PairsDistinct(sizes, blocks);
    Product.PairsDistinct(arrays, Product.Pairs(sizes, blocks));
    Product.PairsDistinct(models, Product.Pairs(arrays, Product.Pairs(sizes, blocks)));
    forall i, j | 0 <= i < j < |pts|
      ensures RunName(pts[i].0, pts[i].1.1.0.0, pts[i].1.1.1.0, pts[i].1.0.0)
              != RunName(pts[j].0, pts[j].1.1.0.0, pts[j].1.1.1.0, pts[j].1.0.0)
    {
      VitPointIn(models, arrays, sizes, blocks, i);
      VitPointIn(models, arrays, sizes, blocks, j);
      var p, q := pts[i], pts[j];
      RunNameInjective(p.0, p.1.1.0.0, p.1.1.1.0, p.1.0.0, q.0, q.1.1.0.0, q.1.1.1.0, q.1.0.0);
      SameLabelSameEntryIf(arrays, p.1.0, q.1.0);
      SameLabelSameEntryIf(sizes, p.1.1.0, q.1.1.0);
      SameLabelSameEntryIf(blocks, p.1.1.1, q.1.1.1);
    }
  }

  /** The axes both scripts list are clean. */
  lemma ListedAxesClean()
    ensures CleanModels(MyModels) && CleanAxis(MySizes) && CleanAxis(MySparsities) && CleanAxis(MyArrays)
    ensures CleanModels(VitModels) && CleanAxis(VitArrays) && CleanAxis(VitSizes) && CleanAxis(VitBlocks)
  {
    MySizesClean();
    VitSizesClean();
    SmallAxesClean();
  }

  lemma MySizesClean()
    ensures CleanAxis(MySizes)
  {
    var labels := ["1kb", "16kb", "64kb", "256kb", "1mb", "5mb", "10mb", "50mb", "100mb"];
    assert forall i :: 0 <= i < |MySizes| ==> MySizes[i].0 == labels[i];
    KbLabelsClean();
    MbLabelsClean();
    forall i, j | 0 <= i < j < |labels|
      ensures labels[i] != labels[j]
    {
      assert labels[i][|labels[i]| - 2] != labels[j][|labels[j]| - 2] || |labels[i]| != |labels[j]|
             || labels[i][0] != labels[j][0];
    }
  }

  lemma KbLabelsClean()
    ensures CleanLabel("1kb") && CleanLabel("16kb") && CleanLabel("64kb") && CleanLabel("256kb")
  {
  }

  lemma MbLabelsClean()
    ensures CleanLabel("1mb") && CleanLabel("5mb") && CleanLabel("10mb") && CleanLabel("50mb")
    ensures CleanLabel("100mb")
  {
  }

  lemma VitSizesClean()
    ensures CleanAxis(VitSizes)
  {
    var labels := ["5mb", "1mb", "256kb", "64kb"];
    assert forall i :: 0 <= i < |VitSizes| ==> VitSizes[i].0 == labels[i];
    assert forall i :: 0 <= i < |labels| ==> CleanLabel(labels[i]);
  }

  lemma SmallAxesClean()
    ensures CleanModels(MyModels) && CleanAxis(MySparsities) && CleanAxis(MyArrays)
    ensures CleanModels(VitModels) && CleanAxis(VitArrays) && CleanAxis(VitBlocks)
  {
    ModelsClean();
    LabelsClean();
  }

  lemma ModelsClean()
    ensures CleanModels(MyModels) && CleanModels(VitModels)
  {
    assert CleanModel("Resnet18");
    assert CleanModel("vit_l") && CleanModel("vit_s") && CleanModel("vit_b");
  }

  lemma LabelsClean()
    ensures CleanAxis(MySparsities) && CleanAxis(MyArrays) && CleanAxis(VitArrays) && CleanAxis(VitBlocks)
  {
    SparsityLabelsClean();
    ArrayLabelsClean();
    BlockLabelsClean();
  }

  lemma SparsityLabelsClean()
    ensures CleanAxis(MySparsities)
  {
    assert CleanLabel("1s4") && CleanLabel("2s4") && CleanLabel("4s4");
  }

  lemma ArrayLabelsClean()
    ensures CleanAxis(MyArrays) && CleanAxis(VitArrays)
  {
    assert CleanLabel("128x128") && CleanLabel("64x64");
  }

  lemma BlockLabelsClean()
    ensures CleanAxis(VitBlocks)
  {
    assert CleanLabel("b4") && CleanLabel("b8") && CleanLabel("b16");
  }

  /** For the listed values, no two of the 27 and no two of the 72 run names
      coincide. */
  lemma ListedRunNamesDistinct()
    ensures var cs := MyConfigs(MyModels, MySizes, MySparsities, MyArrays);
            forall i, j :: 0 <= i < j < |cs| ==> cs[i].runName != cs[j].runName
    ensures var pts := VitPoints(VitModels, VitArrays, VitSizes, VitBlocks);
            forall i, j :: 0 <= i < j < |pts| ==>
              RunName(pts[i].0, pts[i].1.1.0.0, pts[i].1.1.1.0, pts[i].1.0.0)
              != RunName(pts[j].0, pts[j].1.1.0.0, pts[j].1.1.1.0, pts[j].1.0.0)
  {
    ListedAxesClean();
    MyRunNamesDistinct(MyModels, MySizes, MySparsities, MyArrays);
    VitRunNamesDistinct(VitModels, VitArrays, VitSizes, VitBlocks);
  }

  /** Two numbers around a one-character separator, as in `2s4` or `128x128`. */
  function ParsePair(text: string, sep: char): (r: Option<(nat, nat)>)
    ensures r.Some? <==> |Split(text, sep)| == 2
                         && ParseNat(Split(text, sep)[0]).Some? && ParseNat(Split(text, sep)[1]).Some?
  {
    var f := Split(text, sep);
    if |f| != 2 then None
    else
      match (ParseNat(f[0]), ParseNat(f[1]))
      case (Some(a), Some(b)) => Some((a, b))
      case _ => None
  }

  /** A pair of numbers written around a non-digit separator reads back. */
  lemma ParsePairOf(a: nat, b: nat, sep: char)
    requires !IsDigit(sep)
    ensures ParsePair(NatToString(a) + [sep] + NatToString(b), sep) == Some((a, b))
  {
    NatToStringHasNo(a, sep);
    NatToStringHasNo(b, sep);
    SplitConcat(NatToString(a), NatToString(b), sep);
    SplitNoSep(NatToString(a), sep);
    SplitNoSep(NatToString(b), sep);
    ParseNatToString(a);
    ParseNatToString(b);
  }

  /** Every listed sparsity label `NsM` names its (NonZeroElems, BlockSize)
      pair, and every array label `HxW` its (ArrayHeight, ArrayWidth) pair. */
  lemma ListedLabelsEncodeValues()
    ensures forall i :: 0 <= i < |MySparsities| ==> ParsePair(MySparsities[i].0, 's') == Some(MySparsities[i].1)
    ensures forall i :: 0 <= i < |MyArrays| ==> ParsePair(MyArrays[i].0, 'x') == Some(MyArrays[i].1)
    ensures forall i :: 0 <= i < |VitArrays| ==> ParsePair(VitArrays[i].0, 'x') == Some(VitArrays[i].1)
  {
    SparsityLabelsEncode();
    MyArrayLabelsEncode();
    VitArrayLabelsEncode();
  }

  lemma MyArrayLabelsEncode()
    ensures forall i :: 0 <= i < |MyArrays| ==> ParsePair(MyArrays[i].0, 'x') == Some(MyArrays[i].1)
  {
    ArrayLabelsEncode();
  }

  lemma VitArrayLabelsEncode()
    ensures forall i :: 0 <= i < |VitArrays| ==> ParsePair(VitArrays[i].0, 'x') == Some(VitArrays[i].1)
  {
    ArrayLabelsEncode();
  }

  lemma SparsityLabelsEncode()
    ensures ParsePair("1s4", 's') == Some((1, 4))
    ensures ParsePair("2s4", 's') == Some((2, 4))
    ensures ParsePair("4s4", 's') == Some((4, 4))
  {
    assert NatToString(1) == "1" && NatToString(2) == "2" && NatToString(4) == "4";
    LabelEncodes(1, 4, 's', "1s4");
    LabelEncodes(2, 4, 's', "2s4");
    LabelEncodes(4, 4, 's', "4s4");
  }

  lemma ArrayLabelsEncode()
    ensures ParsePair("128x128", 'x') == Some((128, 128))
    ensures ParsePair("64x64", 'x') == Some((64, 64))
  {
    Label128Encodes();
    Label64Encodes();
  }

  lemma Label128Encodes()
    ensures ParsePair("128x128", 'x') == Some((128, 128))
  {
    assert NatToString(12) == "12";
    assert NatToString(128) == "128";
    LabelEncodes(128, 128, 'x', "128x128");
  }

  lemma Label64Encodes()
    ensures ParsePair("64x64", 'x') == Some((64, 64))
  {
    assert NatToString(64) == "64";
    LabelEncodes(64, 64, 'x', "64x64");
  }

  lemma LabelEncodes(a: nat, b: nat, sep: char, text: string)
    requires !IsDigit(sep) && text == NatToString(a) + [sep] + NatToString(b)
    ensures ParsePair(text, sep) == Some((a, b))
  {
    ParsePairOf(a, b, sep);
  }

  /** The first line of a myconfigs config is `# ` and a command whose config
      argument is that config's own file and whose output file is `{run_name}.txt`. */
  lemma MyHeaderCommand(model: string, size: (string, nat), sparsity: (string, (nat, nat)),
                        arraySize: (string, (nat, nat)))
    requires CleanModel(model) && CleanLabel(size.0) && CleanLabel(sparsity.0) && CleanLabel(arraySize.0)
    ensures var c := MyConfig(model, size, sparsity, arraySize);
            |c.header| >= 2 && c.header[..2] == "# "
            && var words := Split(c.header[2..], ' ');
               |words| == 10 && words[2] == "-c"
               && words[3] == "configs/myconfigs" + arraySize.0 + "/" + c.runName + ".cfg"
               && words[9] == c.runName + ".txt"
  {
    var run := RunName(model, size.0, sparsity.0, arraySize.0);
    var words := MyCommandWords(arraySize.0, run, model);
    MyWordsNoSpace(arraySize.0, run, model);
    SplitJoin(words, ' ');
    var c := MyConfig(model, size, sparsity, arraySize);
    assert c.header[2..] == Join(words, ' ');
  }

  /** The first line of a vit config is `# ` and its command, and the command
      splits into the words of the run line, naming the config's own file. */
  lemma VitHeaderCommand(model: string, size: (string, nat), block: (string, nat), arraySize: (string, (nat, nat)))
    requires CleanModel(model) && CleanLabel(size.0) && CleanLabel(block.0) && CleanLabel(arraySize.0)
    ensures var c := VitConfig(model, size, block, arraySize);
            c.header == "# " + VitCommand(c.runName, model)
            && Split(VitCommand(c.runName, model), ' ') == VitCommandWords(c.runName, model)
            && VitCommandWords(c.runName, model)[3] == "configs/vit_cfgs/" + c.runName + ".cfg"
  {
    var run := RunName(model, size.0, block.0, arraySize.0);
    var words := VitCommandWords(run, model);
    VitWordsNoSpace(run, model);
    SplitJoin(words, ' ');
  }

  lemma MyWordsNoSpace(arrayLabel: string, runName: string, model: string)
    requires ' ' !in arrayLabel && ' ' !in runName && ' ' !in model
    ensures var words := MyCommandWords(arrayLabel, runName, model);
            forall k :: 0 <= k < |words| ==> ' ' !in words[k]
  {
    FixedWordsNoSpace();
    assert ' ' !in "configs/myconfigs" && ' ' !in "topologies/conv_nets/";
    assert ' ' !in "sparsesim/sparsity_results";
  }

  lemma VitWordsNoSpace(runName: string, model: string)
    requires ' ' !in runName && ' ' !in model
    ensures var words := VitCommandWords(runName, model);
            forall k :: 0 <= k < |words| ==> ' ' !in words[k]
  {
    FixedWordsNoSpace();
    assert ' ' !in "configs/vit_cfgs/" && ' ' !in "topologies/sparsity/";
    assert ' ' !in "sparsity_results/vit_results";
  }

  /** The program, option and extension words of both run commands. */
  lemma FixedWordsNoSpace()
    ensures ' ' !in "python3" && ' ' !in "scalesim/scale.py" && ' ' !in "gemm"
    ensures ' ' !in "-c" && ' ' !in "-t" && ' ' !in "-p" && ' ' !in "-i" && ' ' !in ">"
    ensures ' ' !in ".cfg" && ' ' !in ".csv" && ' ' !in ".txt" && ' ' !in "/"
  {
  }
}
