/** The simulation sweep the three driver scripts enumerate before anything
    runs: for each array size a config file name, and for each sparsity ratio of
    that size a workload file name, an `N:M` label and a simulator command line.

    graph_simulations.py sweeps N over 1..M (M = array height);
    graph_simulations_rws.py and graph_simulations1_rws.py run N over `range(1)`,
    that is N = 0 only, and the last of them always passes the 32x32 config. */
module Sweep {
  import opened Text
  import Product

  datatype Variant =
    | PerRatio          // graph_simulations.py
    | SingleRatio       // graph_simulations_rws.py
    | SingleRatioCfg32  // graph_simulations1_rws.py

  datatype ArraySize = ArraySize(height: nat, width: nat)

  /** `array_sizes` in all three scripts. */
  const ListedSizes: seq<ArraySize> :=
    [ArraySize(4, 4), ArraySize(8, 8), ArraySize(16, 16), ArraySize(32, 32)]

  const CfgDir := "configs/new"
  const CsvDir := "topologies/sparsity/new"
  const ResultsDir := "sparsity_results/new"

  /** `os.path.join(a, b)` for two components on a POSIX system. */
  function PathJoin(a: string, b: string): string {
    if |b| > 0 && b[0] == '/' then b
    else if |a| == 0 || a[|a| - 1] == '/' then a + b
    else a + "/" + b
  }

  /** Joining a name that does not start with a slash onto a directory without a
      trailing slash puts exactly one slash between them. */
  lemma PathJoinRelative(dir: string, name: string)
    requires |dir| > 0 && dir[|dir| - 1] != '/'
    requires |name| == 0 || name[0] != '/'
    ensures PathJoin(dir, name) == dir + "/" + name
  {
  }

  /** The name joined onto a directory is read back as the last path component. */
  lemma PathJoinLast(dir: string, name: string)
    requires |dir| > 0 && dir[|dir| - 1] != '/'
    requires '/' !in name
    ensures var parts := Split(PathJoin(dir, name), '/');
            parts == Split(dir, '/') + [name] && parts[|parts| - 1] == name
  {
    assert |name| > 0 ==> name[0] in name;
    PathJoinRelative(dir, name);
    assert dir + "/" + name == dir + ['/'] + name;
    SplitConcat(dir, name, '/');
    SplitNoSep(name, '/');
  }

  /** `f"{ah}x{aw}"`. */
  function SizeLabel(s: ArraySize): string {
    NatToString(s.height) + "x" + NatToString(s.width)
  }

  /** `f"{n}:{ah}"`. */
  function RatioLabel(n: nat, m: nat): string {
    NatToString(n) + ":" + NatToString(m)
  }

  /** `f"lws_{ah}x{aw}.cfg"`. */
  function CfgName(s: ArraySize): string {
    "lws_" + SizeLabel(s) + ".cfg"
  }

  /** `f"lws_gemm_{ah}x{aw}_{n}x{ah}.csv"` (per ratio) or `..._{n}s{ah}.csv`. */
  function CsvName(v: Variant, s: ArraySize, n: nat): string {
    "lws_gemm_" + (NatToString(s.height) + ("x" + (NatToString(s.width) + ("_" + (NatToString(n)
      + (RatioMark(v) + (NatToString(s.height) + ".csv")))))))
  }

  function RatioMark(v: Variant): string {
    if v.PerRatio? then "x" else "s"
  }

  /** The N values swept for an array of height `m`. */
  function Ns(v: Variant, m: nat): (ns: seq<nat>)
    ensures v.PerRatio? ==> |ns| == m
    ensures !v.PerRatio? ==> ns == [0]
  {
    if v.PerRatio? then seq(m, k => k + 1) else [0]
  }

  /** `scalesim_command_template.format(...)`. */
  function CommandLine(cfg: string, csv: string, results: string): string {
    Join(CommandWords(cfg, csv, results), ' ')
  }

  /** The template's words: `python3 scalesim/scale.py -c {cfg_file} -t {csv_file}
      -p {results_path} -i gemm`, separated by single spaces. */
  function CommandWords(cfg: string, csv: string, results: string): seq<string> {
    ["python3", "scalesim/scale.py", "-c", cfg, "-t", csv, "-p", results, "-i", "gemm"]
  }

  /** The config a command passes with `-c`. */
  function CfgPath(v: Variant, s: ArraySize): string {
    PathJoin(CfgDir, if v.SingleRatioCfg32? then "lws_32x32.cfg" else CfgName(s))
  }

  function CsvPath(v: Variant, s: ArraySize, n: nat): string {
    PathJoin(CsvDir, CsvName(v, s, n))
  }

  /** The `(command, array_size, sparsity_ratio)` triple appended to `commands`;
      the command is kept as the three paths the template is filled with. */
  datatype Job = Job(cfg: string, csv: string, arraySize: string, ratio: string)

  function MakeJob(v: Variant, s: ArraySize, n: nat): Job {
    Job(CfgPath(v, s), CsvPath(v, s, n), SizeLabel(s), RatioLabel(n, s.height))
  }

  /** The command line the job runs. */
  function Command(j: Job): string {
    CommandLine(j.cfg, j.csv, ResultsDir)
  }

  /** The inner loop over N for one array size, as (size, N) points. */
  function SizePoints(v: Variant, s: ArraySize): (ps: seq<(ArraySize, nat)>)
    ensures |ps| == |Ns(v, s.height)|
  {
    var ns := Ns(v, s.height);
    seq(|ns|, k requires 0 <= k < |ns| => (s, ns[k]))
  }

  /** One block of points per array size. */
  function Blocks(v: Variant, sizes: seq<ArraySize>): (b: seq<seq<(ArraySize, nat)>>)
    ensures |b| == |sizes|
  {
    seq(|sizes|, i requires 0 <= i < |sizes| => SizePoints(v, sizes[i]))
  }

  /** The outer loop appends each size's block in order: the points are
      array-size major. */
  function Points(v: Variant, sizes: seq<ArraySize>): seq<(ArraySize, nat)> {
    Product.Flatten(Blocks(v, sizes), |sizes|)
  }

  /** The whole `commands` list: one job per point, in the same order. */
  function Jobs(v: Variant, sizes: seq<ArraySize>): (js: seq<Job>)
    ensures |js| == |Points(v, sizes)|
  {
    var ps := Points(v, sizes);
    seq(|ps|, k requires 0 <= k < |ps| => MakeJob(v, ps[k].0, ps[k].1))
  }

  /** How many ratios a size contributes. */
  function PerSize(v: Variant, s: ArraySize): nat {
    if v.PerRatio? then s.height else 1
  }

  /** How many commands the first `i` sizes contribute. */
  function Offset(v: Variant, sizes: seq<ArraySize>, i: nat): nat
    requires i <= |sizes|
  {
    if i == 0 then 0 else Offset(v, sizes, i - 1) + PerSize(v, sizes[i - 1])
  }

  /** The block of each size starts after the ratios of the sizes before it. */
  lemma {:induction false} StartIsOffset(v: Variant, sizes: seq<ArraySize>, n: nat)
    requires n <= |sizes|
    ensures Product.Start(Blocks(v, sizes), n) == Offset(v, sizes, n)
  {
    if n > 0 {
      StartIsOffset(v, sizes, n - 1);
      assert Blocks(v, sizes)[n - 1] == SizePoints(v, sizes[n - 1]);
    }
  }

  /** The list holds one command per (size, N) point. */
  lemma JobCount(v: Variant, sizes: seq<ArraySize>)
    ensures |Jobs(v, sizes)| == Offset(v, sizes, |sizes|)
  {
    StartIsOffset(v, sizes, |sizes|);
  }

  /** 4 + 8 + 16 + 32 = 60 commands per ratio sweep, one per size otherwise. */
  lemma ListedCounts()
    ensures |Jobs(PerRatio, ListedSizes)| == 60
    ensures |Jobs(SingleRatio, ListedSizes)| == 4
    ensures |Jobs(SingleRatioCfg32, ListedSizes)| == 4
  {
    JobCount(PerRatio, ListedSizes);
    JobCount(SingleRatio, ListedSizes);
    JobCount(SingleRatioCfg32, ListedSizes);
  }

  /** Order: the k-th ratio of the i-th size sits right after all points of the
      sizes before it. */
  lemma JobAt(v: Variant, sizes: seq<ArraySize>, i: nat, k: nat)
    requires i < |sizes| && k < |Ns(v, sizes[i].height)|
    ensures Offset(v, sizes, i) + k < |Jobs(v, sizes)|
    ensures Jobs(v, sizes)[Offset(v, sizes, i) + k] == MakeJob(v, sizes[i], Ns(v, sizes[i].height)[k])
  {
    var x := Offset(v, sizes, i) + k;
    StartIsOffset(v, sizes, i);
    PointAt(v, sizes, i, k);
    var p := Points(v, sizes)[x];
    assert p == (sizes[i], Ns(v, sizes[i].height)[k]);
    JobOfPoint(v, sizes, x);
  }

  /** Each job is made from the point at the same position. */
  lemma JobOfPoint(v: Variant, sizes: seq<ArraySize>, x: nat)
    requires x < |Points(v, sizes)|
    ensures Jobs(v, sizes)[x] == MakeJob(v, Points(v, sizes)[x].0, Points(v, sizes)[x].1)
  {
  }

  /** The k-th point of block `i` sits `k` places after the block's start. */
  lemma PointAt(v: Variant, sizes: seq<ArraySize>, i: nat, k: nat)
    requires i < |sizes| && k < |Ns(v, sizes[i].height)|
    ensures Product.Start(Blocks(v, sizes), i) + k < |Points(v, sizes)|
    ensures Points(v, sizes)[Product.Start(Blocks(v, sizes), i) + k] == (sizes[i], Ns(v, sizes[i].height)[k])
  {
    BlockAt(v, sizes, i);
    SizePointAt(v, sizes[i], k);
    Product.FlattenAt(Blocks(v, sizes), i, k, |sizes|);
  }

  /** Block `i` holds the points of the `i`-th size. */
  lemma BlockAt(v: Variant, sizes: seq<ArraySize>, i: nat)
    requires i < |sizes|
    ensures Blocks(v, sizes)[i] == SizePoints(v, sizes[i])
  {
  }

  /** The `k`-th point of a size's block pairs the size with the `k`-th N. */
  lemma SizePointAt(v: Variant, s: ArraySize, k: nat)
    requires k < |Ns(v, s.height)|
    ensures SizePoints(v, s)[k] == (s, Ns(v, s.height)[k])
  {
  }

  /** Every N swept is within 1..M for the ratio sweep and 0 otherwise. */
  lemma NsRange(v: Variant, m: nat, k: nat)
    requires k < |Ns(v, m)|
    ensures v.PerRatio? ==> Ns(v, m)[k] == k + 1 && 1 <= Ns(v, m)[k] <= m
    ensures !v.PerRatio? ==> Ns(v, m)[k] == 0
  {
  }

  /** A ratio label reads back as its two numbers; its denominator is the array height. */
  lemma RatioLabelFields(n: nat, m: nat)
    ensures Split(RatioLabel(n, m), ':') == [NatToString(n), NatToString(m)]
    ensures ParseNat(Split(RatioLabel(n, m), ':')[0]) == Some(n)
    ensures ParseNat(Split(RatioLabel(n, m), ':')[1]) == Some(m)
  {
    TwoFields(NatToString(n), NatToString(m), ':');
    ParseNatToString(n);
    ParseNatToString(m);
  }

  /** A size label reads back as height and width. */
  lemma SizeLabelFields(s: ArraySize)
    ensures Split(SizeLabel(s), 'x') == [NatToString(s.height), NatToString(s.width)]
    ensures ParseNat(Split(SizeLabel(s), 'x')[0]) == Some(s.height)
    ensures ParseNat(Split(SizeLabel(s), 'x')[1]) == Some(s.width)
  {
    TwoFields(NatToString(s.height), NatToString(s.width), 'x');
    ParseNatToString(s.height);
    ParseNatToString(s.width);
  }

  lemma TwoFields(a: string, b: string, c: char)
    requires AllDigits(a) && AllDigits(b) && !IsDigit(c)
    ensures Split(a + [c] + b, c) == [a, b]
  {
    assert c !in a && c !in b by {
      assert forall k :: 0 <= k < |a| ==> a[k] != c;
      assert forall k :: 0 <= k < |b| ==> b[k] != c;
    }
    SplitConcat(a, b, c);
    SplitNoSep(a, c);
    SplitNoSep(b, c);
  }

  /** Different array sizes have different labels. */
  lemma SizeLabelInjective(s: ArraySize, t: ArraySize)
    requires SizeLabel(s) == SizeLabel(t)
    ensures s == t
  {
    SizeLabelFields(s);
    SizeLabelFields(t);
  }

  /** Different points have different ratio labels or array-size labels, so the
      `(array_size, sparsity_ratio)` keys of one sweep never collide. */
  lemma JobKeyInjective(v: Variant, s: ArraySize, n: nat, t: ArraySize, n': nat)
    requires MakeJob(v, s, n).arraySize == MakeJob(v, t, n').arraySize
    requires MakeJob(v, s, n).ratio == MakeJob(v, t, n').ratio
    ensures s == t && n == n'
  {
    SizeLabelInjective(s, t);
    RatioLabelFields(n, s.height);
    RatioLabelFields(n', t.height);
    ParseNatToString(n);
    ParseNatToString(n');
  }

  /** The workload file name encodes the size and N, so no two points share one. */
  lemma CsvNameInjective(v: Variant, s: ArraySize, n: nat, t: ArraySize, n': nat)
    requires CsvName(v, s, n) == CsvName(v, t, n')
    ensures s == t && n == n'
  {
    var end1 := RatioMark(v) + (NatToString(s.height) + ".csv");
    var end2 := RatioMark(v) + (NatToString(t.height) + ".csv");
    var rest1 := "_" + (NatToString(n) + end1);
    var rest2 := "_" + (NatToString(n') + end2);
    var tail1 := "x" + (NatToString(s.width) + rest1);
    var tail2 := "x" + (NatToString(t.width) + rest2);
    assert NatToString(s.height) + tail1 == CsvName(v, s, n)[9..];
    assert NatToString(t.height) + tail2 == CsvName(v, t, n')[9..];
    NatPrefixCancel(s.height, t.height, tail1, tail2);
    assert NatToString(s.width) + rest1 == tail1[1..];
    assert NatToString(t.width) + rest2 == tail2[1..];
    NatPrefixCancel(s.width, t.width, rest1, rest2);
    assert NatToString(n) + end1 == rest1[1..];
    assert NatToString(n') + end2 == rest2[1..];
    NatPrefixCancel(n, n', end1, end2);
  }

  /** The command line splits back into the three paths it was built from. */
  function ParseCommand(line: string): Option<(string, string, string)> {
    var f := Split(line, ' ');
    if |f| == 10 && f[0] == "python3" && f[1] == "scalesim/scale.py" && f[2] == "-c"
       && f[4] == "-t" && f[6] == "-p" && f[8] == "-i" && f[9] == "gemm"
    then Some((f[3], f[5], f[7]))
    else None
  }

  lemma CommandLineRoundTrip(cfg: string, csv: string, results: string)
    requires ' ' !in cfg && ' ' !in csv && ' ' !in results
    ensures ParseCommand(CommandLine(cfg, csv, results)) == Some((cfg, csv, results))
  {
    SplitJoin(CommandWords(cfg, csv, results), ' ');
  }

  /** The config passed to a command depends on the array size only; the third
      script passes the 32x32 config whatever the size. */
  lemma JobPaths(v: Variant, s: ArraySize, n: nat)
    ensures ParseCommand(Command(MakeJob(v, s, n))) == Some((CfgPath(v, s), CsvPath(v, s, n), ResultsDir))
    ensures v.SingleRatioCfg32? ==> CfgPath(v, s) == CfgDir + "/lws_32x32.cfg"
    ensures !v.SingleRatioCfg32? ==> CfgPath(v, s) == CfgDir + "/" + CfgName(s)
  {
    var job := MakeJob(v, s, n);
    assert job.cfg == CfgPath(v, s) && job.csv == CsvPath(v, s, n);
    assert Command(job) == CommandLine(CfgPath(v, s), CsvPath(v, s, n), ResultsDir);
    CfgPathShape(v, s);
    CsvPathShape(v, s, n);
    ResultsDirNoSpace();
    CommandLineRoundTrip(CfgPath(v, s), CsvPath(v, s, n), ResultsDir);
    assert CfgDir + "/" + "lws_32x32.cfg" == CfgDir + "/lws_32x32.cfg";
  }

  lemma ResultsDirNoSpace()
    ensures ' ' !in ResultsDir
  {
  }

  lemma CfgPathShape(v: Variant, s: ArraySize)
    ensures v.SingleRatioCfg32? ==> CfgPath(v, s) == CfgDir + "/" + "lws_32x32.cfg"
    ensures !v.SingleRatioCfg32? ==> CfgPath(v, s) == CfgDir + "/" + CfgName(s)
    ensures ' ' !in CfgPath(v, s)
  {
    var cfg := if v.SingleRatioCfg32? then "lws_32x32.cfg" else CfgName(s);
    CfgNameClean(s);
    PathJoinRelative(CfgDir, cfg);
    NoSpaceIn(CfgDir, cfg);
  }

  lemma CsvPathShape(v: Variant, s: ArraySize, n: nat)
    ensures CsvPath(v, s, n) == CsvDir + "/" + CsvName(v, s, n)
    ensures ' ' !in CsvPath(v, s, n)
  {
    CsvNameClean(v, s, n);
    PathJoinRelative(CsvDir, CsvName(v, s, n));
    NoSpaceIn(CsvDir, CsvName(v, s, n));
  }

  lemma NoSpaceIn(dir: string, name: string)
    requires dir == CfgDir || dir == CsvDir
    requires ' ' !in name
    ensures ' ' !in dir + "/" + name
  {
  }

  lemma CfgNameClean(s: ArraySize)
    ensures ' ' !in CfgName(s) && '/' !in CfgName(s)
    ensures |CfgName(s)| > 0 && CfgName(s)[0] == 'l'
  {
    NatToStringHasNo(s.height, ' ');
    NatToStringHasNo(s.width, ' ');
    NatToStringHasNo(s.height, '/');
    NatToStringHasNo(s.width, '/');
  }

  lemma CsvNameClean(v: Variant, s: ArraySize, n: nat)
    ensures ' ' !in CsvName(v, s, n) && '/' !in CsvName(v, s, n)
    ensures |CsvName(v, s, n)| > 0 && CsvName(v, s, n)[0] == 'l'
  {
    CsvNameHasNo(v, s, n, ' ');
    CsvNameHasNo(v, s, n, '/');
  }

  lemma CsvNameHasNo(v: Variant, s: ArraySize, n: nat, c: char)
    requires c == ' ' || c == '/'
    ensures c !in CsvName(v, s, n)
  {
    NatToStringHasNo(s.height, c);
    NatToStringHasNo(s.width, c);
    NatToStringHasNo(n, c);
  }

  /** The 32x32 config the third script always passes is the one it generates for
      the largest listed size. */
  lemma FixedCfgIsLargest()
    ensures CfgPath(SingleRatioCfg32, ListedSizes[3]) == CfgPath(SingleRatio, ListedSizes[3])
  {
    assert NatToString(32) == "32";
  }

  /** `generate_csv_content`: `"L,M,N,K,Sparsity,\n<layer>,<ratio>,"`, a header
      line and one layer line whose Sparsity column is the ratio label. Both lines
      end in a comma, that is in an empty last field. */
  function Descriptor(v: Variant, ratio: string): string {
    Join(DescriptorHeader, ',') + "\n" + Join(LayerFields(v) + [ratio, ""], ',')
  }

  const DescriptorHeader: seq<string> := ["L", "M", "N", "K", "Sparsity", ""]

  /** The fixed layer columns ahead of the Sparsity column. */
  function LayerFields(v: Variant): (f: seq<string>)
    ensures |f| == 4
    ensures forall k :: 0 <= k < 4 ==> ',' !in f[k] && '\n' !in f[k]
  {
    match v
    case PerRatio => ["L0", "256", "512", "768"]
    case SingleRatio => ["L4", "196", "384", "1536"]
    case SingleRatioCfg32 => ["L4", "256", "1280", "5120"]
  }

  /** Reading the descriptor back as CSV gives the header row and a row of the
      layer's columns with the ratio in the Sparsity column. */
  lemma DescriptorFields(v: Variant, ratio: string)
    requires ',' !in ratio && '\n' !in ratio
    ensures |Split(Descriptor(v, ratio), '\n')| == 2
    ensures Split(Split(Descriptor(v, ratio), '\n')[0], ',') == DescriptorHeader
    ensures Split(Split(Descriptor(v, ratio), '\n')[1], ',') == LayerFields(v) + [ratio, ""]
    ensures Split(Split(Descriptor(v, ratio), '\n')[1], ',')[4] == ratio
  {
    var row := LayerFields(v) + [ratio, ""];
    DescriptorLines(v, ratio);
    HeaderClean();
    RowClean(v, ratio);
    SplitJoin(DescriptorHeader, ',');
    SplitJoin(row, ',');
  }

  /** The descriptor is two lines: the joined header and the joined row. */
  lemma DescriptorLines(v: Variant, ratio: string)
    requires ',' !in ratio && '\n' !in ratio
    ensures Split(Descriptor(v, ratio), '\n')
            == [Join(DescriptorHeader, ','), Join(LayerFields(v) + [ratio, ""], ',')]
  {
    var row := LayerFields(v) + [ratio, ""];
    var h := Join(DescriptorHeader, ',');
    var r := Join(row, ',');
    HeaderClean();
    RowClean(v, ratio);
    JoinHasNo(DescriptorHeader, ',', '\n');
    JoinHasNo(row, ',', '\n');
    assert Descriptor(v, ratio) == h + ['\n'] + r;
    SplitConcat(h, r, '\n');
    SplitNoSep(h, '\n');
    SplitNoSep(r, '\n');
  }

  lemma RowClean(v: Variant, ratio: string)
    requires ',' !in ratio && '\n' !in ratio
    ensures var row := LayerFields(v) + [ratio, ""];
            forall k :: 0 <= k < |row| ==> ',' !in row[k] && '\n' !in row[k]
  {
    var row := LayerFields(v) + [ratio, ""];
    forall k | 0 <= k < |row|
      ensures ',' !in row[k] && '\n' !in row[k]
    {
      if k < 4 {
        assert row[k] == LayerFields(v)[k];
      }
    }
  }

  lemma HeaderClean()
    ensures forall k :: 0 <= k < |DescriptorHeader| ==>
              ',' !in DescriptorHeader[k] && '\n' !in DescriptorHeader[k]
  {
  }
}
