# Sparsity-sweep experiment drivers, modelled in Dafny

This project models the pure core of the experiment-driver scripts that sit around
the SCALE-Sim accelerator simulator in the sparsity study. It covers:

- **Ripple schedule.** The N:M sparsity-ratio ripple schedule (`generate_ripple_effect`).
- **Storage cost.** The ELLPACK-block storage cost (`compress_to_ellpack_block`).
- **Sweep enumeration.** How the three `graph_simulations*` drivers enumerate their sweeps.
  - A config name per array size, and a workload descriptor and `N:M` label per ratio.
  - A simulator command line per point.
- **Result extraction.** How the drivers pull `COMPUTE CYCLES =` out of the simulator's output and fold the outcomes into a results table.
  - A failure drops that run's row, and the loop carries on.
- **Result aggregation.** Reading those tables back for plotting.
  - `organize_data`: last write wins, and a missing key reads as 0.
  - Sorting labels by their integer prefix, and the stacked-bar sums.
- **Config generators.** The two config generators (myconfigs128x128 and vit_cfgs).
  - Each walks a cartesian product of axes in a fixed loop order.
  - Each config is written with a `# <command>` first line. The vit generator also writes `cmds.txt`.
- **Launcher.** It reads that first line back and runs the command, one file at a time, reporting failures per file.
- **Layer grouping.** `group_layers_by_conv` groups the per-layer compute reports into convolution stages, and `cycles_dict` is assembled from them.

Modules, one per concern:

| file | module | models |
|---|---|---|
| text.dfy | Text | the Python string builtins the scripts use: `strip`, `split()`, `split(c)`, `join`, `str(int)`, `int(str)`, `find` |
| ripple.dfy | Ripple | sparsity_ratios.py |
| storage.dfy | Storage | sparsesim/memory3s4.py |
| sweep.dfy | Sweep | the command enumeration and file naming of the three graph_simulations scripts |
| extract.dfy | Extract | the `COMPUTE CYCLES =` extraction expression |
| runner.dfy | Runner | the command loop and the result CSV |
| aggregate.dfy | Aggregate | `organize_data`, the two sort keys, the stacked heights |
| product.dfy | Product | nested `for` loops as a cartesian product |
| cfggen.dfy | CfgGen | both `cfg_gen.py` scripts |
| launcher.dfy | Launcher | launcher.py |
| grouping.dfy | Grouping | both `computecyclesplot` scripts |

Inputs the scripts take from outside are parameters of the model:
- the simulator's standard output;
- whether `subprocess.run` raised, and the command's return code;
- the directory listing and file contents;
- which report files exist and their `(LayerID, Total Cycles)` rows;
- the `execute_commands` knob.

## Model

Each row names the member whose contract states a property. The operations themselves are these functions:
- `Ripple.GenerateRipple` is `generate_ripple_effect`, and `Storage.EllpackBlockCost` is `compress_to_ellpack_block`.
- `Sweep.Jobs` is the nested loops of each `graph_simulations*` `main`.
- `Runner.Collect` is the loop that appends one row per successful command, and `Runner.TextTable` and `Runner.CountTable` are the CSV those scripts write.
- `Aggregate.ReadTable` is `read_csv`, and `Aggregate.Organize` is `organize_data`.
- `CfgGen.MyConfigs` is the loop of myconfigs128x128's `cfg_gen.py`, and `CfgGen.GenerateVit` with `CfgGen.VitConfig` is that of vit_cfgs.
- `Launcher.Handle` and `Launcher.LaunchAll` are launcher.py's loop.
- `Grouping.GroupLayers` is `group_layers_by_conv`, summing with `Grouping.Total`. `Grouping.Reports` is `read_compute_cycles` over the memory sizes, and `Grouping.CyclesByMemory` and `Grouping.CyclesDict` are the `cycles_dict` loops.
- `Text.Strip`, `Text.Split`, `Text.Join`, `Text.NatToString` and `Text.ParseNat` are Python's `strip()`, `split(c)`, `c.join`, `str(int)` and `int(str)`.

| member | source | states |
|---|---|---|
| Ripple.GenerateRipple | sparsity_ratios.py:1-34 | for `M >= 2`, with a step dividing 100 once `M // 2 >= 2`: the schedule is non-empty; every step has `M // 2` entries; the first is `[100, 0, ..]`; the last is `[0, .., 0, 100]`; every step but the last has its last entry below 100; each recorded step is the previous one after one move; `M // 2 == 1` gives `[[100]]` for every step, 0 and negative ones included; every bucket is positive in some step; for a dividing step, every step holds non-negative multiples of the step summing to 100 and the loop ends after exactly `100 * (M//2 - 1) / step` moves |
| Ripple.MoveStep | sparsity_ratios.py:23-28 | the inner scan-and-break loop computes exactly `Move` |
| Ripple.Move | sparsity_ratios.py:23-28 | the leftmost positive bucket loses the step, its right neighbour (if any) gains it, every other bucket is unchanged; with no positive bucket nothing changes |
| Ripple.LeftmostPositive | sparsity_ratios.py:23-24 | the index found is positive and every earlier bucket is not, or no bucket is positive |
| Ripple.MoveKeepsSchedule | sparsity_ratios.py:19-28 | while the last bucket is below 100, the leftmost positive bucket is not the last, a move keeps the schedule invariant, and the weighted distance moved right grows by exactly one step (the termination measure) |
| Ripple.ExtendPartial | sparsity_ratios.py:19-28 | recording a state and moving preserves the loop invariant |
| Ripple.FinishPartial | sparsity_ratios.py:19-34 | when the loop exits, the recorded states plus the forced final step satisfy the whole contract of the generator |
| Ripple.FirstStepWellFormed | sparsity_ratios.py:16-17 | the initial `[100, 0, ..]` satisfies the invariant and has moved nothing yet |
| Ripple.FullLastIsFinal | sparsity_ratios.py:19-32 | a state satisfying the invariant whose last bucket reaches 100 is exactly `[0, .., 0, 100]`, so the forced final step equals the state the loop stopped at |
| Ripple.ProgressBound | sparsity_ratios.py:19-28 | the weighted distance is at most `(n - 1) * 100`, which bounds the number of moves |
| Ripple.ProgressOfFinal | sparsity_ratios.py:31 | the final step has weighted distance exactly `100 * (n - 1)` |
| Ripple.NonDividingStepGoesNegative | sparsity_ratios.py:19-28 | for `M = 6` and a step of 30 the moves pass through `[10, 90, 0]` to `[-20, 120, 0]` and `[-20, 90, 30]` |
| Ripple.NonDividingStepSkipsToFinal | sparsity_ratios.py:19-32 | for `M = 4` and a step of 30 the loop records `[70, 30]`, `[40, 60]`, `[10, 90]`, which are not multiples of 30, and the move after `[10, 90]` gives `[-20, 120]`, not the final `[0, 100]` that is recorded instead |
| Ripple.NonPositiveStepNeverEnds | sparsity_ratios.py:19-28 | with two or more buckets and a step of 0 or less, the last bucket stays below 100 after any number of passes, so the loop never ends |
| Ripple.NonPositiveStepMoves | sparsity_ratios.py:19-28 | with such a step, after `k` passes the first bucket holds `100 - step * k`, the second `step * k` and the others 0 |
| Ripple.MoveSumProgress | sparsity_ratios.py:25-27 | moving a step one bucket right keeps the sum and adds the step to the weighted distance |
| Storage.EllpackBlockCost | sparsesim/memory3s4.py:1-11 | the tuple is (dense words = rows * cols, compressed words = 17/16 of the compressed entries, metadata words = 1/16 of them); all are non-negative and metadata never exceeds the compressed size; only the shapes enter |
| Storage.CompressionSaves | sparsesim/memory3s4.py:7-9 | compression saves space iff `17 * new_rows * new_cols < 16 * original_rows * original_cols` |
| Storage.HalfDenseExample | sparsesim/memory3s4.py:7-11 | a 100x100 matrix compressed to 50x100 costs (10000, 5312.5, 312.5) words |
| Sweep.PathJoinRelative | graph_simulations.py:61 | `os.path.join` of a directory and a relative name puts exactly one `/` between them |
| Sweep.PathJoinLast | graph_simulations.py:73 | the joined name is the last `/`-separated component of the path |
| Sweep.JobCount | graph_simulations.py:58-88 | the command list holds one entry per (size, N) point |
| Sweep.ListedCounts | graph_simulations.py:54-88 | 60 commands for the per-ratio sweep over the listed sizes, 4 for each of the two single-ratio scripts |
| Sweep.JobAt | graph_simulations.py:58-88 | the k-th N of the i-th size sits right after all points of earlier sizes: array-size major, N ascending |
| Sweep.StartIsOffset | graph_simulations.py:58-88 | the block of the i-th size starts after one entry per ratio of every earlier size: all ratios for the per-ratio sweep, one otherwise |
| Sweep.NsRange | graph_simulations.py:70 | the k-th N is k + 1, so N runs over 1..M, for the per-ratio sweep and is 0 in the `range(1)` scripts |
| Sweep.RatioLabelFields | graph_simulations.py:71 | an `n:m` label splits on `:` into two numbers that read back as n and the array height |
| Sweep.SizeLabelFields | graph_simulations.py:88 | an `HxW` label splits on `x` into the height and width |
| Sweep.SizeLabelInjective | graph_simulations.py:88 | different array sizes have different labels |
| Sweep.JobKeyInjective | graph_simulations.py:70-88 | two points with the same (array size, ratio) labels are the same point |
| Sweep.CsvNameInjective | graph_simulations.py:72 | the workload file name determines the array size and N |
| Sweep.CommandLineRoundTrip | graph_simulations.py:10 | the filled command template splits on spaces back into its config, workload and results paths |
| Sweep.JobPaths | graph_simulations1_rws.py:98-104 | a job's command names its config and workload; the config is `configs/new/lws_HxW.cfg` except in graph_simulations1_rws.py, which always passes `configs/new/lws_32x32.cfg` |
| Sweep.CfgPathShape | graph_simulations.py:60-61 | the config path is the config directory, `/`, and `lws_HxW.cfg`, with no space |
| Sweep.CsvPathShape | graph_simulations.py:72-73 | the workload path is the descriptor directory, `/`, and the workload name, with no space |
| Sweep.FixedCfgIsLargest | graph_simulations1_rws.py:100 | the fixed config is the one generated for the 32x32 size |
| Sweep.DescriptorFields | graph_simulations.py:49-50 | the descriptor is two CSV lines: the header `L,M,N,K,Sparsity,` and the layer's four columns, then the ratio label verbatim in the Sparsity column, then an empty last field |
| Extract.Segment | graph_simulations.py:102 | `split(marker)[1]` is None iff the marker is absent; otherwise it is the text from the first marker to the next marker or the end, and holds no marker |
| Extract.Extract | graph_simulations.py:101-102 | no marker gives no metric; a blank segment is the IndexError case; otherwise the token is the non-empty first whitespace-free word of the segment |
| Extract.ExtractCycles | graph_simulations_rws.py:114-118 | a count exactly when the token is all digits, and then it is the token's value; otherwise the `int()` ValueError |
| Extract.ReportRoundTrip | graph_simulations_rws.py:114-118 | output made of any text that starts no marker of its own (upper-case C and all), then `COMPUTE CYCLES = <n>`, then whitespace and no further marker, yields the token `str(n)` and the count n |
| Extract.MarkerFirstAfterNoC | graph_simulations_rws.py:114-115 | text without an upper-case C starts no marker, so the marker written after it is the first |
| Extract.ExampleReport | graph_simulations.py:101-102 | `"Total: COMPUTE CYCLES = 4821 cycles total"` yields 4821 |
| Extract.ExampleBannerReport | graph_simulations_rws.py:114-118 | output under a `SCALE SIM` banner, whose C starts no marker, yields 4821 from `COMPUTE CYCLES = 4821` |
| Runner.CollectLoop | graph_simulations.py:92-114 | the loop appends exactly the present rows, in command order, and never stops early |
| Runner.RunText | graph_simulations.py:92-114 | the rows of graph_simulations.py are the collected text-token rows of its commands |
| Runner.RunCount | graph_simulations_rws.py:106-123 | the rows of the `_rws` scripts are the collected integer rows of their commands |
| Runner.CollectAppend | graph_simulations.py:92-114 | per-run isolation: the rows of a run list are the rows of its first part followed by those of the rest |
| Runner.CollectCount | graph_simulations.py:107-111 | exactly one row per successful command |
| Runner.CollectAllPresent | graph_simulations.py:107-108 | when every command succeeds, row i comes from command i |
| Runner.CollectFrom | graph_simulations.py:107-108 | every row comes from some successful command |
| Runner.TextRowShape | graph_simulations.py:101-111 | every row is `[lws_<size>, <size>, <ratio>, <token>]` for some finished command, with a non-empty token that is the extraction of its output |
| Runner.TextTable | graph_simulations.py:117-120 | the CSV is the four-column header followed by one line per row, in order |
| Runner.CountTable | graph_simulations_rws.py:126-129 | the same, with the count written as its decimal text |
| Runner.RunSweep | graph_simulations_rws.py:104-131 | a table is produced iff `execute_commands` is set, and it is the table of the collected rows |
| Aggregate.Put | graph_simulations_rws.py:162 | after `data[size][ratio] = v` the entry reads v, the outer keys gain exactly `size`, every other size's map and every other ratio of `size` keep their values, and every other key reads as before |
| Aggregate.OrganizeFails | graph_simulations_rws.py:157-162 | `organize_data` raises iff some row's cycles are not a number |
| Aggregate.OrganizeLookup | graph_simulations_rws.py:400-407 | a lookup gives the value of the last row with that key, and 0 for a key no row wrote |
| Aggregate.OrganizeKeys | graph_simulations_rws.py:400-407 | the outer keys are exactly the rows' array sizes and the inner keys exactly the ratios seen with that size |
| Aggregate.Insert | graph_simulations_rws.py:414 | inserting into a key-sorted list keeps it sorted and adds exactly that label |
| Aggregate.SortLabels | graph_simulations_rws.py:425 | `sorted(labels, key=...)` fails iff some key's `int()` fails; otherwise it is a permutation of the labels with ascending keys |
| Aggregate.SortKeysOfLabels | graph_simulations_rws.py:165-176 | a size label `HxW` sorts by H and a ratio label `n:m` by n |
| Aggregate.ReadTable | graph_simulations_rws.py:392-398 | under the header the sweep writes, `DictReader` yields one record per line after it, with the size, ratio and cycles columns |
| Aggregate.ReadBackText | graph_simulations.py:117-120 | reading back the table graph_simulations.py writes gives one record per row, in order, with the row's size, ratio and cycle text |
| Aggregate.ReadBackCounts | graph_simulations1_rws.py:132-169 | reading back a table the `_rws` loop wrote never raises, and a row whose key no later row repeats reads back its own count |
| Aggregate.StackedHeights | graph_simulations_rws.py:511-524 | after all files, the k-th cumulative height is the sum over files of each file's value (0 if absent) for the k-th ratio |
| Aggregate.ColumnSumAppend | graph_simulations_rws.py:513-524 | stacking is additive: the column over two file lists is the sum of their columns |
| Product.PairsLength | configs/myconfigs128x128/cfg_gen.py:83-87 | nested loops produce one element per combination |
| Product.PairsAt | configs/myconfigs128x128/cfg_gen.py:83-87 | the combination `(xs[i], ys[j])` sits at `i * \|ys\| + j`: outer loop slowest |
| Product.PairsMember | configs/myconfigs128x128/cfg_gen.py:83-87 | every element is some combination, at that position |
| Product.PairsIn | configs/myconfigs128x128/cfg_gen.py:83-87 | each component comes from its axis |
| Product.PairsDistinct | configs/myconfigs128x128/cfg_gen.py:83-87 | distinct axes give distinct combinations |
| Product.FlattenAt | graph_simulations.py:58-88 | appending one block per outer iteration puts the k-th element of block i right after all elements of the earlier blocks |
| Product.PairsIndex | configs/vit_cfgs/cfg_gen.py:69-73 | the count and the position of each combination together |
| Product.PairsCount | configs/vit_cfgs/cfg_gen.py:69-73 | the count of combinations is the product of the axis lengths |
| CfgGen.RunNameFields | configs/myconfigs128x128/cfg_gen.py:63 | a run name splits on `_` into the model's fields followed by the three labels |
| CfgGen.RunNameInjective | configs/vit_cfgs/cfg_gen.py:47 | equal run names have equal model and labels, even for models holding `_` such as `vit_l` |
| CfgGen.GenerateVit | configs/vit_cfgs/cfg_gen.py:45-73 | one config and one command per combination in loop order; `commands[k]` is the command of the k-th config, and its header is `# ` followed by it |
| CfgGen.CmdsTextJoin | configs/vit_cfgs/cfg_gen.py:79-83 | cmds.txt is the commands joined by newlines, with a newline after the last |
| CfgGen.CmdsTextLines | configs/vit_cfgs/cfg_gen.py:79-83 | splitting cmds.txt into lines gives the commands back, in order, then the empty text after the final newline |
| CfgGen.ConfigCounts | configs/myconfigs128x128/cfg_gen.py:83-87 | one config per combination of the four axes |
| CfgGen.ListedCounts | configs/vit_cfgs/cfg_gen.py:32-35 | 27 configs for the myconfigs axes and 72 configs and commands for the vit axes |
| CfgGen.MyOrder | configs/myconfigs128x128/cfg_gen.py:83-87 | loop order model > size > sparsity > array size |
| CfgGen.VitOrder | configs/vit_cfgs/cfg_gen.py:69-73 | loop order model > array size > size > block |
| CfgGen.MyPointIn | configs/myconfigs128x128/cfg_gen.py:83-87 | every combination's components come from their axes |
| CfgGen.VitPointIn | configs/vit_cfgs/cfg_gen.py:69-73 | the same for the vit axes |
| CfgGen.MyConfigFields | configs/myconfigs128x128/cfg_gen.py:61-78 | each config's run name holds a listed model and labels; the SRAM sizes are all the size label's kB value; NonZeroElems and BlockSize are the sparsity pair; the array dimensions are the array pair; the file is `./<run_name>.cfg` |
| CfgGen.VitConfigFields | configs/vit_cfgs/cfg_gen.py:45-66 | the same for vit, with BlockSize the block value and no NonZeroElems |
| CfgGen.RunNamePath | configs/myconfigs128x128/cfg_gen.py:78 | `os.path.join("./", run_name + ".cfg")` is `./<run_name>.cfg` |
| CfgGen.MyRunNamesDistinct | configs/myconfigs128x128/cfg_gen.py:61-87 | with clean, distinct labels, no two configs share a run name |
| CfgGen.VitRunNamesDistinct | configs/vit_cfgs/cfg_gen.py:45-73 | the same for the vit generator |
| CfgGen.ListedAxesClean | configs/myconfigs128x128/cfg_gen.py:49-52 | the listed models and labels are non-empty, distinct and hold no space, newline, `/` or (labels) `_` |
| CfgGen.ListedRunNamesDistinct | configs/vit_cfgs/cfg_gen.py:32-47 | the 27 and the 72 generated run names are pairwise distinct |
| CfgGen.ParsePairOf | configs/myconfigs128x128/cfg_gen.py:51-52 | a label `a<sep>b` with a non-digit separator reads back as (a, b) |
| CfgGen.ListedLabelsEncodeValues | configs/myconfigs128x128/cfg_gen.py:51-52 | each listed `NsM` label names its (NonZeroElems, BlockSize) pair, e.g. `2s4` gives (2, 4), and each `HxW` label its array pair |
| CfgGen.MyHeaderCommand | configs/myconfigs128x128/cfg_gen.py:4 | the first line is `# ` and a ten-word command whose `-c` argument is the config's own file and whose output is `<run_name>.txt` |
| CfgGen.VitHeaderCommand | configs/vit_cfgs/cfg_gen.py:4 | the first line is `# ` and the command appended to `commands`, whose `-c` argument is the config's own file |
| Launcher.FirstLine | launcher.py:19 | `readline()` gives the longest newline-free prefix, ended by `\n`, `\r` or the end of the text |
| Launcher.ExtractCommand | launcher.py:19-24 | a command iff the stripped first line starts with `#`; the command is `line[2:].strip()`, so it is stripped and holds no line end |
| Launcher.HeaderRoundTrip | launcher.py:19-24 | a first line `# c` with c stripped, non-empty and single-line yields exactly c |
| Launcher.SecondCharacterDropped | launcher.py:24 | a header `#word` without the space loses the word's first character |
| Launcher.CommandLaunches | launcher.py:19-24 | a header of `# ` and space-joined words, framed by visible characters, yields the joined words |
| Launcher.VitConfigLaunches | launcher.py:19-24 | a vit config written by configs/vit_cfgs/cfg_gen.py launches exactly the command appended to `commands` for it |
| Launcher.MyConfigLaunches | launcher.py:19-24 | a myconfigs config launches exactly the command written in its header |
| Launcher.Handle | launcher.py:14-36 | non-`.cfg` names are skipped; an unreadable file or a raised run is an error for that file; a first line that is not a comment is reported; otherwise the extracted command runs and succeeds iff its return code is 0 |
| Launcher.LaunchAll | launcher.py:12-36 | one report per directory entry, each decided by that entry alone: no failure stops the loop |
| Grouping.GroupLayers | sparsesim/computecyclesplot.py:110-117 | one entry per group, named as the group, in the dict's order, whose value is the summed Total Cycles of the rows whose LayerID is in that group |
| Grouping.GroupedSum | sparsesim/computecyclesplot.py:110-117 | the values the grouping returns add up to the group totals |
| Grouping.Groups5Partition | sparsesim/computecyclesplot.py:102-108 | Conv1..Conv5 are pairwise disjoint and together cover exactly layers 0..19 |
| Grouping.Groups6Partition | sparsesim/computecyclesplot_128x128.py:102-109 | Conv1..Conv5 and FC are pairwise disjoint and cover exactly layers 0..20 |
| Grouping.TotalUnion | sparsesim/computecyclesplot.py:114 | the total over two disjoint id sets is the sum of their totals |
| Grouping.PartitionSum | sparsesim/computecyclesplot.py:113-116 | for disjoint groups, the group totals add up to the total of the rows in their union |
| Grouping.TotalOfAbsent | sparsesim/computecyclesplot.py:114 | a group with no matching rows totals 0 |
| Grouping.RowOutsideIgnored | sparsesim/computecyclesplot.py:114 | a row whose layer is in no group changes no group's total |
| Grouping.StageTotalsSum | sparsesim/computecyclesplot_128x128.py:100-118 | the five values `group_layers_by_conv` returns add up to the cycles of layers 0..19, and the six of the 128x128 script to those of layers 0..20 |
| Grouping.ReportDirIsRunName | sparsesim/computecyclesplot_128x128.py:87 | the report directory `<model>_<size>_<sparsity>_128x128` is the run name myconfigs128x128 gives that config |
| Grouping.CyclesByMemory | sparsesim/computecyclesplot.py:159-169 | at most one entry per size |
| Grouping.CyclesByMemoryInOrder | sparsesim/computecyclesplot.py:159-169 | when every report exists, there is one entry per size and entry i is the grouping of the i-th size's report, so the plot's pairing with the memory sizes lines up |
| Grouping.CyclesByMemoryCount | sparsesim/computecyclesplot.py:159-169 | the number of entries is the number of sizes whose report exists |
| Grouping.CyclesByMemoryAppend | sparsesim/computecyclesplot.py:162-169 | one more size appends the grouping of its report when the report exists, and nothing otherwise, so the entries follow the sizes in order |
| Grouping.CyclesByMemoryEntries | sparsesim/computecyclesplot_128x128.py:263-273 | every size present when every report exists; each entry is the grouping of some existing report (which one, and the order, are in `CyclesByMemoryInOrder` and `CyclesByMemoryAppend`) |
| Grouping.CyclesDict | sparsesim/computecyclesplot.py:156-172 | one entry per (model, sparsity) |
| Grouping.CyclesDictAt | sparsesim/computecyclesplot.py:156-172 | the entry of the i-th model and j-th sparsity sits at `i * (number of sparsities) + j` and holds the key `<model>_<sparsity>` with that pair's `cycles_by_memory` |
| Grouping.CyclesDictKeysDistinct | sparsesim/computecyclesplot.py:172 | with distinct models and distinct `_`-free sparsity labels, different pairs get different keys, so no assignment overwrites another |
| Grouping.DictKeyInjective | sparsesim/computecyclesplot.py:172 | the key `<model>_<sparsity>` determines model and sparsity, so no entry overwrites another |
| Grouping.PlottedMemoryIsTotalSram | sparsesim/computecyclesplot_128x128.py:280 | each plotted memory value is three times the listed size, which is the summed SRAM of the config run for that size |
| Text.StripTrims | launcher.py:19 | `strip()` gives a slice of the text with no whitespace at either end and only whitespace cut away |
| Text.FirstWord | graph_simulations.py:102 | `split()[0]` is absent iff the text is all whitespace; otherwise it is a non-empty whitespace-free word |
| Text.FirstWordOfStrip | graph_simulations.py:102 | stripping before `split()` does not change the first word |
| Text.SplitJoin | configs/vit_cfgs/cfg_gen.py:60 | splitting a joined list on a separator none of its parts holds gives the list back |
| Text.JoinSplit | configs/vit_cfgs/cfg_gen.py:47 | joining the parts of a split gives the text back |
| Text.ParseNat | graph_simulations_rws.py:118 | `int()` succeeds iff the text is non-empty and all digits |
| Text.ParseNatToString | graph_simulations_rws.py:118 | `int(str(n)) == n` |
| Text.NatToStringInjective | graph_simulations.py:71 | different numbers render differently |

## Left out

- Subprocess execution, the filesystem and the directory listing are inputs, not modelled (`subprocess.run`, `open`, `os.makedirs`, `os.listdir`, `os.path.exists`, pandas `read_csv`). The model is given the output text, whether a call raised, the return code and the file contents.
- All printing is left out, including the standard error the per-ratio script prints.
- All matplotlib and seaborn rendering is left out: bar positions, widths, offsets, scales, legends and label heights are float layout.
- numpy means and standard deviations in `plot_cycles` are left out: they are floating-point statistics.
- The string blocks at the head of both computecyclesplot scripts are left out. They are dead mock data.
- The example printing at the end of sparsity_ratios.py is left out.
- Config templates are modelled as records of fields plus the first line. The rest of the INI text layout is left out, and so is CSV quoting.
- Python's `int()` is modelled for plain ASCII digit strings only. Signs, underscores, surrounding whitespace and non-ASCII decimal digits (such as `int('٣') == 3`), which Python also accepts, are left out. Counts are non-negative.
- Ripple.GenerateRipple: requires `M >= 2`, because the source indexes an empty list otherwise. For `M = 2` or `3` every step is admitted, and the result is `[[100]]`. From `M = 4` on, it requires a positive step that divides 100, which the source does not check. The steps this leaves out behave as follows. A step of 0 or less never ends the loop (`Ripple.NonPositiveStepNeverEnds`). A positive step that does not divide 100 records entries that are not multiples of the step, and its final `[0, .., 0, 100]` is not one move after the step before it: for `M = 4` and a step of 30, `[10, 90]` moves to `[-20, 120]` (`Ripple.NonDividingStepSkipsToFinal`). From `M = 6` on it also records negative percentages: for `M = 6` and a step of 30, `[10, 90, 0]` is followed by `[-20, 120, 0]` (`Ripple.NonDividingStepGoesNegative`). The default `step_size=10`, which the script's one call uses, divides 100.
- Aggregate.SortLabels: Python's sort is stable, which is not proved. The contract states a permutation with ascending keys.
- Grouping.CyclesDict: the dict is modelled as its sequence of entries. Key distinctness is a separate lemma, `Grouping.DictKeyInjective`.
- Rows of the per-ratio script keep the cycle count as text, exactly as that script stores it. No numeric reading of that table is modelled.
- The `generate_cfg` and `generate_csv` knobs only control writing files, so they are left out. `execute_commands` is a parameter of `Runner.RunSweep`.
- The other plotting functions of graph_simulations_rws.py are left out. Only `organize_data`, the sort keys and the stacked heights are modelled.
- Aggregate.ReadTable: requires the header line the sweep writes (`Runner.Header`) and exactly four fields on every later line, so its columns are found by position. DictReader's lookup of other headers by name, its handling of short and long rows, and its skipping of blank lines are not modelled.
- Storage.EllpackBlockCost: the compressed and metadata words are exact rationals. Python's floats agree while `17 * new_rows * new_cols` stays below 2^53; rounding for larger shapes is not modelled.
