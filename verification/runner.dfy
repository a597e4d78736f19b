/** The command loop of the driver scripts: run each command, try to read the
    cycle count from its output, append a result row on success, and carry on
    with the next command whatever happened (graph_simulations.py:92-120,
    graph_simulations_rws.py:104-131, graph_simulations1_rws.py:107-137).

    Running a command is outside the model: each command's outcome is an input. */
module Runner {
  import opened Text
  import Extract
  import Sweep

  /** What `subprocess.run(command, ...)` gave: the captured standard output, or
      an exception raised by the call itself. Standard error is only printed. */
  datatype Outcome = Finished(stdout: string) | Raised

  /** `[f"lws_{array_size}", array_size, sparsity_ratio, compute_cycles]`. */
  datatype Row<C> = Row(lws: string, arraySize: string, ratio: string, cycles: C)

  /** The loop body of graph_simulations.py: the row it appends, if any. The token
      is kept as text. */
  function TextRow(job: Sweep.Job, o: Outcome): Option<Row<string>> {
    match o
    case Raised => None
    case Finished(out) =>
      match Extract.Extract(out)
      case Token(t) => Some(Row("lws_" + job.arraySize, job.arraySize, job.ratio, t))
      case _ => None
  }

  /** The loop body of the two `_rws` scripts: the token goes through `int()`,
      whose failure is caught like any other exception. */
  function CountRow(job: Sweep.Job, o: Outcome): Option<Row<nat>> {
    match o
    case Raised => None
    case Finished(out) =>
      match Extract.ExtractCycles(out)
      case Some(c) => Some(Row("lws_" + job.arraySize, job.arraySize, job.ratio, c))
      case None => None
  }

  /** The present values of `xs`, in order: the rows the loop appends. */
  function Collect<T>(xs: seq<Option<T>>): (r: seq<T>)
    ensures |r| <= |xs|
  {
    CollectUpTo(xs, |xs|)
  }

  function CollectUpTo<T>(xs: seq<Option<T>>, n: nat): (r: seq<T>)
    requires n <= |xs|
    ensures |r| <= n
  {
    if n == 0 then []
    else
      match xs[n - 1]
      case Some(x) => CollectUpTo(xs, n - 1) + [x]
      case None => CollectUpTo(xs, n - 1)
  }

  /** How many of `xs` are present. */
  function Present<T>(xs: seq<Option<T>>): nat {
    if |xs| == 0 then 0 else Present(xs[..|xs| - 1]) + (if xs[|xs| - 1].Some? then 1 else 0)
  }

  function TextCandidates(jobs: seq<Sweep.Job>, outs: seq<Outcome>): seq<Option<Row<string>>>
    requires |outs| == |jobs|
  {
    seq(|jobs|, i requires 0 <= i < |jobs| => TextRow(jobs[i], outs[i]))
  }

  function CountCandidates(jobs: seq<Sweep.Job>, outs: seq<Outcome>): seq<Option<Row<nat>>>
    requires |outs| == |jobs|
  {
    seq(|jobs|, i requires 0 <= i < |jobs| => CountRow(jobs[i], outs[i]))
  }

  /** The result loop: append each present row, skip the rest, never stop early. */
  method CollectLoop<T>(xs: seq<Option<T>>) returns (rows: seq<T>)
    ensures rows == Collect(xs)
  {
    rows := [];
    var i := 0;
    while i < |xs|
      invariant 0 <= i <= |xs|
      invariant rows == CollectUpTo(xs, i)
    {
      if xs[i].Some? {
        rows := rows + [xs[i].value];
      }
      i := i + 1;
    }
  }

  /** The loop of graph_simulations.py. */
  method RunText(jobs: seq<Sweep.Job>, outs: seq<Outcome>) returns (rows: seq<Row<string>>)
    requires |outs| == |jobs|
    ensures rows == Collect(TextCandidates(jobs, outs))
  {
    rows := CollectLoop(TextCandidates(jobs, outs));
  }

  /** The loop of the two `_rws` scripts. */
  method RunCount(jobs: seq<Sweep.Job>, outs: seq<Outcome>) returns (rows: seq<Row<nat>>)
    requires |outs| == |jobs|
    ensures rows == Collect(CountCandidates(jobs, outs))
  {
    rows := CollectLoop(CountCandidates(jobs, outs));
  }

  /** Each command is handled on its own: the rows of a run are the rows of its
      first part followed by the rows of the rest. */
  lemma CollectAppend<T>(xs: seq<Option<T>>, ys: seq<Option<T>>)
    ensures Collect(xs + ys) == Collect(xs) + Collect(ys)
  {
    CollectUpToAppend(xs, ys, |ys|);
  }

  lemma {:induction false} CollectUpToAppend<T>(xs: seq<Option<T>>, ys: seq<Option<T>>, n: nat)
    requires n <= |ys|
    ensures CollectUpTo(xs + ys, |xs| + n) == Collect(xs) + CollectUpTo(ys, n)
  {
    if n == 0 {
      CollectUpToPrefix(xs, ys, |xs|);
    } else {
      CollectUpToAppend(xs, ys, n - 1);
      assert (xs + ys)[|xs| + n - 1] == ys[n - 1];
    }
  }

  /** Collecting a prefix does not look past it. */
  lemma {:induction false} CollectUpToPrefix<T>(xs: seq<Option<T>>, ys: seq<Option<T>>, n: nat)
    requires n <= |xs|
    ensures CollectUpTo(xs + ys, n) == CollectUpTo(xs, n)
  {
    if n > 0 {
      CollectUpToPrefix(xs, ys, n - 1);
      assert (xs + ys)[n - 1] == xs[n - 1];
    }
  }

  /** A row is appended exactly for each present value. */
  lemma {:induction false} CollectCount<T>(xs: seq<Option<T>>)
    ensures |Collect(xs)| == Present(xs)
  {
    if |xs| > 0 {
      var init := xs[..|xs| - 1];
      CollectCount(init);
      CollectAppend(init, [xs[|xs| - 1]]);
      assert init + [xs[|xs| - 1]] == xs;
      assert Collect([xs[|xs| - 1]]) == CollectUpTo([xs[|xs| - 1]], 1);
    }
  }

  /** When every value is present nothing is dropped and the order is kept. */
  lemma {:induction false} CollectAllPresent<T>(xs: seq<Option<T>>, n: nat)
    requires n <= |xs|
    requires forall i :: 0 <= i < |xs| ==> xs[i].Some?
    ensures |CollectUpTo(xs, n)| == n
    ensures forall i :: 0 <= i < n ==> CollectUpTo(xs, n)[i] == xs[i].value
  {
    if n > 0 {
      CollectAllPresent(xs, n - 1);
    }
  }

  /** Every appended row comes from a successful command, in command order. */
  lemma {:induction false} CollectFrom<T>(xs: seq<Option<T>>, n: nat, k: nat)
    requires n <= |xs| && k < |CollectUpTo(xs, n)|
    ensures exists i :: 0 <= i < n && xs[i] == Some(CollectUpTo(xs, n)[k])
  {
    var prev := CollectUpTo(xs, n - 1);
    if k < |prev| {
      CollectFrom(xs, n - 1, k);
      var i :| 0 <= i < n - 1 && xs[i] == Some(prev[k]);
      assert CollectUpTo(xs, n)[k] == prev[k];
    } else {
      assert xs[n - 1] == Some(CollectUpTo(xs, n)[k]);
    }
  }

  /** A row of graph_simulations.py carries the job's labels and a non-empty
      token that was the first word after the marker in that job's output. */
  lemma TextRowShape(jobs: seq<Sweep.Job>, outs: seq<Outcome>, k: nat)
    requires |outs| == |jobs| && k < |Collect(TextCandidates(jobs, outs))|
    ensures exists i :: 0 <= i < |jobs| && outs[i].Finished?
              && var row := Collect(TextCandidates(jobs, outs))[k];
                 row == Row("lws_" + jobs[i].arraySize, jobs[i].arraySize, jobs[i].ratio, row.cycles)
                 && Extract.Extract(outs[i].stdout) == Extract.Token(row.cycles)
                 && |row.cycles| > 0
  {
    var cands := TextCandidates(jobs, outs);
    CollectFrom(cands, |cands|, k);
    var i :| 0 <= i < |cands| && cands[i] == Some(Collect(cands)[k]);
    assert TextRow(jobs[i], outs[i]).Some?;
  }

  /** The CSV written after the loop: the fixed header and one line per row. */
  const Header: seq<string> := ["LWS", "Array Size", "Sparsity Ratio", "Compute Cycles"]

  function TextTable(rows: seq<Row<string>>): (t: seq<seq<string>>)
    ensures |t| == |rows| + 1 && t[0] == Header
    ensures forall k :: 0 <= k < |rows| ==>
              t[k + 1] == [rows[k].lws, rows[k].arraySize, rows[k].ratio, rows[k].cycles]
  {
    [Header] + seq(|rows|, k requires 0 <= k < |rows| =>
      [rows[k].lws, rows[k].arraySize, rows[k].ratio, rows[k].cycles])
  }

  /** `csv.writer` renders the integer cycles with `str()`. */
  function CountTable(rows: seq<Row<nat>>): (t: seq<seq<string>>)
    ensures |t| == |rows| + 1 && t[0] == Header
    ensures forall k :: 0 <= k < |rows| ==>
              t[k + 1] == [rows[k].lws, rows[k].arraySize, rows[k].ratio, NatToString(rows[k].cycles)]
  {
    [Header] + seq(|rows|, k requires 0 <= k < |rows| =>
      [rows[k].lws, rows[k].arraySize, rows[k].ratio, NatToString(rows[k].cycles)])
  }

  /** graph_simulations_rws.py: the commands run and the CSV is written only when
      `execute_commands` is set. */
  method RunSweep(executeCommands: bool, jobs: seq<Sweep.Job>, outs: seq<Outcome>)
    returns (table: Option<seq<seq<string>>>)
    requires |outs| == |jobs|
    ensures table.None? <==> !executeCommands
    ensures table.Some? ==> table.value == CountTable(Collect(CountCandidates(jobs, outs)))
  {
    if executeCommands {
      var rows := RunCount(jobs, outs);
      table := Some(CountTable(rows));
    } else {
      table := None;
    }
  }
}
