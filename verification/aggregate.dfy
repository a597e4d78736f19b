/** Reading result tables back for plotting (graph_simulations_rws.py:157-176,
    400-425, 511-524; graph_simulations1_rws.py:164-183).

    `organize_data` folds the rows into a nested `defaultdict(int)` keyed by
    array size and ratio label: the last row for a key wins and a key that was
    never written reads as 0. Labels are then ordered by the number in front of
    their `x` or `:`. */
module Aggregate {
  import opened Text
  import Runner

  /** The three columns `organize_data` reads from a CSV row, as text. */
  datatype Record = Record(arraySize: string, ratio: string, cycles: string)

  /** `{array_size: {sparsity_ratio: compute_cycles}}`. */
  type Data = map<string, map<string, nat>>

  /** `data[array_size][sparsity_ratio] = v`. */
  function Put(d: Data, size: string, ratio: string, v: nat): (r: Data)
    ensures size in r && ratio in r[size] && r[size][ratio] == v
    ensures r.Keys == d.Keys + {size}
    ensures forall s :: s in d && s != size ==> r[s] == d[s]
    ensures forall q :: size in d && q in d[size] && q != ratio ==> q in r[size] && r[size][q] == d[size][q]
    ensures forall s, q :: s != size || q != ratio ==> Lookup(r, s, q) == Lookup(d, s, q)
  {
    d[size := (if size in d then d[size] else map[])[ratio := v]]
  }

  /** `data[array_size][sparsity_ratio]` on the nested defaultdict: 0 if absent. */
  function Lookup(d: Data, size: string, ratio: string): nat {
    if size in d && ratio in d[size] then d[size][ratio] else 0
  }

  /** `organize_data(results)`; None where `int(row["Compute Cycles"])` raises,
      which nothing in the plotting functions catches. */
  function Organize(rows: seq<Record>): Option<Data> {
    OrganizeUpTo(rows, |rows|)
  }

  function OrganizeUpTo(rows: seq<Record>, n: nat): Option<Data>
    requires n <= |rows|
  {
    if n == 0 then Some(map[])
    else
      match OrganizeUpTo(rows, n - 1)
      case None => None
      case Some(d) =>
        match ParseNat(rows[n - 1].cycles)
        case None => None
        case Some(v) => Some(Put(d, rows[n - 1].arraySize, rows[n - 1].ratio, v))
  }

  /** Reference: the cycles text of the last of the first `n` rows with the key. */
  function LastValue(rows: seq<Record>, size: string, ratio: string, n: nat): Option<string>
    requires n <= |rows|
  {
    if n == 0 then None
    else if rows[n - 1].arraySize == size && rows[n - 1].ratio == ratio then Some(rows[n - 1].cycles)
    else LastValue(rows, size, ratio, n - 1)
  }

  predicate Parses(r: Record) {
    |r.cycles| > 0 && AllDigits(r.cycles)
  }

  /** Organizing fails exactly when some row's cycles are not a number. */
  lemma {:induction false} OrganizeFails(rows: seq<Record>, n: nat)
    requires n <= |rows|
    ensures OrganizeUpTo(rows, n).None? <==> exists i :: 0 <= i < n && !Parses(rows[i])
  {
    if n > 0 {
      OrganizeFails(rows, n - 1);
    }
  }

  /** Last write wins, and a key no row wrote reads as 0. */
  lemma {:induction false} OrganizeLookup(rows: seq<Record>, n: nat, size: string, ratio: string)
    requires n <= |rows| && OrganizeUpTo(rows, n).Some?
    ensures Lookup(OrganizeUpTo(rows, n).value, size, ratio)
            == match LastValue(rows, size, ratio, n)
               case None => 0
               case Some(t) => DigitsValueOr0(t)
  {
    if n > 0 {
      OrganizeLookup(rows, n - 1, size, ratio);
    }
  }

  /** The value of a digit string, 0 for anything else. */
  function DigitsValueOr0(t: string): nat {
    match ParseNat(t)
    case Some(v) => v
    case None => 0
  }

  /** The outer keys are the array sizes of the rows, the inner keys the ratios
      seen with that size. */
  lemma {:induction false} OrganizeKeys(rows: seq<Record>, n: nat, size: string, ratio: string)
    requires n <= |rows| && OrganizeUpTo(rows, n).Some?
    ensures size in OrganizeUpTo(rows, n).value <==> exists i :: 0 <= i < n && rows[i].arraySize == size
    ensures size in OrganizeUpTo(rows, n).value ==>
              (ratio in OrganizeUpTo(rows, n).value[size]
               <==> exists i :: 0 <= i < n && rows[i].arraySize == size && rows[i].ratio == ratio)
  {
    if n > 0 {
      OrganizeKeys(rows, n - 1, size, ratio);
    }
  }

  /** `sorted(keys, key=lambda x: int(x.split('x')[0]))`'s key. */
  function SizeKey(text: string): Option<nat> {
    ParseNat(Split(text, 'x')[0])
  }

  /** `sorted(keys, key=lambda x: int(x.split(':')[0]))`'s key. */
  function RatioKey(text: string): Option<nat> {
    ParseNat(Split(text, ':')[0])
  }

  /** Every label has a key, i.e. no `int()` in the key function raises. */
  predicate AllKeyed(s: seq<string>, key: string -> Option<nat>) {
    forall i :: 0 <= i < |s| ==> key(s[i]).Some?
  }

  /** Keys ascend along `s`. */
  predicate SortedBy(s: seq<string>, key: string -> Option<nat>)
    requires AllKeyed(s, key)
  {
    forall i, j :: 0 <= i < j < |s| ==> key(s[i]).value <= key(s[j]).value
  }

  /** The first position from `from` on whose key exceeds `k`. */
  function FirstAbove(s: seq<string>, key: string -> Option<nat>, k: nat, from: nat): (p: nat)
    requires from <= |s| && AllKeyed(s, key)
    requires forall i :: 0 <= i < from ==> key(s[i]).value <= k
    ensures from <= p <= |s|
    ensures forall i :: 0 <= i < p ==> key(s[i]).value <= k
    ensures p < |s| ==> key(s[p]).value > k
    decreases |s| - from
  {
    if from == |s| || key(s[from]).value > k then from else FirstAbove(s, key, k, from + 1)
  }

  /** Insert `x` after every label whose key is not above its own. */
  function Insert(x: string, s: seq<string>, key: string -> Option<nat>): (r: seq<string>)
    requires key(x).Some? && AllKeyed(s, key) && SortedBy(s, key)
    ensures AllKeyed(r, key) && SortedBy(r, key)
    ensures multiset(r) == multiset(s) + multiset{x}
  {
    var p := FirstAbove(s, key, key(x).value, 0);
    InsertFacts(x, s, key, p);
    s[..p] + [x] + s[p..]
  }

  lemma InsertFacts(x: string, s: seq<string>, key: string -> Option<nat>, p: nat)
    requires key(x).Some? && AllKeyed(s, key) && SortedBy(s, key) && p <= |s|
    requires forall i :: 0 <= i < p ==> key(s[i]).value <= key(x).value
    requires p < |s| ==> key(s[p]).value > key(x).value
    ensures AllKeyed(s[..p] + [x] + s[p..], key) && SortedBy(s[..p] + [x] + s[p..], key)
    ensures multiset(s[..p] + [x] + s[p..]) == multiset(s) + multiset{x}
  {
    InsertSorted(x, s, key, p, s[..p] + [x] + s[p..]);
    assert s == s[..p] + s[p..];
  }

  lemma InsertSorted(x: string, s: seq<string>, key: string -> Option<nat>, p: nat, r: seq<string>)
    requires key(x).Some? && AllKeyed(s, key) && SortedBy(s, key) && p <= |s|
    requires forall i :: 0 <= i < p ==> key(s[i]).value <= key(x).value
    requires p < |s| ==> key(s[p]).value > key(x).value
    requires r == s[..p] + [x] + s[p..]
    ensures AllKeyed(r, key) && SortedBy(r, key)
  {
    InsertAt(x, s, p, r);
    assert AllKeyed(r, key);
    forall i, j | 0 <= i < j < |r|
      ensures key(r[i]).value <= key(r[j]).value
    {
      if j <= p {
      } else if i < p {
        assert key(s[i]).value <= key(s[j - 1]).value;
      } else if i == p {
        assert key(s[p]).value <= key(s[j - 1]).value;
      } else {
        assert key(s[i - 1]).value <= key(s[j - 1]).value;
      }
    }
  }

  /** Where each element of `s` lands once `x` is inserted at `p`. */
  lemma InsertAt<T>(x: T, s: seq<T>, p: nat, r: seq<T>)
    requires p <= |s| && r == s[..p] + [x] + s[p..]
    ensures |r| == |s| + 1 && r[p] == x
    ensures forall i :: 0 <= i < p ==> r[i] == s[i]
    ensures forall i :: p < i < |r| ==> r[i] == s[i - 1]
  {
  }

  function SortUpTo(labels: seq<string>, key: string -> Option<nat>, n: nat): (r: seq<string>)
    requires n <= |labels| && AllKeyed(labels, key)
    ensures AllKeyed(r, key) && SortedBy(r, key)
    ensures multiset(r) == multiset(labels[..n])
  {
    if n == 0 then []
    else
      assert labels[..n] == labels[..n - 1] + [labels[n - 1]];
      Insert(labels[n - 1], SortUpTo(labels, key, n - 1), key)
  }

  /** `sorted(labels, key=key)`: None if a key raises, otherwise the same labels
      reordered so that their keys ascend. */
  function SortLabels(labels: seq<string>, key: string -> Option<nat>): (r: Option<seq<string>>)
    ensures r.Some? <==> AllKeyed(labels, key)
    ensures r.Some? ==> multiset(r.value) == multiset(labels)
    ensures r.Some? ==> AllKeyed(r.value, key) && SortedBy(r.value, key)
  {
    if AllKeyed(labels, key) then
      assert labels[..|labels|] == labels;
      Some(SortUpTo(labels, key, |labels|))
    else None
  }

  /** A size label sorts by its height and a ratio label by its N. */
  lemma SortKeysOfLabels(h: nat, w: nat, n: nat, m: nat)
    ensures SizeKey(NatToString(h) + "x" + NatToString(w)) == Some(h)
    ensures RatioKey(NatToString(n) + ":" + NatToString(m)) == Some(n)
  {
    NatToStringHasNo(h, 'x');
    NatToStringHasNo(w, 'x');
    SplitConcat(NatToString(h), NatToString(w), 'x');
    SplitNoSep(NatToString(h), 'x');
    NatToStringHasNo(n, ':');
    NatToStringHasNo(m, ':');
    SplitConcat(NatToString(n), NatToString(m), ':');
    SplitNoSep(NatToString(n), ':');
    ParseNatToString(h);
    ParseNatToString(n);
    assert NatToString(h) + "x" + NatToString(w) == NatToString(h) + ['x'] + NatToString(w);
    assert NatToString(n) + ":" + NatToString(m) == NatToString(n) + [':'] + NatToString(m);
  }

  /** `csv.DictReader` over a table whose first line is the header of
      `Runner.Header`: one record per later line. Under that header the columns
      `organize_data` names, "Array Size", "Sparsity Ratio" and "Compute
      Cycles", are the second, third and fourth fields. */
  function ReadTable(t: seq<seq<string>>): (rs: seq<Record>)
    requires |t| > 0 ==> t[0] == Runner.Header
    requires forall k :: 0 < k < |t| ==> |t[k]| == 4
    ensures |t| > 0 ==> |rs| == |t| - 1
    ensures forall k :: 0 <= k < |rs| ==> k + 1 < |t| && rs[k] == Record(t[k + 1][1], t[k + 1][2], t[k + 1][3])
  {
    if |t| == 0 then []
    else seq(|t| - 1, k requires 0 <= k < |t| - 1 => Record(t[k + 1][1], t[k + 1][2], t[k + 1][3]))
  }

  /** The last record with a key is the one `LastValue` finds. */
  lemma {:induction false} LastValueAt(rows: seq<Record>, k: nat, n: nat)
    requires k < n <= |rows|
    requires forall j :: k < j < n ==>
               rows[j].arraySize != rows[k].arraySize || rows[j].ratio != rows[k].ratio
    ensures LastValue(rows, rows[k].arraySize, rows[k].ratio, n) == Some(rows[k].cycles)
  {
    if n - 1 > k {
      LastValueAt(rows, k, n - 1);
    }
  }

  /** Reading back the table the `_rws` sweep writes: it always organizes, and a
      row whose key no later row repeats reads back its own cycle count. */
  lemma ReadBackCounts(rows: seq<Runner.Row<nat>>, k: nat)
    requires k < |rows|
    requires forall j :: k < j < |rows| ==>
               rows[j].arraySize != rows[k].arraySize || rows[j].ratio != rows[k].ratio
    ensures Organize(ReadTable(Runner.CountTable(rows))).Some?
    ensures Lookup(Organize(ReadTable(Runner.CountTable(rows))).value, rows[k].arraySize, rows[k].ratio)
            == rows[k].cycles
  {
    var t := Runner.CountTable(rows);
    var rs := ReadTable(t);
    forall i | 0 <= i < |rs|
      ensures Parses(rs[i])
    {
      ParseNatToString(rows[i].cycles);
    }
    OrganizeFails(rs, |rs|);
    OrganizeLookup(rs, |rs|, rows[k].arraySize, rows[k].ratio);
    LastValueAt(rs, k, |rs|);
    ParseNatToString(rows[k].cycles);
  }

  /** Reading back the table graph_simulations.py writes gives one record per
      row, in order, with the row's size, ratio and cycle text. */
  lemma ReadBackText(rows: seq<Runner.Row<string>>)
    ensures |ReadTable(Runner.TextTable(rows))| == |rows|
    ensures forall k :: 0 <= k < |rows| ==>
              ReadTable(Runner.TextTable(rows))[k] == Record(rows[k].arraySize, rows[k].ratio, rows[k].cycles)
  {
    var t := Runner.TextTable(rows);
    forall k | 0 <= k < |rows|
      ensures ReadTable(t)[k] == Record(rows[k].arraySize, rows[k].ratio, rows[k].cycles)
    {
      assert t[k + 1] == [rows[k].lws, rows[k].arraySize, rows[k].ratio, rows[k].cycles];
    }
  }

  /** The per-file bar heights of one array size: `[data[array_size][sr] for sr in ratios]`. */
  function Heights(d: Data, size: string, ratios: seq<string>): (h: seq<nat>)
    ensures |h| == |ratios| && forall k :: 0 <= k < |ratios| ==> h[k] == Lookup(d, size, ratios[k])
  {
    seq(|ratios|, k requires 0 <= k < |ratios| => Lookup(d, size, ratios[k]))
  }

  /** Reference: the sum over the first `n` files of their value for one bar. */
  function ColumnSum(files: seq<Data>, size: string, ratio: string, n: nat): nat
    requires n <= |files|
  {
    if n == 0 then 0 else ColumnSum(files, size, ratio, n - 1) + Lookup(files[n - 1], size, ratio)
  }

  /** The stacking loop of `plot_results_combined_stacked`: after all files, the
      height of the k-th bar is the sum over files of their value for the k-th ratio. */
  method StackedHeights(files: seq<Data>, size: string, ratios: seq<string>) returns (cumulative: seq<nat>)
    ensures |cumulative| == |ratios|
    ensures forall k :: 0 <= k < |ratios| ==> cumulative[k] == ColumnSum(files, size, ratios[k], |files|)
  {
    cumulative := seq(|ratios|, _ => 0);
    var i := 0;
    while i < |files|
      invariant 0 <= i <= |files|
      invariant |cumulative| == |ratios|
      invariant forall k :: 0 <= k < |ratios| ==> cumulative[k] == ColumnSum(files, size, ratios[k], i)
    {
      var heights := Heights(files[i], size, ratios);
      cumulative := seq(|ratios|, k requires 0 <= k < |ratios| => cumulative[k] + heights[k]);
      i := i + 1;
    }
  }

  /** Stacking is additive over files: the column of a concatenation of file
      lists is the sum of the two columns. */
  lemma {:induction false} ColumnSumAppend(a: seq<Data>, b: seq<Data>, size: string, ratio: string, n: nat)
    requires n <= |b|
    ensures ColumnSum(a + b, size, ratio, |a| + n)
            == ColumnSum(a, size, ratio, |a|) + ColumnSum(b, size, ratio, n)
  {
    if n == 0 {
      ColumnSumPrefix(a, b, size, ratio, |a|);
    } else {
      ColumnSumAppend(a, b, size, ratio, n - 1);
      assert (a + b)[|a| + n - 1] == b[n - 1];
    }
  }

  lemma {:induction false} ColumnSumPrefix(a: seq<Data>, b: seq<Data>, size: string, ratio: string, n: nat)
    requires n <= |a|
    ensures ColumnSum(a + b, size, ratio, n) == ColumnSum(a, size, ratio, n)
  {
    if n > 0 {
      ColumnSumPrefix(a, b, size, ratio, n - 1);
      assert (a + b)[n - 1] == a[n - 1];
    }
  }
}
