/** The nested `for` loops of the config generators as a cartesian product:
    the outer loop's value changes slowest. */
module Product {

  predicate Distinct<T(==)>(s: seq<T>) {
    forall i, j :: 0 <= i < j < |s| ==> s[i] != s[j]
  }

  /** One pass of the inner loop for a fixed outer value. */
  function Row<A, B>(x: A, ys: seq<B>): (r: seq<(A, B)>)
    ensures |r| == |ys| && forall j :: 0 <= j < |ys| ==> r[j] == (x, ys[j])
  {
    seq(|ys|, j requires 0 <= j < |ys| => (x, ys[j]))
  }

  /** `for x in xs: for y in ys: ... (x, y)`. */
  function Pairs<A, B>(xs: seq<A>, ys: seq<B>): seq<(A, B)> {
    PairsTo(xs, ys, |xs|)
  }

  function PairsTo<A, B>(xs: seq<A>, ys: seq<B>, n: nat): seq<(A, B)>
    requires n <= |xs|
  {
    if n == 0 then [] else PairsTo(xs, ys, n - 1) + Row(xs[n - 1], ys)
  }

  /** One element per combination. */
  lemma {:induction false} PairsLength<A, B>(xs: seq<A>, ys: seq<B>, n: nat)
    requires n <= |xs|
    ensures |PairsTo(xs, ys, n)| == n * |ys|
  {
    if n > 0 {
      PairsLength(xs, ys, n - 1);
      assert n * |ys| == (n - 1) * |ys| + |ys|;
    }
  }

  /** The combination `(xs[i], ys[j])` sits at `i * |ys| + j`: outer value major. */
  lemma {:induction false} PairsAt<A, B>(xs: seq<A>, ys: seq<B>, n: nat, i: nat, j: nat)
    requires i < n <= |xs| && j < |ys|
    ensures i * |ys| + j < |PairsTo(xs, ys, n)|
    ensures PairsTo(xs, ys, n)[i * |ys| + j] == (xs[i], ys[j])
  {
    PairsLength(xs, ys, n - 1);
    PairsLength(xs, ys, n);
    if i < n - 1 {
      PairsAt(xs, ys, n - 1, i, j);
    } else {
      assert i * |ys| == (n - 1) * |ys|;
    }
  }

  /** Every element is some combination, at the position `PairsAt` names. */
  lemma {:induction false} PairsMember<A, B>(xs: seq<A>, ys: seq<B>, n: nat, k: nat)
    requires n <= |xs| && k < |PairsTo(xs, ys, n)|
    ensures exists i: nat, j: nat :: i < n && j < |ys| && k == i * |ys| + j
                                      && PairsTo(xs, ys, n)[k] == (xs[i], ys[j])
  {
    PairsLength(xs, ys, n - 1);
    var before := PairsTo(xs, ys, n - 1);
    if k < |before| {
      PairsMember(xs, ys, n - 1, k);
      var i: nat, j: nat :| i < n - 1 && j < |ys| && k == i * |ys| + j && before[k] == (xs[i], ys[j]);
      assert PairsTo(xs, ys, n)[k] == before[k];
    } else {
      var j: nat := k - |before|;
      assert PairsTo(xs, ys, n)[k] == (xs[n - 1], ys[j]);
      assert k == (n - 1) * |ys| + j;
    }
  }

  /** Each component of an element comes from its axis. */
  lemma PairsIn<A, B>(xs: seq<A>, ys: seq<B>, k: nat)
    requires k < |Pairs(xs, ys)|
    ensures Pairs(xs, ys)[k].0 in xs && Pairs(xs, ys)[k].1 in ys
  {
    PairsMember(xs, ys, |xs|, k);
  }

  /** Distinct axes give distinct combinations. */
  lemma PairsDistinct<A, B>(xs: seq<A>, ys: seq<B>)
    requires Distinct(xs) && Distinct(ys)
    ensures Distinct(Pairs(xs, ys))
  {
    var ps := Pairs(xs, ys);
    forall k1, k2 | 0 <= k1 < k2 < |ps|
      ensures ps[k1] != ps[k2]
    {
      PairsMember(xs, ys, |xs|, k1);
      PairsMember(xs, ys, |xs|, k2);
      var i1: nat, j1: nat :| i1 < |xs| && j1 < |ys| && k1 == i1 * |ys| + j1 && ps[k1] == (xs[i1], ys[j1]);
      var i2: nat, j2: nat :| i2 < |xs| && j2 < |ys| && k2 == i2 * |ys| + j2 && ps[k2] == (xs[i2], ys[j2]);
    }
  }

  /** The blocks an outer loop appends, the first `n` of them in order. */
  function Flatten<T>(blocks: seq<seq<T>>, n: nat): (r: seq<T>)
    requires n <= |blocks|
    ensures |r| == Start(blocks, n)
  {
    if n == 0 then [] else Flatten(blocks, n - 1) + blocks[n - 1]
  }

  /** Where block `n` starts: the total length of the blocks before it. */
  function Start<T>(blocks: seq<seq<T>>, n: nat): nat
    requires n <= |blocks|
  {
    if n == 0 then 0 else Start(blocks, n - 1) + |blocks[n - 1]|
  }

  /** The k-th element of block `i` sits `k` places after the block's start. */
  lemma {:induction false} FlattenAt<T>(blocks: seq<seq<T>>, i: nat, k: nat, n: nat)
    requires i < n <= |blocks| && k < |blocks[i]|
    ensures Start(blocks, i) + k < |Flatten(blocks, n)|
    ensures Flatten(blocks, n)[Start(blocks, i) + k] == blocks[i][k]
  {
    var prev := Flatten(blocks, n - 1);
    assert Flatten(blocks, n) == prev + blocks[n - 1];
    if i < n - 1 {
      FlattenAt(blocks, i, k, n - 1);
    } else {
      assert |prev| == Start(blocks, i);
    }
  }

  /** The position of the `j`-th inner value in the `i`-th pass of an inner
      loop of `n` steps. */
  function Position(i: nat, n: nat, j: nat): nat {
    i * n + j
  }

  /** `PairsAt` and `PairsLength` for the whole product. */
  lemma PairsIndex<A, B>(xs: seq<A>, ys: seq<B>, i: nat, j: nat)
    requires i < |xs| && j < |ys|
    ensures |Pairs(xs, ys)| == |xs| * |ys|
    ensures i * |ys| + j < |Pairs(xs, ys)| && Pairs(xs, ys)[i * |ys| + j] == (xs[i], ys[j])
  {
    PairsLength(xs, ys, |xs|);
    PairsAt(xs, ys, |xs|, i, j);
  }

  lemma PairsCount<A, B>(xs: seq<A>, ys: seq<B>)
    ensures |Pairs(xs, ys)| == |xs| * |ys|
  {
    PairsLength(xs, ys, |xs|);
  }
}
