/** Storage cost of the ELLPACK-block compressed form of a filter matrix
    (`compress_to_ellpack_block` in sparsesim/memory3s4.py). Only the two matrix
    shapes enter the computation, so the model takes the shapes and never the
    matrix contents. One word is 32 bits; every compressed entry costs one word
    plus 2 bits of metadata. */
module Storage {

  /** The returned tuple, in the source's order: dense words, compressed words,
      metadata words. The division by 32 makes the last two Python floats.
      They are multiples of 1/16, which `real` represents exactly. A float
      holds them exactly too while `17 * newRows * newCols` stays below 2^53;
      rounding for larger shapes is not modelled. */
  datatype Cost = Cost(original: int, compressed: real, metadata: real)

  function EllpackBlockCost(originalRows: nat, originalCols: nat, newRows: nat, newCols: nat)
    : (c: Cost)
    ensures c.original == originalRows * originalCols
    ensures c.metadata == (newRows * newCols) as real / 16.0
    ensures c.compressed == 17.0 * (newRows * newCols) as real / 16.0
    ensures 0.0 <= c.metadata <= c.compressed
    ensures c.original >= 0
  {
    var entries := newRows * newCols;
    var metadata := (entries * 2) as real / 32.0;
    Cost(originalRows * originalCols, entries as real + metadata, metadata)
  }

  /** Compression saves space exactly when 17 compressed entries cost less than
      16 dense ones. */
  lemma CompressionSaves(originalRows: nat, originalCols: nat, newRows: nat, newCols: nat)
    ensures EllpackBlockCost(originalRows, originalCols, newRows, newCols).compressed
              < EllpackBlockCost(originalRows, originalCols, newRows, newCols).original as real
            <==> 17 * (newRows * newCols) < 16 * (originalRows * originalCols)
  {
    var c := EllpackBlockCost(originalRows, originalCols, newRows, newCols);
    var e := newRows * newCols;
    var o := originalRows * originalCols;
    assert c.compressed * 16.0 == (17 * e) as real;
    assert c.original as real * 16.0 == (16 * o) as real;
  }

  /** A 100x100 matrix compressed to 50x100 entries. */
  lemma HalfDenseExample()
    ensures EllpackBlockCost(100, 100, 50, 100) == Cost(10000, 5312.5, 312.5)
  {
  }
}
