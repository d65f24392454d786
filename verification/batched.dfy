/** Batched kernels: libjit_batchedadd_f, libjit_batchedreduceadd_f and
    libjit_batchedmatmul_f.  A batch of `numSlice` slices of `sliceSize`
    elements is addressed as the 2-D tensor [numSlice, sliceSize], so
    `base + i` of the source is `GetXY([numSlice, sliceSize], n, i)`.
 */
module Batched {
  import opened Index

  /** Row-major order: every element of an earlier row precedes row `n`. */
  lemma RowBefore(s: nat, n': nat, i': nat, n: nat)
    requires n' < n && i' < s
    ensures Mul(n', s) + i' < Mul(n, s)
  {
    MulMono(n' + 1, n, s);
  }

  /** libjit_batchedadd_f: `slice` added to every slice of `batch`. */
  method BatchedAdd(dest: seq<real>, batch: seq<real>, slice: seq<real>,
                    numSlice: nat, sliceSize: nat) returns (r: seq<real>)
    requires Volume([numSlice, sliceSize]) <= |dest|
    requires Volume([numSlice, sliceSize]) <= |batch| && sliceSize <= |slice|
    ensures |r| == |dest|
    ensures forall n, i :: 0 <= n < numSlice && 0 <= i < sliceSize ==>
      r[GetXY([numSlice, sliceSize], n, i)] == batch[GetXY([numSlice, sliceSize], n, i)] + slice[i]
    ensures forall k :: Volume([numSlice, sliceSize]) <= k < |dest| ==> r[k] == dest[k]
  {
    var dims := [numSlice, sliceSize];
    Volume2(dims);
    r := dest;
    for n := 0 to numSlice
      invariant |r| == |dest|
      invariant forall n', i :: 0 <= n' < n && 0 <= i < sliceSize ==>
        r[GetXY(dims, n', i)] == batch[GetXY(dims, n', i)] + slice[i]
      invariant forall k :: Mul(n, sliceSize) <= k < |dest| ==> r[k] == dest[k]
    {
      var base := n * sliceSize;
      MulIsProduct(n, sliceSize);
      for i := 0 to sliceSize
        invariant |r| == |dest|
        invariant forall n', i' :: 0 <= n' < n && 0 <= i' < sliceSize ==>
          r[GetXY(dims, n', i')] == batch[GetXY(dims, n', i')] + slice[i']
        invariant forall i' :: 0 <= i' < i ==>
          r[GetXY(dims, n, i')] == batch[GetXY(dims, n, i')] + slice[i']
        invariant forall k :: base + i <= k < |dest| ==> r[k] == dest[k]
      {
        GetXYRow(dims, n, i);
        RowBefore(sliceSize, n, i, numSlice);
        forall n', i' | 0 <= n' < n && 0 <= i' < sliceSize
          ensures GetXY(dims, n', i') < base + i
        {
          GetXYRow(dims, n', i');
          RowBefore(sliceSize, n', i', n);
        }
        forall i' | 0 <= i' < i
          ensures GetXY(dims, n, i') < base + i
        {
          GetXYRow(dims, n, i');
        }
        r := r[base + i := batch[base + i] + slice[i]];
      }
    }
  }

  /** Sum over the first `m` slices of the elements at position `i`. */
  function ColumnSum(batch: seq<real>, dims: seq<nat>, i: nat, m: nat): real
    requires |dims| == 2 && i < dims[1] && m <= dims[0] && Volume(dims) <= |batch|
  {
    if m == 0 then 0.0
    else ColumnSum(batch, dims, i, m - 1) + batch[GetXY(dims, m - 1, i)]
  }

  /** libjit_batchedreduceadd_f: the first `destSize` elements are cleared and
      every slice of `batch` is added onto the first `sliceSize` of them. */
  method BatchedReduceAdd(dest: seq<real>, batch: seq<real>, destSize: nat,
                          numSlice: nat, sliceSize: nat) returns (r: seq<real>)
    requires destSize <= |dest| && sliceSize <= |dest|
    requires Volume([numSlice, sliceSize]) <= |batch|
    ensures |r| == |dest|
    ensures forall i :: 0 <= i < sliceSize ==>
      r[i] == (if i < destSize then 0.0 else dest[i]) + ColumnSum(batch, [numSlice, sliceSize], i, numSlice)
    ensures forall i :: sliceSize <= i < destSize ==> r[i] == 0.0
    ensures forall i :: destSize <= i < |dest| && sliceSize <= i ==> r[i] == dest[i]
  {
    var dims := [numSlice, sliceSize];
    r := dest;
    for i := 0 to destSize
      invariant |r| == |dest|
      invariant forall j :: 0 <= j < i ==> r[j] == 0.0
      invariant forall j :: i <= j < |dest| ==> r[j] == dest[j]
    {
      r := r[i := 0.0];
    }
    ghost var cleared := r;
    for n := 0 to numSlice
      invariant |r| == |dest|
      invariant forall j :: 0 <= j < sliceSize ==> r[j] == cleared[j] + ColumnSum(batch, dims, j, n)
      invariant forall j :: sliceSize <= j < |dest| ==> r[j] == cleared[j]
    {
      var base := n * sliceSize;
      for i := 0 to sliceSize
        invariant |r| == |dest|
        invariant forall j :: 0 <= j < i ==> r[j] == cleared[j] + ColumnSum(batch, dims, j, n + 1)
        invariant forall j :: i <= j < sliceSize ==> r[j] == cleared[j] + ColumnSum(batch, dims, j, n)
        invariant forall j :: sliceSize <= j < |dest| ==> r[j] == cleared[j]
      {
        MulIsProduct(n, sliceSize);
        GetXYRow(dims, n, i);
        r := r[i := r[i] + batch[base + i]];
      }
    }
  }

  /** Reduce-adding a batch that had `slice` added to each of its slices adds
      `m` copies of the slice to the column sums. */
  lemma {:induction false} ColumnSumOfBatchedAdd(sum: seq<real>, batch: seq<real>, slice: seq<real>,
                                                 dims: seq<nat>, i: nat, m: nat)
    requires |dims| == 2 && i < dims[1] && m <= dims[0]
    requires Volume(dims) <= |sum| && Volume(dims) <= |batch| && dims[1] <= |slice|
    requires forall n, j :: 0 <= n < dims[0] && 0 <= j < dims[1] ==>
      sum[GetXY(dims, n, j)] == batch[GetXY(dims, n, j)] + slice[j]
    ensures ColumnSum(sum, dims, i, m) == ColumnSum(batch, dims, i, m) + (m as real) * slice[i]
    decreases m
  {
    if m > 0 {
      ColumnSumOfBatchedAdd(sum, batch, slice, dims, i, m - 1);
      assert sum[GetXY(dims, m - 1, i)] == batch[GetXY(dims, m - 1, i)] + slice[i];
    }
  }

  /** The slice an operand uses for batch `n`: a batch of one is broadcast. */
  function BatchIndex(operandBatch: nat, n: nat): nat
  {
    if operandBatch == 1 then 0 else n
  }

  /** Extents libjit_batchedmatmul_f needs for every access to stay in bounds. */
  predicate MatMulShapes(destDims: seq<nat>, lhsDims: seq<nat>, rhsDims: seq<nat>)
  {
    && |destDims| == 3 && |lhsDims| == 3 && |rhsDims| == 3
    && (lhsDims[0] == 1 || destDims[0] <= lhsDims[0])
    && (rhsDims[0] == 1 || destDims[0] <= rhsDims[0])
    && destDims[1] <= lhsDims[1] && lhsDims[2] <= rhsDims[1] && destDims[2] <= rhsDims[2]
  }

  /** Row x of slice ln of the left operand: LHS[ln, x, i] for every i. */
  function LhsRow(lhs: seq<real>, lhsDims: seq<nat>, ln: nat, x: nat): (row: seq<real>)
    requires |lhsDims| == 3 && |lhs| == Volume(lhsDims)
    requires ln < lhsDims[0] && x < lhsDims[1]
    ensures |row| == lhsDims[2]
  {
    seq(lhsDims[2], i requires 0 <= i < lhsDims[2] => lhs[GetXYZ(lhsDims, ln, x, i)])
  }

  /** Column y of slice rn of the right operand: RHS[rn, i, y] for every i. */
  function RhsCol(rhs: seq<real>, rhsDims: seq<nat>, rn: nat, y: nat): (col: seq<real>)
    requires |rhsDims| == 3 && |rhs| == Volume(rhsDims)
    requires rn < rhsDims[0] && y < rhsDims[2]
    ensures |col| == rhsDims[1]
  {
    seq(rhsDims[1], i requires 0 <= i < rhsDims[1] => rhs[GetXYZ(rhsDims, rn, i, y)])
  }

  /** Sum over `i < k` of a[i] * b[i], accumulated in the kernel's order. */
  function Dot(a: seq<real>, b: seq<real>, k: nat): real
    requires k <= |a| && k <= |b|
  {
    if k == 0 then 0.0 else Dot(a, b, k - 1) + a[k - 1] * b[k - 1]
  }

  /** The destination element (n, x, y) once the reduction over i is complete. */
  function MatMulCell(lhs: seq<real>, rhs: seq<real>, destDims: seq<nat>, lhsDims: seq<nat>,
                      rhsDims: seq<nat>, n: nat, x: nat, y: nat): real
    requires MatMulShapes(destDims, lhsDims, rhsDims)
    requires |lhs| == Volume(lhsDims) && |rhs| == Volume(rhsDims)
    requires n < destDims[0] && x < destDims[1] && y < destDims[2]
  {
    Dot(LhsRow(lhs, lhsDims, BatchIndex(lhsDims[0], n), x),
        RhsCol(rhs, rhsDims, BatchIndex(rhsDims[0], n), y), lhsDims[2])
  }

  /** libjit_batchedmatmul_f: the destination tensor is cleared and then holds
      the matrix product of every batch; elements past it are untouched. */
  function BatchedMatMul(dest: seq<real>, lhs: seq<real>, rhs: seq<real>,
                         destDims: seq<nat>, lhsDims: seq<nat>, rhsDims: seq<nat>): (r: seq<real>)
    requires MatMulShapes(destDims, lhsDims, rhsDims)
    requires |lhs| == Volume(lhsDims) && |rhs| == Volume(rhsDims) && Volume(destDims) <= |dest|
    ensures |r| == |dest|
    ensures forall k :: Volume(destDims) <= k < |dest| ==> r[k] == dest[k]
  {
    seq(|dest|, k requires 0 <= k < |dest| =>
      if k < Volume(destDims) then
        var c := Unravel(destDims, k);
        MatMulCell(lhs, rhs, destDims, lhsDims, rhsDims, c[0], c[1], c[2])
      else dest[k])
  }

  /** dest[n, x, y] = sum over i of LHS[ln, x, i] * RHS[rn, i, y]. */
  lemma BatchedMatMulCell(dest: seq<real>, lhs: seq<real>, rhs: seq<real>,
                          destDims: seq<nat>, lhsDims: seq<nat>, rhsDims: seq<nat>,
                          n: nat, x: nat, y: nat)
    requires MatMulShapes(destDims, lhsDims, rhsDims)
    requires |lhs| == Volume(lhsDims) && |rhs| == Volume(rhsDims) && Volume(destDims) <= |dest|
    requires n < destDims[0] && x < destDims[1] && y < destDims[2]
    ensures GetXYZ(destDims, n, x, y) < |dest|
    ensures BatchedMatMul(dest, lhs, rhs, destDims, lhsDims, rhsDims)[GetXYZ(destDims, n, x, y)]
         == Dot(LhsRow(lhs, lhsDims, BatchIndex(lhsDims[0], n), x),
                RhsCol(rhs, rhsDims, BatchIndex(rhsDims[0], n), y), lhsDims[2])
  {
    UnravelXYZ(destDims, n, x, y);
  }

  /** A batch-of-one operand repeated `batch` times. */
  function Tile(t: seq<real>, dims: seq<nat>, batch: nat): (r: seq<real>)
    requires |dims| == 3 && dims[0] == 1 && |t| == Volume(dims)
    ensures |r| == Volume([batch, dims[1], dims[2]])
  {
    var tdims := [batch, dims[1], dims[2]];
    seq(Volume(tdims), k requires 0 <= k < Volume(tdims) =>
      var c := Unravel(tdims, k);
      t[GetXYZ(dims, 0, c[1], c[2])])
  }

  /** Every batch of the tiled tensor is the original slice. */
  lemma TileCell(t: seq<real>, dims: seq<nat>, batch: nat, n: nat, x: nat, i: nat)
    requires |dims| == 3 && dims[0] == 1 && |t| == Volume(dims)
    requires n < batch && x < dims[1] && i < dims[2]
    ensures GetXYZ([batch, dims[1], dims[2]], n, x, i) < Volume([batch, dims[1], dims[2]])
    ensures Tile(t, dims, batch)[GetXYZ([batch, dims[1], dims[2]], n, x, i)] == t[GetXYZ(dims, 0, x, i)]
  {
    UnravelXYZ([batch, dims[1], dims[2]], n, x, i);
  }

  /** Every row of every batch of the tiled tensor is the original row. */
  lemma TileRow(t: seq<real>, dims: seq<nat>, batch: nat, n: nat, x: nat)
    requires |dims| == 3 && dims[0] == 1 && |t| == Volume(dims)
    requires n < batch && x < dims[1]
    ensures LhsRow(Tile(t, dims, batch), [batch, dims[1], dims[2]], n, x) == LhsRow(t, dims, 0, x)
  {
    var tiled := Tile(t, dims, batch);
    var tdims := [batch, dims[1], dims[2]];
    forall i | 0 <= i < dims[2]
      ensures LhsRow(tiled, tdims, n, x)[i] == LhsRow(t, dims, 0, x)[i]
    {
      TileCell(t, dims, batch, n, x, i);
    }
  }

  /** Broadcasting a batch-of-one left operand gives the same product as
      multiplying by that operand repeated across the whole batch. */
  lemma MatMulBroadcastIsTiling(dest: seq<real>, lhs: seq<real>, rhs: seq<real>,
                                destDims: seq<nat>, lhsDims: seq<nat>, rhsDims: seq<nat>)
    requires MatMulShapes(destDims, lhsDims, rhsDims) && lhsDims[0] == 1
    requires |lhs| == Volume(lhsDims) && |rhs| == Volume(rhsDims) && Volume(destDims) <= |dest|
    ensures MatMulShapes(destDims, [destDims[0], lhsDims[1], lhsDims[2]], rhsDims)
    ensures BatchedMatMul(dest, lhs, rhs, destDims, lhsDims, rhsDims)
         == BatchedMatMul(dest, Tile(lhs, lhsDims, destDims[0]), rhs, destDims,
                          [destDims[0], lhsDims[1], lhsDims[2]], rhsDims)
  {
    var tdims := [destDims[0], lhsDims[1], lhsDims[2]];
    var tiled := Tile(lhs, lhsDims, destDims[0]);
    var a := BatchedMatMul(dest, lhs, rhs, destDims, lhsDims, rhsDims);
    var b := BatchedMatMul(dest, tiled, rhs, destDims, tdims, rhsDims);
    forall k | 0 <= k < Volume(destDims)
      ensures a[k] == b[k]
    {
      var c := Unravel(destDims, k);
      TileRow(lhs, lhsDims, destDims[0], BatchIndex(tdims[0], c[0]), c[1]);
      if destDims[0] == 1 {
        assert BatchIndex(tdims[0], c[0]) == 0;
      }
    }
  }
}
