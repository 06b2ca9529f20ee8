/** The host side of the in-place matrix transpose: a 64 by 64 matrix of
    distinct values is uploaded whole, one work-item is launched per pair
    of 4 by 4 blocks on or above the diagonal, the whole matrix is read
    back and compared with the transpose of the input.  The kernel is not
    modelled: it leaves an arbitrary matrix in the buffer. */
module Transpose {
  import opened Bits
  import opened Status
  import opened Launch
  import opened Buffers
  import opened Checks

  const MatrixDim: nat := 64
  const Kernel: string := "transpose"
  const FloatBytes: nat := 4

  /** Blocks per side: the matrix is cut into 4 by 4 blocks. */
  const BlockDim: nat := MatrixDim / 4

  // ---------------------------------------------------------------------
  // Row-major storage

  /** Number of cells. */
  const Cells: nat := MatrixDim * MatrixDim

  /** The matrix laid out row by row, as the C array is in memory. */
  function Flatten(m: seq<seq<int>>): (s: seq<int>)
    requires IsSquare(m, MatrixDim)
    ensures |s| == Cells
    ensures forall i, j :: 0 <= i < MatrixDim && 0 <= j < MatrixDim ==> s[i * MatrixDim + j] == m[i][j]
  {
    var s := seq(Cells, k requires 0 <= k < Cells => m[k / MatrixDim][k % MatrixDim]);
    forall i, j | 0 <= i < MatrixDim && 0 <= j < MatrixDim
      ensures s[i * MatrixDim + j] == m[i][j]
    {
      DivUnique(i * MatrixDim + j, MatrixDim, i, j);
    }
    s
  }

  /** The rows of a row-major matrix. */
  function Rows(s: seq<int>): (m: seq<seq<int>>)
    requires |s| == Cells
    ensures IsSquare(m, MatrixDim)
    ensures forall i, j :: 0 <= i < MatrixDim && 0 <= j < MatrixDim ==> m[i][j] == s[i * MatrixDim + j]
  {
    seq(MatrixDim, i requires 0 <= i < MatrixDim => s[i * MatrixDim..i * MatrixDim + MatrixDim])
  }

  /** Reading the rows back gives the matrix that was laid out. */
  lemma RowsOfFlatten(m: seq<seq<int>>)
    requires IsSquare(m, MatrixDim)
    ensures Rows(Flatten(m)) == m
  {
    var r := Rows(Flatten(m));
    forall i | 0 <= i < MatrixDim
      ensures r[i] == m[i]
    {
      assert forall j :: 0 <= j < MatrixDim ==> r[i][j] == m[i][j];
    }
  }

  /** Laying out the rows gives the storage back. */
  lemma FlattenOfRows(s: seq<int>)
    requires |s| == Cells
    ensures Flatten(Rows(s)) == s
  {
    var f := Flatten(Rows(s));
    forall k | 0 <= k < Cells
      ensures f[k] == s[k]
    {
      var i, j := k / MatrixDim, k % MatrixDim;
      assert k == i * MatrixDim + j;
    }
  }

  // ---------------------------------------------------------------------
  // Block pairs

  /** The block pairs (bi, bj) with bi <= bj < n, column by column. */
  function UpperPairs(n: nat): (r: seq<(nat, nat)>)
  {
    if n == 0 then [] else UpperPairs(n - 1) + seq(n, i => (i, n - 1))
  }

  /** There are n(n+1)/2 such pairs. */
  lemma {:induction false} UpperPairsCount(n: nat)
    ensures 2 * |UpperPairs(n)| == n * (n + 1)
  {
    if n > 0 {
      UpperPairsCount(n - 1);
    }
  }

  /** A pair is listed exactly when it lies on or above the diagonal. */
  lemma {:induction false} UpperPairsMember(n: nat, bi: nat, bj: nat)
    ensures (bi, bj) in UpperPairs(n) <==> bi <= bj < n
  {
    if n > 0 {
      UpperPairsMember(n - 1, bi, bj);
      var col: seq<(nat, nat)> := seq(n, i => (i, n - 1));
      assert (bi, bj) in col <==> bi < n && bj == n - 1 by {
        if bi < n && bj == n - 1 {
          assert col[bi] == (bi, bj);
        }
      }
    }
  }

  /** No pair is listed twice, so each work-item has its own pair. */
  lemma {:induction false} UpperPairsDistinct(n: nat)
    ensures forall a, b :: 0 <= a < b < |UpperPairs(n)| ==> UpperPairs(n)[a] != UpperPairs(n)[b]
  {
    if n > 0 {
      UpperPairsDistinct(n - 1);
      var prev := UpperPairs(n - 1);
      var col: seq<(nat, nat)> := seq(n, i => (i, n - 1));
      forall k | 0 <= k < |prev|
        ensures prev[k].1 < n - 1
      {
        UpperPairsMember(n - 1, prev[k].0, prev[k].1);
      }
      assert UpperPairs(n) == prev + col;
    }
  }

  /** Every cell of the matrix lies in the block pair of one work-item:
      its own block when it is on or above the block diagonal, the mirrored
      one otherwise. */
  lemma CellCovered(i: nat, j: nat)
    requires i < MatrixDim && j < MatrixDim
    ensures var bi, bj := i / 4, j / 4;
      (if bi <= bj then (bi, bj) else (bj, bi)) in UpperPairs(BlockDim)
  {
    var bi, bj := i / 4, j / 4;
    UpperPairsMember(BlockDim, bi, bj);
    UpperPairsMember(BlockDim, bj, bi);
  }

  /** `(MATRIX_DIM/4 * (MATRIX_DIM/4 + 1))/2`: 136 work-items, one per
      block pair. */
  function GlobalSize(): (g: nat)
    ensures g == |UpperPairs(BlockDim)|
    ensures g == 136
  {
    UpperPairsCount(BlockDim);
    (BlockDim * (BlockDim + 1)) / 2
  }

  // ---------------------------------------------------------------------
  // Host program

  /** What the host observes: the launch, the matrix read back and the
      verdict of the check. */
  datatype Run = Run(launch: Launch, uploaded: seq<int>, result: seq<int>, check: int)

  /** The program.  `localMem` is the device's local memory size, all of
      which is reserved for the kernel; `kernelOut` is the matrix the kernel
      leaves in the buffer.  The local size is left to the implementation
      and written 0. */
  method TransposeHost(localMem: nat, kernelOut: seq<int>) returns (r: Run)
    requires |kernelOut| == Cells
    ensures r.uploaded == Flatten(IndexPattern(MatrixDim))
    ensures r.launch.global == |UpperPairs(BlockDim)| && r.launch.local == 0
    ensures r.launch.kernel == Kernel && AllBound(r.launch, 3) && r.launch.args.Keys == {0, 1, 2}
    ensures r.launch.args[0].BufferArg? && r.launch.args[1] == LocalArg(localMem) && r.launch.args[2] == ScalarArg(BlockDim)
    ensures r.result == kernelOut
    ensures r.check == 0 || r.check == 1
    ensures r.check == 1 <==> IsTransposeOf(Rows(kernelOut), IndexPattern(MatrixDim), MatrixDim)
  {
    var buffer, uploaded, result := KernelRoundTrip(Flatten(IndexPattern(MatrixDim)), kernelOut, FloatBytes);
    var check := CheckTranspose(Rows(result), MatrixDim);
    r := Run(TransposeLaunch(buffer, localMem), uploaded, result, check);
  }

  /** The launch: one work-item per block pair, the buffer, all of local
      memory, and the number of blocks per side. */
  function TransposeLaunch(buffer: nat, localMem: nat): (l: Launch)
    ensures l.global == |UpperPairs(BlockDim)| && l.local == 0
    ensures l.kernel == Kernel && AllBound(l, 3) && l.args.Keys == {0, 1, 2}
    ensures l.args[0] == BufferArg(buffer) && l.args[1] == LocalArg(localMem) && l.args[2] == ScalarArg(BlockDim)
  {
    Launch(Kernel, GlobalSize(), 0, map[0 := BufferArg(buffer), 1 := LocalArg(localMem), 2 := ScalarArg(BlockDim)])
  }

  /** The transpose of a square matrix. */
  function Transposed(m: seq<seq<int>>, dim: nat): (t: seq<seq<int>>)
    requires IsSquare(m, dim)
    ensures IsSquare(t, dim) && IsTransposeOf(t, m, dim)
  {
    seq(dim, i requires 0 <= i < dim => seq(dim, j requires 0 <= j < dim => m[j][i]))
  }

  /** A kernel that transposes the uploaded matrix passes the check, and
      the input itself (a kernel that does nothing) fails it. */
  lemma CheckSeparates(m: seq<seq<int>>)
    requires m == IndexPattern(MatrixDim)
    ensures IsTransposeOf(Rows(Flatten(Transposed(m, MatrixDim))), m, MatrixDim)
    ensures !IsTransposeOf(Rows(Flatten(m)), m, MatrixDim)
  {
    RowsOfFlatten(Transposed(m, MatrixDim));
    RowsOfFlatten(m);
    assert m[0][1] == 1 && m[1][0] == MatrixDim;
  }
}
