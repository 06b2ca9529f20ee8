/** The host side of the steepest-descent solver: a sparse matrix is read
    and grouped by row, its triples and a right-hand side are uploaded, a
    single work-group of one work-item per row runs the solver, and two
    floats (iteration count and residual length) come back.  The kernel
    is not modelled: it leaves two arbitrary values in the result buffer.
    The right-hand side is random in the program; here it is a parameter. */
module SteepDesc {
  import opened Status
  import opened Launch
  import opened Buffers
  import opened Selection
  import opened MatrixMarket

  const Kernel: string := "steep_desc"
  const FloatBytes: nat := 4

  /** The row, column and value columns of a list of triples. */
  function RowsOf(s: seq<Entry>): (c: seq<int>)
    ensures |c| == |s| && forall k :: 0 <= k < |s| ==> c[k] == s[k].row
  {
    seq(|s|, k requires 0 <= k < |s| => s[k].row)
  }

  function ColsOf(s: seq<Entry>): (c: seq<int>)
    ensures |c| == |s| && forall k :: 0 <= k < |s| ==> c[k] == s[k].col
  {
    seq(|s|, k requires 0 <= k < |s| => s[k].col)
  }

  function ValuesOf(s: seq<Entry>): (c: seq<int>)
    ensures |c| == |s| && forall k :: 0 <= k < |s| ==> c[k] == s[k].value
  {
    seq(|s|, k requires 0 <= k < |s| => s[k].value)
  }

  /** The three columns determine the triples. */
  lemma ColumnsDetermineEntries(s: seq<Entry>, t: seq<Entry>)
    requires RowsOf(s) == RowsOf(t) && ColsOf(s) == ColsOf(t) && ValuesOf(s) == ValuesOf(t)
    ensures s == t
  {
    assert |s| == |t|;
    forall k | 0 <= k < |s|
      ensures s[k] == t[k]
    {
      assert RowsOf(s)[k] == RowsOf(t)[k] && ColsOf(s)[k] == ColsOf(t)[k] && ValuesOf(s)[k] == ValuesOf(t)[k];
    }
  }

  /** As written, `b_buffer` copies `num_values` floats from `b_vec`,
      which holds `num_rows`.  For a general file with more entries than
      rows, or a mirrored file with a full diagonal and any entry off it,
      the copy length exceeds `num_rows`: the copy reads past `b_vec`. */
  lemma BVecOverRead(numRows: nat, entries: seq<Entry>, sym: Symmetry)
    requires Mirrored(sym) ==> Diagonals(entries) == numRows
    requires |entries| > numRows
    ensures AdjustedCount(|entries|, numRows, sym) == |ExpandAll(entries, sym)|
    ensures |ExpandAll(entries, sym)| > numRows
  {
    ExpandLength(entries, sym);
  }

  /** What the host observes: the launch, the uploaded columns and
      right-hand side, and the two result values. */
  datatype Solve = Solve(launch: Launch, rows: seq<int>, cols: seq<int>, values: seq<int>, b: seq<int>,
                         iterations: int, residual: int)

  /** The program with the right-hand side buffer sized by the number of
      rows.  `maxWorkGroup` is the kernel's work-group limit. */
  method SteepDescHost(platform: int, gpu: Result<nat>, maxWorkGroup: nat, numRows: nat,
                       entries: seq<Entry>, sym: Symmetry, bVec: seq<int>, kernelOut: seq<int>)
    returns (r: Result<Solve>)
    requires numRows >= 1 && |bVec| == numRows && |kernelOut| == 2
    ensures CreateGpuDevice(platform, gpu).Fail? ==> r == Fail(CreateGpuDevice(platform, gpu).code)
    ensures r.Ok? <==> CreateGpuDevice(platform, gpu).Ok? && |entries| >= 1 && numRows <= maxWorkGroup
    ensures r.Ok? ==> SolverLaunchOk(r.value.launch, numRows, |r.value.rows|)
    ensures r.Ok? ==> var sorted := r.value;
      |sorted.rows| == |ExpandAll(entries, sym)|
      && exists s: seq<Entry> :: multiset(s) == multiset(ExpandAll(entries, sym))
           && RowsOf(s) == sorted.rows && ColsOf(s) == sorted.cols && ValuesOf(s) == sorted.values
           && (RowsBelow(ExpandAll(entries, sym), |s|) ==> RowSorted(s))
    ensures r.Ok? ==> r.value.b == bVec
    ensures r.Ok? ==> r.value.iterations == kernelOut[0] && r.value.residual == kernelOut[1]
  {
    var device := CreateGpuDevice(platform, gpu);
    if device.Fail? {
      return Fail(device.code);
    }
    var sorted := SortedEntries(entries, sym);
    var numValues := |sorted|;
    if numValues == 0 {
      return Fail(InvalidBufferSize);
    }
    var uploaded := UploadMatrix(sorted, bVec);
    var code := CheckRange(numRows, numRows, maxWorkGroup);
    if code != Success {
      return Fail(code);
    }
    var launch := SolverLaunch(numRows, numValues, uploaded.ids);
    var _, _, result := KernelRoundTrip([0, 0], kernelOut, FloatBytes);
    assert RowsOf(sorted) == uploaded.rows && ColsOf(sorted) == uploaded.cols && ValuesOf(sorted) == uploaded.values;
    r := Ok(Solve(launch, uploaded.rows, uploaded.cols, uploaded.values, uploaded.b, result[0], result[1]));
  }

  /** The triples as the kernel receives them: the file's entries
      expanded and sorted by row. */
  method SortedEntries(entries: seq<Entry>, sym: Symmetry) returns (sorted: seq<Entry>)
    ensures |sorted| == |ExpandAll(entries, sym)| && multiset(sorted) == multiset(ExpandAll(entries, sym))
    ensures |sorted| == 0 <==> |entries| == 0
    ensures RowsBelow(ExpandAll(entries, sym), |sorted|) ==> RowSorted(sorted)
  {
    var slots := ReadEntries(entries, sym);
    var starts;
    sorted, starts := SortByRow(slots);
    ExpandLength(entries, sym);
    if RowsBelow(slots, |slots|) {
      InRangeAllPlaced(slots, sorted, starts[|slots|]);
      BlocksSorted(sorted, starts, |slots|);
      assert sorted[..starts[|slots|]] == sorted;
    }
  }

  /** The solver's launch over the uploaded buffers. */
  function SolverLaunch(numRows: nat, numValues: nat, ids: seq<nat>): (l: Launch)
    requires |ids| == 5
    ensures SolverLaunchOk(l, numRows, numValues)
    ensures forall k :: 5 <= k <= 9 ==> l.args[k] == BufferArg(ids[k - 5])
  {
    Launch(Kernel, numRows, numRows, Arguments(numRows, numValues, ids))
  }

  /** Arguments 0-9: the row count, the entry count, three local arrays
      of one float per row, and the five buffers. */
  function Arguments(numRows: nat, numValues: nat, ids: seq<nat>): (args: map<nat, ArgValue>)
    requires |ids| == 5
    ensures args.Keys == {0, 1, 2, 3, 4, 5, 6, 7, 8, 9}
    ensures args[0] == ScalarArg(numRows) && args[1] == ScalarArg(numValues)
    ensures forall k :: 2 <= k <= 4 ==> args[k] == LocalArg(numRows * FloatBytes)
    ensures forall k :: 5 <= k <= 9 ==> args[k] == BufferArg(ids[k - 5])
  {
    map[0 := ScalarArg(numRows), 1 := ScalarArg(numValues),
        2 := LocalArg(numRows * FloatBytes), 3 := LocalArg(numRows * FloatBytes), 4 := LocalArg(numRows * FloatBytes),
        5 := BufferArg(ids[0]), 6 := BufferArg(ids[1]), 7 := BufferArg(ids[2]), 8 := BufferArg(ids[3]), 9 := BufferArg(ids[4])]
  }

  /** A launch of the solver as a single work-group of one work-item per
      row, with every argument bound. */
  predicate SolverLaunchOk(l: Launch, numRows: nat, numValues: nat)
  {
    l.kernel == Kernel && l.global == numRows && l.local == numRows
    && AllBound(l, 10) && l.args.Keys == {0, 1, 2, 3, 4, 5, 6, 7, 8, 9}
    && l.args[0] == ScalarArg(numRows) && l.args[1] == ScalarArg(numValues)
    && (forall k :: 2 <= k <= 4 ==> l.args[k] == LocalArg(numRows * FloatBytes))
    && (forall k :: 5 <= k <= 9 ==> l.args[k].BufferArg?)
  }

  /** The buffers the solver reads: the three columns of the sorted
      triples, the right-hand side, and the two-float result. */
  datatype Uploaded = Uploaded(ids: seq<nat>, rows: seq<int>, cols: seq<int>, values: seq<int>, b: seq<int>)

  method UploadMatrix(sorted: seq<Entry>, bVec: seq<int>) returns (u: Uploaded)
    requires |sorted| >= 1 && |bVec| >= 1
    ensures |u.ids| == 5
    ensures u.rows == RowsOf(sorted) && u.cols == ColsOf(sorted) && u.values == ValuesOf(sorted) && u.b == bVec
  {
    EmptyValid();
    var n := |sorted|;
    assert RowsOf(sorted)[..n] == RowsOf(sorted) && ColsOf(sorted)[..n] == ColsOf(sorted);
    assert ValuesOf(sorted)[..n] == ValuesOf(sorted) && bVec[..|bVec|] == bVec;
    var rows := CopyFromHost(Empty, RowsOf(sorted), n, 4).value;
    var cols := CopyFromHost(rows.store, ColsOf(sorted), n, 4).value;
    assert Contents(cols.store, rows.id) == RowsOf(sorted);
    var values := CopyFromHost(cols.store, ValuesOf(sorted), n, FloatBytes).value;
    assert Contents(values.store, rows.id) == RowsOf(sorted);
    assert Contents(values.store, cols.id) == ColsOf(sorted);
    var b := CopyFromHost(values.store, bVec, |bVec|, FloatBytes).value;
    assert Contents(b.store, rows.id) == RowsOf(sorted);
    assert Contents(b.store, cols.id) == ColsOf(sorted);
    assert Contents(b.store, values.id) == ValuesOf(sorted);
    var result := CreateBuffer(b.store, [0, 0], FloatBytes).value;
    var s := result.store;
    u := Uploaded([rows.id, cols.id, values.id, b.id, result.id],
                  Contents(s, rows.id), Contents(s, cols.id), Contents(s, values.id), Contents(s, b.id));
  }
}
