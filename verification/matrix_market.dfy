/** Post-processing of a sparse matrix read in MatrixMarket coordinate
    format, shared by the matrix-reading and steepest-descent examples:
    entries arrive one-based, symmetric, skew-symmetric and Hermitian files
    list one triangle and are expanded by mirroring, and the
    (row, column, value) triples are then grouped by row.  Parsing the
    banner and the text of each line is left out: a file is its header
    counts and its list of entries. */
module MatrixMarket {
  import opened Shuffle

  /** One (row, column, value) triple.  Values are single-precision
      floats that are only moved, never computed with; they are modelled
      as opaque integers. */
  datatype Entry = Entry(row: int, col: int, value: int)

  /** The storage kinds of the banner that matter here. */
  datatype Symmetry = General | Symmetric | Skew | Hermitian

  /** Only one triangle is listed; the other is implied. */
  predicate Mirrored(sym: Symmetry)
  {
    sym != General
  }

  /** An entry with row and column moved from one-based to zero-based. */
  function ZeroBased(e: Entry): (z: Entry)
    ensures z.row == e.row - 1 && z.col == e.col - 1 && z.value == e.value
  {
    Entry(e.row - 1, e.col - 1, e.value)
  }

  /** The implied entry across the diagonal: row and column swapped, the
      value copied unchanged (not negated, even for skew files). */
  function Mirror(e: Entry): (m: Entry)
    ensures m.row == e.col && m.col == e.row && m.value == e.value
  {
    Entry(e.col, e.row, e.value)
  }

  /** The array slots one file entry fills. */
  function Slots(e: Entry, sym: Symmetry): (s: seq<Entry>)
    ensures |s| == (if Mirrored(sym) && e.row != e.col then 2 else 1)
    ensures s[0] == ZeroBased(e)
    ensures |s| == 2 ==> s[1] == Mirror(ZeroBased(e))
  {
    var z := ZeroBased(e);
    if Mirrored(sym) && z.row != z.col then [z, Mirror(z)] else [z]
  }

  /** All the slots a file's entries fill, in file order. */
  function ExpandAll(entries: seq<Entry>, sym: Symmetry): seq<Entry>
  {
    if |entries| == 0 then [] else Slots(entries[0], sym) + ExpandAll(entries[1..], sym)
  }

  /** Expansion distributes over concatenation. */
  lemma {:induction false} ExpandAppend(a: seq<Entry>, b: seq<Entry>, sym: Symmetry)
    ensures ExpandAll(a + b, sym) == ExpandAll(a, sym) + ExpandAll(b, sym)
  {
    if |a| > 0 {
      assert (a + b)[0] == a[0];
      assert (a + b)[1..] == a[1..] + b;
      ExpandAppend(a[1..], b, sym);
    } else {
      assert a + b == b;
    }
  }

  /** Diagonal entries of a file. */
  function Diagonals(entries: seq<Entry>): (d: nat)
    ensures d <= |entries|
  {
    if |entries| == 0 then 0 else (if entries[0].row == entries[0].col then 1 else 0) + Diagonals(entries[1..])
  }

  /** Each off-diagonal entry of a mirrored file fills two slots, every
      other entry one. */
  lemma {:induction false} ExpandLength(entries: seq<Entry>, sym: Symmetry)
    ensures |ExpandAll(entries, sym)| == |entries| + (if Mirrored(sym) then |entries| - Diagonals(entries) else 0)
  {
    if |entries| > 0 {
      ExpandLength(entries[1..], sym);
    }
  }

  /** Entry k of the file lands at the slot after everything before it:
      converted to zero-based, and in a mirrored file followed at once by
      its mirror when it is off the diagonal. */
  lemma ExpandAt(entries: seq<Entry>, sym: Symmetry, k: nat)
    requires k < |entries|
    ensures var o := |ExpandAll(entries[..k], sym)|;
      var all := ExpandAll(entries, sym);
      o < |all| && all[o] == ZeroBased(entries[k])
      && (Mirrored(sym) && entries[k].row != entries[k].col ==> o + 1 < |all| && all[o + 1] == Mirror(ZeroBased(entries[k])))
  {
    assert entries == entries[..k] + entries[k..];
    ExpandAppend(entries[..k], entries[k..], sym);
  }

  // ---------------------------------------------------------------------
  // Array size

  /** `num_values += num_values - num_rows` for mirrored files: the size
      the arrays are allocated with. */
  function AdjustedCount(nnz: nat, numRows: nat, sym: Symmetry): int
  {
    if Mirrored(sym) then nnz + (nnz - numRows) else nnz
  }

  /** The adjusted count is the number of slots the file fills exactly
      when the file is general or lists exactly `num_rows` diagonal
      entries. */
  lemma AdjustedCountExact(entries: seq<Entry>, numRows: nat, sym: Symmetry)
    ensures AdjustedCount(|entries|, numRows, sym) == |ExpandAll(entries, sym)|
      <==> !Mirrored(sym) || Diagonals(entries) == numRows
  {
    ExpandLength(entries, sym);
  }

  /** The read loop as written: entries are read while the slot index is
      below `count`, and an off-diagonal entry of a mirrored file writes
      its mirror at the next index without checking it.  Returns the slots
      written, in order, and the number of entries read.  The file is
      assumed to hold enough entries to reach `count`. */
  function ReadLoop(entries: seq<Entry>, sym: Symmetry, count: nat): (r: (seq<Entry>, nat))
    requires count <= |ExpandAll(entries, sym)|
    ensures r.1 <= |entries| && r.0 == ExpandAll(entries[..r.1], sym)
    ensures count <= |r.0| <= count + 1
    decreases |entries|
  {
    if count == 0 then
      assert entries[..0] == [];
      ([], 0)
    else
      var s := Slots(entries[0], sym);
      var rest := ReadLoop(entries[1..], sym, if |s| >= count then 0 else count - |s|);
      assert entries[..rest.1 + 1][1..] == entries[1..][..rest.1];
      (s + rest.0, rest.1 + 1)
  }

  /** When the count is right, the loop reads the whole file and fills
      the arrays exactly. */
  lemma {:induction false} ExactCountReadsAll(entries: seq<Entry>, sym: Symmetry)
    ensures ReadLoop(entries, sym, |ExpandAll(entries, sym)|) == (ExpandAll(entries, sym), |entries|)
  {
    if |entries| > 0 {
      ExactCountReadsAll(entries[1..], sym);
      assert entries[..|entries|] == entries;
    }
  }

  /** When the file has fewer diagonal entries than rows, the count is
      too small: the loop either writes one slot past the arrays or stops
      before the end of the file. */
  lemma ShortCountLoses(entries: seq<Entry>, numRows: nat, sym: Symmetry)
    requires Mirrored(sym) && Diagonals(entries) < numRows
    requires AdjustedCount(|entries|, numRows, sym) >= 0
    ensures AdjustedCount(|entries|, numRows, sym) < |ExpandAll(entries, sym)|
    ensures var count := AdjustedCount(|entries|, numRows, sym);
      var r := ReadLoop(entries, sym, count);
      |r.0| == count + 1 || r.1 < |entries|
  {
    ExpandLength(entries, sym);
    var count := AdjustedCount(|entries|, numRows, sym);
    var r := ReadLoop(entries, sym, count);
    if r.1 == |entries| {
      assert entries[..r.1] == entries;
    }
  }

  /** A symmetric 2 by 2 file listing one diagonal entry and one
      off-diagonal entry: the arrays get 2*2 - 2 = 2 slots, and the
      mirror of the second entry is written at index 2. */
  lemma OverrunExample()
    ensures var entries := [Entry(1, 1, 1), Entry(1, 2, 2)];
      AdjustedCount(|entries|, 2, Symmetric) == 2
      && |ExpandAll(entries, Symmetric)| == 3
      && |ReadLoop(entries, Symmetric, 2).0| == 3
  {
    var entries := [Entry(1, 1, 1), Entry(1, 2, 2)];
    assert entries[1..] == [Entry(1, 2, 2)];
    assert entries[1..][1..] == [];
  }

  /** The read loop with room for every slot: arrays of 2*nnz triples,
      so the mirror write is always in bounds, and the number of slots
      filled is the count handed on. */
  method ReadEntries(entries: seq<Entry>, sym: Symmetry) returns (slots: seq<Entry>)
    ensures slots == ExpandAll(entries, sym)
    ensures |slots| <= 2 * |entries|
  {
    var a := new Entry[2 * |entries|](_ => Entry(0, 0, 0));
    var i, k := 0, 0;
    while k < |entries|
      invariant 0 <= k <= |entries| && i <= 2 * k
      invariant a[..i] == ExpandAll(entries[..k], sym)
    {
      var z := ZeroBased(entries[k]);
      a[i] := z;
      if Mirrored(sym) && z.row != z.col {
        a[i + 1] := Mirror(z);
        i := i + 2;
      } else {
        i := i + 1;
      }
      assert entries[..k + 1] == entries[..k] + [entries[k]];
      ExpandAppend(entries[..k], [entries[k]], sym);
      assert [entries[k]][1..] == [];
      k := k + 1;
    }
    assert entries[..k] == entries;
    slots := a[..i];
  }

  // ---------------------------------------------------------------------
  // Grouping by row

  /** Rows never decrease from one entry to any later one. */
  predicate RowSorted(s: seq<Entry>)
  {
    forall p, q :: 0 <= p <= q < |s| ==> s[p].row <= s[q].row
  }

  /** Every row lies in [0, num). */
  predicate RowsBelow(s: seq<Entry>, num: int)
  {
    forall k :: 0 <= k < |s| ==> 0 <= s[k].row < num
  }

  /** `sort(num, rows, cols, values)`: pass i moves every entry with row i
      that is still at or after `index` to a block starting at `index`,
      by swapping whole triples.  `starts[i]` is `index` at the start of
      pass i and `starts[num]` its final value `last`. */
  method SortByRow(input: seq<Entry>) returns (r: seq<Entry>, starts: seq<nat>)
    ensures |r| == |input| && multiset(r) == multiset(input)
    ensures |starts| == |input| + 1 && starts[0] == 0
    ensures forall i :: 0 <= i <= |input| ==> starts[i] <= |input|
    ensures forall i :: 0 <= i < |input| ==> starts[i] <= starts[i + 1]
    ensures forall i, k :: 0 <= i < |input| && starts[i] <= k < starts[i + 1] ==> r[k].row == i
    ensures forall k :: starts[|input|] <= k < |input| ==> !(0 <= r[k].row < |input|)
    ensures RowSorted(input) && RowsBelow(input, |input|) ==> r == input
  {
    var num := |input|;
    r := input;
    starts := [0];
    var index := 0;
    for i := 0 to num
      invariant |r| == num && multiset(r) == multiset(input)
      invariant |starts| == i + 1 && starts[0] == 0 && starts[i] == index && index <= num
      invariant forall p :: 0 <= p <= i ==> starts[p] <= num
      invariant forall p :: 0 <= p < i ==> starts[p] <= starts[p + 1]
      invariant forall p, k :: 0 <= p < i && starts[p] <= k < starts[p + 1] ==> r[k].row == p
      invariant forall k :: index <= k < num ==> !(0 <= r[k].row < i)
      invariant RowSorted(input) && RowsBelow(input, num) ==> r == input
    {
      var before := r;
      r, index := Gather(r, i, index);
      StartsMonotone(starts, i);
      forall p, k | 0 <= p < i && starts[p] <= k < starts[p + 1]
        ensures r[k].row == p
      {
        assert k < starts[i];
        assert r[k] == r[..starts[i]][k] == before[..starts[i]][k] == before[k];
      }
      starts := starts + [index];
    }
  }

  /** Pass i of the sort: every entry with row i at or after `index` is
      swapped, whole, into a block starting at `index`; entries in front of
      `index` are not touched, and an entry already in its place is only
      stepped over. */
  method Gather(s: seq<Entry>, i: int, index: nat) returns (r: seq<Entry>, last: nat)
    requires index <= |s|
    requires forall k :: index <= k < |s| ==> !(0 <= s[k].row < i)
    ensures |r| == |s| && multiset(r) == multiset(s)
    ensures index <= last <= |s| && r[..index] == s[..index]
    ensures forall k :: index <= k < last ==> r[k].row == i
    ensures forall k :: last <= k < |s| ==> !(0 <= r[k].row < i + 1)
    ensures RowSorted(s) && RowsBelow(s, |s|) ==> r == s
  {
    r, last := s, index;
    var j := index;
    while j < |s|
      invariant index <= last <= j <= |s|
      invariant |r| == |s| && multiset(r) == multiset(s)
      invariant r[..index] == s[..index]
      invariant forall k :: index <= k < last ==> r[k].row == i
      invariant forall k :: last <= k < j ==> r[k].row != i
      invariant forall k :: last <= k < |s| ==> !(0 <= r[k].row < i)
      invariant RowSorted(s) && RowsBelow(s, |s|) ==> r == s
    {
      if r[j].row == i {
        if j == last {
          last := last + 1;
        } else {
          r := Swap(r, last, j);
          last := last + 1;
        }
      }
      j := j + 1;
    }
  }

  /** The entries in front of the final index are in row order. */
  lemma BlocksSorted(r: seq<Entry>, starts: seq<nat>, num: nat)
    requires |starts| == num + 1 && starts[0] == 0
    requires forall i :: 0 <= i <= num ==> starts[i] <= |r|
    requires forall i :: 0 <= i < num ==> starts[i] <= starts[i + 1]
    requires forall i, k :: 0 <= i < num && starts[i] <= k < starts[i + 1] ==> r[k].row == i
    ensures RowSorted(r[..starts[num]])
  {
    StartsMonotone(starts, num);
    var s := r[..starts[num]];
    forall p, q | 0 <= p <= q < |s|
      ensures s[p].row <= s[q].row
    {
      var bp := BlockOf(starts, num, p);
      var bq := BlockOf(starts, num, q);
    }
  }

  /** Block boundaries are monotone across any distance. */
  lemma StartsMonotone(starts: seq<nat>, num: nat)
    requires |starts| == num + 1
    requires forall i :: 0 <= i < num ==> starts[i] <= starts[i + 1]
    ensures forall a, b :: 0 <= a <= b <= num ==> starts[a] <= starts[b]
  {
    forall a, b | 0 <= a <= b <= num
      ensures starts[a] <= starts[b]
    {
      var c := a;
      while c < b
        invariant a <= c <= b && starts[a] <= starts[c]
      {
        c := c + 1;
      }
    }
  }

  /** The block a position in front of the final index belongs to. */
  lemma BlockOf(starts: seq<nat>, num: nat, k: nat) returns (b: nat)
    requires |starts| == num + 1
    requires forall i :: 0 <= i < num ==> starts[i] <= starts[i + 1]
    requires starts[0] <= k < starts[num]
    ensures b < num && starts[b] <= k < starts[b + 1]
  {
    b := 0;
    while starts[b + 1] <= k
      invariant b < num && starts[b] <= k
      decreases num - b
    {
      b := b + 1;
    }
  }

  /** When every row lies in [0, num), the sort leaves nothing behind its
      final index, so the whole result is in row order. */
  lemma InRangeAllPlaced(input: seq<Entry>, r: seq<Entry>, last: nat)
    requires |r| == |input| && multiset(r) == multiset(input) && RowsBelow(input, |input|)
    requires last <= |r|
    requires forall k :: last <= k < |r| ==> !(0 <= r[k].row < |input|)
    ensures last == |input|
  {
    PermutationKeepsRows(input, r, |input|);
    FirstLeftBehind(r, last, |input|);
  }

  /** The entry at `last`, if any, has its row in range. */
  lemma FirstLeftBehind(r: seq<Entry>, last: nat, num: int)
    requires RowsBelow(r, num) && last <= |r|
    ensures last < |r| ==> 0 <= r[last].row < num
  {
  }

  /** Rearranging triples keeps every row in range. */
  lemma PermutationKeepsRows(input: seq<Entry>, r: seq<Entry>, num: int)
    requires multiset(r) == multiset(input) && RowsBelow(input, num)
    ensures RowsBelow(r, num)
  {
    forall k | 0 <= k < |r|
      ensures 0 <= r[k].row < num
    {
      assert r[k] in multiset(input);
    }
  }
}
