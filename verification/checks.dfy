/** The verdicts the host programs compute after reading results back:
    sortedness in a direction, the identity permutation, the transpose of
    the index pattern, and the doubled-index check of the completion
    callback.  Data the kernels produce as floats are only compared, so
    they are modelled as integers. */
module Checks {
  import opened Bits

  /** Each element is at least the one before it. */
  predicate Nondecreasing(s: seq<int>)
  {
    forall i :: 1 <= i < |s| ==> s[i - 1] <= s[i]
  }

  /** Each element is at most the one before it. */
  predicate Nonincreasing(s: seq<int>)
  {
    forall i :: 1 <= i < |s| ==> s[i - 1] >= s[i]
  }

  /** Sorted ascending in the usual all-pairs sense. */
  predicate SortedUp(s: seq<int>)
  {
    forall i, j :: 0 <= i <= j < |s| ==> s[i] <= s[j]
  }

  /** Sorted descending in the all-pairs sense. */
  predicate SortedDown(s: seq<int>)
  {
    forall i, j :: 0 <= i <= j < |s| ==> s[i] >= s[j]
  }

  /** Comparing neighbours, as the checks do, is the same as comparing all
      pairs. */
  lemma NeighboursSuffice(s: seq<int>)
    ensures Nondecreasing(s) <==> SortedUp(s)
    ensures Nonincreasing(s) <==> SortedDown(s)
  {
    if Nondecreasing(s) {
      NeighboursSufficeUp(s);
    }
    if Nonincreasing(s) {
      NeighboursSufficeDown(s);
    }
  }

  lemma {:induction false} NeighboursSufficeUp(s: seq<int>)
    requires Nondecreasing(s)
    ensures SortedUp(s)
  {
    if |s| > 1 {
      var t := s[..|s| - 1];
      assert forall i :: 0 <= i < |t| ==> t[i] == s[i];
      NeighboursSufficeUp(t);
      forall i, j | 0 <= i <= j < |s|
        ensures s[i] <= s[j]
      {
        if j < |s| - 1 {
          assert t[i] <= t[j];
        } else if i < j {
          assert t[i] <= t[|t| - 1];
        }
      }
    }
  }

  lemma {:induction false} NeighboursSufficeDown(s: seq<int>)
    requires Nonincreasing(s)
    ensures SortedDown(s)
  {
    if |s| > 1 {
      var t := s[..|s| - 1];
      assert forall i :: 0 <= i < |t| ==> t[i] == s[i];
      NeighboursSufficeDown(t);
      forall i, j | 0 <= i <= j < |s|
        ensures s[i] >= s[j]
      {
        if j < |s| - 1 {
          assert t[i] >= t[j];
        } else if i < j {
          assert t[i] >= t[|t| - 1];
        }
      }
    }
  }

  /** The direction check of the bitonic sorts: `check` starts at 1 and is
      cleared at the first neighbour pair out of order.  Direction 0 asks
      for ascending order, -1 for descending; any other direction checks
      nothing. */
  method CheckDirection(data: seq<int>, direction: int) returns (check: int)
    ensures check == 0 || check == 1
    ensures check == 1 <==>
      (direction == 0 ==> SortedUp(data)) && (direction == -1 ==> SortedDown(data))
  {
    NeighboursSuffice(data);
    check := 1;
    if direction == 0 {
      var i := 1;
      while i < |data|
        invariant 1 <= i <= |data| || |data| == 0
        invariant forall k :: 1 <= k < i && k < |data| ==> data[k - 1] <= data[k]
      {
        if data[i] < data[i - 1] {
          check := 0;
          break;
        }
        i := i + 1;
      }
    }
    if direction == -1 {
      var i := 1;
      while i < |data|
        invariant 1 <= i <= |data| || |data| == 0
        invariant forall k :: 1 <= k < i && k < |data| ==> data[k - 1] >= data[k]
      {
        if data[i] > data[i - 1] {
          check := 0;
          break;
        }
        i := i + 1;
      }
    }
  }

  // ---------------------------------------------------------------------
  // Identity permutation

  /** 0, 1, ..., n-1. */
  function Range(n: nat): (r: seq<int>)
    ensures |r| == n
    ensures forall i :: 0 <= i < n ==> r[i] == i
  {
    seq(n, i => i)
  }

  /** data is a rearrangement of 0..n-1. */
  predicate IsPermutationOfRange(data: seq<int>)
  {
    multiset(data) == multiset(Range(|data|))
  }

  /** The radix-sort check: cleared at the first position not holding its
      own index. */
  method CheckIdentity(data: seq<int>) returns (check: int)
    ensures check == 0 || check == 1
    ensures check == 1 <==> data == Range(|data|)
  {
    check := 1;
    var i := 0;
    while i < |data|
      invariant 0 <= i <= |data|
      invariant forall k :: 0 <= k < i ==> data[k] == k
    {
      if data[i] != i {
        check := 0;
        break;
      }
      i := i + 1;
    }
  }

  /** For a permutation of 0..n-1, being the identity is the same as being
      sorted, so the identity check is a sortedness check. */
  lemma {:induction false} SortedPermutationIsIdentity(data: seq<int>)
    requires IsPermutationOfRange(data)
    ensures SortedUp(data) <==> data == Range(|data|)
  {
    if SortedUp(data) && |data| > 0 {
      var n := |data|;
      var t := data[..n - 1];
      LastIsLargest(data);
      DropLast(data);
      assert forall i :: 0 <= i < |t| ==> t[i] == data[i];
      SortedPermutationIsIdentity(t);
      assert data == t + [n - 1];
    }
  }

  /** In a sorted permutation of 0..n-1 the last element is n-1. */
  lemma LastIsLargest(data: seq<int>)
    requires IsPermutationOfRange(data) && SortedUp(data) && |data| > 0
    ensures data[|data| - 1] == |data| - 1
  {
    var n := |data|;
    assert Range(n)[n - 1] == n - 1;
    assert n - 1 in multiset(Range(n));
    assert n - 1 in multiset(data);
    var k :| 0 <= k < n && data[k] == n - 1;
    assert data[n - 1] in multiset(Range(n));
  }

  /** Removing the largest value n-1 from the end leaves a permutation of
      0..n-2. */
  lemma DropLast(data: seq<int>)
    requires IsPermutationOfRange(data) && |data| > 0 && data[|data| - 1] == |data| - 1
    ensures IsPermutationOfRange(data[..|data| - 1])
  {
    var n := |data|;
    var t := data[..n - 1];
    assert data == t + [n - 1];
    assert Range(n) == Range(n - 1) + [n - 1];
    assert multiset(t) == multiset(data) - multiset{n - 1};
    assert multiset(Range(n - 1)) == multiset(Range(n)) - multiset{n - 1};
  }

  // ---------------------------------------------------------------------
  // Transpose

  /** A square matrix of side dim, row by row. */
  predicate IsSquare(m: seq<seq<int>>, dim: nat)
  {
    |m| == dim && forall i :: 0 <= i < dim ==> |m[i]| == dim
  }

  /** The transpose input: entry (i, j) holds i*dim + j. */
  function IndexPattern(dim: nat): (m: seq<seq<int>>)
    ensures IsSquare(m, dim)
    ensures forall i, j :: 0 <= i < dim && 0 <= j < dim ==> m[i][j] == i * dim + j
  {
    seq(dim, i => seq(dim, j => i * dim + j))
  }

  /** The index pattern has dim*dim distinct entries, so a transpose of it
      cannot pass by accident. */
  lemma PatternDistinct(dim: nat, i: nat, j: nat, k: nat, l: nat)
    requires i < dim && j < dim && k < dim && l < dim
    requires IndexPattern(dim)[i][j] == IndexPattern(dim)[k][l]
    ensures i == k && j == l
  {
    DivUnique(i * dim + j, dim, i, j);
    DivUnique(k * dim + l, dim, k, l);
  }

  /** m is the transpose of n. */
  predicate IsTransposeOf(m: seq<seq<int>>, n: seq<seq<int>>, dim: nat)
    requires IsSquare(m, dim) && IsSquare(n, dim)
  {
    forall i, j :: 0 <= i < dim && 0 <= j < dim ==> m[i][j] == n[j][i]
  }

  /** The transpose check.  Its `break` leaves only the inner loop, but
      nothing sets `check` back to 1, so the verdict is the same as if the
      whole scan had stopped. */
  method CheckTranspose(data: seq<seq<int>>, dim: nat) returns (check: int)
    requires IsSquare(data, dim)
    ensures check == 0 || check == 1
    ensures check == 1 <==> IsTransposeOf(data, IndexPattern(dim), dim)
  {
    check := 1;
    var i := 0;
    while i < dim
      invariant 0 <= i <= dim
      invariant check == 0 || check == 1
      invariant check == 1 <==> forall a, b :: 0 <= a < i && 0 <= b < dim ==> data[a][b] == b * dim + a
    {
      var j := 0;
      while j < dim
        invariant 0 <= j <= dim
        invariant check == 0 || check == 1
        invariant check == 1 <==>
          (forall a, b :: 0 <= a < i && 0 <= b < dim ==> data[a][b] == b * dim + a)
          && (forall b :: 0 <= b < j ==> data[i][b] == b * dim + i)
      {
        if data[i][j] != j * dim + i {
          check := 0;
          break;
        }
        j := j + 1;
      }
      i := i + 1;
    }
    PatternTranspose(data, dim);
  }

  /** Comparing with j*dim + i is comparing with the transposed pattern. */
  lemma PatternTranspose(data: seq<seq<int>>, dim: nat)
    requires IsSquare(data, dim)
    ensures (forall a, b :: 0 <= a < dim && 0 <= b < dim ==> data[a][b] == b * dim + a)
      <==> IsTransposeOf(data, IndexPattern(dim), dim)
  {
    var p := IndexPattern(dim);
    if forall a, b :: 0 <= a < dim && 0 <= b < dim ==> data[a][b] == b * dim + a {
      forall a, b | 0 <= a < dim && 0 <= b < dim
        ensures data[a][b] == p[b][a]
      {
        assert p[b][a] == b * dim + a;
      }
    }
    if IsTransposeOf(data, p, dim) {
      forall a, b | 0 <= a < dim && 0 <= b < dim
        ensures data[a][b] == b * dim + a
      {
        assert data[a][b] == p[b][a];
      }
    }
  }

  // ---------------------------------------------------------------------
  // Completion callback check

  /** Number of ints the callback inspects. */
  const CallbackCount: nat := 100

  /** `checkData`: the data are accurate when element i holds 2*i for every
      i below 100.  `stop` is where the scan ended: the first mismatch, or
      100 when there is none. */
  method CheckData(buffer: seq<int>) returns (accurate: bool, stop: nat)
    requires |buffer| >= CallbackCount
    ensures accurate <==> forall i :: 0 <= i < CallbackCount ==> buffer[i] == 2 * i
    ensures accurate <==> stop == CallbackCount
    ensures stop <= CallbackCount
    ensures stop < CallbackCount ==> buffer[stop] != 2 * stop
    ensures forall i :: 0 <= i < stop ==> buffer[i] == 2 * i
  {
    accurate := true;
    stop := 0;
    while stop < CallbackCount
      invariant stop <= CallbackCount
      invariant forall i :: 0 <= i < stop ==> buffer[i] == 2 * i
    {
      if buffer[stop] != 2 * stop {
        accurate := false;
        break;
      }
      stop := stop + 1;
    }
  }
}
