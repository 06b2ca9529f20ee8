/** The input shuffle of the eight-element radix sort: the identity
    0..n-1 is scrambled by the Fisher-Yates method, where step i swaps
    position i with a position j = i + rand() % (n - i) at or after it.
    The random numbers are a parameter: one non-negative roll per step. */
module Shuffle {
  import opened Checks

  /** The position step i swaps with: `i + roll % (n - i)`. */
  function Partner(i: nat, n: nat, roll: nat): (j: nat)
    requires i < n
    ensures i <= j < n
    ensures roll < n - i ==> j == i + roll
  {
    i + roll % (n - i)
  }

  /** s with positions i and j exchanged. */
  function Swap<T>(s: seq<T>, i: nat, j: nat): (r: seq<T>)
    requires i < |s| && j < |s|
    ensures |r| == |s| && r[i] == s[j] && r[j] == s[i]
    ensures forall k :: 0 <= k < |s| && k != i && k != j ==> r[k] == s[k]
    ensures multiset(r) == multiset(s)
  {
    s[i := s[j]][j := s[i]]
  }

  /** The steps i, i+1, ... of the shuffle, one per roll. */
  function ShuffleFrom(s: seq<int>, i: nat, rolls: seq<nat>): (r: seq<int>)
    requires i + |rolls| < |s|
    ensures |r| == |s|
    ensures multiset(r) == multiset(s)
    ensures r[..i] == s[..i]
    decreases |rolls|
  {
    if rolls == [] then s
    else
      var t := Swap(s, i, Partner(i, |s|, rolls[0]));
      assert t[..i] == s[..i];
      var r := ShuffleFrom(t, i + 1, rolls[1..]);
      assert r[..i] == r[..i + 1][..i];
      r
  }

  /** The host loop: fill 0..n-1, then swap each position below n-1 with
      its partner. */
  method ShuffleRange(n: nat, rolls: seq<nat>) returns (data: seq<int>)
    requires n >= 1 && |rolls| == n - 1
    ensures data == ShuffleFrom(Range(n), 0, rolls)
    ensures IsPermutationOfRange(data)
  {
    var a := new int[n];
    var i := 0;
    while i < n
      invariant 0 <= i <= n
      invariant forall k :: 0 <= k < i ==> a[k] == k
    {
      a[i] := i;
      i := i + 1;
    }
    assert a[..] == Range(n);
    i := 0;
    while i < n - 1
      invariant 0 <= i <= n - 1
      invariant ShuffleFrom(a[..], i, rolls[i..]) == ShuffleFrom(Range(n), 0, rolls)
    {
      var j := Partner(i, n, rolls[i]);
      ghost var before := a[..];
      var temp := a[i];
      a[i] := a[j];
      a[j] := temp;
      assert a[..] == Swap(before, i, j);
      assert rolls[i..][1..] == rolls[i + 1..];
      i := i + 1;
    }
    data := a[..];
    assert rolls[n - 1..] == [];
  }

  /** Every rearrangement t of s is the outcome of some rolls, each less
      than the number of positions left: the shuffle can produce every
      ordering. */
  lemma {:induction false} RollsFor(s: seq<int>, t: seq<int>, i: nat) returns (rolls: seq<nat>)
    requires i < |s| && |t| == |s|
    requires s[..i] == t[..i] && multiset(s[i..]) == multiset(t[i..])
    ensures |rolls| == |s| - 1 - i
    ensures forall k :: 0 <= k < |rolls| ==> rolls[k] < |s| - i - k
    ensures ShuffleFrom(s, i, rolls) == t
    decreases |s| - i
  {
    if i == |s| - 1 {
      rolls := NoRollsLeft(s, t, i);
    } else {
      var j, u := BringForward(s, t, i);
      var rest := RollsFor(u, t, i + 1);
      rolls := [j - i] + rest;
      PrependRoll(s, t, i, j, rest, rolls);
    }
  }

  /** With one position left no roll is needed. */
  lemma NoRollsLeft(s: seq<int>, t: seq<int>, i: nat) returns (rolls: seq<nat>)
    requires |s| == |t| && i == |s| - 1
    requires s[..i] == t[..i] && multiset(s[i..]) == multiset(t[i..])
    ensures rolls == [] && ShuffleFrom(s, i, rolls) == t
  {
    rolls := [];
    LastPlace(s, t);
  }

  /** The swap that puts the element t wants at i into place. */
  lemma BringForward(s: seq<int>, t: seq<int>, i: nat) returns (j: nat, u: seq<int>)
    requires i < |s| && |t| == |s|
    requires s[..i] == t[..i] && multiset(s[i..]) == multiset(t[i..])
    ensures i <= j < |s| && u == Swap(s, i, j) && |u| == |s|
    ensures u[..i + 1] == t[..i + 1] && multiset(u[i + 1..]) == multiset(t[i + 1..])
  {
    j := Holder(s, t, i);
    u := Swap(s, i, j);
    SwapPlaces(s, t, i, j);
  }

  /** A roll that brings position j to i, in front of rolls that finish
      the shuffle from i+1, finishes the shuffle from i. */
  lemma PrependRoll(s: seq<int>, t: seq<int>, i: nat, j: nat, rest: seq<nat>, rolls: seq<nat>)
    requires rolls == [j - i] + rest
    requires i <= j < |s| && |rest| == |s| - 2 - i
    requires forall k :: 0 <= k < |rest| ==> rest[k] < |s| - (i + 1) - k
    requires ShuffleFrom(Swap(s, i, j), i + 1, rest) == t
    ensures |rolls| == |s| - 1 - i
    ensures forall k :: 0 <= k < |rolls| ==> rolls[k] < |s| - i - k
    ensures ShuffleFrom(s, i, rolls) == t
  {
    assert rolls[1..] == rest;
    assert Partner(i, |s|, j - i) == j;
    forall k | 0 <= k < |rolls|
      ensures rolls[k] < |s| - i - k
    {
      if k > 0 {
        assert rolls[k] == rest[k - 1];
      }
    }
  }

  /** With one position left, agreeing on the prefix and on the multiset of
      the rest means equal. */
  lemma LastPlace(s: seq<int>, t: seq<int>)
    requires |s| == |t| >= 1
    requires s[..|s| - 1] == t[..|s| - 1] && multiset(s[|s| - 1..]) == multiset(t[|s| - 1..])
    ensures s == t
  {
    var i := |s| - 1;
    assert s[i..] == [s[i]] && t[i..] == [t[i]];
    assert s[i] in multiset(t[i..]);
    assert s == s[..i] + [s[i]] && t == t[..i] + [t[i]];
  }

  /** Some position at or after i holds the element t wants at i. */
  lemma Holder(s: seq<int>, t: seq<int>, i: nat) returns (j: nat)
    requires i < |s| && i < |t| && multiset(s[i..]) == multiset(t[i..])
    ensures i <= j < |s| && s[j] == t[i]
  {
    assert t[i..][0] == t[i];
    assert t[i] in multiset(s[i..]);
    var m :| 0 <= m < |s[i..]| && s[i..][m] == t[i];
    j := i + m;
  }

  /** Swapping that element into place extends the agreeing prefix by one
      and keeps the rest a rearrangement. */
  lemma SwapPlaces(s: seq<int>, t: seq<int>, i: nat, j: nat)
    requires i <= j < |s| && |t| == |s| && s[j] == t[i]
    requires s[..i] == t[..i] && multiset(s[i..]) == multiset(t[i..])
    ensures Swap(s, i, j)[..i + 1] == t[..i + 1]
    ensures multiset(Swap(s, i, j)[i + 1..]) == multiset(t[i + 1..])
  {
    var u := Swap(s, i, j);
    assert u[..i + 1] == t[..i + 1];
    assert multiset(s) == multiset(t) by {
      assert s == s[..i] + s[i..];
      assert t == t[..i] + t[i..];
    }
    assert u == u[..i + 1] + u[i + 1..];
    assert t == t[..i + 1] + t[i + 1..];
    var head := multiset(t[..i + 1]);
    assert head + multiset(u[i + 1..]) == head + multiset(t[i + 1..]);
    assert multiset(u[i + 1..]) == head + multiset(u[i + 1..]) - head;
  }

  /** Step i puts its partner's element at position i for good: later
      steps only touch positions after it. */
  lemma Settled(s: seq<int>, i: nat, rolls: seq<nat>)
    requires i + |rolls| < |s| && 1 <= |rolls|
    ensures ShuffleFrom(s, i, rolls)[i] == s[Partner(i, |s|, rolls[0])]
  {
    var t := Swap(s, i, Partner(i, |s|, rolls[0]));
    var r := ShuffleFrom(t, i + 1, rolls[1..]);
    assert r[..i + 1][i] == t[..i + 1][i];
  }
}
