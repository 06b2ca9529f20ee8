/** Character strings as the host programs search them: `strstr` and
    `strcmp` on NUL-terminated text, modelled on `seq<char>` with the
    terminator left implicit. */
module Text {

  /** The pattern p occurs in s starting at position i. */
  predicate MatchAt(s: string, p: string, i: nat)
  {
    i + |p| <= |s| && s[i..i + |p|] == p
  }

  /** p occurs somewhere in s (what a non-NULL `strstr` result means). */
  predicate Contains(s: string, p: string)
  {
    exists i: nat :: i <= |s| && MatchAt(s, p, i)
  }

  /** `strstr(s, p)`: the first position at which p occurs, or -1 for a
      NULL result.  The scan compares character by character, as the C
      library does, rather than by slicing. */
  method Find(s: string, p: string) returns (r: int)
    ensures -1 <= r <= |s|
    ensures r == -1 <==> !Contains(s, p)
    ensures r >= 0 ==> MatchAt(s, p, r)
    ensures r >= 0 ==> forall i: nat :: i < r ==> !MatchAt(s, p, i)
  {
    if |p| > |s| {
      assert forall i: nat :: !MatchAt(s, p, i);
      return -1;
    }
    var i := 0;
    while i <= |s| - |p|
      invariant 0 <= i <= |s| - |p| + 1
      invariant forall k: nat :: k < i ==> !MatchAt(s, p, k)
    {
      var j := 0;
      while j < |p| && s[i + j] == p[j]
        invariant 0 <= j <= |p|
        invariant s[i..i + j] == p[..j]
      {
        assert s[i..i + j + 1] == s[i..i + j] + [s[i + j]];
        assert p[..j + 1] == p[..j] + [p[j]];
        j := j + 1;
      }
      if j == |p| {
        assert p[..j] == p;
        assert MatchAt(s, p, i);
        return i;
      }
      assert s[i..i + |p|][j] != p[j];
      i := i + 1;
    }
    assert forall k: nat :: !MatchAt(s, p, k) by {
      forall k: nat
        ensures !MatchAt(s, p, k)
      {
        if k >= i {
          assert k + |p| > |s|;
        }
      }
    }
    return -1;
  }

  /** A match is inherited by any text that extends the original on either
      side: `strstr` looks for a substring, not a whole word. */
  lemma {:induction false} ContainsInContext(pre: string, s: string, post: string, p: string)
    requires Contains(s, p)
    ensures Contains(pre + s + post, p)
  {
    var i: nat :| i <= |s| && MatchAt(s, p, i);
    var t := pre + s + post;
    assert t[|pre| + i..|pre| + i + |p|] == s[i..i + |p|];
    assert MatchAt(t, p, |pre| + i);
    assert |pre| + i <= |t|;
  }

  /** Every text contains itself. */
  lemma ContainsSelf(s: string)
    ensures Contains(s, s)
  {
    assert s[0..|s|] == s;
    assert MatchAt(s, s, 0);
  }
}
