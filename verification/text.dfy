/**
 Case-insensitive comparison of titles, as SQL `ILIKE` performs it for a pattern
 that holds no `%` or `_` wildcard: ASCII letters compare without regard to case,
 every other character compares exactly.
 */
module Text {

  function Lower(c: char): char {
    if 'A' <= c <= 'Z' then (c as int + 32) as char else c
  }

  /** `s` spelled in lower case. */
  function Lowered(s: string): string {
    seq(|s|, i requires 0 <= i < |s| => Lower(s[i]))
  }

  /** `s ILIKE pattern` for a wildcard-free pattern: the whole of `s` matches the whole pattern. */
  predicate ILike(s: string, pattern: string)
    decreases |s|
  {
    if |s| == 0 || |pattern| == 0 then |s| == |pattern|
    else Lower(s[0]) == Lower(pattern[0]) && ILike(s[1..], pattern[1..])
  }

  /** Matching character by character is the same as equality after lowering both sides. */
  lemma {:induction false} ILikeIsLoweredEquality(s: string, pattern: string)
    ensures ILike(s, pattern) <==> Lowered(s) == Lowered(pattern)
    decreases |s|
  {
    if |s| == 0 || |pattern| == 0 {
      if |s| != |pattern| {
        assert |Lowered(s)| != |Lowered(pattern)|;
      }
    } else {
      ILikeIsLoweredEquality(s[1..], pattern[1..]);
      assert Lowered(s) == [Lower(s[0])] + Lowered(s[1..]);
      assert Lowered(pattern) == [Lower(pattern[0])] + Lowered(pattern[1..]);
      if Lowered(s) == Lowered(pattern) {
        assert Lowered(s)[1..] == Lowered(s[1..]);
        assert Lowered(pattern)[1..] == Lowered(pattern[1..]);
      }
    }
  }

  /** A string matches only patterns of its own length. */
  lemma {:induction false} ILikeSameLength(s: string, pattern: string)
    requires ILike(s, pattern)
    ensures |s| == |pattern|
    decreases |s|
  {
    if |s| > 0 && |pattern| > 0 {
      ILikeSameLength(s[1..], pattern[1..]);
    }
  }

  /** The empty pattern matches the empty string and nothing else. */
  lemma EmptyPatternMatchesOnlyEmpty(s: string)
    ensures ILike(s, "") <==> s == ""
  {
  }

  /** `s ILIKE '%' || q || '%'`: some stretch of `s` matches `q` case-insensitively. */
  predicate ContainsILike(s: string, q: string)
    decreases |s|
  {
    (|q| <= |s| && ILike(s[..|q|], q)) || (|s| > 0 && ContainsILike(s[1..], q))
  }

  /** The stretch of `s` that starts at `i` and is as long as `q` matches `q`. */
  predicate MatchesAt(s: string, q: string, i: int) {
    0 <= i && i + |q| <= |s| && ILike(s[i..i + |q|], q)
  }

  /** The recursive search finds a match exactly when some window of `s` matches. */
  lemma {:induction false} ContainsILikeFindsWindow(s: string, q: string)
    ensures ContainsILike(s, q) <==> exists i :: MatchesAt(s, q, i)
    decreases |s|
  {
    if |s| > 0 {
      ContainsILikeFindsWindow(s[1..], q);
      if |q| <= |s| && ILike(s[..|q|], q) {
        assert s[0..|q|] == s[..|q|];
        assert MatchesAt(s, q, 0);
      }
      if exists j :: MatchesAt(s[1..], q, j) {
        var j :| MatchesAt(s[1..], q, j);
        assert s[1..][j..j + |q|] == s[j + 1..j + 1 + |q|];
        assert MatchesAt(s, q, j + 1);
      }
      if exists i :: MatchesAt(s, q, i) {
        var i :| MatchesAt(s, q, i);
        if i == 0 {
          assert s[i..i + |q|] == s[..|q|];
        } else {
          assert s[1..][i - 1..i - 1 + |q|] == s[i..i + |q|];
          assert MatchesAt(s[1..], q, i - 1);
        }
      }
    } else {
      if ContainsILike(s, q) {
        assert s[0..|q|] == s[..|q|];
        assert MatchesAt(s, q, 0);
      }
      if exists i :: MatchesAt(s, q, i) {
        var i :| MatchesAt(s, q, i);
        assert s[i..i + |q|] == s[..|q|];
      }
    }
  }

  /** The empty search term is found in every string. */
  lemma EmptyTermIsEverywhere(s: string)
    ensures ContainsILike(s, "")
  {
    assert s[..0] == "";
  }
}
