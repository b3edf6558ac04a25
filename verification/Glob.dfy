/** The key filter of SCAN and the textbook glob relation it stands in for. */
module Glob {
  predicate HasPrefix(s: string, p: string) {
    |p| <= |s| && s[..|p|] == p
  }

  predicate HasSuffix(s: string, p: string) {
    |p| <= |s| && s[|s| - |p|..] == p
  }

  /** `s.find(p) != npos` */
  predicate Contains(s: string, p: string) {
    HasPrefix(s, p) || (s != "" && Contains(s[1..], p))
  }

  /** The branches of `KeyScanner::matches`. */
  predicate Matches(key: string, pattern: string) {
    var n := |pattern|;
    if n == 0 || pattern == "*" then true
    else if pattern[0] == '*' && pattern[n - 1] == '*' && n > 2 then Contains(key, pattern[1..n - 1])
    else if pattern[0] == '*' then HasSuffix(key, pattern[1..])
    else if pattern[n - 1] == '*' then HasPrefix(key, pattern[..n - 1])
    else key == pattern
  }

  /** `*` stands for any string, every other character for itself. */
  predicate GlobMatches(pattern: string, key: string)
    decreases |pattern|, 0, |key|
  {
    if pattern == "" then key == ""
    else if pattern[0] == '*' then StarMatches(pattern[1..], key)
    else key != "" && key[0] == pattern[0] && GlobMatches(pattern[1..], key[1..])
  }

  /** Some suffix of `key` matches. */
  predicate StarMatches(pattern: string, key: string)
    decreases |pattern|, 1, |key|
  {
    GlobMatches(pattern, key) || (key != "" && StarMatches(pattern, key[1..]))
  }

  /** Stars at the first and last position only, and something for a leading star to stand before. */
  predicate EndStars(pattern: string) {
    pattern != "" && pattern != "**" && forall i :: 0 < i < |pattern| - 1 ==> pattern[i] != '*'
  }

  /** What the filter answers for the patterns it does not read as globs. */
  lemma OddPatterns(key: string, pattern: string)
    ensures Matches(key, "") && Matches(key, "*")
    ensures Matches(key, "**") <==> key != "" && key[|key| - 1] == '*'
    ensures pattern != "" && pattern[0] != '*' && pattern[|pattern| - 1] != '*' ==>
              (Matches(key, pattern) <==> key == pattern)
  {
    assert "**"[1..] == "*";
  }

  lemma {:induction false} GlobLiteral(p: string, key: string)
    requires '*' !in p
    ensures GlobMatches(p, key) <==> key == p
  {
    if p != "" && key != "" {
      GlobLiteral(p[1..], key[1..]);
      assert p == [p[0]] + p[1..] && key == [key[0]] + key[1..];
    }
  }

  lemma {:induction false} GlobTrailing(p: string, key: string)
    requires '*' !in p
    ensures GlobMatches(p + "*", key) <==> HasPrefix(key, p)
  {
    if p == "" {
      StarAll(key);
      assert (p + "*")[1..] == "";
    } else {
      assert (p + "*")[1..] == p[1..] + "*";
      if key != "" {
        GlobTrailing(p[1..], key[1..]);
        if key[0] == p[0] && HasPrefix(key[1..], p[1..]) {
          assert key[..|p|] == [key[0]] + key[1..][..|p| - 1];
        }
        if HasPrefix(key, p) {
          assert key[1..][..|p| - 1] == key[..|p|][1..];
        }
      }
    }
  }

  lemma {:induction false} StarAll(key: string)
    ensures StarMatches("", key)
  {
    if key != "" {
      StarAll(key[1..]);
    }
  }

  lemma {:induction false} StarLiteral(p: string, key: string)
    requires '*' !in p
    ensures StarMatches(p, key) <==> HasSuffix(key, p)
  {
    GlobLiteral(p, key);
    if key != "" {
      StarLiteral(p, key[1..]);
      if |p| < |key| {
        assert key[|key| - |p|..] == key[1..][|key| - 1 - |p|..];
      }
    }
  }

  lemma {:induction false} StarTrailing(p: string, key: string)
    requires '*' !in p
    ensures StarMatches(p + "*", key) <==> Contains(key, p)
  {
    GlobTrailing(p, key);
    if key != "" {
      StarTrailing(p, key[1..]);
    }
  }

  function WithoutStars(p: string): (s: string)
    ensures '*' !in s && |s| <= |p| && ('*' in p ==> |s| < |p|)
  {
    if p == "" then "" else (if p[0] == '*' then "" else [p[0]]) + WithoutStars(p[1..])
  }

  lemma {:induction false} GlobWithoutStars(p: string)
    ensures GlobMatches(p, WithoutStars(p))
  {
    if p != "" {
      GlobWithoutStars(p[1..]);
      assert p[0] == '*' ==> WithoutStars(p) == WithoutStars(p[1..]);
    }
  }

  lemma MatchesIsGlob(key: string, pattern: string)
    requires EndStars(pattern)
    ensures Matches(key, pattern) <==> GlobMatches(pattern, key)
  {
    var n := |pattern|;
    if pattern == "*" {
      StarAll(key);
    } else if pattern[0] == '*' && pattern[n - 1] == '*' {
      var p := pattern[1..n - 1];
      assert pattern[1..] == p + "*";
      StarTrailing(p, key);
    } else if pattern[0] == '*' {
      StarLiteral(pattern[1..], key);
    } else if pattern[n - 1] == '*' {
      assert pattern == pattern[..n - 1] + "*";
      GlobTrailing(pattern[..n - 1], key);
    } else {
      GlobLiteral(pattern, key);
    }
  }

  lemma {:induction false} WithoutStarsConcat(a: string, b: string)
    ensures WithoutStars(a + b) == WithoutStars(a) + WithoutStars(b)
  {
    if a == "" {
      assert a + b == b;
    } else {
      var first := if a[0] == '*' then "" else [a[0]];
      assert (a + b)[0] == a[0] && (a + b)[1..] == a[1..] + b;
      WithoutStarsConcat(a[1..], b);
      assert first + (WithoutStars(a[1..]) + WithoutStars(b)) == (first + WithoutStars(a[1..])) + WithoutStars(b);
    }
  }

  lemma {:induction false} ContainsLength(s: string, p: string)
    ensures Contains(s, p) ==> |p| <= |s|
  {
    if s != "" {
      ContainsLength(s[1..], p);
    }
  }

  /** Without its stars, a pattern with a star inside is shorter than what `Matches` looks for. */
  lemma StarlessLength(pattern: string, i: nat)
    requires 0 < i < |pattern| - 1 && pattern[i] == '*'
    ensures |WithoutStars(pattern)| <
            |pattern| - (if pattern[0] == '*' then 1 else 0) - if pattern[|pattern| - 1] == '*' then 1 else 0
  {
    var n := |pattern|;
    var first, inner, last := pattern[..1], pattern[1..n - 1], pattern[n - 1..];
    assert pattern == first + (inner + last) && inner[i - 1] == '*';
    WithoutStarsConcat(first, inner + last);
    WithoutStarsConcat(inner, last);
    assert pattern[0] == '*' ==> first[0] == '*';
    assert pattern[n - 1] == '*' ==> last[0] == '*';
  }

  lemma StarlessTooShort(pattern: string, i: nat)
    requires 0 < i < |pattern| - 1 && pattern[i] == '*'
    ensures !Matches(WithoutStars(pattern), pattern)
  {
    StarlessLength(pattern, i);
    ContainsLength(WithoutStars(pattern), pattern[1..|pattern| - 1]);
  }

  /** The filter is the textbook relation for every key exactly when the pattern is of the handled kind. */
  lemma MatchesIsGlobIff(pattern: string)
    ensures EndStars(pattern) <==> forall key :: Matches(key, pattern) <==> GlobMatches(pattern, key)
  {
    if EndStars(pattern) {
      forall key ensures Matches(key, pattern) <==> GlobMatches(pattern, key) { MatchesIsGlob(key, pattern); }
    } else if pattern == "" {
      assert Matches("a", pattern) && !GlobMatches(pattern, "a");
    } else {
      var key := WithoutStars(pattern);
      GlobWithoutStars(pattern);
      if pattern != "**" {
        var i :| 0 < i < |pattern| - 1 && pattern[i] == '*';
        StarlessTooShort(pattern, i);
      }
      assert !Matches(key, pattern) && GlobMatches(pattern, key);
    }
  }
}
