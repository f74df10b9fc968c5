/** The byte-wise glob matcher used for wildcard path parts: `*` matches any
    run of bytes (possibly empty), `?` matches exactly one byte, and every
    other pattern byte matches only itself.  Matching is anchored at both
    ends. */
module Wildcard {
  import opened Text

  /** Reference semantics of a glob pattern. */
  function Glob(str: Bytes, pattern: Bytes): bool
    decreases |str| + |pattern|
  {
    if pattern == [] then str == []
    else if pattern[0] == '*' then Glob(str, pattern[1..]) || (str != [] && Glob(str[1..], pattern))
    else if pattern[0] == '?' then str != [] && Glob(str[1..], pattern[1..])
    else str != [] && str[0] == pattern[0] && Glob(str[1..], pattern[1..])
  }

  predicate HasWildcard(pattern: Bytes)
  {
    exists i :: 0 <= i < |pattern| && (pattern[i] == '*' || pattern[i] == '?')
  }

  /** `wildcardMatch(str, pattern)`: the pattern "*" is accepted outright,
      every other pattern goes through the byte loop of `DeepMatch`. */
  method WildcardMatch(str: Bytes, pattern: Bytes) returns (r: bool)
    ensures r == Glob(str, pattern)
    decreases |str| + |pattern|, 1
  {
    if pattern == "*" {
      StarMatchesAll(str);
      return true;
    }
    r := DeepMatch(str, pattern);
  }

  /** `deepMatch`: consumes one byte of both strings per iteration while the
      pattern byte is literal or `?`; at a `*` it tries "the star matches
      nothing" and then "the star eats one more byte". */
  method DeepMatch(str: Bytes, pattern: Bytes) returns (r: bool)
    ensures r == Glob(str, pattern)
    decreases |str| + |pattern|, 0
  {
    var s, p := str, pattern;
    while |p| > 0
      invariant |s| + |p| <= |str| + |pattern|
      invariant Glob(s, p) == Glob(str, pattern)
      decreases |p|
    {
      if p[0] == '*' {
        r := WildcardMatch(s, p[1..]);
        if !r && |s| > 0 {
          r := WildcardMatch(s[1..], p);
        }
        return;
      } else if p[0] == '?' {
        if |s| == 0 {
          return false;
        }
      } else {
        if |s| == 0 || s[0] != p[0] {
          return false;
        }
      }
      s, p := s[1..], p[1..];
    }
    return |s| == 0 && |p| == 0;
  }

  /** The pattern "*" matches every string, so the special case in
      `wildcardMatch` is only a shortcut. */
  lemma {:induction false} StarMatchesAll(str: Bytes)
    ensures Glob(str, "*")
  {
    assert "*"[1..] == [];
    if str != [] { StarMatchesAll(str[1..]); }
  }

  /** A pattern without `*` or `?` matches exactly the string equal to it. */
  lemma {:induction false} LiteralPatternIsEquality(str: Bytes, pattern: Bytes)
    requires !HasWildcard(pattern)
    ensures Glob(str, pattern) <==> str == pattern
    decreases |pattern|
  {
    if pattern != [] {
      assert pattern[0] != '*' && pattern[0] != '?';
      assert !HasWildcard(pattern[1..]) by {
        forall i | 0 <= i < |pattern[1..]| ensures pattern[1..][i] != '*' && pattern[1..][i] != '?' {
          assert pattern[1..][i] == pattern[i + 1];
        }
      }
      if str != [] {
        LiteralPatternIsEquality(str[1..], pattern[1..]);
        assert str == [str[0]] + str[1..] && pattern == [pattern[0]] + pattern[1..];
      }
    }
  }

  /** Without `*`, every pattern byte consumes exactly one string byte, so a
      match needs equal lengths. */
  lemma {:induction false} NoStarMatchesSameLength(str: Bytes, pattern: Bytes)
    requires forall i :: 0 <= i < |pattern| ==> pattern[i] != '*'
    requires Glob(str, pattern)
    ensures |str| == |pattern|
    decreases |pattern|
  {
    if pattern != [] {
      assert pattern[0] != '*';
      NoStarMatchesSameLength(str[1..], pattern[1..]);
    }
  }

  /** Without `*`, a pattern byte other than `?` must equal the string byte
      at the same index. */
  lemma {:induction false} NoStarMatchesBytewise(str: Bytes, pattern: Bytes, k: nat)
    requires forall i :: 0 <= i < |pattern| ==> pattern[i] != '*'
    requires Glob(str, pattern) && k < |pattern| && pattern[k] != '?'
    ensures k < |str| && str[k] == pattern[k]
    decreases k
  {
    assert pattern[0] != '*';
    if k > 0 {
      assert pattern[1..][k - 1] == pattern[k];
      NoStarMatchesBytewise(str[1..], pattern[1..], k - 1);
    }
  }

  /** A pattern of `?` bytes only matches exactly the strings of its length. */
  lemma {:induction false} QuestionMarksMatchLength(str: Bytes, pattern: Bytes)
    requires forall i :: 0 <= i < |pattern| ==> pattern[i] == '?'
    ensures Glob(str, pattern) <==> |str| == |pattern|
    decreases |pattern|
  {
    if pattern != [] && str != [] {
      QuestionMarksMatchLength(str[1..], pattern[1..]);
    }
  }

  /** A pattern ending in `*` matches every extension of a string its
      prefix matches (`my-folder/In*` matches `my-folder/India/...`). */
  lemma {:induction false} TrailingStarMatchesExtensions(str: Bytes, prefix: Bytes, tail: Bytes)
    requires Glob(str, prefix)
    ensures Glob(str + tail, prefix + "*")
    decreases |str| + |prefix|
  {
    if prefix == [] {
      assert str == [] && str + tail == tail;
      StarMatchesAll(tail);
      assert prefix + "*" == "*";
    } else {
      assert (prefix + "*")[0] == prefix[0] && (prefix + "*")[1..] == prefix[1..] + "*";
      if prefix[0] == '*' {
        if Glob(str, prefix[1..]) {
          TrailingStarMatchesExtensions(str, prefix[1..], tail);
        } else {
          TrailingStarMatchesExtensions(str[1..], prefix, tail);
          assert (str + tail)[1..] == str[1..] + tail;
        }
      } else {
        TrailingStarMatchesExtensions(str[1..], prefix[1..], tail);
        assert (str + tail)[0] == str[0] && (str + tail)[1..] == str[1..] + tail;
      }
    }
  }

  /** The examples of the `Get` documentation: `child*` and `c?ildren` both
      select the key `children`. */
  lemma DocumentationPatterns()
    ensures Glob("children", "child*")
    ensures Glob("children", "c?ildren")
  {
    StarExample();
    QuestionExample();
  }

  lemma StarExample()
    ensures Glob("children", "child*")
  {
    TrailingStarMatchesExtensions("child", "child", "ren");
    LiteralPatternIsEquality("child", "child");
    assert "child" + "ren" == "children" && "child" + "*" == "child*";
  }

  lemma QuestionExample()
    ensures Glob("children", "c?ildren")
  {
    LiteralPatternIsEquality("ildren", "ildren");
    assert "children"[1..][1..] == "ildren" && "c?ildren"[1..][1..] == "ildren";
  }

  /** A literal byte that differs, or a missing byte under `?`, rejects. */
  lemma RejectedPatterns()
    ensures !Glob("children", "c?ildrem")
    ensures !Glob("child", "child?")
  {
    DifferentByteRejected();
    MissingByteRejected();
  }

  lemma DifferentByteRejected()
    ensures !Glob("children", "c?ildrem")
  {
    var p: Bytes := "c?ildrem";
    if Glob("children", p) {
      NoStarMatchesBytewise("children", p, 7);
    }
  }

  lemma MissingByteRejected()
    ensures !Glob("child", "child?")
  {
    if Glob("child", "child?") {
      NoStarMatchesSameLength("child", "child?");
    }
  }
}
