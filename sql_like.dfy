/** The SQL LIKE operator as the database applies it to text columns: `%` matches any run of
  * characters, `_` matches exactly one, every other character matches itself. */
module SqlLike {
  import opened Text

  predicate LikeMatches(s: string, pattern: string)
    decreases |s| + |pattern|
  {
    if pattern == [] then s == []
    else if pattern[0] == '%' then LikeMatches(s, pattern[1..]) || (s != [] && LikeMatches(s[1..], pattern))
    else s != [] && (pattern[0] == '_' || pattern[0] == s[0]) && LikeMatches(s[1..], pattern[1..])
  }

  /** `p` contains neither wildcard. */
  predicate NoWildcards(p: string) {
    forall i :: 0 <= i < |p| ==> p[i] != '%' && p[i] != '_'
  }

  lemma {:induction false} PercentMatchesAll(s: string)
    ensures LikeMatches(s, "%")
    decreases |s|
  {
    if s != [] {
      PercentMatchesAll(s[1..]);
    }
  }

  /** `LIKE p + '%'` is the prefix test when `p` has no wildcard. */
  lemma {:induction false} LikePrefix(s: string, p: string)
    requires NoWildcards(p)
    ensures LikeMatches(s, p + "%") <==> StartsWith(s, p)
    decreases |p|
  {
    if p == [] {
      PercentMatchesAll(s);
      assert p + "%" == "%";
    } else {
      assert (p + "%")[1..] == p[1..] + "%";
      if s != [] {
        LikePrefix(s[1..], p[1..]);
        assert StartsWith(s, p) <==> s[0] == p[0] && StartsWith(s[1..], p[1..]) by {
          if StartsWith(s, p) {
            assert s[1..][..|p| - 1] == s[..|p|][1..];
          }
          if s[0] == p[0] && StartsWith(s[1..], p[1..]) {
            assert s[..|p|] == [s[0]] + s[1..][..|p| - 1];
          }
        }
      }
    }
  }

  /** `_` in a pattern stands for any one character. */
  lemma UnderscoreMatchesAnyCharacter(c: char, s: string, p: string)
    ensures LikeMatches([c] + s, ['_'] + p) <==> LikeMatches(s, p)
  {
    assert ([c] + s)[1..] == s && (['_'] + p)[1..] == p;
  }

  /** A filter `_` is not escaped: `_%` selects every non-empty name, also those that do not start
    * with `_`. */
  lemma {:induction false} UnderscoreIsAWildcard(c: char, s: string)
    ensures LikeMatches([c] + s, "_%")
    ensures c != '_' ==> !StartsWith([c] + s, "_")
  {
    PercentMatchesAll(s);
    UnderscoreMatchesAnyCharacter(c, s, "%");
    assert ['_'] + "%" == "_%";
  }
}
