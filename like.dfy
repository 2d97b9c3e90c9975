/**
 * SQL's `ILIKE` pattern match, as the contact search uses it: `%` matches any run of
 * characters, `_` any single character, every other character itself, and letters are
 * compared without regard to (ASCII) case.
 */
module Like {
  /** ASCII lower-casing of one character. */
  function LowerChar(c: char): char
  {
    if 'A' <= c <= 'Z' then (c as int + 32) as char else c
  }

  function Lower(s: string): (r: string)
    ensures |r| == |s|
    ensures forall i :: 0 <= i < |s| ==> r[i] == LowerChar(s[i])
  {
    seq(|s|, i requires 0 <= i < |s| => LowerChar(s[i]))
  }

  lemma LowerConcat(a: string, b: string)
    ensures Lower(a + b) == Lower(a) + Lower(b)
  {
    assert forall i :: 0 <= i < |a + b| ==> Lower(a + b)[i] == (Lower(a) + Lower(b))[i];
  }

  /** `s LIKE p`, case-sensitive, with no escape character. */
  predicate LikeMatch(p: string, s: string)
    decreases |p| + |s|
  {
    if p == [] then s == []
    else if p[0] == '%' then LikeMatch(p[1..], s) || (s != [] && LikeMatch(p, s[1..]))
    else s != [] && (p[0] == '_' || p[0] == s[0]) && LikeMatch(p[1..], s[1..])
  }

  /** `s ILIKE p`: without wildcards in `p` it is equality ignoring case. */
  function ILike(s: string, p: string): (r: bool)
    ensures WildcardFree(p) ==> (r <==> Lower(s) == Lower(p))
  {
    LowerKeepsWildcardFree(p);
    LiteralMatch(Lower(p), Lower(s));
    LikeMatch(Lower(p), Lower(s))
  }

  /** Lower-casing neither creates nor removes a wildcard. */
  lemma LowerKeepsWildcardFree(x: string)
    ensures WildcardFree(x) ==> WildcardFree(Lower(x))
  {
  }

  /** A pattern without wildcards matches only itself. */
  lemma {:induction false} LiteralMatch(x: string, s: string)
    ensures WildcardFree(x) ==> (LikeMatch(x, s) <==> s == x)
  {
    if WildcardFree(x) && x != [] && s != [] {
      LiteralMatch(x[1..], s[1..]);
      if s[1..] == x[1..] && s[0] == x[0] {
        assert s == [s[0]] + s[1..] && x == [x[0]] + x[1..];
      }
    }
  }

  /** A search term that holds neither LIKE wildcard. */
  predicate WildcardFree(x: string)
  {
    forall i :: 0 <= i < |x| ==> x[i] != '%' && x[i] != '_'
  }

  /** `x` occurs in `s` starting at position `k`. */
  predicate OccursAt(x: string, s: string, k: int)
  {
    0 <= k <= |s| - |x| && s[k..k + |x|] == x
  }

  /** `x` occurs in `s` at some position. */
  ghost predicate IsSubstring(x: string, s: string)
  {
    exists k :: OccursAt(x, s, k)
  }

  /** A lone `%` matches every string. */
  lemma {:induction false} PercentMatchesAll(s: string)
    ensures LikeMatch("%", s)
  {
    if s != [] {
      PercentMatchesAll(s[1..]);
    }
  }

  /** A literal followed by `%` matches exactly the strings that start with the literal. */
  lemma {:induction false} LiteralThenPercent(x: string, s: string)
    requires WildcardFree(x)
    ensures LikeMatch(x + "%", s) <==> |x| <= |s| && s[..|x|] == x
  {
    if x == [] {
      assert x + "%" == "%";
      PercentMatchesAll(s);
    } else {
      assert (x + "%")[1..] == x[1..] + "%";
      assert x[0] != '%' && x[0] != '_';
      if s != [] {
        LiteralThenPercent(x[1..], s[1..]);
        if |x| <= |s| && s[..|x|] == x {
          assert s[1..][..|x| - 1] == x[1..];
        }
        if |x| - 1 <= |s| - 1 && s[1..][..|x| - 1] == x[1..] && x[0] == s[0] {
          assert s[..|x|] == [s[0]] + s[1..][..|x| - 1];
        }
      }
    }
  }

  /** A leading `%` lets the rest of the pattern match any suffix. */
  lemma {:induction false} LeadingPercent(q: string, s: string)
    ensures LikeMatch("%" + q, s) <==> exists k :: 0 <= k <= |s| && LikeMatch(q, s[k..])
  {
    var p := "%" + q;
    assert p[1..] == q;
    if s == [] {
      assert s[0..] == s;
    } else {
      LeadingPercent(q, s[1..]);
      if LikeMatch(p, s) {
        if LikeMatch(q, s) {
          assert s[0..] == s;
        } else {
          var k :| 0 <= k <= |s[1..]| && LikeMatch(q, s[1..][k..]);
          assert s[1..][k..] == s[k + 1..];
        }
      }
      if exists k :: 0 <= k <= |s| && LikeMatch(q, s[k..]) {
        var k :| 0 <= k <= |s| && LikeMatch(q, s[k..]);
        if k == 0 {
          assert s[0..] == s;
        } else {
          assert s[1..][k - 1..] == s[k..];
        }
      }
    }
  }

  /** `s LIKE '%x%'` holds exactly when `x` occurs in `s`, for a term without wildcards. */
  lemma ContainsPattern(x: string, s: string)
    requires WildcardFree(x)
    ensures LikeMatch("%" + x + "%", s) <==> IsSubstring(x, s)
  {
    assert "%" + x + "%" == "%" + (x + "%");
    LeadingPercent(x + "%", s);
    if LikeMatch("%" + x + "%", s) {
      var k :| 0 <= k <= |s| && LikeMatch(x + "%", s[k..]);
      LiteralThenPercent(x, s[k..]);
      assert s[k..][..|x|] == s[k..k + |x|];
      assert OccursAt(x, s, k);
    }
    if IsSubstring(x, s) {
      var k :| OccursAt(x, s, k);
      LiteralThenPercent(x, s[k..]);
      assert s[k..][..|x|] == s[k..k + |x|];
    }
  }

  /**
   * The search filter `field ILIKE '%term%'`: for a term without wildcards it holds exactly
   * when the lower-cased term occurs in the lower-cased field.
   */
  lemma ILikeContains(term: string, field: string)
    requires WildcardFree(term)
    ensures ILike(field, "%" + term + "%") <==> IsSubstring(Lower(term), Lower(field))
  {
    LowerConcat("%" + term, "%");
    LowerConcat("%", term);
    assert Lower("%") == "%";
    ContainsPattern(Lower(term), Lower(field));
  }

  /** An `_` in a search term is a wildcard: `'%_%'` admits every non-empty field. */
  lemma {:induction false} UnderscoreIsWildcard(field: string)
    ensures ILike(field, "%_%") <==> field != []
  {
    var s := Lower(field);
    assert Lower("%_%") == "%_%";
    assert "%_%" == "%" + "_%";
    LeadingPercent("_%", s);
    if field != [] {
      assert ("_%")[1..] == "%";
      PercentMatchesAll(s[1..]);
      assert s[0..] == s;
    }
  }
}
