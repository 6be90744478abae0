/**
 * SQL's `LIKE` (`%` stands for any string, `_` for any one character, no escape
 * character) and the Python string tests that replace it.
 */
module LikePatterns {
  import opened Text

  ghost predicate Like(p: string, s: string)
    decreases |p| + |s|
  {
    if p == "" then s == ""
    else if p[0] == '%' then Like(p[1..], s) || (s != "" && Like(p, s[1..]))
    else s != "" && (p[0] == '_' || p[0] == s[0]) && Like(p[1..], s[1..])
  }

  predicate WildcardFree(p: string) {
    forall i :: 0 <= i < |p| ==> p[i] != '%' && p[i] != '_'
  }

  lemma {:induction false} LikeLiteralPrefix(x: string, r: string, s: string)
    requires WildcardFree(x)
    ensures Like(x + r, s) <==> x <= s && Like(r, s[|x|..])
  {
    if x == "" {
      assert x + r == r && s[0..] == s;
    } else {
      assert (x + r)[1..] == x[1..] + r;
      if s != "" {
        LikeLiteralPrefix(x[1..], r, s[1..]);
        if x <= s { assert s[1..][|x| - 1..] == s[|x|..]; }
        if x[1..] <= s[1..] && x[0] == s[0] {
          assert s == [s[0]] + s[1..] && x == [x[0]] + x[1..];
        }
      }
    }
  }

  lemma {:induction false} LikeAnything(r: string, s: string)
    ensures Like("%" + r, s) <==> exists i :: 0 <= i <= |s| && Like(r, s[i..])
    decreases |s|
  {
    assert ("%" + r)[1..] == r;
    assert s[0..] == s;
    if s != "" {
      LikeAnything(r, s[1..]);
      if Like("%" + r, s[1..]) {
        var i :| 0 <= i <= |s[1..]| && Like(r, s[1..][i..]);
        assert s[1..][i..] == s[i + 1..];
      }
      if i :| 0 <= i <= |s| && Like(r, s[i..]) {
        if i > 0 { assert s[1..][i - 1..] == s[i..]; }
      }
    }
  }

  lemma LikeEverything(s: string)
    ensures Like("%", s)
  {
    LikeAnything("", s);
    assert "%" + "" == "%";
    assert s[|s|..] == "";
  }

  lemma LikeExactly(x: string, s: string)
    requires WildcardFree(x)
    ensures Like(x, s) <==> s == x
  {
    LikeLiteralPrefix(x, "", s);
    assert x + "" == x;
    if x <= s && s[|x|..] == "" { assert s == x + s[|x|..]; }
  }

  lemma LikePrefix(x: string, s: string)
    requires WildcardFree(x)
    ensures Like(x + "%", s) <==> StartsWith(s, x)
  {
    LikeLiteralPrefix(x, "%", s);
    if x <= s { LikeEverything(s[|x|..]); }
  }

  lemma LikeSuffix(x: string, s: string)
    requires WildcardFree(x)
    ensures Like("%" + x, s) <==> EndsWith(s, x)
  {
    LikeAnything(x, s);
    forall i | 0 <= i <= |s|
      ensures Like(x, s[i..]) <==> s[i..] == x
    {
      LikeExactly(x, s[i..]);
    }
  }

  lemma LikeInfix(x: string, s: string)
    requires WildcardFree(x)
    ensures Like("%" + x + "%", s) <==> Contains(s, x)
  {
    assert "%" + x + "%" == "%" + (x + "%");
    LikeAnything(x + "%", s);
    forall i | 0 <= i <= |s|
      ensures Like(x + "%", s[i..]) <==> OccursAt(s, x, i)
    {
      LikePrefix(x, s[i..]);
      if |x| <= |s| - i { assert s[i..][..|x|] == s[i..i + |x|]; }
    }
  }

  /** A string the pattern matches: every `%` read as nothing and every `_` as `x`. */
  function Sample(p: string): (s: string)
    ensures |s| <= |p|
  {
    if p == "" then ""
    else if p[0] == '%' then Sample(p[1..])
    else [if p[0] == '_' then 'x' else p[0]] + Sample(p[1..])
  }

  lemma {:induction false} SampleMatches(p: string)
    ensures Like(p, Sample(p))
    ensures WildcardFree(Sample(p))
  {
    if p != "" {
      SampleMatches(p[1..]);
      if p[0] != '%' {
        assert Sample(p)[1..] == Sample(p[1..]);
      }
    }
  }

  /** Every piece of a wildcard-free string is wildcard-free. */
  lemma PieceIsWildcardFree(s: string, x: string)
    requires WildcardFree(s)
    ensures StartsWith(s, x) || EndsWith(s, x) || Contains(s, x) ==> WildcardFree(x)
  {
    if Contains(s, x) {
      var i :| 0 <= i <= |s| && OccursAt(s, x, i);
      forall k | 0 <= k < |x|
        ensures x[k] == s[i + k]
      {
        assert s[i..i + |x|][k] == s[i + k];
      }
    }
  }

  /** The number of characters a pattern asks for at least. */
  function MinLength(p: string): nat {
    if p == "" then 0 else (if p[0] == '%' then 0 else 1) + MinLength(p[1..])
  }

  lemma {:induction false} LikeNeedsMinLength(p: string, s: string)
    requires Like(p, s)
    ensures MinLength(p) <= |s|
    decreases |p| + |s|
  {
    if p == "" {
    } else if p[0] == '%' {
      if Like(p[1..], s) {
        LikeNeedsMinLength(p[1..], s);
      } else {
        LikeNeedsMinLength(p, s[1..]);
      }
    } else {
      LikeNeedsMinLength(p[1..], s[1..]);
    }
  }

  lemma {:induction false} MinLengthConcat(p: string, r: string)
    ensures MinLength(p + r) == MinLength(p) + MinLength(r)
  {
    if p == "" {
      assert p + r == r;
    } else {
      assert (p + r)[1..] == p[1..] + r;
      MinLengthConcat(p[1..], r);
    }
  }

  lemma {:induction false} MinLengthLiteral(x: string)
    requires WildcardFree(x)
    ensures MinLength(x) == |x|
  {
    if x != "" { MinLengthLiteral(x[1..]); }
  }

  lemma {:induction false} LikeLastLiteral(p: string, d: char, s: string)
    requires d != '%' && d != '_' && Like(p + [d], s)
    ensures s != "" && s[|s| - 1] == d
    decreases |p| + |s|
  {
    if p == "" {
      assert p + [d] == [d];
    } else {
      assert (p + [d])[1..] == p[1..] + [d];
      if p[0] == '%' && Like(p[1..] + [d], s) {
        LikeLastLiteral(p[1..], d, s);
      } else if p[0] == '%' {
        LikeLastLiteral(p, d, s[1..]);
      } else {
        LikeLastLiteral(p[1..], d, s[1..]);
      }
    }
  }
}
