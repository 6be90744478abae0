/** What the filter's validation of OIDs amounts to. */
module Oids {
  import opened Text
  import opened TrapTables

  /** Numbers separated by dots, the last of which may be a star. */
  predicate IsOid(s: string) {
    var i := FirstDot(s);
    if i == |s| then IsDigit(s) || s == "*" else IsDigit(s[..i]) && IsOid(s[i + 1..])
  }

  /** What the validation asks for of an OID without dots at its ends. */
  predicate IsClean(s: string) {
    (forall i :: 0 <= i < |s| ==> IsOidChar(s[i])) && !Contains(s, "..") &&
    CountOf('*', s) <= 1 && (CountOf('*', s) == 1 ==> s == "*" || EndsWith(s, ".*"))
  }

  predicate DotsInside(s: string) {
    s != "" && s[0] != '.' && s[|s| - 1] != '.'
  }

  lemma EndsInGlob(s: string)
    requires EndsWith(s, ".*")
    ensures '.' in s
  {
    assert s[|s| - 2..][0] == s[|s| - 2];
  }

  /** Two dots in a row. */
  predicate DotsAt(s: string, i: int) {
    0 <= i < |s| - 1 && s[i] == '.' && s[i + 1] == '.'
  }

  lemma DotsOccur(s: string, i: int)
    ensures OccursAt(s, "..", i) <==> DotsAt(s, i)
  {
    if 0 <= i <= |s| - 2 {
      assert s[i..i + 2] == [s[i], s[i + 1]];
      assert [s[i], s[i + 1]][0] == s[i] && [s[i], s[i + 1]][1] == s[i + 1];
      assert ".."[0] == '.' && ".."[1] == '.';
    }
  }

  lemma HasDots(s: string)
    ensures Contains(s, "..") <==> exists i :: DotsAt(s, i)
  {
    if i :| 0 <= i <= |s| && OccursAt(s, "..", i) { DotsOccur(s, i); }
    if i :| DotsAt(s, i) { DotsOccur(s, i); }
  }

  lemma DotsAreIn(s: string)
    requires Contains(s, "..")
    ensures '.' in s
  {
    HasDots(s);
    var i :| DotsAt(s, i);
    assert s[i] in s;
  }

  lemma SingleComponent(s: string)
    requires s != "" && '.' !in s
    ensures IsClean(s) <==> IsDigit(s) || s == "*"
  {
    CountZero('*', s);
    if EndsWith(s, ".*") { EndsInGlob(s); }
    if Contains(s, "..") { DotsAreIn(s); }
    if IsClean(s) && s != "*" {
      forall i | 0 <= i < |s|
        ensures '0' <= s[i] <= '9'
      {
        assert IsOidChar(s[i]);
        assert s[i] in s;
      }
    }
    if s == "*" { assert CountOf('*', s[1..]) == 0; }
    if IsDigit(s) { assert '*' !in s; }
  }

  lemma DotsApart(head: string, rest: string)
    requires rest != "" && rest[0] != '.' && '.' !in head && head != ""
    ensures Contains(head + "." + rest, "..") <==> Contains(rest, "..")
  {
    var s, n := head + "." + rest, |head| + 1;
    HasDots(s);
    HasDots(rest);
    assert forall k :: 0 <= k < |head| ==> s[k] == head[k] && head[k] in head;
    assert forall k :: 0 <= k < |rest| ==> s[n + k] == rest[k];
    if i :| DotsAt(rest, i) {
      assert s[n + i] == rest[i] && s[n + i + 1] == rest[i + 1];
      assert DotsAt(s, n + i);
    }
    if i :| DotsAt(s, i) {
      assert s[n] == rest[0];
      assert i >= n;
      assert rest[i - n] == s[i] && rest[i - n + 1] == s[i + 1];
      assert DotsAt(rest, i - n);
    }
  }

  lemma StarsApart(head: string, rest: string)
    requires rest != ""
    ensures CountOf('*', head + "." + rest) == CountOf('*', head) + CountOf('*', rest)
    ensures EndsWith(head + "." + rest, ".*") <==> rest == "*" || EndsWith(rest, ".*")
    ensures EndsWith(head + "." + rest, ".*") ==> CountOf('*', rest) > 0
  {
    var s := head + "." + rest;
    CountConcat('*', head + ".", rest);
    CountConcat('*', head, ".");
    CountZero('*', ".");
    CountZero('*', rest);
    if |rest| == 1 {
      assert s[|s| - 2..] == "." + rest;
    } else {
      assert s[|s| - 2..] == rest[|rest| - 2..];
    }
    if EndsWith(s, ".*") {
      assert s[|s| - 2..][1] == '*' && s[|s| - 1] == rest[|rest| - 1];
    }
  }

  lemma CleanSplits(head: string, rest: string)
    requires head != "" && '.' !in head && rest != "" && rest[0] != '.'
    ensures IsClean(head + "." + rest) <==> IsDigit(head) && IsClean(rest)
  {
    var s, n := head + "." + rest, |head| + 1;
    DotsApart(head, rest);
    StarsApart(head, rest);
    CountZero('*', head);
    assert s != "*" by { assert |s| > 1; }
    assert forall i :: 0 <= i < |head| ==> s[i] == head[i];
    assert forall i :: 0 <= i < |rest| ==> s[n + i] == rest[i];
    if IsClean(s) {
      assert '*' !in head;
      forall i | 0 <= i < |head|
        ensures '0' <= head[i] <= '9'
      {
        assert IsOidChar(s[i]) && head[i] in head;
      }
      forall i | 0 <= i < |rest|
        ensures IsOidChar(rest[i])
      {
        assert IsOidChar(s[n + i]);
      }
    }
    if IsDigit(head) && IsClean(rest) {
      assert '*' !in head;
      forall i | 0 <= i < |s|
        ensures IsOidChar(s[i])
      {
        if i < |head| { assert s[i] == head[i]; } else if i >= n { assert s[i] == rest[i - n]; }
      }
    }
  }

  lemma {:induction false} CleanIsOid(s: string)
    requires DotsInside(s)
    ensures IsClean(s) <==> IsOid(s)
    decreases |s|
  {
    var i := FirstDot(s);
    if i == |s| {
      SingleComponent(s);
    } else {
      var head, rest := s[..i], s[i + 1..];
      assert s == head + "." + rest;
      assert rest != "" && rest[|rest| - 1] == s[|s| - 1];
      if rest[0] == '.' {
        assert DotsAt(s, i);
        HasDots(s);
      } else {
        CleanSplits(head, rest);
        CleanIsOid(rest);
      }
    }
  }

  lemma StrippedHasDotsInside(s: string)
    ensures StripDots(s) == "" || DotsInside(StripDots(s))
  {
    LeftStripped(s, {'.'});
    RightStripped(StripLeft(s, {'.'}), {'.'});
  }

  lemma {:induction false} LeftStripped(s: string, chars: set<char>)
    ensures StripLeft(s, chars) == "" || StripLeft(s, chars)[0] !in chars
  {
    if s != "" && s[0] in chars { LeftStripped(s[1..], chars); }
  }

  lemma {:induction false} RightStripped(s: string, chars: set<char>)
    ensures var t := StripRight(s, chars);
      t == "" || (t[0] == s[0] && t[|t| - 1] !in chars)
  {
    if s != "" && s[|s| - 1] in chars { RightStripped(s[..|s| - 1], chars); }
  }

  /**
   * Of the OIDs stripped of dots at their ends, the validation accepts the glob
   * `*` and exactly those of at least two components that are numbers, the last
   * of which may be a star.
   */
  lemma ValidOids(text: string)
    ensures var oid := StripDots(text);
      ValidOid(oid) <==> oid == "*" || ('.' in oid && IsOid(oid))
  {
    var oid := StripDots(text);
    StrippedHasDotsInside(text);
    if oid != "" && oid != "*" {
      CleanIsOid(oid);
      assert !(".*" <= oid) by { assert oid[0] != '.'; }
    }
    if oid == "" { assert FirstDot(oid) == 0; }
  }
}
