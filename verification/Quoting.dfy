/**
 * Quoting of strings in where clauses: `q` doubles every single quote and wraps
 * the string in quotes, `u` undoes it. Both are written with `split` and `join`,
 * where `split` finds separators from the left and never overlaps them.
 */
module Quoting {
  import opened Sequences

  const QUOTE: char := '\''

  /** Python's `s.split(sep)`. */
  function Split(s: string, sep: string): (parts: seq<string>)
    requires sep != ""
    ensures parts != []
    decreases |s|
  {
    if |s| < |sep| then [s]
    else if s[..|sep|] == sep then [""] + Split(s[|sep|..], sep)
    else
      var rest := Split(s[1..], sep);
      [[s[0]] + rest[0]] + rest[1..]
  }

  /** Python's `sep.join(parts)`. */
  function Join(parts: seq<string>, sep: string): string {
    if parts == [] then ""
    else if |parts| == 1 then parts[0]
    else parts[0] + sep + Join(parts[1..], sep)
  }

  /** Python's `s[1:-1]`. */
  function Inner(s: string): string {
    if |s| >= 2 then s[1..|s| - 1] else ""
  }

  function Q(s: string): string {
    "'" + Join(Split(s, "'"), "''") + "'"
  }

  function U(s: string): string
    requires s != ""
  {
    var c := [s[0]];
    Inner(Join(Split(s, c + c), c))
  }

  /** Replaces separators from the left; what a split followed by a join amounts to. */
  function Replace(s: string, sep: string, glue: string): string
    requires sep != ""
    decreases |s|
  {
    if |s| < |sep| then s
    else if s[..|sep|] == sep then glue + Replace(s[|sep|..], sep, glue)
    else [s[0]] + Replace(s[1..], sep, glue)
  }

  lemma {:induction false} JoinSplitIsReplace(s: string, sep: string, glue: string)
    requires sep != ""
    ensures Join(Split(s, sep), glue) == Replace(s, sep, glue)
    decreases |s|
  {
    if |s| < |sep| {
    } else if s[..|sep|] == sep {
      JoinSplitIsReplace(s[|sep|..], sep, glue);
      var rest := Split(s[|sep|..], sep);
      assert ([""] + rest)[1..] == rest;
    } else {
      JoinSplitIsReplace(s[1..], sep, glue);
      JoinPrefix([s[0]], Split(s[1..], sep), glue);
    }
  }

  lemma JoinPrefix(a: string, parts: seq<string>, glue: string)
    requires parts != []
    ensures Join([a + parts[0]] + parts[1..], glue) == a + Join(parts, glue)
  {
    assert ([a + parts[0]] + parts[1..])[1..] == parts[1..];
    if |parts| > 1 {
      Regroup(a, parts[0], glue, Join(parts[1..], glue));
    }
  }

  function Doubled(s: string): string {
    Replace(s, "'", "''")
  }

  function Halved(s: string): string {
    Replace(s, "''", "'")
  }

  ghost predicate OnlyQuotes(s: string) {
    forall i :: 0 <= i < |s| ==> s[i] == QUOTE
  }

  lemma DoubledStep(s: string)
    requires s != ""
    ensures Doubled(s) == (if s[0] == QUOTE then "''" else [s[0]]) + Doubled(s[1..])
  {
    assert s[..1] == [s[0]];
  }

  /** After an aligned start every doubled quote is one pair, up to the closing quote. */
  lemma {:induction false} HalvedAligned(t: string)
    ensures Halved(Doubled(t) + "'") == t + "'"
  {
    if t == "" {
      assert Doubled(t) + "'" == "'";
    } else {
      DoubledStep(t);
      HalvedAligned(t[1..]);
      var rest := Doubled(t[1..]) + "'";
      var whole := Doubled(t) + "'";
      if t[0] == QUOTE {
        assert whole == "''" + rest;
        assert whole[2..] == rest && whole[..2] == "''";
      } else {
        assert whole == [t[0]] + rest;
        assert whole[1..] == rest && whole[..2][0] != QUOTE;
      }
      assert t == [t[0]] + t[1..];
    }
  }

  /** After the opening quote the pairs are shifted by one until the first other character. */
  lemma {:induction false} HalvedShifted(s: string)
    ensures !OnlyQuotes(s) ==> Halved("'" + Doubled(s) + "'") == "'" + s + "'"
    ensures OnlyQuotes(s) ==> Halved("'" + Doubled(s) + "'") == "'" + s
  {
    var whole := "'" + Doubled(s) + "'";
    if s == "" {
      assert whole == "''" && whole[2..] == "" && whole[..2] == "''";
      assert Halved("") == "";
    } else {
      DoubledStep(s);
      assert s == [s[0]] + s[1..];
      if s[0] == QUOTE {
        HalvedShifted(s[1..]);
        var rest := "'" + Doubled(s[1..]) + "'";
        assert whole[..2] == "''" && whole[2..] == rest;
        assert OnlyQuotes(s[1..]) ==> OnlyQuotes(s);
      } else {
        HalvedAligned(s[1..]);
        var rest := Doubled(s[1..]) + "'";
        assert whole == "'" + ([s[0]] + rest);
        assert whole[..2] == "'" + [s[0]] && whole[1..] == [s[0]] + rest;
        assert ([s[0]] + rest)[1..] == rest;
        assert ([s[0]] + rest)[..2][0] == s[0];
        assert Halved([s[0]] + rest) == [s[0]] + Halved(rest);
        assert whole[..2][1] == s[0];
        assert Halved(whole) == "'" + Halved([s[0]] + rest);
        assert !OnlyQuotes(s);
        assert "'" + ([s[0]] + (s[1..] + "'")) == "'" + s + "'";
      }
    }
  }

  /**
   * Unquoting a quoted string gives it back, except for a non-empty string made
   * of single quotes only: `q("'")` is `''''`, which reads back as the empty string.
   */
  lemma {:induction false} UnquoteQuote(s: string)
    ensures U(Q(s)) == s <==> s == "" || !OnlyQuotes(s)
    ensures s != "" && OnlyQuotes(s) ==> |U(Q(s))| == |s| - 1
  {
    JoinSplitIsReplace(s, "'", "''");
    var raw := "'" + Doubled(s) + "'";
    assert Q(s) == raw;
    assert [raw[0]] + [raw[0]] == "''" && [raw[0]] == "'";
    JoinSplitIsReplace(raw, "''", "'");
    HalvedShifted(s);
    if OnlyQuotes(s) {
      assert |Inner("'" + s)| == if s == "" then 0 else |s| - 1;
    } else {
      assert Inner("'" + s + "'") == s;
    }
  }
}
