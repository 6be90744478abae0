/**
 * Texts in a rule: they are printed between double quotes, with nothing escaped,
 * and Python reads them as string literals (section 2.4.1 of the Python 2.7
 * language reference).
 */
module PythonLiterals {
  import opened Wrappers
  import Quoting

  /** `getValue`: the double quotes of the text are replaced by what is meant as an escape and is a double quote. */
  function GetValue(v: string): string {
    "\"" + Quoting.Replace(v, "\"", "\"") + "\""
  }

  /** Characters that mean something else after a backslash, or must not follow one. */
  const ESCAPES: set<char> := {
    '\\', '\'', '"', 'a', 'b', 'f', 'n', 'r', 't', 'v', 'x', '0', '1', '2', '3', '4', '5', '6', '7', '\n', '\r', '\0'}

  /** Characters that end a literal or its line. */
  const ENDS: set<char> := {'"', '\n', '\r', '\0'}

  function SingleEscape(c: char): Option<char> {
    if c in {'\\', '\'', '"'} then Some(c)
    else if c == 'a' then Some('\U{07}')
    else if c == 'b' then Some('\U{08}')
    else if c == 'f' then Some('\U{0c}')
    else if c == 'n' then Some('\n')
    else if c == 'r' then Some('\r')
    else if c == 't' then Some('\t')
    else if c == 'v' then Some('\U{0b}')
    else None
  }

  function DigitValue(c: char): Option<nat> {
    if '0' <= c <= '9' then Some((c - '0') as nat)
    else if 'a' <= c <= 'f' then Some((c - 'a') as nat + 10)
    else if 'A' <= c <= 'F' then Some((c - 'A') as nat + 10)
    else None
  }

  predicate IsOctal(t: string, i: nat) {
    i < |t| && '0' <= t[i] <= '7'
  }

  function OctalValue(digits: string): nat {
    if digits == "" then 0
    else
      var last := digits[|digits| - 1];
      8 * OctalValue(digits[..|digits| - 1]) + if '0' <= last <= '7' then (last - '0') as nat else 0
  }

  /** The character of an escape and its length after the backslash; a line that goes on gives no character. */
  function Escape(t: string): (e: Option<(string, nat)>)
    ensures e.Some? ==> |e.value.0| < 1 + e.value.1 && e.value.1 <= |t|
  {
    if t == "" || t[0] == '\0' then None
    else if t[0] == '\n' || t[0] == '\r' then Some(("", 1))
    else if SingleEscape(t[0]).Some? then Some(([SingleEscape(t[0]).value], 1))
    else if t[0] == 'x' then
      if |t| < 3 || DigitValue(t[1]) == None || DigitValue(t[2]) == None then None
      else Some(([(16 * DigitValue(t[1]).value + DigitValue(t[2]).value) as char], 3))
    else if IsOctal(t, 0) then
      var n := if IsOctal(t, 1) then if IsOctal(t, 2) then 3 else 2 else 1;
      Some(([(OctalValue(t[..n]) % 256) as char], n))
    else None
  }

  /** What follows the opening quote: the text up to the closing one, and what comes after. */
  function ReadBody(t: string): Option<(string, string)>
    decreases |t|
  {
    if t == "" || (t[0] in ENDS && t[0] != '"') then None
    else if t[0] == '"' then Some(("", t[1..]))
    else if t[0] != '\\' then Prepend([t[0]], ReadBody(t[1..]))
    else if |t| == 1 then None
    else if t[1] !in ESCAPES then Prepend(t[..2], ReadBody(t[2..]))
    else
      match Escape(t[1..])
      case Some((c, n)) => Prepend(c, ReadBody(t[1 + n..]))
      case None => None
  }

  function Prepend(s: string, body: Option<(string, string)>): Option<(string, string)> {
    match body
    case Some((text, rest)) => Some((s + text, rest))
    case None => None
  }

  /** The value of a text that is one literal in double quotes; three quotes begin a literal of another kind. */
  function LiteralValue(t: string): Option<string> {
    if t == "" || t[0] != '"' || "\"\"\"" <= t then None
    else
      match ReadBody(t[1..])
      case Some((text, rest)) => if rest == "" then Some(text) else None
      case None => None
  }

  /** No double quote or line end, and no backslash but before a character that it leaves alone. */
  predicate IsPlain(v: string) {
    forall i :: 0 <= i < |v| ==> PlainAt(v, i)
  }

  predicate PlainAt(v: string, i: nat)
    requires i < |v|
  {
    v[i] !in ENDS && (v[i] == '\\' ==> i + 1 < |v| && v[i + 1] !in ESCAPES)
  }

  lemma PlainAfter(s: string, v: string)
    requires IsPlain(v)
    requires (|s| == 1 && s[0] !in ENDS && s[0] != '\\') || (|s| == 2 && s[0] == '\\' && s[1] !in ESCAPES)
    ensures IsPlain(s + v)
  {
    var sv := s + v;
    forall i | 0 <= i < |sv|
      ensures PlainAt(sv, i)
    {
      if i >= |s| { assert PlainAt(v, i - |s|); }
    }
  }

  /** A literal is no shorter than its value, and as long only if the value is plain and stands there as it is. */
  lemma {:induction false} BodyIsNoShorter(t: string)
    requires ReadBody(t).Some?
    ensures var (text, rest) := ReadBody(t).value;
      |text| + 1 + |rest| <= |t| && (|text| + 1 + |rest| == |t| ==> IsPlain(text))
    decreases |t|
  {
    if t[0] == '"' {
    } else if t[0] != '\\' {
      BodyIsNoShorter(t[1..]);
      var (text, rest) := ReadBody(t[1..]).value;
      if |text| + 2 + |rest| == |t| { PlainAfter([t[0]], text); }
    } else if t[1] !in ESCAPES {
      BodyIsNoShorter(t[2..]);
      var (text, rest) := ReadBody(t[2..]).value;
      if |text| + 3 + |rest| == |t| { PlainAfter(t[..2], text); }
    } else {
      BodyIsNoShorter(t[1 + Escape(t[1..]).value.1..]);
    }
  }

  lemma PlainRest(v: string, n: nat)
    requires IsPlain(v) && n <= |v|
    ensures IsPlain(v[n..])
  {
    var rest := v[n..];
    forall i | 0 <= i < |rest|
      ensures PlainAt(rest, i)
    {
      assert PlainAt(v, n + i);
    }
  }

  lemma {:induction false} PlainBody(v: string)
    requires IsPlain(v)
    ensures ReadBody(v + "\"") == Some((v, ""))
    decreases |v|
  {
    var t := v + "\"";
    if v == "" {
      assert t == "\"" && t[1..] == "" && ReadBody(t) == Some(("", t[1..]));
    } else {
      var n := if v[0] == '\\' then 2 else 1;
      assert PlainAt(v, 0);
      var rest := v[n..];
      PlainRest(v, n);
      PlainBody(rest);
      assert t[n..] == rest + "\"" && v == v[..n] + rest && t[..n] == v[..n];
      assert t[0] == v[0] && [t[0]] == t[..1];
      assert n == 2 ==> t[1] == v[1];
      assert ReadBody(t) == Prepend(t[..n], ReadBody(t[n..]));
    }
  }

  lemma {:induction false} NothingIsEscaped(v: string)
    ensures Quoting.Replace(v, "\"", "\"") == v
  {
    if v != "" {
      assert v == v[..1] + v[1..];
      NothingIsEscaped(v[1..]);
    }
  }

  /**
   * A text printed in a rule is read back as it is exactly when it is plain: a
   * double quote ends it early, and a backslash may change what follows it.
   */
  lemma PrintedTextReadsBack(v: string)
    ensures LiteralValue(GetValue(v)) == Some(v) <==> IsPlain(v)
  {
    NothingIsEscaped(v);
    var t := GetValue(v);
    assert t[1..] == v + "\"";
    if IsPlain(v) {
      PlainBody(v);
      if |v| > 0 { assert t[1] == v[0]; }
    } else if LiteralValue(t) == Some(v) {
      BodyIsNoShorter(t[1..]);
    }
  }
}
