/** Python's string operations that several modules use. */
module Text {

  function LowerChar(c: char): char {
    if 'A' <= c <= 'Z' then c + 32 as char else c
  }

  /** `s.lower()` */
  function Lower(s: string): string {
    seq(|s|, i requires 0 <= i < |s| => LowerChar(s[i]))
  }

  const UPPER := "ABCDEFGHIJKLMNOPQRSTUVWXYZ"
  const LOWER := "abcdefghijklmnopqrstuvwxyz"

  /** Letters become the small ones and other characters stay. */
  lemma LowerLetters(c: char)
    ensures forall i :: 0 <= i < 26 ==> LowerChar(UPPER[i]) == LOWER[i]
    ensures c !in UPPER ==> LowerChar(c) == c
  {
    if 'A' <= c <= 'Z' {
      var i := (c - 'A') as nat;
      assert UPPER[i] == c;
    }
  }

  const DIGITS := "0123456789"

  lemma InUpper(c: char)
    ensures c in UPPER <==> 'A' <= c <= 'Z'
  {
    if 'A' <= c <= 'Z' { assert UPPER[(c - 'A') as nat] == c; }
  }

  lemma InLower(c: char)
    ensures c in LOWER <==> 'a' <= c <= 'z'
  {
    if 'a' <= c <= 'z' { assert LOWER[(c - 'a') as nat] == c; }
  }

  lemma InDigits(c: char)
    ensures c in DIGITS <==> '0' <= c <= '9'
  {
    if '0' <= c <= '9' { assert DIGITS[(c - '0') as nat] == c; }
  }

  predicate StartsWith(s: string, x: string) {
    x <= s
  }

  predicate EndsWith(s: string, x: string) {
    |x| <= |s| && s[|s| - |x|..] == x
  }

  predicate OccursAt(s: string, x: string, i: int) {
    0 <= i <= |s| - |x| && s[i..i + |x|] == x
  }

  /** `x in s` */
  predicate Contains(s: string, x: string) {
    exists i :: 0 <= i <= |s| && OccursAt(s, x, i)
  }

  /** `s.lstrip(chars)` */
  function StripLeft(s: string, chars: set<char>): string {
    if s != "" && s[0] in chars then StripLeft(s[1..], chars) else s
  }

  /** `s.rstrip(chars)` */
  function StripRight(s: string, chars: set<char>): string {
    if s != "" && s[|s| - 1] in chars then StripRight(s[..|s| - 1], chars) else s
  }

  /** The position of the first dot, else the length. */
  function FirstDot(s: string): (i: nat)
    ensures i <= |s| && (i < |s| ==> s[i] == '.') && forall k :: 0 <= k < i ==> s[k] != '.'
  {
    if s == "" || s[0] == '.' then 0 else 1 + FirstDot(s[1..])
  }

  predicate AreDigits(s: string) {
    forall i :: 0 <= i < |s| ==> '0' <= s[i] <= '9'
  }
}
