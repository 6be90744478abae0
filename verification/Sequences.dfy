/** Members of sequences, and ways of cutting sequences in pieces. */
module Sequences {

  function Members<T(!new)>(s: seq<T>): set<T> {
    set x | x in s
  }

  lemma MembersEnd<T(!new)>(s: seq<T>, n: nat)
    requires n < |s|
    ensures s[..n + 1] == s[..n] + [s[n]]
    ensures Members(s[..n + 1]) == Members(s[..n]) + {s[n]}
  {
  }

  lemma MembersConcat<T(!new)>(a: seq<T>, b: seq<T>)
    ensures Members(a + b) == Members(a) + Members(b)
  {
    assert forall x :: x in a + b <==> x in a || x in b;
  }

  lemma AddNothing<T>(s: seq<T>)
    ensures s + [] == s
  {
  }

  lemma LastOf<T>(s: seq<T>)
    requires s != []
    ensures s == s[..|s| - 1] + [s[|s| - 1]]
  {
  }

  lemma SplitAt<T>(s: seq<T>, k: nat)
    requires k < |s|
    ensures s == s[..k] + s[k..] && s[k..] == [s[k]] + s[k + 1..]
    ensures s[..k + 1] == s[..k] + [s[k]]
  {
  }

  lemma SplitEnd<T>(a: seq<T>, b: seq<T>)
    requires b != []
    ensures a + b == (a + b[..|b| - 1]) + [b[|b| - 1]]
  {
  }

  lemma Assoc<T>(a: seq<T>, b: seq<T>, c: seq<T>)
    ensures (a + b) + c == a + (b + c)
  {
  }

  lemma Regroup<T>(a: seq<T>, b: seq<T>, c: seq<T>, d: seq<T>)
    ensures (a + b + c) + d == a + (b + (c + d))
    ensures (b + c) + d == b + (c + d)
  {
  }
}
