/**
 * Conditions written as where clauses, with parentheses only where the grammar
 * needs them, and what becomes of such a clause on its way to a Python rule.
 */
module WhereWriting {
  import opened Wrappers
  import opened Text
  import opened WhereGrammar
  import opened PythonRule
  import opened WhereCompiler
  import opened WhereMeaning
  import opened WhereForms
  import opened FormTrips
  import Quoting

  /** How comparisons are written. */
  type Speller = Tree -> seq<Token>

  /** Every comparison of the condition is read back from its spelling. */
  ghost predicate SpellsLeaves(t: Tree, spell: Speller)
    requires IsCondition(t)
  {
    forall c :: c in Leaves(t) ==> ReadsAs(spell(c), c)
  }

  /** The two operands of a connective and the connective between them. */
  function Operands(t: Tree, spell: Speller): seq<Token>
    requires IsCondition(t) && !IsComparison(t)
    decreases t, 0
  {
    if t.op == AndOp then Written(t.left, spell) + ([AndT] + AsOperandOfAnd(t.right, spell))
    else AsOperandOfAnd(t.left, spell) + ([OrT] + AsOperandOfOr(t.right, spell))
  }

  function AsOperandOfOr(t: Tree, spell: Speller): seq<Token>
    requires IsCondition(t)
    decreases t, 1
  {
    if IsComparison(t) then spell(t) else [OpenT] + Operands(t, spell) + [CloseT]
  }

  function AsOperandOfAnd(t: Tree, spell: Speller): seq<Token>
    requires IsCondition(t)
    decreases t, 2
  {
    if !IsComparison(t) && t.op == OrOp then Operands(t, spell) else AsOperandOfOr(t, spell)
  }

  /** The clause for a condition: no parentheses around the operands of `and` that are joined by `or`. */
  function Written(t: Tree, spell: Speller): seq<Token>
    requires IsCondition(t)
    decreases t, 3
  {
    if !IsComparison(t) && t.op == AndOp then Operands(t, spell) else AsOperandOfAnd(t, spell)
  }

  // ----- Reading clauses -----

  lemma LeavesBelow(t: Tree, spell: Speller)
    requires IsCondition(t) && !IsComparison(t) && SpellsLeaves(t, spell)
    ensures SpellsLeaves(t.left, spell) && SpellsLeaves(t.right, spell)
  {
    assert Leaves(t) == Leaves(t.left) + Leaves(t.right);
  }

  lemma {:induction false} OperandsRead(t: Tree, spell: Speller, rest: seq<Token>)
    requires IsCondition(t) && !IsComparison(t) && SpellsLeaves(t, spell) && Stops(rest)
    ensures t.op == OrOp ==> ParseOr(Operands(t, spell) + rest) == OrTail(t, rest)
    ensures t.op == AndOp && (rest == [] || rest[0] != OrT) ==> ParseAnd(Operands(t, spell) + rest) == AndTail(t, rest)
    decreases t, 0
  {
    LeavesBelow(t, spell);
    if t.op == OrOp {
      var right := AsOperandOfOr(t.right, spell) + rest;
      var tail := [OrT] + right;
      assert Operands(t, spell) + rest == AsOperandOfAnd(t.left, spell) + tail;
      OrReads(t.left, spell, tail);
      OperandReads(t.right, spell);
      assert tail[1..] == right && ParseBinary(right) == Some((t.right, rest));
    } else if rest == [] || rest[0] != OrT {
      var right := AsOperandOfAnd(t.right, spell) + rest;
      var tail := [AndT] + right;
      assert Operands(t, spell) + rest == Written(t.left, spell) + tail;
      AndReads(t.left, spell, tail);
      OrReads(t.right, spell, rest);
      assert tail[1..] == right && ParseOr(right) == OrTail(t.right, rest) == Some((t.right, rest));
    }
  }

  lemma {:induction false} OperandReads(t: Tree, spell: Speller)
    requires IsCondition(t) && SpellsLeaves(t, spell)
    ensures ReadsAs(AsOperandOfOr(t, spell), t)
    decreases t, 1
  {
    if IsComparison(t) {
      assert Leaves(t) == [t];
    } else {
      var inner := Operands(t, spell);
      forall rest: seq<Token> | Stops(rest)
        ensures ParseBinary(([OpenT] + inner + [CloseT]) + rest) == Some((t, rest))
      {
        var ts := ([OpenT] + inner + [CloseT]) + rest;
        var close := [CloseT] + rest;
        assert ts[1..] == inner + close && close[1..] == rest;
        OperandsRead(t, spell, close);
        if t.op == OrOp {
          assert ParseOr(inner + close) == OrTail(t, close) == Some((t, close));
        }
        assert ParseAnd(inner + close) == AndTail(t, close) == Some((t, close));
        assert ParseTerm(ts) == Some((t, rest));
        assert BinaryTail(t, rest) == Some((t, rest));
      }
    }
  }

  lemma {:induction false} OrReads(t: Tree, spell: Speller, rest: seq<Token>)
    requires IsCondition(t) && SpellsLeaves(t, spell) && Stops(rest)
    ensures ParseOr(AsOperandOfAnd(t, spell) + rest) == OrTail(t, rest)
    decreases t, 2
  {
    if !IsComparison(t) && t.op == OrOp {
      OperandsRead(t, spell, rest);
    } else {
      OperandReads(t, spell);
      assert ParseBinary(AsOperandOfOr(t, spell) + rest) == Some((t, rest));
    }
  }

  lemma {:induction false} AndReads(t: Tree, spell: Speller, rest: seq<Token>)
    requires IsCondition(t) && SpellsLeaves(t, spell) && Stops(rest) && (rest == [] || rest[0] != OrT)
    ensures ParseAnd(Written(t, spell) + rest) == AndTail(t, rest)
    decreases t, 3
  {
    if !IsComparison(t) && t.op == AndOp {
      OperandsRead(t, spell, rest);
    } else {
      OrReads(t, spell, rest);
      assert OrTail(t, rest) == Some((t, rest));
    }
  }

  /** A condition written with no more parentheses than it needs parses as that condition. */
  lemma WrittenParses(t: Tree, spell: Speller)
    requires IsCondition(t) && SpellsLeaves(t, spell)
    ensures ParseGoal(Written(t, spell)) == Some(Some(t))
  {
    AndReads(t, spell, []);
    assert Written(t, spell) + [] == Written(t, spell);
  }

  // ----- A plain spelling -----

  /** Column name, operator, and a number or a quoted string. */
  function Spelled(c: Tree): seq<Token> {
    if !IsComparison(c) then []
    else
      Comparing(c.left.s, OperatorTokens(c.op),
        [if c.right.Num? then if c.right.n >= 0 then NumT(c.right.n) else JunkT("-") else StrT(Quoting.Q(c.right.s))])
  }

  /** A comparison with a number that is not negative, or with a string that quoting keeps. */
  predicate CanBeSpelled(c: Tree) {
    IsComparison(c) &&
    if c.right.Num? then c.right.n >= 0
    else c.right.s == "" || exists i :: 0 <= i < |c.right.s| && c.right.s[i] != Quoting.QUOTE
  }

  lemma SpelledReads(c: Tree)
    requires CanBeSpelled(c)
    ensures ReadsAs(Spelled(c), c)
  {
    if c.right.Num? {
      ComparisonReads(c.left.s, c.op, NumT(c.right.n), c.right);
    } else {
      Quoting.UnquoteQuote(c.right.s);
      ComparisonReads(c.left.s, c.op, StrT(Quoting.Q(c.right.s)), c.right);
    }
  }

  /**
   * From text to text: a condition of convertible comparisons, written as a
   * clause in which `or` binds tighter, is parsed, collapsed and printed as a
   * rule that Python, in which `and` binds tighter, finds true on exactly the
   * events whose rows satisfy the condition.
   */
  lemma ClauseToRule(meta: Meta, t: Tree, row: Row, env: Env)
    requires IsCondition(t) && RowFits(meta, row) && Renamed(meta, row, env)
    requires forall c :: c in Leaves(t) ==> CanBeSpelled(c) && Convertible(meta, c)
    ensures var parsed := ParseGoal(Written(t, Spelled));
      parsed.Some? && parsed.value.Some? && IsCondition(parsed.value.value) &&
      var rule := ToPython(meta, parsed.value.value);
      rule.Ok? && ParseRule(rule.value).Some? &&
      (IsTrue(ParseRule(rule.value).value, env) <==> Meaning(t, RowTruth(meta, row)))
  {
    forall c | c in Leaves(t)
      ensures ReadsAs(Spelled(c), c)
    {
      SpelledReads(c);
    }
    WrittenParses(t, Spelled);
    assert forall i :: 0 <= i < |Leaves(t)| ==> Leaves(t)[i] in Leaves(t);
    RuleTrueOnSameEvents(meta, t, row, env);
  }
}
