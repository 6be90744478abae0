/**
 * Which events a submitted form selects: the fields are joined by `and`, the
 * values of a field by `and` where they are excluded and by `or` otherwise, and
 * each value is a test of its column.
 */
module FormMeanings {
  import opened Wrappers
  import opened Text
  import opened Sequences
  import opened WhereGrammar
  import opened LikePatterns
  import opened PythonRule
  import opened WhereCompiler
  import opened WhereMeaning
  import opened WhereForms
  import opened FormTrips
  import Quoting

  // ----- Which forms can be read at all -----

  predicate IsOperand(token: Token) {
    token.NumT? || token.VarT? || token.StrT? || token.JunkT?
  }

  /** Parsing fails, or stops before a token that cannot follow. */
  ghost predicate Stuck(r: Parsed) {
    r == None || (r.value.1 != [] && IsOperand(r.value.1[0]))
  }

  ghost predicate Jams(clause: seq<Token>) {
    forall rest: seq<Token> :: Stuck(ParseBinary(clause + rest))
  }

  lemma JammedComparison(name: string, mode: Option<string>, literal: seq<Token>)
    requires literal != [] && IsOperand(literal[0])
    requires ModeOp(mode) == None || literal[0].JunkT?
    ensures Jams(Comparing(name, ModeTokens(mode), literal))
  {
    forall rest: seq<Token>
      ensures Stuck(ParseBinary(Comparing(name, ModeTokens(mode), literal) + rest))
    {
      if ModeOp(mode) == None {
        var after := ModeTokens(mode) + (literal + rest);
        assert Comparing(name, ModeTokens(mode), literal) + rest == [VarT(name)] + after;
        assert after[0] == if ModeTokens(mode) == [] then literal[0] else ModeTokens(mode)[0];
        NoOperator(name, after);
      } else {
        var op := ModeOp(mode).value;
        assert Comparing(name, ModeTokens(mode), literal) + rest ==
          Comparing(name, OperatorTokens(op), literal + rest);
        NoLiteral(name, op, literal + rest);
      }
    }
  }

  lemma UnreadableJams(field: Field, name: string, v: string, mode: Option<string>)
    requires Printed1(field, v, mode) == None && BuildClause1(field, name, v, mode).Some?
    ensures Jams(BuildClause1(field, name, v, mode).value)
  {
    match field {
      case SelectField(options) =>
        JammedComparison(name, Some(if mode == Some("") then "=" else "!="),
          CodeTokens(ValueFromLabel(options, v), true));
      case EnumeratedField(options) => JammedComparison(name, mode, CodeTokens(ValueFromLabel(options, v), false));
      case CompareField => JammedComparison(name, mode, [Bare(v)]);
      case _ =>
    }
  }

  predicate AllReadable(field: Field, values: seq<string>, mode: Option<string>) {
    forall v :: v in values ==> Printed1(field, v, mode).Some?
  }

  /** The comparison a value is printed as. */
  function TreeOf(field: Field, name: string, v: string, mode: Option<string>): Tree
    requires Printed1(field, v, mode).Some?
  {
    var (op, value) := Printed1(field, v, mode).value;
    Node(op, Word(name), value)
  }

  function TreesOf(field: Field, name: string, values: seq<string>, mode: Option<string>): (trees: seq<Tree>)
    requires AllReadable(field, values, mode)
    ensures |trees| == |values| && forall i :: 0 <= i < |values| ==> trees[i] == TreeOf(field, name, values[i], mode)
  {
    seq(|values|, i requires 0 <= i < |values| => TreeOf(field, name, values[i], mode))
  }

  /** The clauses of a field's values: as many as can be read, and then one that jams, if any. */
  lemma {:induction false} ClausesRead(
    field: Field, name: string, values: seq<string>, mode: Option<string>, n: nat)
    requires n <= |values| && AllReadable(field, values[..n], mode)
    requires Clauses(field, name, values, mode).Some?
    ensures var clauses := Clauses(field, name, values, mode).value;
      |clauses| == |values| &&
      (forall i :: 0 <= i < n ==> ReadsAs(clauses[i], TreesOf(field, name, values[..n], mode)[i])) &&
      (n < |values| && Printed1(field, values[n], mode) == None ==> Jams(clauses[n]))
  {
    if values != [] {
      var m := if n == 0 then 0 else n - 1;
      if n > 0 {
        assert values[..n][0] == values[0] && values[1..][..m] == values[..n][1..];
        PrintedReads(field, name, values[0], mode);
      } else if Printed1(field, values[0], mode) == None {
        UnreadableJams(field, name, values[0], mode);
      }
      ClausesRead(field, name, values[1..], mode, m);
      var rest := Clauses(field, name, values[1..], mode).value;
      assert forall i :: 0 <= i < |rest| ==> Clauses(field, name, values, mode).value[i + 1] == rest[i];
      if n > 0 {
        var before := TreesOf(field, name, values[1..][..m], mode);
        forall i | 0 < i < n
          ensures ReadsAs(Clauses(field, name, values, mode).value[i], TreesOf(field, name, values[..n], mode)[i])
        {
          assert ReadsAs(rest[i - 1], before[i - 1]);
        }
      }
    }
  }

  lemma {:induction false} JammedTail(
    op: Op, acc: Tree, clauses: seq<seq<Token>>, trees: seq<Tree>, rest: seq<Token>)
    requires IsConnective(op) && |trees| < |clauses| && Jams(clauses[|trees|])
    requires forall i :: 0 <= i < |trees| ==> ReadsAs(clauses[i], trees[i])
    ensures Stuck(ParseWith(op, acc, PrefixClauses(ConnectiveToken(op), clauses) + rest))
    decreases |clauses|
  {
    var ts := PrefixClauses(ConnectiveToken(op), clauses) + rest;
    var tail := PrefixClauses(ConnectiveToken(op), clauses[1..]) + rest;
    assert ts[1..] == clauses[0] + tail;
    if trees == [] {
      assert Stuck(ParseBinary(clauses[0] + tail));
      StuckStays(clauses[0] + tail);
      StuckTail(op, acc, ts);
    } else {
      assert tail[0] == ConnectiveToken(op);
      assert Stops(tail) && ReadsAs(clauses[0], trees[0]);
      assert ParseBinary(clauses[0] + tail) == Some((trees[0], tail));
      if op == AndOp { assert ParseOr(clauses[0] + tail) == OrTail(trees[0], tail) == Some((trees[0], tail)); }
      assert ParseWith(op, acc, ts) == ParseWith(op, Node(op, acc, trees[0]), tail);
      assert forall i :: 0 <= i < |trees| - 1 ==> trees[1..][i] == trees[i + 1] && clauses[1..][i] == clauses[i + 1];
      JammedTail(op, Node(op, acc, trees[0]), clauses[1..], trees[1..], rest);
    }
  }

  lemma StuckStays(ts: seq<Token>)
    requires Stuck(ParseBinary(ts))
    ensures Stuck(ParseOr(ts)) && Stuck(ParseAnd(ts))
  {
    if ParseBinary(ts).Some? {
      var (e, rest) := ParseBinary(ts).value;
      assert OrTail(e, rest) == Some((e, rest)) && AndTail(e, rest) == Some((e, rest));
    }
  }

  lemma StuckTail(op: Op, acc: Tree, ts: seq<Token>)
    requires IsConnective(op) && ts != [] && ts[0] == ConnectiveToken(op)
    requires Stuck(if op == AndOp then ParseOr(ts[1..]) else ParseBinary(ts[1..]))
    ensures Stuck(ParseWith(op, acc, ts))
  {
    var r := if op == AndOp then ParseOr(ts[1..]) else ParseBinary(ts[1..]);
    if r.Some? {
      var (right, rest) := r.value;
      assert ParseWith(op, acc, ts) == ParseWith(op, Node(op, acc, right), rest);
      assert ParseWith(op, Node(op, acc, right), rest) == Some((Node(op, acc, right), rest));
    }
  }

  lemma JammedJoin(op: Op, clauses: seq<seq<Token>>, trees: seq<Tree>, rest: seq<Token>)
    requires IsConnective(op) && |trees| < |clauses| && Jams(clauses[|trees|])
    requires forall i :: 0 <= i < |trees| ==> ReadsAs(clauses[i], trees[i])
    ensures Stuck(ParseAnd(JoinClauses(ConnectiveToken(op), clauses) + rest))
  {
    var tail := PrefixClauses(ConnectiveToken(op), clauses[1..]) + rest;
    var ts := JoinClauses(ConnectiveToken(op), clauses) + rest;
    assert ts == clauses[0] + tail;
    if trees == [] {
      StuckStays(ts);
    } else {
      assert tail[0] == ConnectiveToken(op);
      assert Stops(tail) && ReadsAs(clauses[0], trees[0]);
      assert ParseBinary(ts) == Some((trees[0], tail));
      assert forall i :: 0 <= i < |trees| - 1 ==> trees[1..][i] == trees[i + 1] && clauses[1..][i] == clauses[i + 1];
      JammedTail(op, trees[0], clauses[1..], trees[1..], rest);
      if op == AndOp {
        assert ParseOr(ts) == OrTail(trees[0], tail) == Some((trees[0], tail));
      } else if ParseOr(ts).Some? {
        var (e, left) := ParseOr(ts).value;
        assert AndTail(e, left) == Some((e, left));
      }
    }
  }

  lemma JammedParentheses(op: Op, clauses: seq<seq<Token>>, trees: seq<Tree>)
    requires IsConnective(op) && |trees| < |clauses| && Jams(clauses[|trees|])
    requires forall i :: 0 <= i < |trees| ==> ReadsAs(clauses[i], trees[i])
    ensures Jams([OpenT] + JoinClauses(ConnectiveToken(op), clauses) + [CloseT])
  {
    var body := JoinClauses(ConnectiveToken(op), clauses);
    forall rest: seq<Token>
      ensures ParseBinary(([OpenT] + body + [CloseT]) + rest) == None
    {
      var ts := ([OpenT] + body + [CloseT]) + rest;
      assert ts[1..] == body + ([CloseT] + rest);
      JammedJoin(op, clauses, trees, [CloseT] + rest);
    }
  }

  // ----- What the fields of a form become -----

  /** The tree of a field whose values can all be read. */
  function FieldTree(meta: Meta, i: nat, form: Form): Tree
    requires i < |meta| && IsFilled(form, meta[i].0)
    requires AllReadable(meta[i].1, form.values[meta[i].0], ModeOf(form, meta[i].0))
  {
    var (name, field) := meta[i];
    var trees := TreesOf(field, name, form.values[name], ModeOf(form, name));
    Fold(ConnectiveFor(ModeOf(form, name)), trees[0], trees[1..])
  }

  predicate FieldReadable(meta: Meta, i: nat, form: Form)
    requires i < |meta| && IsFilled(form, meta[i].0)
  {
    AllReadable(meta[i].1, form.values[meta[i].0], ModeOf(form, meta[i].0))
  }

  predicate FormIsReadable(meta: Meta, form: Form) {
    forall i :: 0 <= i < |meta| && IsFilled(form, meta[i].0) ==> FieldReadable(meta, i, form)
  }

  predicate FieldPrints(meta: Meta, i: nat, form: Form)
    requires i < |meta| && IsFilled(form, meta[i].0)
  {
    Clauses(meta[i].1, meta[i].0, form.values[meta[i].0], ModeOf(form, meta[i].0)).Some?
  }

  /** A field's clause reads as its tree, or jams. */
  lemma FieldReadsOrJams(meta: Meta, i: nat, form: Form)
    requires i < |meta| && IsFilled(form, meta[i].0) && FieldPrints(meta, i, form)
    ensures FieldReadable(meta, i, form) ==>
      ReadsAs(FieldClause(form, meta[i].0, meta[i].1), FieldTree(meta, i, form))
    ensures !FieldReadable(meta, i, form) ==> Jams(FieldClause(form, meta[i].0, meta[i].1))
  {
    var (name, field) := meta[i];
    var mode, values := ModeOf(form, name), form.values[name];
    var op := ConnectiveFor(mode);
    var clauses := Clauses(field, name, values, mode).value;
    if FieldReadable(meta, i, form) {
      assert values[..|values|] == values;
      ClausesRead(field, name, values, mode, |values|);
      ParenthesesRead(op, clauses, TreesOf(field, name, values, mode));
    } else {
      var k := FirstUnreadable(field, values, mode);
      ClausesRead(field, name, values, mode, k);
      JammedParentheses(op, clauses, TreesOf(field, name, values[..k], mode));
    }
  }

  lemma {:induction false} FirstUnreadable(field: Field, values: seq<string>, mode: Option<string>) returns (k: nat)
    requires !AllReadable(field, values, mode)
    ensures k < |values| && Printed1(field, values[k], mode) == None && AllReadable(field, values[..k], mode)
  {
    if Printed1(field, values[0], mode) == None {
      k := 0;
    } else {
      assert values == [values[0]] + values[1..];
      var k' := FirstUnreadable(field, values[1..], mode);
      k := k' + 1;
      assert values[..k] == [values[0]] + values[1..][..k'];
    }
  }

  /** Every value that can be read is printed. */
  lemma {:induction false} ReadablePrints(field: Field, name: string, values: seq<string>, mode: Option<string>)
    requires AllReadable(field, values, mode)
    ensures Clauses(field, name, values, mode).Some?
  {
    if values != [] {
      PrintedReads(field, name, values[0], mode);
      ReadablePrints(field, name, values[1..], mode);
    }
  }

  /** The columns that are filled in, in order. */
  function FilledAt(meta: Meta, form: Form): (filled: seq<nat>)
    ensures forall j :: 0 <= j < |filled| ==> filled[j] < |meta| && IsFilled(form, meta[filled[j]].0)
    ensures forall i :: 0 <= i < |meta| && IsFilled(form, meta[i].0) ==> i in filled
  {
    if meta == [] then []
    else
      var n := |meta| - 1;
      var before := FilledAt(meta[..n], form);
      assert forall j :: 0 <= j < |before| ==> meta[..n][before[j]] == meta[before[j]];
      assert forall i :: 0 <= i < n ==> meta[..n][i] == meta[i];
      before + if IsFilled(form, meta[n].0) then [n] else []
  }

  /** The printed clauses are those of the filled columns, unless one of them prints nothing. */
  lemma {:induction false} FormClausesAre(meta: Meta, form: Form)
    ensures FormClauses(meta, form).Ok? <==>
      forall i :: 0 <= i < |meta| && IsFilled(form, meta[i].0) ==> FieldPrints(meta, i, form)
    ensures FormClauses(meta, form).Ok? ==>
      var filled := FilledAt(meta, form);
      |FormClauses(meta, form).value| == |filled| && forall j :: 0 <= j < |filled| ==>
        FieldPrints(meta, filled[j], form) &&
        FormClauses(meta, form).value[j] == FieldClause(form, meta[filled[j]].0, meta[filled[j]].1)
  {
    if meta != [] {
      var n := |meta| - 1;
      var before := meta[..n];
      FormClausesAre(before, form);
      assert forall i :: 0 <= i < n ==> before[i] == meta[i];
      forall i | 0 <= i < n && IsFilled(form, meta[i].0)
        ensures FieldPrints(meta, i, form) == FieldPrints(before, i, form)
      {
      }
      if IsFilled(form, meta[n].0) {
        assert FormClauses(meta, form).Ok? <==> FormClauses(before, form).Ok? && FieldPrints(meta, n, form);
      } else {
        assert FormClauses(meta, form) == FormClauses(before, form);
      }
    }
  }

  ghost predicate FormParses(meta: Meta, form: Form) {
    FromForm(meta, form).Ok? && ParseGoal(FromForm(meta, form).value).Some?
  }

  // ----- What a form says -----

  /** The trees of the filled columns. */
  function FormTrees(meta: Meta, form: Form): (trees: seq<Tree>)
    requires FormIsReadable(meta, form)
    ensures |trees| == |FilledAt(meta, form)|
    ensures forall j :: 0 <= j < |trees| ==>
      FieldReadable(meta, FilledAt(meta, form)[j], form) && trees[j] == FieldTree(meta, FilledAt(meta, form)[j], form)
  {
    var filled := FilledAt(meta, form);
    seq(|filled|, j requires 0 <= j < |filled| => FieldTree(meta, filled[j], form))
  }

  lemma ReadableFormParses(meta: Meta, form: Form)
    requires FormIsReadable(meta, form)
    ensures FromForm(meta, form).Ok?
    ensures ParseGoal(FromForm(meta, form).value) ==
      var trees := FormTrees(meta, form);
      Some(if trees == [] then None else Some(Fold(AndOp, trees[0], trees[1..])))
  {
    forall i | 0 <= i < |meta| && IsFilled(form, meta[i].0)
      ensures FieldPrints(meta, i, form)
    {
      assert FieldReadable(meta, i, form);
      ReadablePrints(meta[i].1, meta[i].0, form.values[meta[i].0], ModeOf(form, meta[i].0));
    }
    FormClausesAre(meta, form);
    var filled, trees, clauses := FilledAt(meta, form), FormTrees(meta, form), FormClauses(meta, form).value;
    forall j | 0 <= j < |trees|
      ensures ReadsAs(clauses[j], trees[j])
    {
      FieldReadsOrJams(meta, filled[j], form);
    }
    if trees != [] {
      JoinedReads(AndOp, clauses, trees, []);
      assert JoinClauses(AndT, clauses) + [] == JoinClauses(AndT, clauses);
      assert JoinClauses(AndT, clauses) != [] by { assert ParseAnd(JoinClauses(AndT, clauses)).Some?; }
    }
  }

  lemma {:induction false} FirstJammed(meta: Meta, form: Form, filled: seq<nat>) returns (k: nat)
    requires forall j :: 0 <= j < |filled| ==> filled[j] < |meta| && IsFilled(form, meta[filled[j]].0)
    requires exists j :: 0 <= j < |filled| && !FieldReadable(meta, filled[j], form)
    ensures k < |filled| && !FieldReadable(meta, filled[k], form)
    ensures forall j :: 0 <= j < k ==> FieldReadable(meta, filled[j], form)
  {
    if !FieldReadable(meta, filled[0], form) {
      k := 0;
    } else {
      var j :| 0 <= j < |filled| && !FieldReadable(meta, filled[j], form);
      assert filled[1..][j - 1] == filled[j];
      var k' := FirstJammed(meta, form, filled[1..]);
      k := k' + 1;
    }
  }

  lemma UnreadableClausesJam(meta: Meta, form: Form, k: nat)
    requires FormClauses(meta, form).Ok? && k < |FilledAt(meta, form)|
    requires !FieldReadable(meta, FilledAt(meta, form)[k], form)
    requires forall j :: 0 <= j < k ==> FieldReadable(meta, FilledAt(meta, form)[j], form)
    ensures Stuck(ParseAnd(JoinClauses(AndT, FormClauses(meta, form).value)))
    ensures JoinClauses(AndT, FormClauses(meta, form).value) != []
  {
    FormClausesAre(meta, form);
    var filled, clauses := FilledAt(meta, form), FormClauses(meta, form).value;
    var trees := seq(k, j requires 0 <= j < k => FieldTree(meta, filled[j], form));
    forall j | 0 <= j < k
      ensures ReadsAs(clauses[j], trees[j])
    {
      FieldReadsOrJams(meta, filled[j], form);
    }
    FieldReadsOrJams(meta, filled[k], form);
    JammedClauses(clauses, trees);
    assert clauses[0] == FieldClause(form, meta[filled[0]].0, meta[filled[0]].1);
    assert JoinClauses(AndT, clauses)[0] == OpenT;
  }

  lemma JammedClauses(clauses: seq<seq<Token>>, trees: seq<Tree>)
    requires |trees| < |clauses| && Jams(clauses[|trees|])
    requires forall i :: 0 <= i < |trees| ==> ReadsAs(clauses[i], trees[i])
    ensures Stuck(ParseAnd(JoinClauses(AndT, clauses)))
  {
    JammedJoin(AndOp, clauses, trees, []);
    AddNothing(JoinClauses(AndT, clauses));
  }

  lemma UnreadableFormFails(meta: Meta, form: Form)
    requires !FormIsReadable(meta, form)
    ensures !FormParses(meta, form)
  {
    if FromForm(meta, form).Ok? {
      var i :| 0 <= i < |meta| && IsFilled(form, meta[i].0) && !FieldReadable(meta, i, form);
      assert i in FilledAt(meta, form);
      var k := FirstJammed(meta, form, FilledAt(meta, form));
      UnreadableClausesJam(meta, form, k);
    }
  }

  /** A form's clause is printed and parses if and only if every value filled in is printed as a comparison. */
  lemma FormParsesIff(meta: Meta, form: Form)
    ensures FormParses(meta, form) <==> FormIsReadable(meta, form)
  {
    if FormIsReadable(meta, form) {
      ReadableFormParses(meta, form);
    } else {
      UnreadableFormFails(meta, form);
    }
  }

  /** The comparison printed for a value is true. */
  ghost predicate ValueSays(field: Field, name: string, v: string, mode: Option<string>, truth: Tree -> bool) {
    var clause := BuildClause1(field, name, v, mode);
    clause.Some? && exists t :: IsComparison(t) && ParseBinary(clause.value) == Some((t, [])) && truth(t)
  }

  /** Excluded values are excluded all, any other value may be the one. */
  ghost predicate FieldSays(
    field: Field, name: string, values: seq<string>, mode: Option<string>, truth: Tree -> bool)
  {
    if mode == Some("!") || mode == Some("!~") || mode == Some("!^")
    then forall v :: v in values ==> ValueSays(field, name, v, mode, truth)
    else exists v :: v in values && ValueSays(field, name, v, mode, truth)
  }

  lemma TreeSays(field: Field, name: string, v: string, mode: Option<string>, truth: Tree -> bool)
    requires Printed1(field, v, mode).Some?
    ensures IsComparison(TreeOf(field, name, v, mode))
    ensures ValueSays(field, name, v, mode, truth) <==> truth(TreeOf(field, name, v, mode))
  {
    PrintedReads(field, name, v, mode);
  }

  lemma {:induction false} FoldMeans(op: Op, acc: Tree, trees: seq<Tree>, truth: Tree -> bool)
    requires IsConnective(op) && IsCondition(acc) && forall i :: 0 <= i < |trees| ==> IsCondition(trees[i])
    ensures IsCondition(Fold(op, acc, trees))
    ensures op == AndOp ==> (Meaning(Fold(op, acc, trees), truth) <==>
      Meaning(acc, truth) && forall i :: 0 <= i < |trees| ==> Meaning(trees[i], truth))
    ensures op == OrOp ==> (Meaning(Fold(op, acc, trees), truth) <==>
      Meaning(acc, truth) || exists i :: 0 <= i < |trees| && Meaning(trees[i], truth))
    decreases |trees|
  {
    if trees != [] {
      FoldMeans(op, Node(op, acc, trees[0]), trees[1..], truth);
      assert forall i :: 0 <= i < |trees| - 1 ==> trees[1..][i] == trees[i + 1];
      assert forall i :: 0 < i < |trees| ==> trees[i] == trees[1..][i - 1];
    }
  }

  /** The fold of a sequence of conditions: all of them, or any of them. */
  lemma FoldedMeans(op: Op, trees: seq<Tree>, truth: Tree -> bool)
    requires IsConnective(op) && trees != [] && forall i :: 0 <= i < |trees| ==> IsCondition(trees[i])
    ensures var whole := Fold(op, trees[0], trees[1..]);
      IsCondition(whole) &&
      (op == AndOp ==> (Meaning(whole, truth) <==> forall i :: 0 <= i < |trees| ==> Meaning(trees[i], truth))) &&
      (op == OrOp ==> (Meaning(whole, truth) <==> exists i :: 0 <= i < |trees| && Meaning(trees[i], truth)))
  {
    FoldMeans(op, trees[0], trees[1..], truth);
    assert forall i :: 0 <= i < |trees| - 1 ==> trees[1..][i] == trees[i + 1];
    assert forall i :: 0 < i < |trees| ==> trees[i] == trees[1..][i - 1];
  }

  lemma FieldTreeSays(meta: Meta, i: nat, form: Form, truth: Tree -> bool)
    requires i < |meta| && IsFilled(form, meta[i].0) && FieldReadable(meta, i, form)
    ensures IsCondition(FieldTree(meta, i, form))
    ensures var (name, field) := meta[i];
      Meaning(FieldTree(meta, i, form), truth) <==>
        FieldSays(field, name, form.values[name], ModeOf(form, name), truth)
  {
    var (name, field) := meta[i];
    var values, mode := form.values[name], ModeOf(form, name);
    var trees := TreesOf(field, name, values, mode);
    forall j | 0 <= j < |values|
      ensures IsCondition(trees[j])
      ensures Meaning(trees[j], truth) <==> ValueSays(field, name, values[j], mode, truth)
    {
      TreeSays(field, name, values[j], mode, truth);
    }
    FoldedMeans(ConnectiveFor(mode), trees, truth);
    if exists v :: v in values && ValueSays(field, name, v, mode, truth) {
      var v :| v in values && ValueSays(field, name, v, mode, truth);
      var j :| 0 <= j < |values| && values[j] == v;
      assert Meaning(trees[j], truth);
    }
  }

  /**
   * What the clause of a form says: something of every filled field, and of a
   * field that each of its values holds if they are excluded (modes `!`, `!~` and
   * `!^`), and that one of them does otherwise.
   */
  lemma FormMeans(meta: Meta, form: Form, truth: Tree -> bool)
    requires FormParses(meta, form)
    ensures var parsed := ParseGoal(FromForm(meta, form).value).value;
      (parsed == None <==> forall i :: 0 <= i < |meta| ==> !IsFilled(form, meta[i].0)) &&
      (parsed.Some? ==> IsCondition(parsed.value) && (Meaning(parsed.value, truth) <==>
        forall i :: 0 <= i < |meta| && IsFilled(form, meta[i].0) ==>
          FieldSays(meta[i].1, meta[i].0, form.values[meta[i].0], ModeOf(form, meta[i].0), truth)))
  {
    FormParsesIff(meta, form);
    ReadableFormParses(meta, form);
    var filled, trees := FilledAt(meta, form), FormTrees(meta, form);
    forall j | 0 <= j < |trees|
      ensures IsCondition(trees[j])
      ensures var (name, field) := meta[filled[j]];
        Meaning(trees[j], truth) <==> FieldSays(field, name, form.values[name], ModeOf(form, name), truth)
    {
      FieldTreeSays(meta, filled[j], form, truth);
    }
    if trees != [] { FoldedMeans(AndOp, trees, truth); }
  }

  // ----- Which rows a form selects -----

  predicate HasNonQuote(v: string) {
    exists i :: 0 <= i < |v| && v[i] != Quoting.QUOTE
  }

  /**
   * A value that is printed as a test for itself: patterns without wildcards of
   * their own, texts and codes that survive quoting, and modes that are operators
   * where they are printed.
   */
  predicate TestsItself(field: Field, mode: Option<string>, v: string) {
    match field
    case TextField =>
      if mode in {Some("~"), Some("!~"), Some("^"), Some("$")} then WildcardFree(v)
      else mode in {Some(""), Some("!")} && HasNonQuote(v)
    case EventClassField => if mode in {Some("^"), Some("!^")} then WildcardFree(v) else HasNonQuote(v)
    case DeviceGroupField => true
    case SelectField(options) => IsReadable(ValueFromLabel(options, v), true)
    case EnumeratedField(options) => ModeOp(mode).Some? && IsReadable(ValueFromLabel(options, v), false)
    case CompareField => ModeOp(mode).Some? && IsWord(v)
  }

  /** A text compared with the number column is read as a number. */
  function ReadFor(numeric: bool, value: Val): Option<Val> {
    if numeric && value.StrV? then
      match IntOf(value.s)
      case Some(n) => Some(IntV(n))
      case None => None
    else Some(value)
  }

  predicate Equals(numeric: bool, value: Val, col: Val) {
    ReadFor(numeric, value) == Some(col)
  }

  predicate Differs(numeric: bool, value: Val, col: Val) {
    ReadFor(numeric, value).Some? && ReadFor(numeric, value).value != col
  }

  /** A mode that is an operator. */
  ghost predicate Compares(numeric: bool, m: string, value: Val, col: Val) {
    if m == "like" then value.StrV? && col.StrV? && Like(value.s, col.s)
    else if m == "not like" then value.StrV? && col.StrV? && !Like(value.s, col.s)
    else ReadFor(numeric, value).Some? && Compare(col, m, ReadFor(numeric, value).value)
  }

  /** What a mode selects: the texts that contain the value, begin or end with it, or equal it, and their opposites. */
  ghost predicate Selects(numeric: bool, field: Field, mode: Option<string>, v: string, col: Val) {
    match field
    case TextField =>
      if mode == Some("~") then col.StrV? && Contains(col.s, v)
      else if mode == Some("^") then col.StrV? && StartsWith(col.s, v)
      else if mode == Some("$") then col.StrV? && EndsWith(col.s, v)
      else if mode == Some("!~") then col.StrV? && !Contains(col.s, v)
      else if mode == Some("") then Equals(numeric, StrV(v), col)
      else mode == Some("!") && Differs(numeric, StrV(v), col)
    case EventClassField =>
      if mode == Some("") then Equals(numeric, StrV(v), col)
      else if mode == Some("^") then col.StrV? && StartsWith(col.s, v)
      else if mode == Some("!^") then col.StrV? && !StartsWith(col.s, v)
      else Differs(numeric, StrV(v), col)
    case DeviceGroupField => col.StrV? && (mode == Some("") <==> Contains(col.s, v))
    case SelectField(options) =>
      if mode == Some("") then Equals(numeric, ValueFromLabel(options, v), col)
      else Differs(numeric, ValueFromLabel(options, v), col)
    case EnumeratedField(options) => mode.Some? && Compares(numeric, mode.value, ValueFromLabel(options, v), col)
    case CompareField =>
      mode.Some? && Compares(numeric, mode.value, match DigitsOf(v) case Some(n) => IntV(n) case None => StrV(v), col)
  }

  lemma PatternSelects(op: Op, pattern: string, v: string, col: Val)
    requires WildcardFree(v) && (op == LikeOp || op == NotLikeOp)
    ensures pattern == "%" + v + "%" ==>
      (ComparisonHolds(false, op, Word(pattern), col) <==> col.StrV? && (op == LikeOp <==> Contains(col.s, v)))
    ensures pattern == v + "%" ==>
      (ComparisonHolds(false, op, Word(pattern), col) <==> col.StrV? && (op == LikeOp <==> StartsWith(col.s, v)))
    ensures pattern == "%" + v ==>
      (ComparisonHolds(false, op, Word(pattern), col) <==> col.StrV? && (op == LikeOp <==> EndsWith(col.s, v)))
  {
    if col.StrV? {
      LikeInfix(v, col.s);
      LikePrefix(v, col.s);
      LikeSuffix(v, col.s);
    }
  }

  lemma EqualitySelects(numeric: bool, sym: string, value: Val, col: Val)
    requires sym == "=" || sym == "!="
    ensures var t := match value case IntV(n) => Num(n) case StrV(s) => Word(s);
      ComparisonHolds(numeric, BinOp(sym), t, col) <==>
        if sym == "=" then Equals(numeric, value, col) else Differs(numeric, value, col)
  {
  }

  lemma OperatorSelects(numeric: bool, m: string, value: Val, col: Val)
    requires ModeOp(Some(m)).Some?
    ensures var t := match value case IntV(n) => Num(n) case StrV(s) => Word(s);
      ComparisonHolds(numeric, ModeOp(Some(m)).value, t, col) <==> Compares(numeric, m, value, col)
  {
  }

  lemma TextSelects(numeric: bool, field: Field, mode: Option<string>, v: string, col: Val)
    requires field.TextField? || field.EventClassField?
    requires v != "" && TestsItself(field, mode, v)
    ensures Printed1(field, v, mode).Some?
    ensures var (op, value) := Printed1(field, v, mode).value;
      !value.Node? && (ComparisonHolds(numeric, op, value, col) <==> Selects(numeric, field, mode, v, col))
  {
    var (op, value) := Printed1(field, v, mode).value;
    if op.BinOp? {
      QuotedReads(v);
      EqualitySelects(numeric, op.sym, StrV(v), col);
    } else {
      PatternSelects(op, value.s, v, col);
    }
  }

  /** The comparison printed for a value is true of a column exactly when the mode selects it. */
  lemma PrintedSelects(name: string, field: Field, mode: Option<string>, v: string, col: Val)
    requires v != "" && TestsItself(field, mode, v)
    ensures Printed1(field, v, mode).Some?
    ensures var (op, value) := Printed1(field, v, mode).value;
      !value.Node? && (ColumnHolds(name, field, op, value, col) <==>
        Selects(Lower(name) == "ntevid", field, mode, v, col))
  {
    var numeric := Lower(name) == "ntevid";
    match field {
      case TextField => TextSelects(numeric, field, mode, v, col);
      case EventClassField => TextSelects(numeric, field, mode, v, col);
      case DeviceGroupField => assert ("%|" + v + "%")[2..|v| + 2] == v;
      case SelectField(options) =>
        ReadableCodes(ValueFromLabel(options, v), true);
        EqualitySelects(numeric, if mode == Some("") then "=" else "!=", ValueFromLabel(options, v), col);
      case EnumeratedField(options) =>
        ReadableCodes(ValueFromLabel(options, v), false);
        OperatorSelects(numeric, mode.value, ValueFromLabel(options, v), col);
      case CompareField =>
        OperatorSelects(numeric, mode.value, match DigitsOf(v) case Some(n) => IntV(n) case None => StrV(v), col);
    }
  }

  /** Every submitted value tests for itself. */
  ghost predicate FormTestsItself(meta: Meta, form: Form) {
    forall i :: 0 <= i < |meta| && IsFilled(form, meta[i].0) ==>
      forall v :: v in form.values[meta[i].0] ==> TestsItself(meta[i].1, ModeOf(form, meta[i].0), v)
  }

  /** What a field selects: with an excluding mode what none of its values excludes, else what any of them selects. */
  ghost predicate FieldSelects(
    numeric: bool, field: Field, values: seq<string>, mode: Option<string>, col: Val)
  {
    if mode == Some("!") || mode == Some("!~") || mode == Some("!^")
    then forall v :: v in values ==> Selects(numeric, field, mode, v, col)
    else exists v :: v in values && Selects(numeric, field, mode, v, col)
  }

  lemma ValueSelects(meta: Meta, i: nat, mode: Option<string>, v: string, row: Row)
    requires i < |meta| && DistinctNames(meta) && meta[i].0 in row && v != "" && TestsItself(meta[i].1, mode, v)
    ensures ValueSays(meta[i].1, meta[i].0, v, mode, RowTruth(meta, row)) <==>
      Selects(Lower(meta[i].0) == "ntevid", meta[i].1, mode, v, row[meta[i].0])
  {
    var (name, field) := meta[i];
    PrintedSelects(name, field, mode, v, row[name]);
    TreeSays(field, name, v, mode, RowTruth(meta, row));
    LookupSelf(meta, i);
  }

  lemma FieldSelectsIs(meta: Meta, i: nat, form: Form, row: Row)
    requires i < |meta| && DistinctNames(meta) && meta[i].0 in row
    requires IsFilled(form, meta[i].0) && FormTestsItself(meta, form)
    ensures var (name, field) := meta[i];
      FieldSays(field, name, form.values[name], ModeOf(form, name), RowTruth(meta, row)) <==>
        FieldSelects(Lower(name) == "ntevid", field, form.values[name], ModeOf(form, name), row[name])
  {
    forall v | v in form.values[meta[i].0]
      ensures ValueSays(meta[i].1, meta[i].0, v, ModeOf(form, meta[i].0), RowTruth(meta, row)) <==>
        Selects(Lower(meta[i].0) == "ntevid", meta[i].1, ModeOf(form, meta[i].0), v, row[meta[i].0])
    {
      ValueSelects(meta, i, ModeOf(form, meta[i].0), v, row);
    }
  }

  /**
   * From form to rows: a form whose values test for themselves is printed as a
   * clause that parses, and a row satisfies the clause exactly when every filled
   * field selects it.
   */
  lemma FormSelects(meta: Meta, form: Form, row: Row)
    requires DistinctNames(meta) && FormTestsItself(meta, form)
    requires forall i :: 0 <= i < |meta| ==> meta[i].0 in row
    ensures FormParses(meta, form)
    ensures var parsed := ParseGoal(FromForm(meta, form).value).value;
      parsed.Some? ==> IsCondition(parsed.value) && (Meaning(parsed.value, RowTruth(meta, row)) <==>
        forall i :: 0 <= i < |meta| && IsFilled(form, meta[i].0) ==>
          FieldSelects(Lower(meta[i].0) == "ntevid", meta[i].1, form.values[meta[i].0],
                       ModeOf(form, meta[i].0), row[meta[i].0]))
  {
    forall i | 0 <= i < |meta| && IsFilled(form, meta[i].0)
      ensures FieldReadable(meta, i, form)
    {
      forall v | v in form.values[meta[i].0]
        ensures Printed1(meta[i].1, v, ModeOf(form, meta[i].0)).Some?
      {
        PrintedSelects(meta[i].0, meta[i].1, ModeOf(form, meta[i].0), v, row[meta[i].0]);
      }
    }
    FormParsesIff(meta, form);
    FormMeans(meta, form, RowTruth(meta, row));
    forall i | 0 <= i < |meta| && IsFilled(form, meta[i].0)
      ensures FieldSays(meta[i].1, meta[i].0, form.values[meta[i].0], ModeOf(form, meta[i].0), RowTruth(meta, row)) <==>
        FieldSelects(Lower(meta[i].0) == "ntevid", meta[i].1, form.values[meta[i].0],
                     ModeOf(form, meta[i].0), row[meta[i].0])
    {
      FieldSelectsIs(meta, i, form, row);
    }
  }

  // ----- Device groups -----

  /**
   * The clause printed for a device group compiles to a test for that group, or
   * against it, exactly when the group's path neither begins nor ends with a
   * character that the compiler strips.
   */
  lemma GroupRuleExact(meta: Meta, i: nat, mode: string, group: string)
    requires i < |meta| && DistinctNames(meta) && meta[i].1 == DeviceGroupField && (mode == "" || mode == "!")
    requires Lower(meta[i].0) != "ntevid" && Lower(meta[i].0) != "priority"
    ensures var parsed := ParseBinary(BuildClause1(DeviceGroupField, meta[i].0, group, Some(mode)).value);
      parsed.Some? && parsed.value.1 == [] && IsComparison(parsed.value.0) &&
      var leaf := CompileLeaf(meta, parsed.value.0);
      leaf.Ok? && leaf.value.Some? &&
      ((forall v :: HoldsOn(leaf.value.value, StrV(v)) <==> (mode == "" <==> Contains(v, group))) <==>
        group == "" || (group[0] !in {'%', '|'} && group[|group| - 1] !in {'%', '|'}))
  {
    var name := meta[i].0;
    var t := TreeOf(DeviceGroupField, name, group, Some(mode));
    PrintedReads(DeviceGroupField, name, group, Some(mode));
    LookupSelf(meta, i);
    assert GroupOf("%|" + group + "%") == Some(group) by { assert ("%|" + group + "%")[2..|group| + 2] == group; }
    GroupExact(name, t.op, "%|" + group + "%");
    var s := CompileLeaf(meta, t).value.value;
    forall v
      ensures Agrees(name, DeviceGroupField, t.op, t.right, s, StrV(v)) <==>
        (HoldsOn(s, StrV(v)) <==> (mode == "" <==> Contains(v, group)))
    {
    }
    assert forall col :: FitsColumn(name, DeviceGroupField, col) <==> col.StrV?;
  }
}
