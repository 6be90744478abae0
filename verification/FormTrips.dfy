/** What survives when an event filter form is printed as a where clause and the clause is read back. */
module FormTrips {
  import opened Wrappers
  import opened Text
  import opened Sequences
  import opened WhereGrammar
  import opened PythonRule
  import opened WhereCompiler
  import opened WhereForms
  import Quoting

  // ----- One value printed and read back -----

  predicate Stops(rest: seq<Token>) {
    rest == [] || rest[0] == AndT || rest[0] == OrT || rest[0] == CloseT
  }

  ghost predicate ReadsAs(ts: seq<Token>, t: Tree) {
    forall rest: seq<Token> :: Stops(rest) ==> ParseBinary(ts + rest) == Some((t, rest))
  }

  /** The values a field shows again after printing and reading them. */
  predicate RoundTrips(field: Field, mode: Option<string>, v: string) {
    mode.Some? &&
    var m := mode.value;
    match field
    case TextField =>
      m == "~" || m == "!~" ||
      (m == "^" && !StartsPercent(v)) || (m == "$" && !EndsPercent(v)) ||
      ((m == "" || m == "!") && exists i :: 0 <= i < |v| && v[i] != Quoting.QUOTE)
    case EventClassField =>
      !EndsPercent(v) &&
      (m == "^" || m == "!^" || ((m == "" || m == "!") && exists i :: 0 <= i < |v| && v[i] != Quoting.QUOTE))
    case DeviceGroupField => m == "" || m == "!"
    case SelectField(options) => (m == "" || m == "!") && ShowsLabel(options, v, true)
    case EnumeratedField(options) => ModeOp(mode).Some? && ShowsLabel(options, v, false)
    case CompareField => ModeOp(mode).Some? && Reread(StrV(v), false) == Some(StrV(v))
  }

  /** What a printed code is read as, if it is read as a literal. */
  function Reread(code: Val, quoted: bool): Option<Val> {
    match code
    case IntV(n) => if n >= 0 then Some(code) else None
    case StrV(s) =>
      if quoted then Some(StrV(Quoting.U(Quoting.Q(s))))
      else
        match Bare(s)
        case NumT(n) => Some(IntV(n))
        case VarT(name) => Some(StrV(name))
        case _ => None
  }

  /** The code that a label stands for is read as a code with that label. */
  predicate ShowsLabel(options: Options, v: string, quoted: bool) {
    var code := Reread(ValueFromLabel(options, v), quoted);
    code.Some? && LabelFromValue(options, code.value) == v
  }

  /** A code that reads back: no negative number, and no text of quotes only or, printed bare, but a name. */
  predicate IsReadable(code: Val, quoted: bool) {
    match code
    case IntV(n) => n >= 0
    case StrV(s) =>
      if quoted then s == "" || exists i :: 0 <= i < |s| && s[i] != Quoting.QUOTE
      else IsWord(s) && DigitsOf(s) == None
  }

  lemma ReadableCodes(code: Val, quoted: bool)
    ensures IsReadable(code, quoted) <==> Reread(code, quoted) == Some(code)
  {
    if code.StrV? && quoted { Quoting.UnquoteQuote(code.s); }
  }

  /** With distinct codes every label of the options whose code is readable is shown again. */
  lemma LabelsShown(options: Options, v: string, quoted: bool)
    requires DistinctCodes(options) && IsLabel(options, v) && IsReadable(ValueFromLabel(options, v), quoted)
    ensures ShowsLabel(options, v, quoted)
  {
    ReadableCodes(ValueFromLabel(options, v), quoted);
    LabelReadsBack(options, v);
  }

  /** Labels that are not among the options are never shown again. */
  lemma UnknownNotShown(options: Options, v: string, quoted: bool)
    requires !IsLabel(options, v)
    ensures !ShowsLabel(options, v, quoted)
  {
    UnknownLabel(options, v);
  }

  /** The printed clause is read as a comparison that gives the mode and the value back. */
  ghost predicate ReadBack(field: Field, name: string, mode: Option<string>, v: string) {
    var clause := BuildClause1(field, name, v, mode);
    clause.Some? && mode.Some? &&
    exists t :: IsComparison(t) && t.left == Word(name) && ParseBinary(clause.value) == Some((t, [])) &&
                ToJs(field, t.op, t.right) == Some((mode.value, [StrV(v)]))
  }

  lemma ComparisonReads(name: string, op: Op, literal: Token, value: Tree)
    requires !IsConnective(op)
    requires ReadsLiteral(literal, value)
    ensures ReadsAs(Comparing(name, OperatorTokens(op), [literal]), Node(op, Word(name), value))
    ensures ParseBinary(Comparing(name, OperatorTokens(op), [literal])) == Some((Node(op, Word(name), value), []))
  {
    var ts := Comparing(name, OperatorTokens(op), [literal]);
    forall rest: seq<Token> | Stops(rest)
      ensures ParseBinary(ts + rest) == Some((Node(op, Word(name), value), rest))
    {
      var all := ts + rest;
      var after := OperatorTokens(op) + ([literal] + rest);
      assert all[1..] == after;
      assert ParseTerm(all) == Some((Word(name), after));
      assert after[|OperatorTokens(op)|..] == [literal] + rest;
      assert OperatorAt(after) == Some((op, |OperatorTokens(op)|));
      assert ([literal] + rest)[1..] == rest;
      assert ParseTerm([literal] + rest) == Some((value, rest));
      assert OperatorAt(rest) == None;
      assert BinaryTail(Node(op, Word(name), value), rest) == Some((Node(op, Word(name), value), rest));
    }
    assert ts + [] == ts;
  }

  lemma {:induction false} StripRightPercent(v: string)
    ensures EndsPercent(v) ==> StripRight(v, {'%'}) != v
    ensures !EndsPercent(v) ==> StripRight(v, {'%'}) == v && StripRight(v + "%", {'%'}) == v
    ensures |StripRight(v, {'%'})| <= |v| && !EndsPercent(StripRight(v, {'%'}))
  {
    assert (v + "%")[..|v|] == v;
    if EndsPercent(v) {
      StripRightPercent(v[..|v| - 1]);
    }
  }

  /** The comparison a printed clause stands for. */
  function Printed1(field: Field, v: string, mode: Option<string>): Option<(Op, Tree)> {
    match field
    case TextField =>
      if mode == Some("~") then Some((LikeOp, Word("%" + v + "%")))
      else if mode == Some("^") then Some((LikeOp, Word(v + "%")))
      else if mode == Some("$") then Some((LikeOp, Word("%" + v)))
      else if mode == Some("!~") then Some((NotLikeOp, Word("%" + v + "%")))
      else if mode == Some("") then Some((BinOp("="), Word(Quoting.U(Quoting.Q(v)))))
      else if mode == Some("!") then Some((BinOp("!="), Word(Quoting.U(Quoting.Q(v)))))
      else None
    case EventClassField =>
      Some(if mode == Some("") then (BinOp("="), Word(Quoting.U(Quoting.Q(v))))
           else if mode == Some("^") then (LikeOp, Word(v + "%"))
           else if mode == Some("!^") then (NotLikeOp, Word(v + "%"))
           else (BinOp("!="), Word(Quoting.U(Quoting.Q(v)))))
    case DeviceGroupField =>
      Some((if mode == Some("") then LikeOp else NotLikeOp, Word("%|" + v + "%")))
    case SelectField(options) =>
      WithLiteral(Some(BinOp(if mode == Some("") then "=" else "!=")), Reread(ValueFromLabel(options, v), true))
    case EnumeratedField(options) => WithLiteral(ModeOp(mode), Reread(ValueFromLabel(options, v), false))
    case CompareField => WithLiteral(ModeOp(mode), Reread(StrV(v), false))
  }

  function WithLiteral(op: Option<Op>, value: Option<Val>): Option<(Op, Tree)> {
    if op == None || value == None then None
    else Some((op.value, match value.value case IntV(n) => Num(n) case StrV(s) => Word(s)))
  }

  /** Quoted text with a character other than a quote reads back as it is. */
  lemma QuotedReads(v: string)
    requires exists i :: 0 <= i < |v| && v[i] != Quoting.QUOTE
    ensures Quoting.U(Quoting.Q(v)) == v
  {
    Quoting.UnquoteQuote(v);
  }

  lemma PrintedReads(field: Field, name: string, v: string, mode: Option<string>)
    requires Printed1(field, v, mode).Some?
    ensures BuildClause1(field, name, v, mode).Some?
    ensures var (op, value) := Printed1(field, v, mode).value;
      !IsConnective(op) && !value.Node? &&
      ReadsAs(BuildClause1(field, name, v, mode).value, Node(op, Word(name), value)) &&
      ParseBinary(BuildClause1(field, name, v, mode).value) == Some((Node(op, Word(name), value), []))
  {
    var (op, value) := Printed1(field, v, mode).value;
    PrintedClause(field, name, v, mode);
    ComparisonReads(name, op, LiteralOf(field, v, mode), value);
  }

  /** The token a value is printed as, if it is a literal. */
  function LiteralOf(field: Field, v: string, mode: Option<string>): Token {
    match field
    case SelectField(options) => TokenOf(ValueFromLabel(options, v), true)
    case EnumeratedField(options) => TokenOf(ValueFromLabel(options, v), false)
    case CompareField => Bare(v)
    case _ => StrT(Quoting.Q(PrintedText(field, v, mode)))
  }

  function TokenOf(code: Val, quoted: bool): Token {
    match code
    case IntV(n) => if n >= 0 then NumT(n) else JunkT("-")
    case StrV(s) => if quoted then StrT(Quoting.Q(s)) else Bare(s)
  }

  /** A literal token and the leaf it is read as. */
  predicate ReadsLiteral(literal: Token, value: Tree) {
    (literal.NumT? && value == Num(literal.n)) ||
    (literal.StrT? && literal.raw != "" && value == Word(Quoting.U(literal.raw))) ||
    (literal.VarT? && value == Word(literal.name))
  }

  lemma PrintedClause(field: Field, name: string, v: string, mode: Option<string>)
    requires Printed1(field, v, mode).Some?
    ensures var (op, value) := Printed1(field, v, mode).value;
      !IsConnective(op) && !value.Node? && ReadsLiteral(LiteralOf(field, v, mode), value) &&
      BuildClause1(field, name, v, mode) == Some(Comparing(name, OperatorTokens(op), [LiteralOf(field, v, mode)]))
  {
    match field {
      case SelectField(options) => CodeReads(ValueFromLabel(options, v), true);
      case EnumeratedField(options) => CodeReads(ValueFromLabel(options, v), false);
      case CompareField => CodeReads(StrV(v), false);
      case TextField => TextClause(name, v, mode);
      case EventClassField => EventClassClause(name, v, mode);
      case DeviceGroupField => PatternReads(field, v, mode);
    }
  }

  lemma TextClause(name: string, v: string, mode: Option<string>)
    requires Printed1(TextField, v, mode).Some?
    ensures var (op, value) := Printed1(TextField, v, mode).value;
      !IsConnective(op) && !value.Node? && ReadsLiteral(LiteralOf(TextField, v, mode), value) &&
      BuildClause1(TextField, name, v, mode) ==
        Some(Comparing(name, OperatorTokens(op), [LiteralOf(TextField, v, mode)]))
  {
    PatternReads(TextField, v, mode);
  }

  lemma EventClassClause(name: string, v: string, mode: Option<string>)
    ensures var (op, value) := Printed1(EventClassField, v, mode).value;
      var literal := LiteralOf(EventClassField, v, mode);
      !IsConnective(op) && !value.Node? && ReadsLiteral(literal, value) &&
      BuildClause1(EventClassField, name, v, mode) == Some(Comparing(name, OperatorTokens(op), [literal]))
  {
    PatternReads(EventClassField, v, mode);
  }

  lemma CodeReads(code: Val, quoted: bool)
    requires Reread(code, quoted).Some?
    ensures CodeTokens(code, quoted) == [TokenOf(code, quoted)]
    ensures ReadsLiteral(TokenOf(code, quoted),
      match Reread(code, quoted).value case IntV(n) => Num(n) case StrV(s) => Word(s))
  {
  }

  /** Text that a pattern character was added to reads back as it is. */
  lemma PatternReads(field: Field, v: string, mode: Option<string>)
    ensures PrintedText(field, v, mode) != v ==>
      Quoting.U(Quoting.Q(PrintedText(field, v, mode))) == PrintedText(field, v, mode)
  {
    var text := PrintedText(field, v, mode);
    if text != v {
      assert text[0] == '%' || text[|text| - 1] == '%';
      QuotedReads(text);
    }
  }

  /** The text that a clause quotes. */
  function PrintedText(field: Field, v: string, mode: Option<string>): string {
    if field.DeviceGroupField? then "%|" + v + "%"
    else if mode == Some("~") && field.TextField? then "%" + v + "%"
    else if mode == Some("^") then v + "%"
    else if mode == Some("$") && field.TextField? then "%" + v
    else if mode == Some("!~") && field.TextField? then "%" + v + "%"
    else if mode == Some("!^") then v + "%"
    else v
  }

  lemma NoOperator(name: string, after: seq<Token>)
    requires OperatorAt(after) == None
    ensures ParseBinary([VarT(name)] + after) == Some((Word(name), after))
  {
    assert ([VarT(name)] + after)[1..] == after;
  }

  lemma NoLiteral(name: string, op: Op, literal: seq<Token>)
    requires !IsConnective(op) && literal != [] && literal[0].JunkT?
    ensures ParseBinary(Comparing(name, OperatorTokens(op), literal)) == None
  {
    var after := OperatorTokens(op) + literal;
    assert Comparing(name, OperatorTokens(op), literal)[1..] == after;
    assert OperatorAt(after) == Some((op, |OperatorTokens(op)|));
    assert after[|OperatorTokens(op)|..] == literal;
    assert ParseTerm(literal) == None;
  }

  /** Where the mode prints no operator, or the value no literal, nothing is read back. */
  lemma BareNotPrinted(name: string, mode: Option<string>, literal: seq<Token>)
    requires mode.Some? && literal != [] && OperatorAt(literal) == None
    requires ModeOp(mode) == None || literal[0].JunkT?
    ensures var r := ParseBinary(Comparing(name, ModeTokens(mode), literal));
      r == None || r.value.0 == Word(name)
  {
    if ModeOp(mode) == None {
      var after := ModeTokens(mode) + literal;
      assert Comparing(name, ModeTokens(mode), literal) == [VarT(name)] + after;
      assert ModeTokens(mode) == [] ==> after == literal;
      NoOperator(name, after);
    } else {
      NoLiteral(name, ModeOp(mode).value, literal);
    }
  }

  lemma NotPrinted(field: Field, name: string, v: string, mode: Option<string>)
    requires mode.Some? && Printed1(field, v, mode) == None
    ensures !ReadBack(field, name, mode, v)
  {
    match field {
      case SelectField(options) =>
        NoLiteral(name, BinOp(if mode == Some("") then "=" else "!="), CodeTokens(ValueFromLabel(options, v), true));
      case EnumeratedField(options) => BareNotPrinted(name, mode, CodeTokens(ValueFromLabel(options, v), false));
      case CompareField => BareNotPrinted(name, mode, [Bare(v)]);
      case _ =>
    }
  }

  /** What is printed without quotes is one word, where it is a code. */
  predicate PrintsWord(field: Field, v: string) {
    field.EnumeratedField? && ValueFromLabel(field.options, v).StrV? ==> IsWord(ValueFromLabel(field.options, v).s)
  }

  /**
   * Exactly which non-empty values survive printing and reading, for each field
   * class: text that the pattern characters do not blur, labels whose code is
   * read as a code with that label, names for comparisons of numbers (numbers
   * come back as numbers and not as the submitted text), and no text made of
   * quotes only where it is printed without a pattern character.
   */
  lemma FieldReadsBack(field: Field, name: string, mode: Option<string>, v: string)
    requires v != "" && mode.Some? && PrintsWord(field, v)
    ensures ReadBack(field, name, mode, v) <==> RoundTrips(field, mode, v)
  {
    if Printed1(field, v, mode) == None {
      NotPrinted(field, name, v, mode);
      NotPrintedNoTrip(field, mode.value, v);
    } else {
      PrintedReads(field, name, v, mode);
      PrintedJs(field, mode.value, v);
      var (op, value) := Printed1(field, v, mode).value;
      var t := Node(op, Word(name), value);
      assert ReadBack(field, name, mode, v) <==> ToJs(field, op, value) == Some((mode.value, [StrV(v)]));
    }
  }

  /** A number given to a comparison of numbers comes back as the number. */
  lemma CompareReadsNumbers(name: string, m: string, v: string)
    requires IsWord(v) && DigitsOf(v).Some? && ModeOp(Some(m)).Some?
    ensures var op := ModeOp(Some(m)).value;
      ParseBinary(BuildClause1(CompareField, name, v, Some(m)).value) ==
        Some((Node(op, Word(name), Num(DigitsOf(v).value)), [])) &&
      ToJs(CompareField, op, Num(DigitsOf(v).value)) == Some((m, [IntV(DigitsOf(v).value)])) &&
      !ReadBack(CompareField, name, Some(m), v)
  {
    PrintedReads(CompareField, name, v, Some(m));
  }

  lemma NotPrintedNoTrip(field: Field, m: string, v: string)
    requires Printed1(field, v, Some(m)) == None
    ensures !RoundTrips(field, Some(m), v)
  {
  }

  /** A printed comparison gives its mode and value back exactly when the value survives. */
  lemma PrintedJs(field: Field, m: string, v: string)
    requires v != "" && Printed1(field, v, Some(m)).Some?
    ensures var (op, value) := Printed1(field, v, Some(m)).value;
      !value.Node? && (ToJs(field, op, value) == Some((m, [StrV(v)])) <==> RoundTrips(field, Some(m), v))
  {
    match field {
      case TextField => TextJs(m, v);
      case EventClassField => EventClassJs(m, v);
      case DeviceGroupField => assert AfterBar("%|" + v + "%") == v;
      case _ =>
    }
  }

  lemma TextJs(m: string, v: string)
    requires v != "" && Printed1(TextField, v, Some(m)).Some?
    ensures var (op, value) := Printed1(TextField, v, Some(m)).value;
      ToJs(TextField, op, value) == Some((m, [StrV(v)])) <==> RoundTrips(TextField, Some(m), v)
  {
    if m == "~" || m == "!~" {
      assert Quoting.Inner("%" + v + "%") == v;
    } else if m == "^" {
      PrefixJs(v);
    } else if m == "$" {
      SuffixJs(v);
    } else {
      Quoting.UnquoteQuote(v);
    }
  }

  lemma PrefixJs(v: string)
    requires v != ""
    ensures ToJs(TextField, LikeOp, Word(v + "%")) == Some(("^", [StrV(v)])) <==> !StartsPercent(v)
  {
    assert (v + "%")[..|v|] == v && (v + "%")[0] == v[0];
  }

  lemma SuffixJs(v: string)
    requires v != ""
    ensures ToJs(TextField, LikeOp, Word("%" + v)) == Some(("$", [StrV(v)])) <==> !EndsPercent(v)
  {
    assert ("%" + v)[1..] == v && ("%" + v)[|v|] == v[|v| - 1];
  }

  lemma EventClassJs(m: string, v: string)
    requires v != ""
    ensures var (op, value) := Printed1(EventClassField, v, Some(m)).value;
      ToJs(EventClassField, op, value) == Some((m, [StrV(v)])) <==> RoundTrips(EventClassField, Some(m), v)
  {
    Quoting.UnquoteQuote(v);
    StripRightPercent(v);
    StripRightPercent(v + "%");
    assert (v + "%")[..|v|] == v;
    StripRightPercent(Quoting.U(Quoting.Q(v)));
    if EndsPercent(v) {
      assert v[|v| - 1] != Quoting.QUOTE;
      assert Quoting.U(Quoting.Q(v)) == v;
    }
  }

  // ----- Whole forms -----

  /** Trees read one after the other with one connective. */
  function Fold(op: Op, acc: Tree, ts: seq<Tree>): Tree
    decreases |ts|
  {
    if ts == [] then acc else Fold(op, Node(op, acc, ts[0]), ts[1..])
  }

  function ParseWith(op: Op, acc: Tree, ts: seq<Token>): Parsed {
    if op == AndOp then AndTail(acc, ts) else OrTail(acc, ts)
  }

  lemma {:induction false} TailFolds(op: Op, acc: Tree, clauses: seq<seq<Token>>, trees: seq<Tree>, rest: seq<Token>)
    requires IsConnective(op) && |clauses| == |trees|
    requires forall i :: 0 <= i < |clauses| ==> ReadsAs(clauses[i], trees[i])
    requires rest == [] || rest[0] == CloseT
    ensures ParseWith(op, acc, PrefixClauses(ConnectiveToken(op), clauses) + rest) == Some((Fold(op, acc, trees), rest))
    decreases |clauses|
  {
    var ts := PrefixClauses(ConnectiveToken(op), clauses) + rest;
    if clauses == [] {
      assert ts == rest;
    } else {
      var tail := PrefixClauses(ConnectiveToken(op), clauses[1..]) + rest;
      assert ts[1..] == clauses[0] + tail;
      assert Stops(tail);
      assert ReadsAs(clauses[0], trees[0]);
      assert ParseBinary(clauses[0] + tail) == Some((trees[0], tail));
      if op == AndOp {
        assert OrTail(trees[0], tail) == Some((trees[0], tail));
        assert ParseOr(clauses[0] + tail) == Some((trees[0], tail));
      }
      assert ParseWith(op, acc, ts) == ParseWith(op, Node(op, acc, trees[0]), tail);
      TailFolds(op, Node(op, acc, trees[0]), clauses[1..], trees[1..], rest);
    }
  }

  lemma JoinedReads(op: Op, clauses: seq<seq<Token>>, trees: seq<Tree>, rest: seq<Token>)
    requires IsConnective(op) && |clauses| == |trees| > 0
    requires forall i :: 0 <= i < |clauses| ==> ReadsAs(clauses[i], trees[i])
    requires rest == [] || rest[0] == CloseT
    ensures ParseAnd(JoinClauses(ConnectiveToken(op), clauses) + rest)
         == Some((Fold(op, trees[0], trees[1..]), rest))
  {
    var tail := PrefixClauses(ConnectiveToken(op), clauses[1..]) + rest;
    var ts := JoinClauses(ConnectiveToken(op), clauses) + rest;
    var whole := Fold(op, trees[0], trees[1..]);
    assert ts == clauses[0] + tail;
    assert Stops(tail);
    assert ReadsAs(clauses[0], trees[0]);
    assert ParseBinary(clauses[0] + tail) == Some((trees[0], tail));
    TailFolds(op, trees[0], clauses[1..], trees[1..], rest);
    if op == AndOp {
      assert OrTail(trees[0], tail) == Some((trees[0], tail));
      assert ParseOr(ts) == Some((trees[0], tail));
    } else {
      assert ParseOr(ts) == Some((whole, rest));
      assert AndTail(whole, rest) == Some((whole, rest));
    }
  }

  /** A parenthesised clause reads as one operand. */
  lemma ParenthesesRead(op: Op, clauses: seq<seq<Token>>, trees: seq<Tree>)
    requires IsConnective(op) && |clauses| == |trees| > 0
    requires forall i :: 0 <= i < |clauses| ==> ReadsAs(clauses[i], trees[i])
    ensures ReadsAs([OpenT] + JoinClauses(ConnectiveToken(op), clauses) + [CloseT], Fold(op, trees[0], trees[1..]))
  {
    var body := JoinClauses(ConnectiveToken(op), clauses);
    var whole := Fold(op, trees[0], trees[1..]);
    forall rest: seq<Token> | Stops(rest)
      ensures ParseBinary(([OpenT] + body + [CloseT]) + rest) == Some((whole, rest))
    {
      var ts := ([OpenT] + body + [CloseT]) + rest;
      var close := [CloseT] + rest;
      assert ts[1..] == body + close;
      JoinedReads(op, clauses, trees, close);
      assert close[1..] == rest;
      assert ParseTerm(ts) == Some((whole, rest));
      assert BinaryTail(whole, rest) == Some((whole, rest));
    }
  }

  /** The triples of one field: each of its values with its mode. */
  function FieldTriples(name: string, mode: Option<string>, values: seq<string>): seq<Triple> {
    if values == [] then [] else [Triple(name, mode, [StrV(values[0])])] + FieldTriples(name, mode, values[1..])
  }

  /** The fields that are submitted with values, none of them empty. */
  predicate IsFilled(form: Form, name: string) {
    name in form.values && form.values[name] != [] && "" !in form.values[name]
  }

  function FormTriples(meta: Meta, form: Form): seq<Triple> {
    if meta == [] then []
    else
      var name := meta[|meta| - 1].0;
      FormTriples(meta[..|meta| - 1], form) +
      if IsFilled(form, name) then FieldTriples(name, ModeOf(form, name), form.values[name]) else []
  }

  ghost predicate DistinctNames(meta: Meta) {
    forall i, j :: 0 <= i < j < |meta| ==> Lower(meta[i].0) != Lower(meta[j].0)
  }

  /** Every submitted value is one that survives, in a form over these columns. */
  ghost predicate FormRoundTrips(meta: Meta, form: Form) {
    forall i :: 0 <= i < |meta| && IsFilled(form, meta[i].0) ==>
      forall v :: v in form.values[meta[i].0] ==> RoundTrips(meta[i].1, ModeOf(form, meta[i].0), v)
  }

  lemma {:induction false} LookupSelf(meta: Meta, i: nat)
    requires i < |meta| && DistinctNames(meta)
    ensures Lookup(meta, Lower(meta[i].0)) == Some(meta[i])
  {
    var n := |meta| - 1;
    if i < n {
      assert Lower(meta[i].0) != Lower(meta[n].0);
      LookupSelf(meta[..n], i);
    }
  }

  ghost predicate LeafGives(meta: Meta, t: Tree, triples: seq<Triple>) {
    IsCondition(t) && ReadTriples(meta, t) == Some(triples)
  }

  lemma {:induction false} FoldGives(meta: Meta, op: Op, acc: Tree, before: seq<Triple>, trees: seq<Tree>,
                                     groups: seq<seq<Triple>>)
    requires IsConnective(op) && |trees| == |groups|
    requires LeafGives(meta, acc, before)
    requires forall i :: 0 <= i < |trees| ==> LeafGives(meta, trees[i], groups[i])
    ensures LeafGives(meta, Fold(op, acc, trees), before + Concat(groups))
    decreases |trees|
  {
    if trees == [] {
      assert before + Concat(groups) == before;
    } else {
      assert LeafGives(meta, trees[0], groups[0]);
      FoldGives(meta, op, Node(op, acc, trees[0]), before + groups[0], trees[1..], groups[1..]);
      assert before + groups[0] + Concat(groups[1..]) == before + Concat(groups);
    }
  }

  function Concat(groups: seq<seq<Triple>>): seq<Triple> {
    if groups == [] then [] else groups[0] + Concat(groups[1..])
  }

  /** The comparisons the values of one field are printed as. */
  lemma {:induction false} FieldClauses(meta: Meta, k: nat, mode: Option<string>, values: seq<string>)
    returns (trees: seq<Tree>, groups: seq<seq<Triple>>)
    requires k < |meta| && DistinctNames(meta)
    requires forall v :: v in values ==> v != "" && RoundTrips(meta[k].1, mode, v)
    ensures Clauses(meta[k].1, meta[k].0, values, mode).Some?
    ensures |Clauses(meta[k].1, meta[k].0, values, mode).value| == |trees| == |groups| == |values|
    ensures forall i :: 0 <= i < |trees| ==>
      ReadsAs(Clauses(meta[k].1, meta[k].0, values, mode).value[i], trees[i]) && LeafGives(meta, trees[i], groups[i])
    ensures Concat(groups) == FieldTriples(meta[k].0, mode, values)
  {
    if values == [] {
      trees, groups := [], [];
    } else {
      var v := values[0];
      assert v in values && forall u :: u in values[1..] ==> u in values;
      var trees', groups' := FieldClauses(meta, k, mode, values[1..]);
      var t := OneClause(meta, k, mode, v);
      trees, groups := [t] + trees', [[Triple(meta[k].0, mode, [StrV(v)])]] + groups';
      assert groups[1..] == groups';
    }
  }

  /** The comparison one value is printed as. */
  lemma OneClause(meta: Meta, k: nat, mode: Option<string>, v: string) returns (t: Tree)
    requires k < |meta| && DistinctNames(meta) && v != "" && RoundTrips(meta[k].1, mode, v)
    ensures var clause := BuildClause1(meta[k].1, meta[k].0, v, mode);
      clause.Some? && ReadsAs(clause.value, t) && LeafGives(meta, t, [Triple(meta[k].0, mode, [StrV(v)])])
  {
    var (name, field) := meta[k];
    FieldReadsBack(field, name, mode, v);
    if Printed1(field, v, mode) == None { NotPrinted(field, name, v, mode); }
    PrintedReads(field, name, v, mode);
    var (op, value) := Printed1(field, v, mode).value;
    t := Node(op, Word(name), value);
    LookupSelf(meta, k);
    assert ToJs(field, op, value) == Some((mode.value, [StrV(v)]));
  }

  /** The parenthesised clause of a field that is filled in. */
  function FieldClause(form: Form, name: string, field: Field): seq<Token>
    requires name in form.values && Clauses(field, name, form.values[name], ModeOf(form, name)).Some?
  {
    var mode := ModeOf(form, name);
    [OpenT] + JoinClauses(ConnectiveToken(ConnectiveFor(mode)), Clauses(field, name, form.values[name], mode).value) +
    [CloseT]
  }

  /** The clause of a field that is filled in: its tree, and the triples it gives. */
  lemma FieldClauseReads(meta: Meta, k: nat, form: Form) returns (tree: Tree, group: seq<Triple>)
    requires k < |meta| && DistinctNames(meta) && FormRoundTrips(meta, form) && IsFilled(form, meta[k].0)
    ensures var (name, field) := meta[k];
      var mode, values := ModeOf(form, name), form.values[name];
      Clauses(field, name, values, mode).Some? && ReadsAs(FieldClause(form, name, field), tree) &&
      LeafGives(meta, tree, group) && group == FieldTriples(name, mode, values)
  {
    var (name, field) := meta[k];
    var mode, values := ModeOf(form, name), form.values[name];
    var ts, gs := FieldClauses(meta, k, mode, values);
    var op := ConnectiveFor(mode);
    ParenthesesRead(op, Clauses(field, name, values, mode).value, ts);
    FoldGives(meta, op, ts[0], gs[0], ts[1..], gs[1..]);
    tree, group := Fold(op, ts[0], ts[1..]), Concat(gs);
  }

  ghost predicate AllRead(meta: Meta, clauses: seq<seq<Token>>, trees: seq<Tree>, groups: seq<seq<Triple>>) {
    |clauses| == |trees| == |groups| &&
    forall i :: 0 <= i < |trees| ==> ReadsAs(clauses[i], trees[i]) && LeafGives(meta, trees[i], groups[i])
  }

  lemma OneMoreRead(
    meta: Meta, clauses: seq<seq<Token>>, trees: seq<Tree>, groups: seq<seq<Triple>>,
    clause: seq<Token>, tree: Tree, group: seq<Triple>)
    requires AllRead(meta, clauses, trees, groups) && ReadsAs(clause, tree) && LeafGives(meta, tree, group)
    ensures AllRead(meta, clauses + [clause], trees + [tree], groups + [group])
  {
  }

  lemma FormClausesEnd(meta: Meta, k: nat, form: Form)
    requires k < |meta| && FormClauses(meta[..k], form).Ok?
    requires var (name, field) := meta[k];
      IsFilled(form, name) ==> Clauses(field, name, form.values[name], ModeOf(form, name)).Some?
    ensures var (name, field) := meta[k];
      var before := FormClauses(meta[..k], form).value;
      FormClauses(meta[..k + 1], form) ==
        Ok(before + if IsFilled(form, name) then [FieldClause(form, name, field)] else [])
    ensures var name := meta[k].0;
      FormTriples(meta[..k + 1], form) == FormTriples(meta[..k], form) +
        if IsFilled(form, name) then FieldTriples(name, ModeOf(form, name), form.values[name]) else []
  {
    assert meta[..k + 1][..k] == meta[..k];
    if !IsFilled(form, meta[k].0) { AddNothing(FormClauses(meta[..k], form).value); }
  }

  lemma {:induction false} FormClausesRead(meta: Meta, n: nat, form: Form)
    returns (trees: seq<Tree>, groups: seq<seq<Triple>>)
    requires n <= |meta| && DistinctNames(meta) && FormRoundTrips(meta, form)
    ensures FormClauses(meta[..n], form).Ok? && AllRead(meta, FormClauses(meta[..n], form).value, trees, groups)
    ensures Concat(groups) == FormTriples(meta[..n], form)
  {
    if n == 0 {
      trees, groups := [], [];
    } else {
      var k := n - 1;
      trees, groups := FormClausesRead(meta, k, form);
      if IsFilled(form, meta[k].0) {
        var tree, group := FieldClauseReads(meta, k, form);
        var (name, field) := meta[k];
        OneMoreRead(meta, FormClauses(meta[..k], form).value, trees, groups,
          FieldClause(form, name, field), tree, group);
        ConcatEnd(groups, group);
        trees, groups := trees + [tree], groups + [group];
      }
      FormClausesEnd(meta, k, form);
      if !IsFilled(form, meta[k].0) { AddNothing(FormTriples(meta[..k], form)); }
    }
  }

  lemma {:induction false} ConcatEnd(groups: seq<seq<Triple>>, last: seq<Triple>)
    ensures Concat(groups + [last]) == Concat(groups) + last
  {
    if groups == [] {
      assert groups + [last] == [last];
      assert Concat([last][1..]) == [];
    } else {
      assert (groups + [last])[1..] == groups[1..] + [last];
      ConcatEnd(groups[1..], last);
    }
  }

  /**
   * A form printed as a where clause parses, and reading the clause gives back
   * exactly the form's names, modes and values, in the order they were printed.
   */
  lemma FormRoundTrip(meta: Meta, form: Form)
    requires DistinctNames(meta) && FormRoundTrips(meta, form)
    ensures FromForm(meta, form).Ok?
    ensures ParseGoal(FromForm(meta, form).value).Some?
    ensures var parsed := ParseGoal(FromForm(meta, form).value).value;
      if parsed == None then FormTriples(meta, form) == []
      else IsCondition(parsed.value) && ReadTriples(meta, parsed.value) == Some(FormTriples(meta, form))
  {
    var trees, groups := FormClausesRead(meta, |meta|, form);
    assert meta[..|meta|] == meta;
    if trees != [] {
      var clauses := FormClauses(meta, form).value;
      JoinedReads(AndOp, clauses, trees, []);
      var ts := JoinClauses(AndT, clauses);
      assert ts + [] == ts;
      FoldGives(meta, AndOp, trees[0], groups[0], trees[1..], groups[1..]);
    }
  }
}
