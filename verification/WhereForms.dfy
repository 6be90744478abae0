/**
 * The event filter form: its fields are printed as a where clause, and a where
 * clause is read back as (name, mode, value) triples.
 */
module WhereForms {
  import opened Wrappers
  import opened Text
  import opened WhereGrammar
  import opened PythonRule
  import opened WhereCompiler
  import Quoting

  /** The submitted values of each field and, under the same name, its mode. */
  datatype Form = Form(values: map<string, seq<string>>, modes: map<string, string>)

  datatype Triple = Triple(name: string, mode: Option<string>, values: seq<Val>)

  /** Joining a list with a clause that was never built. */
  datatype FormError = TypeError

  const NEGATIVE_MODES := {"!", "!~", "!^"}

  // ----- Options of selections -----

  type Options = seq<(Val, string)>

  /** The last label given to a code, else `Unknown`. */
  function LabelFromValue(options: Options, code: Val): string {
    if options == [] then "Unknown"
    else
      var last := options[|options| - 1];
      if last.0 == code then last.1 else LabelFromValue(options[..|options| - 1], code)
  }

  /** The last code with a label, else -1. */
  function ValueFromLabel(options: Options, text: string): Val {
    if options == [] then IntV(-1)
    else
      var last := options[|options| - 1];
      if last.1 == text then last.0 else ValueFromLabel(options[..|options| - 1], text)
  }

  ghost predicate DistinctCodes(options: Options) {
    forall i, j :: 0 <= i < j < |options| ==> options[i].0 != options[j].0
  }

  ghost predicate IsLabel(options: Options, text: string) {
    exists i :: 0 <= i < |options| && options[i].1 == text
  }

  lemma {:induction false} LabelReadsBack(options: Options, text: string)
    requires DistinctCodes(options) && IsLabel(options, text)
    ensures LabelFromValue(options, ValueFromLabel(options, text)) == text
    ensures exists i :: 0 <= i < |options| && options[i].0 == ValueFromLabel(options, text)
  {
    var n := |options| - 1;
    if options[n].1 != text {
      var i :| 0 <= i < |options| && options[i].1 == text;
      assert options[..n][i].1 == text;
      LabelReadsBack(options[..n], text);
      var k :| 0 <= k < n && options[..n][k].0 == ValueFromLabel(options[..n], text);
      assert options[k].0 != options[n].0;
    }
  }

  /** A label that is not among the options prints as -1, which does not read as a number. */
  lemma {:induction false} UnknownLabel(options: Options, text: string)
    requires !IsLabel(options, text)
    ensures ValueFromLabel(options, text) == IntV(-1)
  {
    if options != [] {
      var n := |options| - 1;
      assert options[n].1 != text;
      assert forall i :: 0 <= i < n ==> options[..n][i] == options[i];
      UnknownLabel(options[..n], text);
    }
  }

  // ----- Printing -----

  function Comparing(name: string, operator: seq<Token>, literal: seq<Token>): seq<Token> {
    [VarT(name)] + operator + literal
  }

  function Quoted(v: string): seq<Token> {
    [StrT(Quoting.Q(v))]
  }

  /** A number as printed: the grammar has no token for a minus sign. */
  function Number(n: int): seq<Token> {
    if n >= 0 then [NumT(n)] else [JunkT("-"), NumT(-n)]
  }

  predicate IsWord(s: string) {
    s != "" && forall i :: 0 <= i < |s| ==>
      'a' <= s[i] <= 'z' || 'A' <= s[i] <= 'Z' || '0' <= s[i] <= '9' || s[i] == '_'
  }

  /** The grammar's names are the non-empty texts of letters, digits and underscores. */
  lemma WordChars(s: string)
    ensures IsWord(s) <==> s != "" && forall i :: 0 <= i < |s| ==>
      s[i] in UPPER || s[i] in LOWER || s[i] in DIGITS || s[i] == '_'
  {
    forall i | 0 <= i < |s|
      ensures s[i] in UPPER || s[i] in LOWER || s[i] in DIGITS <==>
        'A' <= s[i] <= 'Z' || 'a' <= s[i] <= 'z' || '0' <= s[i] <= '9'
    {
      InUpper(s[i]);
      InLower(s[i]);
      InDigits(s[i]);
    }
  }

  /** A text printed without quotes: a number, a name, or something that no one token matches. */
  function Bare(s: string): Token {
    if !IsWord(s) then JunkT(s)
    else
      match DigitsOf(s)
      case Some(n) => NumT(n)
      case None => VarT(s)
  }

  function CodeTokens(code: Val, quoted: bool): seq<Token> {
    match code
    case IntV(n) => Number(n)
    case StrV(s) => if quoted then Quoted(s) else [Bare(s)]
  }

  /** The operator that a mode stands for where it is printed as it is. */
  function ModeOp(mode: Option<string>): Option<Op> {
    match mode
    case None => None
    case Some(m) =>
      if m in BIN_SYMBOLS then Some(BinOp(m))
      else if m == "like" then Some(LikeOp)
      else if m == "not like" then Some(NotLikeOp)
      else None
  }

  function ModeTokens(mode: Option<string>): seq<Token> {
    match mode
    case None => [VarT("None")]
    case Some(m) =>
      if ModeOp(mode).Some? then OperatorTokens(ModeOp(mode).value) else if m == "" then [] else [JunkT(m)]
  }

  function OperatorTokens(op: Op): seq<Token>
    requires !IsConnective(op)
  {
    match op
    case LikeOp => [LikeT]
    case NotLikeOp => [NotT, LikeT]
    case BinOp(sym) => [BinT(sym)]
  }

  /** `buildClause1` of every field class; nothing for a mode `Text` does not know. */
  function BuildClause1(field: Field, name: string, v: string, mode: Option<string>): Option<seq<Token>> {
    match field
    case TextField =>
      if mode == Some("~") then Some(Comparing(name, [LikeT], Quoted("%" + v + "%")))
      else if mode == Some("^") then Some(Comparing(name, [LikeT], Quoted(v + "%")))
      else if mode == Some("$") then Some(Comparing(name, [LikeT], Quoted("%" + v)))
      else if mode == Some("!~") then Some(Comparing(name, [NotT, LikeT], Quoted("%" + v + "%")))
      else if mode == Some("") then Some(Comparing(name, [BinT("=")], Quoted(v)))
      else if mode == Some("!") then Some(Comparing(name, [BinT("!=")], Quoted(v)))
      else None
    case EventClassField =>
      Some(if mode == Some("") then Comparing(name, [BinT("=")], Quoted(v))
           else if mode == Some("^") then Comparing(name, [LikeT], Quoted(v + "%"))
           else if mode == Some("!^") then Comparing(name, [NotT, LikeT], Quoted(v + "%"))
           else Comparing(name, [BinT("!=")], Quoted(v)))
    case DeviceGroupField =>
      Some(if mode == Some("") then Comparing(name, [LikeT], Quoted("%|" + v + "%"))
           else Comparing(name, [NotT, LikeT], Quoted("%|" + v + "%")))
    case SelectField(options) =>
      Some(Comparing(name, [BinT(if mode == Some("") then "=" else "!=")],
                     CodeTokens(ValueFromLabel(options, v), true)))
    case EnumeratedField(options) =>
      Some(Comparing(name, ModeTokens(mode), CodeTokens(ValueFromLabel(options, v), false)))
    case CompareField =>
      Some(Comparing(name, ModeTokens(mode), [Bare(v)]))
  }

  function PrefixClauses(sep: Token, clauses: seq<seq<Token>>): seq<Token> {
    if clauses == [] then [] else [sep] + clauses[0] + PrefixClauses(sep, clauses[1..])
  }

  function JoinClauses(sep: Token, clauses: seq<seq<Token>>): seq<Token> {
    if clauses == [] then [] else clauses[0] + PrefixClauses(sep, clauses[1..])
  }

  function ConnectiveFor(mode: Option<string>): Op {
    if mode.Some? && mode.value in NEGATIVE_MODES then AndOp else OrOp
  }

  function ConnectiveToken(op: Op): Token {
    if op == AndOp then AndT else OrT
  }

  function Clauses(field: Field, name: string, values: seq<string>, mode: Option<string>): Option<seq<seq<Token>>> {
    if values == [] then Some([])
    else
      var first := BuildClause1(field, name, values[0], mode);
      var rest := Clauses(field, name, values[1..], mode);
      if first == None || rest == None then None else Some([first.value] + rest.value)
  }

  /** `buildClause`: no clause when there is no value or one of them is empty. */
  function BuildClause(field: Field, name: string, values: seq<string>, mode: Option<string>):
    Result<Option<seq<Token>>, FormError>
  {
    if values == [] || "" in values then Ok(None)
    else
      match Clauses(field, name, values, mode)
      case None => Err(TypeError)
      case Some(clauses) => Ok(Some(JoinClauses(ConnectiveToken(ConnectiveFor(mode)), clauses)))
  }

  function ModeOf(form: Form, name: string): Option<string> {
    if name in form.modes then Some(form.modes[name]) else None
  }

  /** The parenthesised clauses of the fields, in the order of the columns. */
  function FormClauses(meta: Meta, form: Form): Result<seq<seq<Token>>, FormError> {
    if meta == [] then Ok([])
    else
      var (name, field) := meta[|meta| - 1];
      match FormClauses(meta[..|meta| - 1], form)
      case Err(e) => Err(e)
      case Ok(before) =>
        if name !in form.values then Ok(before)
        else
          match BuildClause(field, name, form.values[name], ModeOf(form, name))
          case Err(e) => Err(e)
          case Ok(None) => Ok(before)
          case Ok(Some(clause)) => Ok(before + [[OpenT] + clause + [CloseT]])
  }

  function FromForm(meta: Meta, form: Form): Result<seq<Token>, FormError> {
    match FormClauses(meta, form)
    case Err(e) => Err(e)
    case Ok(clauses) => Ok(JoinClauses(AndT, clauses))
  }

  lemma {:induction false} FailureStays(meta: Meta, n: nat, form: Form)
    requires n <= |meta| && FormClauses(meta[..n], form).Err?
    ensures FormClauses(meta, form) == Err(TypeError)
    decreases |meta|
  {
    if n == |meta| {
      assert meta[..n] == meta;
      assert FormClauses(meta, form).error.TypeError?;
    } else {
      assert meta[..|meta| - 1][..n] == meta[..n];
      FailureStays(meta[..|meta| - 1], n, form);
    }
  }

  method FromFormVariables(meta: Meta, form: Form) returns (r: Result<seq<Token>, FormError>)
    ensures r == FromForm(meta, form)
  {
    var result: seq<seq<Token>> := [];
    for i := 0 to |meta|
      invariant FormClauses(meta[..i], form) == Ok(result)
    {
      assert meta[..i + 1][..i] == meta[..i];
      var (name, field) := meta[i];
      if name in form.values {
        var clause := BuildClause(field, name, form.values[name], ModeOf(form, name));
        if clause.Err? {
          FailureStays(meta, i + 1, form);
          return Err(TypeError);
        }
        if clause.value.Some? {
          result := result + [[OpenT] + clause.value.value + [CloseT]];
        }
      }
    }
    assert meta[..|meta|] == meta;
    return Ok(JoinClauses(AndT, result));
  }

  // ----- Reading -----

  /** The labels of the options for which a comparison of numbers holds; a text on either side raises TypeError. */
  function Labels(options: Options, sym: string, value: Tree): Option<seq<Val>>
    requires !value.Node?
  {
    if options == [] then Some([])
    else if options[0].0.StrV? || value.Word? then None
    else
      match Labels(options[1..], sym, value)
      case None => None
      case Some(labels) =>
        Some((if IntsCompare(options[0].0.n, sym, value.n) then [StrV(options[0].1)] else []) + labels)
  }

  function LabelVal(options: Options, value: Tree): Val
    requires !value.Node?
  {
    StrV(LabelFromValue(options, LiteralVal(value)))
  }

  function OpText(op: Op): string {
    match op
    case LikeOp => "like"
    case NotLikeOp => "not like"
    case BinOp(sym) => sym
    case AndOp => "and"
    case OrOp => "or"
  }

  /** Python's `s[2:-1]`. */
  function AfterBar(s: string): string {
    if |s| >= 3 then s[2..|s| - 1] else ""
  }

  /** The slice leaves out the first two characters and the last one, as far as there are any. */
  lemma AfterBarIs(s: string)
    ensures |AfterBar(s)| == if |s| < 3 then 0 else |s| - 3
    ensures forall i :: 0 <= i < |AfterBar(s)| ==> AfterBar(s)[i] == s[i + 2]
  {
  }

  /** An ordered comparison of a selection reads as the labels of exactly the codes for which it holds, in order. */
  lemma {:induction false} LabelsAre(options: Options, sym: string, n: int)
    requires sym in {"<", ">", "<=", ">="} && forall i :: 0 <= i < |options| ==> options[i].0.IntV?
    ensures ToJs(SelectField(options), BinOp(sym), Num(n)) == Some(("", LabelVals(Chosen(options, sym, n))))
  {
    if options != [] {
      LabelsAre(options[1..], sym, n);
      var rest := Chosen(options[1..], sym, n);
      assert LabelVals([options[0]] + rest) == [StrV(options[0].1)] + LabelVals(rest);
      assert [] + rest == rest && [] + LabelVals(rest) == LabelVals(rest);
    }
  }

  function LabelVals(options: Options): (labels: seq<Val>)
    ensures |labels| == |options| && forall i :: 0 <= i < |options| ==> labels[i] == StrV(options[i].1)
  {
    seq(|options|, i requires 0 <= i < |options| => StrV(options[i].1))
  }

  /** The options whose codes are less, or greater, than the number, or equal to it where that is asked for. */
  function Chosen(options: Options, sym: string, n: int): Options
    requires forall i :: 0 <= i < |options| ==> options[i].0.IntV?
  {
    if options == [] then []
    else
      var code := options[0].0.n;
      var holds := if sym == "<" then code < n else if sym == "<=" then code <= n
                   else if sym == ">" then code > n else code >= n;
      (if holds then [options[0]] else []) + Chosen(options[1..], sym, n)
  }

  /** `toJS` of every field class; nothing where the source raises or returns None. */
  function ToJs(field: Field, op: Op, value: Tree): Option<(string, seq<Val>)>
    requires !value.Node?
  {
    match field
    case TextField =>
      (match op
       case LikeOp =>
         if value.Num? then None
         else if StartsPercent(value.s) && !EndsPercent(value.s) then Some(("$", [StrV(value.s[1..])]))
         else if !StartsPercent(value.s) && EndsPercent(value.s) then Some(("^", [StrV(value.s[..|value.s| - 1])]))
         else if StartsPercent(value.s) && EndsPercent(value.s) then Some(("~", [StrV(Quoting.Inner(value.s))]))
         else None
       case NotLikeOp => if value.Num? then None else Some(("!~", [StrV(Quoting.Inner(value.s))]))
       case _ =>
         if op == BinOp("=") then Some(("", [LiteralVal(value)]))
         else if op == BinOp("!=") then Some(("!", [LiteralVal(value)]))
         else None)
    case EventClassField =>
      if value.Num? then None
      else
        var v := [StrV(StripRight(value.s, {'%'}))];
        if op == BinOp("=") then Some(("", v))
        else if op == BinOp("!=") then Some(("!", v))
        else if op == LikeOp then Some(("^", v))
        else if op == NotLikeOp then Some(("!^", v))
        else None
    case DeviceGroupField =>
      if value.Num? then None
      else if op == LikeOp then Some(("", [StrV(AfterBar(value.s))]))
      else if op == NotLikeOp then Some(("!", [StrV(AfterBar(value.s))]))
      else None
    case SelectField(options) =>
      if op == BinOp("=") then Some(("", [LabelVal(options, value)]))
      else if op == BinOp("!=") then Some(("!", [LabelVal(options, value)]))
      else if op.BinOp? && op.sym in {"<", ">", "<=", ">="} then
        match Labels(options, op.sym, value)
        case None => None
        case Some(labels) => Some(("", labels))
      else Some(("", []))
    case EnumeratedField(options) => Some((OpText(op), [LabelVal(options, value)]))
    case CompareField => Some((OpText(op), [LiteralVal(value)]))
  }

  function ReadLeaf(meta: Meta, c: Tree): Option<seq<Triple>>
    requires IsComparison(c)
  {
    match Lookup(meta, Lower(c.left.s))
    case None => Some([])
    case Some((name, field)) =>
      match ToJs(field, c.op, c.right)
      case None => None
      case Some((mode, values)) => Some([Triple(name, Some(mode), values)])
  }

  /** `toJavaScript` before its result is sorted. */
  function ReadTriples(meta: Meta, t: Tree): Option<seq<Triple>>
    requires IsCondition(t)
  {
    if IsComparison(t) then ReadLeaf(meta, t)
    else
      var a := ReadTriples(meta, t.left);
      var b := ReadTriples(meta, t.right);
      if a == None || b == None then None else Some(a.value + b.value)
  }

  method ReadOnto(meta: Meta, t: Tree, result: seq<Triple>) returns (r: Option<seq<Triple>>)
    requires IsCondition(t)
    ensures r == match ReadTriples(meta, t) case None => None case Some(more) => Some(result + more)
  {
    if IsComparison(t) {
      var column := Lookup(meta, Lower(t.left.s));
      if column == None { return Some(result + []); }
      var (name, field) := column.value;
      var js := ToJs(field, t.op, t.right);
      if js == None { return None; }
      return Some(result + [Triple(name, Some(js.value.0), js.value.1)]);
    } else {
      var first := ReadOnto(meta, t.left, result);
      if first == None { return None; }
      r := ReadOnto(meta, t.right, first.value);
      if r != None {
        var a, b := ReadTriples(meta, t.left).value, ReadTriples(meta, t.right).value;
        assert (result + a) + b == result + (a + b);
      }
    }
  }
}
