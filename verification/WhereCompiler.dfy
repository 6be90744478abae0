/**
 * Compiles a parsed where clause to a Python rule: adjacent `and`s and `or`s are
 * collapsed into groups, every group is parenthesised, and every comparison
 * becomes a Python statement over the event. In Python `and` binds tighter than
 * `or`, the other way round from the where-clause grammar.
 */
module WhereCompiler {
  import opened Wrappers
  import opened Sequences
  import opened Text
  import opened WhereGrammar
  import opened LikePatterns
  import opened PythonRule
  import Quoting

  // ----- Collapsing -----

  datatype Flat = Single(c: Tree) | Group(op: Op, kids: seq<Flat>)

  /** What `_collapse` appends to its stack for one term under operator `cur`. */
  function Collapsed(t: Tree, cur: Option<Op>): (out: seq<Flat>)
    requires IsCondition(t)
    ensures out != []
    ensures cur == None ==> |out| == 1
  {
    if IsComparison(t) then [Single(t)]
    else if cur == Some(t.op) then Collapsed(t.left, cur) + Collapsed(t.right, cur)
    else [Group(t.op, Collapsed(t.left, Some(t.op)) + Collapsed(t.right, Some(t.op)))]
  }

  method CollapseOnto(t: Tree, cur: Option<Op>, stack: seq<Flat>) returns (stack': seq<Flat>)
    requires IsCondition(t)
    ensures stack' == stack + Collapsed(t, cur)
  {
    if IsComparison(t) {
      stack' := stack + [Single(t)];
    } else if cur == Some(t.op) {
      stack' := CollapseOnto(t.left, cur, stack);
      stack' := CollapseOnto(t.right, cur, stack');
    } else {
      var s1 := CollapseOnto(t.left, Some(t.op), []);
      var s2 := CollapseOnto(t.right, Some(t.op), []);
      assert [] + Collapsed(t.left, Some(t.op)) == Collapsed(t.left, Some(t.op));
      assert [] + Collapsed(t.right, Some(t.op)) == Collapsed(t.right, Some(t.op));
      stack' := stack + [Group(t.op, s1 + s2)];
    }
  }

  function Collapse(t: Tree): Flat
    requires IsCondition(t)
  {
    Collapsed(t, None)[0]
  }

  predicate IsFlat(f: Flat) {
    match f
    case Single(c) => IsComparison(c)
    case Group(op, kids) => IsConnective(op) && forall i :: 0 <= i < |kids| ==> IsFlat(kids[i])
  }

  /** No group holds a group of its own operator, and none holds fewer than two. */
  predicate Alternates(f: Flat) {
    f.Single? ||
    (|f.kids| >= 2 &&
     forall i :: 0 <= i < |f.kids| ==> Alternates(f.kids[i]) && (f.kids[i].Group? ==> f.kids[i].op != f.op))
  }

  function FlatLeaves(f: Flat): seq<Tree> {
    match f
    case Single(c) => [c]
    case Group(_, kids) => AllLeaves(kids)
  }

  function AllLeaves(fs: seq<Flat>): seq<Tree> {
    if fs == [] then [] else FlatLeaves(fs[0]) + AllLeaves(fs[1..])
  }

  ghost predicate FlatMeaning(f: Flat, truth: Tree -> bool) {
    match f
    case Single(c) => truth(c)
    case Group(op, kids) =>
      if op == AndOp then forall i :: 0 <= i < |kids| ==> FlatMeaning(kids[i], truth)
      else exists i :: 0 <= i < |kids| && FlatMeaning(kids[i], truth)
  }

  lemma {:induction false} AllLeavesConcat(a: seq<Flat>, b: seq<Flat>)
    ensures AllLeaves(a + b) == AllLeaves(a) + AllLeaves(b)
  {
    if a == [] {
      assert a + b == b;
    } else {
      assert (a + b)[1..] == a[1..] + b;
      AllLeavesConcat(a[1..], b);
    }
  }

  /** A flat tree that may stand under the given operator. */
  predicate FitsUnder(f: Flat, cur: Option<Op>) {
    IsFlat(f) && Alternates(f) && (f.Group? ==> cur != Some(f.op))
  }

  lemma {:induction false} CollapsedShape(t: Tree, cur: Option<Op>)
    requires IsCondition(t)
    ensures AllFit(Collapsed(t, cur), cur)
    ensures AllLeaves(Collapsed(t, cur)) == Leaves(t)
  {
    if !IsComparison(t) {
      var inner := if cur == Some(t.op) then cur else Some(t.op);
      CollapsedShape(t.left, inner);
      CollapsedShape(t.right, inner);
      AllLeavesConcat(Collapsed(t.left, inner), Collapsed(t.right, inner));
      var kids := Collapsed(t.left, inner) + Collapsed(t.right, inner);
      assert AllFit(kids, inner);
      if cur != Some(t.op) { GroupFits(t.op, kids, cur); }
    }
  }

  predicate AllFit(fs: seq<Flat>, cur: Option<Op>) {
    forall i :: 0 <= i < |fs| ==> FitsUnder(fs[i], cur)
  }

  lemma GroupFits(op: Op, kids: seq<Flat>, cur: Option<Op>)
    requires IsConnective(op) && |kids| >= 2 && AllFit(kids, Some(op)) && cur != Some(op)
    ensures FitsUnder(Group(op, kids), cur)
  {
    forall i | 0 <= i < |kids|
      ensures IsFlat(kids[i]) && Alternates(kids[i]) && (kids[i].Group? ==> kids[i].op != op)
    {
      assert FitsUnder(kids[i], Some(op));
    }
  }

  ghost predicate Every(fs: seq<Flat>, truth: Tree -> bool) {
    forall i :: 0 <= i < |fs| ==> FlatMeaning(fs[i], truth)
  }

  ghost predicate Any(fs: seq<Flat>, truth: Tree -> bool) {
    exists i :: 0 <= i < |fs| && FlatMeaning(fs[i], truth)
  }

  lemma EveryAnyConcat(a: seq<Flat>, b: seq<Flat>, truth: Tree -> bool)
    ensures Every(a + b, truth) <==> Every(a, truth) && Every(b, truth)
    ensures Any(a + b, truth) <==> Any(a, truth) || Any(b, truth)
  {
    var ab := a + b;
    assert forall i :: 0 <= i < |a| ==> ab[i] == a[i];
    assert forall i :: 0 <= i < |b| ==> ab[|a| + i] == b[i];
    assert forall i :: |a| <= i < |ab| ==> ab[i] == b[i - |a|];
    if Any(a, truth) {
      var i :| 0 <= i < |a| && FlatMeaning(a[i], truth);
      assert FlatMeaning(ab[i], truth);
    }
    if Any(b, truth) {
      var i :| 0 <= i < |b| && FlatMeaning(b[i], truth);
      assert FlatMeaning(ab[|a| + i], truth);
    }
    if Every(ab, truth) {
      forall i | 0 <= i < |b|
        ensures FlatMeaning(b[i], truth)
      {
        assert FlatMeaning(ab[|a| + i], truth);
      }
    }
  }

  lemma SingletonMeaning(f: Flat, truth: Tree -> bool)
    ensures Every([f], truth) <==> FlatMeaning(f, truth)
    ensures Any([f], truth) <==> FlatMeaning(f, truth)
  {
    assert [f][0] == f;
  }

  lemma {:induction false} CollapsedMeaning(t: Tree, cur: Option<Op>, truth: Tree -> bool)
    requires IsCondition(t)
    ensures cur != Some(OrOp) ==> (Meaning(t, truth) <==> Every(Collapsed(t, cur), truth))
    ensures cur == Some(OrOp) ==> (Meaning(t, truth) <==> Any(Collapsed(t, cur), truth))
  {
    if IsComparison(t) {
      SingletonMeaning(Single(t), truth);
    } else {
      var inner := if cur == Some(t.op) then cur else Some(t.op);
      CollapsedMeaning(t.left, inner, truth);
      CollapsedMeaning(t.right, inner, truth);
      var kids := Collapsed(t.left, inner) + Collapsed(t.right, inner);
      EveryAnyConcat(Collapsed(t.left, inner), Collapsed(t.right, inner), truth);
      if cur != Some(t.op) {
        SingletonMeaning(Group(t.op, kids), truth);
        assert FlatMeaning(Group(t.op, kids), truth) <==>
          if t.op == AndOp then Every(kids, truth) else Any(kids, truth);
      }
    }
  }

  /**
   * Collapsing gives exactly one tree, with the same comparisons in the same
   * order, with no group inside a group of its own operator, and with the same meaning.
   */
  lemma CollapseKeepsCondition(t: Tree, truth: Tree -> bool)
    requires IsCondition(t)
    ensures Collapsed(t, None) == [Collapse(t)]
    ensures IsFlat(Collapse(t)) && Alternates(Collapse(t))
    ensures FlatLeaves(Collapse(t)) == Leaves(t)
    ensures FlatMeaning(Collapse(t), truth) <==> Meaning(t, truth)
  {
    CollapsedShape(t, None);
    CollapsedMeaning(t, None, truth);
    SingletonMeaning(Collapse(t), truth);
    var out := Collapsed(t, None);
    assert out == [out[0]];
    assert AllLeaves([out[0]]) == FlatLeaves(out[0]) + AllLeaves([]);
  }

  // ----- Statements -----

  /** The field classes a column can have; options are (code, label) pairs. */
  datatype Field =
    | TextField
    | EventClassField
    | CompareField
    | SelectField(options: seq<(Val, string)>)
    | EnumeratedField(options: seq<(Val, string)>)
    | DeviceGroupField

  /** Columns by name, as the source's `meta` dictionary. */
  type Meta = seq<(string, Field)>

  datatype PyError =
    | ConversionError  // PythonConversionException
    | AttributeError   // a string method on a number
    | KeyError         // a priority that is not a number from 0 to 7
    | IndexError       // nothing was printed

  /** The column with this lower-case name; later columns replace earlier ones. */
  function Lookup(meta: Meta, lower: string): Option<(string, Field)> {
    if meta == [] then None
    else
      var last := meta[|meta| - 1];
      if Lower(last.0) == lower then Some(last) else Lookup(meta[..|meta| - 1], lower)
  }

  /** Event attributes by old column name. */
  function AttributeOf(name: string): string {
    if name == "eventClass" then "evt.event_class"
    else if name == "summary" then "evt.summary"
    else if name == "message" then "evt.message"
    else if name == "eventKey" then "evt.event_key"
    else if name == "agent" then "evt.agent"
    else if name == "manager" then "evt.monitor"
    else if name == "severity" then "evt.severity"
    else if name == "eventState" then "evt.status"
    else if name == "count" then "evt.count"
    else if name == "prodState" then "dev.production_state"
    else if name == "device" then "elem.name"
    else if name == "devicePriority" then "dev.priority"
    else if name == "component" then "sub_elem.name"
    else if name == "eventClassKey" then "evt.event_class_key"
    else if name == "priority" then "evt.syslog_priority"
    else if name == "facility" then "evt.syslog_facility"
    else if name == "ntevid" then "evt.nt_event_code"
    else if name == "ownerId" then "evt.current_user_name"
    else if name == "deviceClass" then "dev.device_class"
    else if name == "systems" then "dev.systems"
    else if name == "deviceGroups" then "dev.groups"
    else if name == "ipAddress" then "dev.ip_address"
    else if name == "location" then "dev.location"
    else name
  }

  predicate StartsPercent(s: string) {
    s != "" && s[0] == '%'
  }

  predicate EndsPercent(s: string) {
    s != "" && s[|s| - 1] == '%'
  }

  /** An operator as it appears in the printed statement. */
  function Printed(op: Op): string {
    match op
    case AndOp => "and"
    case OrOp => "or"
    case LikeOp => "like"
    case NotLikeOp => "not like"
    case BinOp(sym) => if sym == "=" then "==" else sym
  }

  function LiteralVal(t: Tree): Val
    requires !t.Node?
  {
    if t.Num? then IntV(t.n) else StrV(t.s)
  }

  /** `buildPython` of `Text` and of `EventClass`. */
  function TextStatement(attr: string, op: Op, value: Tree): Result<Stmt, PyError>
    requires !value.Node?
  {
    if op == LikeOp then
      if value.Num? then Err(AttributeError)
      else
        var v := value.s;
        Ok(if StartsPercent(v) && !EndsPercent(v) then EndsWithStmt(attr, v[1..])
           else if !StartsPercent(v) && EndsPercent(v) then StartsWithStmt(attr, v[..|v| - 1])
           else if StartsPercent(v) && EndsPercent(v) then InStmt(attr, Quoting.Inner(v))
           else NoneStmt)
    else if op == NotLikeOp then
      if value.Num? then Err(AttributeError) else Ok(NotInStmt(attr, Quoting.Inner(value.s)))
    else if op == BinOp("=") || op == BinOp("!=") then Ok(CompareStmt(attr, Printed(op), LiteralVal(value)))
    else Ok(NoneStmt)
  }

  /** `buildPython` of every field class. */
  function BuildPython(field: Field, name: string, op: Op, value: Tree): Result<Stmt, PyError>
    requires !value.Node?
  {
    var attr := AttributeOf(name);
    match field
    case TextField => TextStatement(attr, op, value)
    case EventClassField => TextStatement(attr, op, value)
    case DeviceGroupField =>
      if value.Num? then Err(AttributeError)
      else
        var bare := StripRight(StripLeft(value.s, {'%', '|'}), {'%', '|'});
        Ok(if op == LikeOp then InStmt(attr, bare) else if op == NotLikeOp then NotInStmt(attr, bare) else NoneStmt)
    case _ => Ok(CompareStmt(attr, Printed(op), LiteralVal(value)))
  }

  /** Python's `int(s)` for decimal digits with an optional sign. */
  function IntOf(s: string): Option<int> {
    var signed := s != "" && (s[0] == '-' || s[0] == '+');
    var digits := DigitsOf(if signed then s[1..] else s);
    if digits == None then None
    else
      var n: int := if signed && s[0] == '-' then 0 - digits.value else digits.value;
      Some(n)
  }

  function DigitsOf(s: string): Option<nat> {
    if s == "" then None
    else
      var d := s[|s| - 1];
      if !('0' <= d <= '9') then None
      else if |s| == 1 then Some((d - '0') as nat)
      else
        match DigitsOf(s[..|s| - 1])
        case Some(n) => Some(10 * n + (d - '0') as nat)
        case None => None
  }

  /**
   * The statement for one comparison, none when the column is unknown. Values of
   * `ntevid` become numbers; values of `priority` are renumbered from the old scale,
   * 0 for debug up to 7 for emergency, to the syslog scale of RFC 5424 section 6.2.1.
   */
  function CompileLeaf(meta: Meta, c: Tree): Result<Option<Stmt>, PyError>
    requires IsComparison(c)
  {
    var orig := Lower(c.left.s);
    match Lookup(meta, orig)
    case None => Ok(None)
    case Some((name, field)) =>
      if orig == "ntevid" && c.op != BinOp("=") && c.op != BinOp("!=") then Err(ConversionError)
      else if orig == "ntevid" && c.right.Word? && IntOf(c.right.s) == None then Err(ConversionError)
      else if orig == "priority" && !(c.right.Num? && 0 <= c.right.n <= 7) then Err(KeyError)
      else
        var value :=
          if orig == "ntevid" && c.right.Word? then Num(IntOf(c.right.s).value)
          else if orig == "priority" then Num(7 - c.right.n)
          else c.right;
        match BuildPython(field, name, c.op, value)
        case Ok(s) => Ok(Some(s))
        case Err(e) => Err(e)
  }

  // ----- Printing -----

  function Connective(op: Op): PyToken {
    if op == AndOp then AndP else OrP
  }

  /** Each part with the connective in front of it. */
  function Prefixed(sep: PyToken, parts: seq<seq<PyToken>>): seq<PyToken> {
    if parts == [] then [] else [sep] + parts[0] + Prefixed(sep, parts[1..])
  }

  function JoinParts(sep: PyToken, parts: seq<seq<PyToken>>): seq<PyToken> {
    if parts == [] then [] else parts[0] + Prefixed(sep, parts[1..])
  }

  /** The pieces of text `recurse` appends for one tree: none or one. */
  function Emit(meta: Meta, f: Flat): (r: Result<seq<seq<PyToken>>, PyError>)
    requires IsFlat(f)
    ensures r.Ok? ==> |r.value| <= 1
    ensures r.Ok? && f.Group? ==> |r.value| == 1
    decreases f, 0
  {
    match f
    case Single(c) =>
      (match CompileLeaf(meta, c)
       case Err(e) => Err(e)
       case Ok(None) => Ok([])
       case Ok(Some(s)) => Ok([[OpenP, StmtP(s), CloseP]]))
    case Group(op, kids) =>
      (match EmitAll(meta, kids)
       case Err(e) => Err(e)
       case Ok(parts) => Ok([[OpenP] + JoinParts(Connective(op), parts) + [CloseP]]))
  }

  function EmitAll(meta: Meta, fs: seq<Flat>): Result<seq<seq<PyToken>>, PyError>
    requires forall i :: 0 <= i < |fs| ==> IsFlat(fs[i])
    decreases fs, 1
  {
    if fs == [] then Ok([])
    else
      match Emit(meta, fs[0])
      case Err(e) => Err(e)
      case Ok(first) =>
        match EmitAll(meta, fs[1..])
        case Err(e) => Err(e)
        case Ok(rest) => Ok(first + rest)
  }

  /** `toPython`: the printed rule, without the outer parentheses of a group. */
  function ToPython(meta: Meta, t: Tree): Result<seq<PyToken>, PyError>
    requires IsCondition(t)
  {
    CollapsedShape(t, None);
    match Emit(meta, Collapse(t))
    case Err(e) => Err(e)
    case Ok(parts) =>
      if parts == [] then Err(IndexError)
      else if Collapse(t).Group? then Ok(parts[0][1..|parts[0]| - 1])
      else Ok(parts[0])
  }

  // ----- How Python reads the printed rule -----

  /** Whether the comparisons that are printed at all are printed as expressions. */
  predicate Printable(meta: Meta, f: Flat)
    requires IsFlat(f)
  {
    match f
    case Single(c) =>
      (match CompileLeaf(meta, c)
       case Ok(Some(s)) => IsExpression(s)
       case Ok(None) => true
       case Err(_) => false)
    case Group(_, kids) => forall i :: 0 <= i < |kids| ==> Printable(meta, kids[i])
  }

  predicate IsPrinted(meta: Meta, f: Flat)
    requires IsFlat(f)
  {
    f.Single? ==> CompileLeaf(meta, f.c) != Ok(None)
  }

  /** The Python expression a tree is read as; kids that print nothing are dropped. */
  function ExprOf(meta: Meta, f: Flat): Expr
    requires IsFlat(f) && Printable(meta, f) && IsPrinted(meta, f)
    decreases f, 0
  {
    match f
    case Single(c) => Statement(CompileLeaf(meta, c).value.value)
    case Group(op, kids) => ExprOfAll(meta, op, None, kids)
  }

  /** Reads the kids one after the other into what was read so far. */
  function ExprOfAll(meta: Meta, op: Op, acc: Option<Expr>, fs: seq<Flat>): Expr
    requires forall i :: 0 <= i < |fs| ==> IsFlat(fs[i]) && Printable(meta, fs[i])
    decreases fs, 1
  {
    if fs == [] then if acc.Some? then acc.value else EmptyTuple
    else if !IsPrinted(meta, fs[0]) then ExprOfAll(meta, op, acc, fs[1..])
    else
      var e := ExprOf(meta, fs[0]);
      var acc' := if acc == None then e else if op == AndOp then Both(acc.value, e) else Either(acc.value, e);
      ExprOfAll(meta, op, Some(acc'), fs[1..])
  }

  lemma StatementReadsBack(s: Stmt, rest: seq<PyToken>)
    requires IsExpression(s)
    ensures ReadAtom([OpenP, StmtP(s), CloseP] + rest) == Some((Statement(s), rest))
  {
    var ts := [OpenP, StmtP(s), CloseP] + rest;
    assert ts[1..] == [StmtP(s), CloseP] + rest;
    assert ts[1..][1..] == [CloseP] + rest;
    assert ([CloseP] + rest)[1..] == rest;
    var inner := [CloseP] + rest;
    assert ReadAtom(ts[1..]) == Some((Statement(s), inner));
    assert ReadAnd(ts[1..]) == MoreAnd(Statement(s), inner) == Some((Statement(s), inner));
    assert ReadOr(ts[1..]) == MoreOr(Statement(s), inner) == Some((Statement(s), inner));
  }

  /** Every printed piece is read back as one atom, whatever follows it. */
  lemma {:induction false} AtomReadsBack(meta: Meta, f: Flat, rest: seq<PyToken>)
    requires IsFlat(f) && Printable(meta, f) && IsPrinted(meta, f)
    ensures Emit(meta, f).Ok? && |Emit(meta, f).value| == 1
    ensures ReadAtom(Emit(meta, f).value[0] + rest) == Some((ExprOf(meta, f), rest))
    decreases f, 0
  {
    match f
    case Single(c) => StatementReadsBack(CompileLeaf(meta, c).value.value, rest);
    case Group(op, kids) =>
      EmitAllOk(meta, kids);
      var parts := EmitAll(meta, kids).value;
      var body := JoinParts(Connective(op), parts);
      var ts := Emit(meta, f).value[0] + rest;
      assert ts[1..] == body + ([CloseP] + rest);
      if parts == [] {
        NothingPrinted(meta, op, kids);
        assert ts[2..] == rest;
      } else {
        BodyReadsBack(meta, op, kids, [CloseP] + rest);
        assert ts[1] == OpenP;
        assert ([CloseP] + rest)[1..] == rest;
      }
  }

  lemma {:induction false} EmitAllOk(meta: Meta, fs: seq<Flat>)
    requires forall i :: 0 <= i < |fs| ==> IsFlat(fs[i]) && Printable(meta, fs[i])
    ensures EmitAll(meta, fs).Ok?
    ensures forall i :: 0 <= i < |EmitAll(meta, fs).value| ==>
      EmitAll(meta, fs).value[i] != [] && EmitAll(meta, fs).value[i][0] == OpenP
    decreases fs, 1
  {
    if fs != [] {
      if IsPrinted(meta, fs[0]) {
        AtomReadsBack(meta, fs[0], []);
      }
      EmitAllOk(meta, fs[1..]);
    }
  }

  lemma {:induction false} NothingPrinted(meta: Meta, op: Op, fs: seq<Flat>)
    requires forall i :: 0 <= i < |fs| ==> IsFlat(fs[i]) && Printable(meta, fs[i])
    requires EmitAll(meta, fs) == Ok([])
    ensures ExprOfAll(meta, op, None, fs) == EmptyTuple
  {
    if fs != [] {
      NothingPrinted(meta, op, fs[1..]);
    }
  }

  function More(op: Op, acc: Expr, ts: seq<PyToken>): Read {
    if op == AndOp then MoreAnd(acc, ts) else MoreOr(acc, ts)
  }

  predicate EndsHere(rest: seq<PyToken>) {
    rest == [] || rest[0] == CloseP
  }

  function Combine(op: Op, acc: Expr, e: Expr): Expr {
    if op == AndOp then Both(acc, e) else Either(acc, e)
  }

  /** Reading one more operand, when what follows belongs to the same group. */
  lemma MoreStep(op: Op, acc: Expr, first: seq<PyToken>, e: Expr, tail: seq<PyToken>)
    requires IsConnective(op)
    requires EndsHere(tail) || tail[0] == Connective(op)
    requires ReadAtom(first + tail) == Some((e, tail))
    ensures More(op, acc, [Connective(op)] + (first + tail)) == More(op, Combine(op, acc, e), tail)
  {
    var ts := [Connective(op)] + (first + tail);
    assert ts[1..] == first + tail;
    if op == OrOp {
      assert MoreAnd(e, tail) == Some((e, tail));
      assert ReadAnd(ts[1..]) == Some((e, tail));
      assert MoreOr(acc, ts) == MoreOr(Either(acc, e), tail);
    } else {
      assert MoreAnd(acc, ts) == MoreAnd(Both(acc, e), tail);
    }
  }

  lemma FirstPart(meta: Meta, fs: seq<Flat>)
    requires fs != [] && forall i :: 0 <= i < |fs| ==> IsFlat(fs[i])
    requires Emit(meta, fs[0]).Ok? && |Emit(meta, fs[0]).value| == 1 && EmitAll(meta, fs[1..]).Ok?
    ensures EmitAll(meta, fs) == Ok([Emit(meta, fs[0]).value[0]] + EmitAll(meta, fs[1..]).value)
  {
  }

  lemma NoPart(meta: Meta, fs: seq<Flat>)
    requires fs != [] && forall i :: 0 <= i < |fs| ==> IsFlat(fs[i]) && Printable(meta, fs[i])
    requires !IsPrinted(meta, fs[0])
    ensures EmitAll(meta, fs) == EmitAll(meta, fs[1..])
  {
    if EmitAll(meta, fs[1..]).Ok? {
      var parts := EmitAll(meta, fs[1..]).value;
      assert [] + parts == parts;
    }
  }

  lemma PrefixedFirst(sep: PyToken, first: seq<PyToken>, others: seq<seq<PyToken>>, rest: seq<PyToken>)
    ensures Prefixed(sep, [first] + others) + rest == [sep] + (first + (Prefixed(sep, others) + rest))
    ensures JoinParts(sep, [first] + others) + rest == first + (Prefixed(sep, others) + rest)
  {
    assert ([first] + others)[1..] == others;
    Regroup([sep], first, Prefixed(sep, others), rest);
  }

  lemma {:induction false} TailReadsBack(meta: Meta, op: Op, acc: Expr, fs: seq<Flat>, rest: seq<PyToken>)
    requires forall i :: 0 <= i < |fs| ==> IsFlat(fs[i]) && Printable(meta, fs[i])
    requires IsConnective(op) && EndsHere(rest)
    ensures EmitAll(meta, fs).Ok?
    ensures More(op, acc, Prefixed(Connective(op), EmitAll(meta, fs).value) + rest)
         == Some((ExprOfAll(meta, op, Some(acc), fs), rest))
    decreases fs, 2
  {
    if fs == [] {
      assert Prefixed(Connective(op), []) + rest == rest;
    } else if !IsPrinted(meta, fs[0]) {
      TailReadsBack(meta, op, acc, fs[1..], rest);
      NoPart(meta, fs);
    } else {
      EmitAllOk(meta, fs[1..]);
      var others := EmitAll(meta, fs[1..]).value;
      var tail := Prefixed(Connective(op), others) + rest;
      AtomReadsBack(meta, fs[0], tail);
      FirstPart(meta, fs);
      var first, e := Emit(meta, fs[0]).value[0], ExprOf(meta, fs[0]);
      PrefixedFirst(Connective(op), first, others, rest);
      MoreStep(op, acc, first, e, tail);
      TailReadsBack(meta, op, Combine(op, acc, e), fs[1..], rest);
    }
  }

  lemma {:induction false} BodyReadsBack(meta: Meta, op: Op, fs: seq<Flat>, rest: seq<PyToken>)
    requires forall i :: 0 <= i < |fs| ==> IsFlat(fs[i]) && Printable(meta, fs[i])
    requires IsConnective(op) && EndsHere(rest)
    requires EmitAll(meta, fs).Ok? && EmitAll(meta, fs).value != []
    ensures ReadOr(JoinParts(Connective(op), EmitAll(meta, fs).value) + rest)
         == Some((ExprOfAll(meta, op, None, fs), rest))
    decreases fs, 3
  {
    var parts := EmitAll(meta, fs).value;
    if !IsPrinted(meta, fs[0]) {
      assert parts == EmitAll(meta, fs[1..]).value;
      BodyReadsBack(meta, op, fs[1..], rest);
    } else {
      EmitAllOk(meta, fs[1..]);
      var others := EmitAll(meta, fs[1..]).value;
      var tail := Prefixed(Connective(op), others) + rest;
      AtomReadsBack(meta, fs[0], tail);
      var first := Emit(meta, fs[0]).value[0];
      FirstPart(meta, fs);
      PrefixedFirst(Connective(op), first, others, rest);
      var e := ExprOf(meta, fs[0]);
      TailReadsBack(meta, op, e, fs[1..], rest);
      if op == OrOp {
        assert MoreAnd(e, tail) == Some((e, tail));
      }
    }
  }

  predicate PrintsSomething(meta: Meta, f: Flat)
    requires IsFlat(f)
  {
    IsPrinted(meta, f) && (f.Group? ==> exists i :: 0 <= i < |f.kids| && IsPrinted(meta, f.kids[i]))
  }

  lemma {:induction false} PartsOfPrinted(meta: Meta, fs: seq<Flat>)
    requires forall i :: 0 <= i < |fs| ==> IsFlat(fs[i]) && Printable(meta, fs[i])
    ensures EmitAll(meta, fs).Ok?
    ensures EmitAll(meta, fs).value != [] <==> exists i :: 0 <= i < |fs| && IsPrinted(meta, fs[i])
  {
    EmitAllOk(meta, fs);
    if fs != [] {
      PartsOfPrinted(meta, fs[1..]);
      assert forall i :: 0 < i < |fs| ==> fs[i] == fs[1..][i - 1];
      if IsPrinted(meta, fs[0]) {
        AtomReadsBack(meta, fs[0], []);
      }
    }
  }

  /**
   * Python reads the printed rule as exactly the collapsed tree without the
   * comparisons of unknown columns. When a group prints nothing at all the rule
   * is empty and does not parse.
   */
  lemma RuleReadsBack(meta: Meta, t: Tree)
    requires IsCondition(t) && IsFlat(Collapse(t)) && Printable(meta, Collapse(t))
    ensures PrintsSomething(meta, Collapse(t)) ==>
      ToPython(meta, t).Ok? &&
      ParseRule(ToPython(meta, t).value) == Some(ExprOf(meta, Collapse(t)))
    ensures !PrintsSomething(meta, Collapse(t)) ==>
      ToPython(meta, t) == if Collapse(t).Group? then Ok([]) else Err(IndexError)
  {
    var f := Collapse(t);
    if f.Group? {
      PartsOfPrinted(meta, f.kids);
      var body := JoinParts(Connective(f.op), EmitAll(meta, f.kids).value);
      var text := [OpenP] + body + [CloseP];
      assert text[1..|text| - 1] == body;
      if PrintsSomething(meta, f) {
        BodyReadsBack(meta, f.op, f.kids, []);
        assert body + [] == body;
      }
    } else if IsPrinted(meta, f) {
      AtomReadsBack(meta, f, []);
      var text := Emit(meta, f).value[0];
      var e := ExprOf(meta, f);
      assert text + [] == text;
      assert ReadAnd(text) == MoreAnd(e, []) == Some((e, []));
      assert ReadOr(text) == MoreOr(e, []) == Some((e, []));
    }
  }

  // ----- What the rule means -----

  /** Whether the statement printed for a comparison holds. */
  ghost predicate StatementHolds(meta: Meta, c: Tree, env: Env) {
    IsComparison(c) && CompileLeaf(meta, c).Ok? && CompileLeaf(meta, c).value.Some? &&
    Holds(CompileLeaf(meta, c).value.value, env)
  }

  ghost function StatementTruth(meta: Meta, env: Env): Tree -> bool {
    (c: Tree) => StatementHolds(meta, c, env)
  }

  /** The meaning of a tree without its unknown columns; a group of nothing is false. */
  ghost predicate KeptMeaning(meta: Meta, f: Flat, env: Env)
    requires IsFlat(f)
  {
    match f
    case Single(c) => StatementHolds(meta, c, env)
    case Group(op, kids) =>
      if op == AndOp then
        (exists i :: 0 <= i < |kids| && IsPrinted(meta, kids[i])) &&
        forall i :: 0 <= i < |kids| && IsPrinted(meta, kids[i]) ==> KeptMeaning(meta, kids[i], env)
      else exists i :: 0 <= i < |kids| && IsPrinted(meta, kids[i]) && KeptMeaning(meta, kids[i], env)
  }

  lemma {:induction false} ExprMeaning(meta: Meta, f: Flat, env: Env)
    requires IsFlat(f) && Printable(meta, f) && IsPrinted(meta, f)
    ensures IsTrue(ExprOf(meta, f), env) <==> KeptMeaning(meta, f, env)
    decreases f, 0
  {
    if f.Group? {
      ExprAllMeaning(meta, f.op, None, f.kids, env);
    }
  }

  ghost predicate KeptEvery(meta: Meta, fs: seq<Flat>, env: Env)
    requires forall i :: 0 <= i < |fs| ==> IsFlat(fs[i])
  {
    forall i :: 0 <= i < |fs| && IsPrinted(meta, fs[i]) ==> KeptMeaning(meta, fs[i], env)
  }

  ghost predicate KeptAny(meta: Meta, fs: seq<Flat>, env: Env)
    requires forall i :: 0 <= i < |fs| ==> IsFlat(fs[i])
  {
    exists i :: 0 <= i < |fs| && IsPrinted(meta, fs[i]) && KeptMeaning(meta, fs[i], env)
  }

  lemma {:induction false} ExprAllMeaning(meta: Meta, op: Op, acc: Option<Expr>, fs: seq<Flat>, env: Env)
    requires forall i :: 0 <= i < |fs| ==> IsFlat(fs[i]) && Printable(meta, fs[i])
    requires IsConnective(op)
    ensures IsTrue(ExprOfAll(meta, op, acc, fs), env) <==>
      if op == AndOp then
        (acc.Some? || exists i :: 0 <= i < |fs| && IsPrinted(meta, fs[i])) &&
        (acc.Some? ==> IsTrue(acc.value, env)) && KeptEvery(meta, fs, env)
      else (acc.Some? && IsTrue(acc.value, env)) || KeptAny(meta, fs, env)
    decreases fs, 1
  {
    if fs != [] {
      assert forall i :: 0 < i < |fs| ==> fs[i] == fs[1..][i - 1];
      assert forall i :: 0 <= i < |fs[1..]| ==> fs[1..][i] == fs[i + 1];
      if !IsPrinted(meta, fs[0]) {
        ExprAllMeaning(meta, op, acc, fs[1..], env);
        assert KeptEvery(meta, fs, env) <==> KeptEvery(meta, fs[1..], env);
        assert KeptAny(meta, fs, env) <==> KeptAny(meta, fs[1..], env);
      } else {
        ExprMeaning(meta, fs[0], env);
        var e := ExprOf(meta, fs[0]);
        var acc' := if acc == None then e else if op == AndOp then Both(acc.value, e) else Either(acc.value, e);
        ExprAllMeaning(meta, op, Some(acc'), fs[1..], env);
        assert KeptEvery(meta, fs, env) <==> KeptMeaning(meta, fs[0], env) && KeptEvery(meta, fs[1..], env);
        assert KeptAny(meta, fs, env) <==> KeptMeaning(meta, fs[0], env) || KeptAny(meta, fs[1..], env);
      }
    }
  }

  /** Every comparison is about a known column and prints an expression. */
  predicate AllKnown(meta: Meta, ls: seq<Tree>) {
    forall i :: 0 <= i < |ls| ==> IsKnown(meta, ls[i])
  }

  predicate IsKnown(meta: Meta, c: Tree) {
    IsComparison(c) && CompileLeaf(meta, c).Ok? && CompileLeaf(meta, c).value.Some? &&
    IsExpression(CompileLeaf(meta, c).value.value)
  }

  lemma {:induction false} KnownTreesKeepAll(meta: Meta, f: Flat, env: Env)
    requires IsFlat(f) && Alternates(f) && AllKnown(meta, FlatLeaves(f))
    ensures Printable(meta, f) && PrintsSomething(meta, f)
    ensures KeptMeaning(meta, f, env) <==> FlatMeaning(f, StatementTruth(meta, env))
  {
    if f.Group? {
      forall i | 0 <= i < |f.kids|
        ensures Printable(meta, f.kids[i]) && IsPrinted(meta, f.kids[i])
        ensures KeptMeaning(meta, f.kids[i], env) <==> FlatMeaning(f.kids[i], StatementTruth(meta, env))
      {
        LeavesOfKid(f.kids, i);
        assert forall k :: 0 <= k < |FlatLeaves(f.kids[i])| ==> FlatLeaves(f.kids[i])[k] in AllLeaves(f.kids);
        KnownTreesKeepAll(meta, f.kids[i], env);
      }
      assert IsPrinted(meta, f.kids[0]);
    } else {
      assert FlatLeaves(f)[0] == f.c;
    }
  }

  lemma {:induction false} LeavesOfKid(fs: seq<Flat>, i: nat)
    requires i < |fs|
    ensures forall c :: c in FlatLeaves(fs[i]) ==> c in AllLeaves(fs)
  {
    if i > 0 {
      LeavesOfKid(fs[1..], i - 1);
      assert fs[i] == fs[1..][i - 1];
    }
  }

  /**
   * The compiler keeps the meaning: for a condition over known columns, Python
   * reads the printed rule, and finds it true, on exactly the events for which
   * the condition is true with every comparison read as its statement.
   */
  lemma RuleMeansCondition(meta: Meta, t: Tree, env: Env)
    requires IsCondition(t) && AllKnown(meta, Leaves(t))
    ensures ToPython(meta, t).Ok?
    ensures ParseRule(ToPython(meta, t).value).Some?
    ensures IsTrue(ParseRule(ToPython(meta, t).value).value, env) <==> Meaning(t, StatementTruth(meta, env))
  {
    CollapseKeepsCondition(t, StatementTruth(meta, env));
    KnownTreesKeepAll(meta, Collapse(t), env);
    RuleReadsBack(meta, t);
    ExprMeaning(meta, Collapse(t), env);
  }

  /** With unknown columns the rule means the condition without them. */
  lemma RuleMeansKept(meta: Meta, t: Tree, env: Env)
    requires IsCondition(t) && IsFlat(Collapse(t)) && Printable(meta, Collapse(t))
    requires PrintsSomething(meta, Collapse(t))
    ensures ToPython(meta, t).Ok?
    ensures ParseRule(ToPython(meta, t).value).Some?
    ensures IsTrue(ParseRule(ToPython(meta, t).value).value, env) <==> KeptMeaning(meta, Collapse(t), env)
  {
    RuleReadsBack(meta, t);
    ExprMeaning(meta, Collapse(t), env);
  }

  // ----- The recursion as the source runs it, appending to result lists -----

  function Appended(result: seq<seq<PyToken>>, more: Result<seq<seq<PyToken>>, PyError>):
    Result<seq<seq<PyToken>>, PyError>
  {
    match more
    case Ok(parts) => Ok(result + parts)
    case Err(e) => Err(e)
  }

  lemma {:induction false} EmitAllSplit(meta: Meta, fs: seq<Flat>, i: nat)
    requires i < |fs| && forall k :: 0 <= k < |fs| ==> IsFlat(fs[k])
    requires EmitAll(meta, fs[..i]).Ok?
    ensures Emit(meta, fs[i]).Err? ==> EmitAll(meta, fs) == Err(Emit(meta, fs[i]).error)
    ensures Emit(meta, fs[i]).Ok? ==>
      EmitAll(meta, fs[..i + 1]) == Ok(EmitAll(meta, fs[..i]).value + Emit(meta, fs[i]).value)
  {
    if i == 0 {
      assert fs[..1] == [fs[0]];
      if Emit(meta, fs[0]).Ok? {
        assert EmitAll(meta, [fs[0]][1..]) == Ok([]);
        assert Emit(meta, fs[0]).value + [] == Emit(meta, fs[0]).value;
        assert [] + Emit(meta, fs[0]).value == Emit(meta, fs[0]).value;
      }
    } else {
      assert fs[..i][1..] == fs[1..][..i - 1] && fs[..i + 1][1..] == fs[1..][..i];
      EmitAllSplit(meta, fs[1..], i - 1);
      if Emit(meta, fs[i]).Ok? {
        var first, a, b := Emit(meta, fs[0]).value, EmitAll(meta, fs[1..][..i - 1]).value, Emit(meta, fs[i]).value;
        assert fs[1..][i - 1] == fs[i] && fs[..i + 1][0] == fs[0];
        assert EmitAll(meta, fs[..i + 1]) == Ok(first + (a + b));
        assert EmitAll(meta, fs[..i]) == Ok(first + a);
        assert first + (a + b) == (first + a) + b;
      }
    }
  }

  method EmitOnto(meta: Meta, f: Flat, result: seq<seq<PyToken>>)
    returns (r: Result<seq<seq<PyToken>>, PyError>)
    requires IsFlat(f)
    ensures r == Appended(result, Emit(meta, f))
    decreases f
  {
    match f
    case Single(c) =>
      match CompileLeaf(meta, c) {
        case Err(e) => return Err(e);
        case Ok(None) => return Ok(result + []);
        case Ok(Some(s)) => return Ok(result + [[OpenP, StmtP(s), CloseP]]);
      }
    case Group(op, kids) =>
      var all: seq<seq<PyToken>> := [];
      for i := 0 to |kids|
        invariant EmitAll(meta, kids[..i]) == Ok(all)
      {
        EmitAllSplit(meta, kids, i);
        var sub := EmitOnto(meta, kids[i], []);
        if sub.Err? { return Err(sub.error); }
        assert [] + Emit(meta, kids[i]).value == Emit(meta, kids[i]).value;
        all := all + sub.value;
      }
      assert kids[..|kids|] == kids;
      return Ok(result + [[OpenP] + JoinParts(Connective(op), all) + [CloseP]]);
  }

  method CompileRule(meta: Meta, t: Tree) returns (r: Result<seq<PyToken>, PyError>)
    requires IsCondition(t)
    ensures r == ToPython(meta, t)
  {
    CollapsedShape(t, None);
    var exprs := CollapseOnto(t, None, []);
    assert [] + Collapsed(t, None) == Collapsed(t, None);
    var f := exprs[0];
    var result := EmitOnto(meta, f, []);
    if result.Err? { return Err(result.error); }
    assert [] + Emit(meta, f).value == Emit(meta, f).value;
    if result.value == [] { return Err(IndexError); }
    var rule := result.value[0];
    if f.Group? { rule := rule[1..|rule| - 1]; }
    return Ok(rule);
  }
}
