/**
 * The target of the compiler: Python statements over event attributes, the text
 * of a rule as tokens, and how Python reads that text (`and` binds tighter than
 * `or`; `()` is the empty tuple, which is false).
 */
module PythonRule {
  import opened Wrappers
  import opened Text
  import opened LikePatterns

  datatype Val = IntV(n: int) | StrV(s: string)

  /** The values of the attributes of an event. */
  type Env = map<string, Val>

  datatype Stmt =
    | EndsWithStmt(attr: string, x: string)          // attr.endswith(x)
    | StartsWithStmt(attr: string, x: string)        // attr.startswith(x)
    | InStmt(attr: string, x: string)                // x in attr
    | NotInStmt(attr: string, x: string)             // x not in attr
    | CompareStmt(attr: string, sym: string, v: Val) // attr sym v
    | NoneStmt                                       // the text of a missing statement

  const PYTHON_SYMBOLS := {"==", "!=", "<>", "<", "<=", ">", ">="}

  /** Other symbols, such as `like`, do not make a Python expression. */
  predicate IsExpression(s: Stmt) {
    s.CompareStmt? ==> s.sym in PYTHON_SYMBOLS
  }

  predicate IntsCompare(a: int, sym: string, b: int) {
    if sym == "==" || sym == "=" then a == b
    else if sym == "!=" || sym == "<>" then a != b
    else if sym == "<" then a < b
    else if sym == "<=" then a <= b
    else if sym == ">" then a > b
    else sym == ">=" && a >= b
  }

  /** The order of texts by their characters. */
  predicate Before(s: string, t: string) {
    t != "" && (s == "" || s[0] < t[0] || (s[0] == t[0] && Before(s[1..], t[1..])))
  }

  predicate TextsCompare(s: string, sym: string, t: string) {
    if sym == "==" || sym == "=" then s == t
    else if sym == "!=" || sym == "<>" then s != t
    else if sym == "<" then Before(s, t)
    else if sym == "<=" then s == t || Before(s, t)
    else if sym == ">" then Before(t, s)
    else sym == ">=" && (s == t || Before(t, s))
  }

  /** Comparisons of values; in Python 2 every number comes before every text. */
  predicate Compare(a: Val, sym: string, b: Val) {
    match (a, b)
    case (IntV(m), IntV(n)) => IntsCompare(m, sym, n)
    case (StrV(s), StrV(t)) => TextsCompare(s, sym, t)
    case (IntV(_), StrV(_)) => sym in {"!=", "<>", "<", "<="}
    case (StrV(_), IntV(_)) => sym in {"!=", "<>", ">", ">="}
  }

  lemma {:induction false} BeforeLonger(s: string, c: char)
    ensures Before(s, s + [c])
  {
    if s != "" {
      assert (s + [c])[1..] == s[1..] + [c];
      BeforeLonger(s[1..], c);
    }
  }

  /** The truth of a statement when its attribute has the value `v`. */
  ghost predicate HoldsOn(s: Stmt, v: Val) {
    match s
    case EndsWithStmt(_, x) => v.StrV? && EndsWith(v.s, x)
    case StartsWithStmt(_, x) => v.StrV? && StartsWith(v.s, x)
    case InStmt(_, x) => v.StrV? && Contains(v.s, x)
    case NotInStmt(_, x) => v.StrV? && !Contains(v.s, x)
    case CompareStmt(_, sym, w) => Compare(v, sym, w)
    case NoneStmt => false
  }

  ghost predicate Holds(s: Stmt, env: Env) {
    !s.NoneStmt? && s.attr in env && HoldsOn(s, env[s.attr])
  }

  datatype PyToken = AndP | OrP | OpenP | CloseP | StmtP(s: Stmt)

  datatype Expr = Statement(s: Stmt) | EmptyTuple | Both(left: Expr, right: Expr) | Either(left: Expr, right: Expr)

  ghost predicate IsTrue(e: Expr, env: Env) {
    match e
    case Statement(s) => Holds(s, env)
    case EmptyTuple => false
    case Both(l, r) => IsTrue(l, env) && IsTrue(r, env)
    case Either(l, r) => IsTrue(l, env) || IsTrue(r, env)
  }

  type Read = Option<(Expr, seq<PyToken>)>

  function ParseRule(ts: seq<PyToken>): Option<Expr> {
    match ReadOr(ts)
    case Some((e, rest)) => if rest == [] then Some(e) else None
    case None => None
  }

  function ReadOr(ts: seq<PyToken>): (r: Read)
    ensures r.Some? ==> |r.value.1| < |ts|
    decreases |ts|, 3
  {
    match ReadAnd(ts)
    case Some((e, rest)) => MoreOr(e, rest)
    case None => None
  }

  function MoreOr(e: Expr, ts: seq<PyToken>): (r: Read)
    ensures r.Some? ==> |r.value.1| <= |ts|
    decreases |ts|, 0
  {
    if ts == [] || ts[0] != OrP then Some((e, ts))
    else
      match ReadAnd(ts[1..])
      case Some((right, rest)) => MoreOr(Either(e, right), rest)
      case None => None
  }

  function ReadAnd(ts: seq<PyToken>): (r: Read)
    ensures r.Some? ==> |r.value.1| < |ts|
    decreases |ts|, 2
  {
    match ReadAtom(ts)
    case Some((e, rest)) => MoreAnd(e, rest)
    case None => None
  }

  function MoreAnd(e: Expr, ts: seq<PyToken>): (r: Read)
    ensures r.Some? ==> |r.value.1| <= |ts|
    decreases |ts|, 0
  {
    if ts == [] || ts[0] != AndP then Some((e, ts))
    else
      match ReadAtom(ts[1..])
      case Some((right, rest)) => MoreAnd(Both(e, right), rest)
      case None => None
  }

  function ReadAtom(ts: seq<PyToken>): (r: Read)
    ensures r.Some? ==> |r.value.1| < |ts|
    decreases |ts|, 1
  {
    if ts == [] then None
    else if ts[0].StmtP? then
      if IsExpression(ts[0].s) then Some((Statement(ts[0].s), ts[1..])) else None
    else if ts[0] != OpenP then None
    else if |ts| > 1 && ts[1] == CloseP then Some((EmptyTuple, ts[2..]))
    else
      match ReadOr(ts[1..])
      case Some((e, rest)) => if rest != [] && rest[0] == CloseP then Some((e, rest[1..])) else None
      case None => None
  }
}
