/**
 * The where-clause grammar, on tokens: `or` binds tighter than `and`, both
 * associate to the left, and comparisons may be parenthesised.
 */
module WhereGrammar {
  import opened Wrappers
  import Quoting

  datatype Token =
    | AndT | OrT | LikeT | NotT | OpenT | CloseT
    | BinT(sym: string)
    | NumT(n: nat)
    | VarT(name: string)
    | StrT(raw: string)     // with its quotes
    | JunkT(text: string)   // text no token of the grammar matches

  datatype Op = AndOp | OrOp | LikeOp | NotLikeOp | BinOp(sym: string)

  /** The tuples of the source: operator, left, right. Numbers and words are leaves. */
  datatype Tree = Num(n: int) | Word(s: string) | Node(op: Op, left: Tree, right: Tree)

  const BIN_SYMBOLS := {">=", "<=", "==", "=", "<", ">", "!=", "<>"}

  /** A parsed prefix and the tokens after it, or a syntax error. */
  type Parsed = Option<(Tree, seq<Token>)>

  function ParseGoal(ts: seq<Token>): Option<Option<Tree>> {
    if ts == [] then Some(None)
    else
      match ParseAnd(ts)
      case Some((e, rest)) => if rest == [] then Some(Some(e)) else None
      case None => None
  }

  function ParseAnd(ts: seq<Token>): (r: Parsed)
    ensures r.Some? ==> |r.value.1| < |ts|
    decreases |ts|, 4
  {
    match ParseOr(ts)
    case Some((e, rest)) => AndTail(e, rest)
    case None => None
  }

  function AndTail(e: Tree, ts: seq<Token>): (r: Parsed)
    ensures r.Some? ==> |r.value.1| <= |ts|
    decreases |ts|, 0
  {
    if ts == [] || ts[0] != AndT then Some((e, ts))
    else
      match ParseOr(ts[1..])
      case Some((right, rest)) => AndTail(Node(AndOp, e, right), rest)
      case None => None
  }

  function ParseOr(ts: seq<Token>): (r: Parsed)
    ensures r.Some? ==> |r.value.1| < |ts|
    decreases |ts|, 3
  {
    match ParseBinary(ts)
    case Some((e, rest)) => OrTail(e, rest)
    case None => None
  }

  function OrTail(e: Tree, ts: seq<Token>): (r: Parsed)
    ensures r.Some? ==> |r.value.1| <= |ts|
    decreases |ts|, 0
  {
    if ts == [] || ts[0] != OrT then Some((e, ts))
    else
      match ParseBinary(ts[1..])
      case Some((right, rest)) => OrTail(Node(OrOp, e, right), rest)
      case None => None
  }

  function ParseBinary(ts: seq<Token>): (r: Parsed)
    ensures r.Some? ==> |r.value.1| < |ts|
    decreases |ts|, 2
  {
    match ParseTerm(ts)
    case Some((e, rest)) => BinaryTail(e, rest)
    case None => None
  }

  function BinaryTail(e: Tree, ts: seq<Token>): (r: Parsed)
    ensures r.Some? ==> |r.value.1| <= |ts|
    decreases |ts|, 0
  {
    match OperatorAt(ts)
    case None => Some((e, ts))
    case Some((op, n)) =>
      match ParseTerm(ts[n..])
      case Some((right, rest)) => BinaryTail(Node(op, e, right), rest)
      case None => None
  }

  /** The comparison operator the tokens start with, and how many tokens it takes. */
  function OperatorAt(ts: seq<Token>): (r: Option<(Op, nat)>)
    ensures r.Some? ==> 0 < r.value.1 <= |ts|
  {
    if ts == [] then None
    else if ts[0].BinT? then Some((BinOp(ts[0].sym), 1))
    else if ts[0].LikeT? then Some((LikeOp, 1))
    else if ts[0].NotT? && |ts| > 1 && ts[1].LikeT? then Some((NotLikeOp, 2))
    else None
  }

  function ParseTerm(ts: seq<Token>): (r: Parsed)
    ensures r.Some? ==> |r.value.1| < |ts|
    decreases |ts|, 1
  {
    if ts == [] then None
    else
      match ts[0]
      case NumT(n) => Some((Num(n), ts[1..]))
      case VarT(name) => Some((Word(name), ts[1..]))
      case StrT(raw) => if raw == "" then None else Some((Word(Quoting.U(raw)), ts[1..]))
      case OpenT =>
        (match ParseAnd(ts[1..])
         case Some((e, rest)) => if rest != [] && rest[0] == CloseT then Some((e, rest[1..])) else None
         case None => None)
      case _ => None
  }

  predicate IsConnective(op: Op) {
    op.AndOp? || op.OrOp?
  }

  /** A comparison of a column name with a number or a string. */
  predicate IsComparison(t: Tree) {
    t.Node? && !IsConnective(t.op) && t.left.Word? && !t.right.Node?
  }

  /** A condition: comparisons combined by `and` and `or`. */
  predicate IsCondition(t: Tree) {
    IsComparison(t) || (t.Node? && IsConnective(t.op) && IsCondition(t.left) && IsCondition(t.right))
  }

  /** The comparisons of a condition from left to right. */
  function Leaves(t: Tree): (ls: seq<Tree>)
    requires IsCondition(t)
    ensures ls != [] && forall c :: c in ls ==> IsComparison(c)
  {
    if IsComparison(t) then [t] else Leaves(t.left) + Leaves(t.right)
  }

  /** What a condition says, given what its comparisons say. */
  ghost predicate Meaning(t: Tree, truth: Tree -> bool)
    requires IsCondition(t)
  {
    if IsComparison(t) then truth(t)
    else if t.op == AndOp then Meaning(t.left, truth) && Meaning(t.right, truth)
    else Meaning(t.left, truth) || Meaning(t.right, truth)
  }
}
