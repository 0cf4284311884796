/** The predicate language: tokens, syntax trees, grammar and rendering. */
module Predicates {
  import opened Common

  /** Data as it appears in contexts and literals. */
  datatype Value =
    | Null
    | Bool(b: bool)
    | Num(n: real)
    | Str(s: string)
    | List(items: seq<Value>)
    | Dict(fields: map<string, Value>)

  datatype Tok =
    | LitTok(v: Value)
    | PathTok(segments: seq<string>)
    | TrueTok | FalseTok
    | OpTok(op: string)
    | AndTok | OrTok | NotTok | InTok | ContainsTok
    | LParen | RParen | Comma | LBrack | RBrack

  datatype Node =
    | Literal(v: Value)
    | Path(segments: seq<string>)
    | Compare(left: Node, op: string, right: Node)
    | InExpr(left: Node, choices: seq<Value>, negated: bool)
    | Contains(left: Node, right: Node)
    | And(parts: seq<Node>)
    | Or(parts: seq<Node>)
    | Not(inner: Node)

  const OPS := {"==", "!=", ">=", "<=", ">", "<"}

  /** What the tokenizer produces: literals are numbers or strings, paths have a segment, operators are the six
      comparisons. */
  predicate ValidTok(t: Tok) {
    && (t.LitTok? ==> t.v.Num? || t.v.Str?)
    && (t.PathTok? ==> t.segments != [])
    && (t.OpTok? ==> t.op in OPS)
  }

  predicate ValidToks(ts: seq<Tok>) {
    forall i :: 0 <= i < |ts| ==> ValidTok(ts[i])
  }

  // ---- Well-formed trees ----

  predicate Scalar(v: Value) {
    v.Bool? || v.Num? || v.Str?
  }

  predicate IsOperand(n: Node) {
    (n.Path? && n.segments != []) || (n.Literal? && Scalar(n.v))
  }

  predicate WellFormed(n: Node)
    decreases n, 1
  {
    match n
    case Literal(v) => Scalar(v)
    case Path(p) => p != []
    case Compare(l, op, r) => IsOperand(l) && IsOperand(r) && op in OPS
    case InExpr(l, choices, _) => IsOperand(l) && choices != [] && forall i :: 0 <= i < |choices| ==> Scalar(choices[i])
    case Contains(l, r) => IsOperand(l) && IsOperand(r)
    case And(parts) => |parts| >= 2 && AllWellFormed(parts)
    case Or(parts) => |parts| >= 2 && AllWellFormed(parts)
    case Not(inner) => WellFormed(inner)
  }

  predicate AllWellFormed(ns: seq<Node>)
    decreases ns, 0
  {
    forall i :: 0 <= i < |ns| ==> WellFormed(ns[i])
  }

  /** Every `not` belongs to a `not in`. */
  predicate NoBareNot(ts: seq<Tok>) {
    forall i :: 0 <= i < |ts| && ts[i] == NotTok ==> i + 1 < |ts| && ts[i + 1] == InTok
  }

  /** No Not node; a negated membership is one. */
  predicate NotFree(n: Node)
    decreases n
  {
    match n
    case And(parts) => forall i :: 0 <= i < |parts| ==> NotFree(parts[i])
    case Or(parts) => forall i :: 0 <= i < |parts| ==> NotFree(parts[i])
    case Not(_) => false
    case _ => true
  }

  // ---- Grammar: OR < AND < NOT < comparison or parentheses ----

  /** A parsed prefix and what follows it, or a syntax error. */
  datatype Parsed<T> = Fail | Done(value: T, rest: seq<Tok>)

  function ParseOr(ts: seq<Tok>): (r: Parsed<Node>)
    ensures r.Done? ==> |r.rest| < |ts|
    decreases |ts|, 5
  {
    match ParseAnd(ts)
    case Fail => Fail
    case Done(n, rest) => OrTail([n], rest)
  }

  function OrTail(parts: seq<Node>, ts: seq<Tok>): (r: Parsed<Node>)
    requires parts != []
    ensures r.Done? ==> |r.rest| <= |ts|
    decreases |ts|, 4
  {
    if ts != [] && ts[0] == OrTok then
      match ParseAnd(ts[1..])
      case Fail => Fail
      case Done(n, rest) => OrTail(parts + [n], rest)
    else Done(if |parts| == 1 then parts[0] else Or(parts), ts)
  }

  function ParseAnd(ts: seq<Tok>): (r: Parsed<Node>)
    ensures r.Done? ==> |r.rest| < |ts|
    decreases |ts|, 3
  {
    match ParseNot(ts)
    case Fail => Fail
    case Done(n, rest) => AndTail([n], rest)
  }

  function AndTail(parts: seq<Node>, ts: seq<Tok>): (r: Parsed<Node>)
    requires parts != []
    ensures r.Done? ==> |r.rest| <= |ts|
    decreases |ts|, 2
  {
    if ts != [] && ts[0] == AndTok then
      match ParseNot(ts[1..])
      case Fail => Fail
      case Done(n, rest) => AndTail(parts + [n], rest)
    else Done(if |parts| == 1 then parts[0] else And(parts), ts)
  }

  function ParseNot(ts: seq<Tok>): (r: Parsed<Node>)
    ensures r.Done? ==> |r.rest| < |ts|
    decreases |ts|, 1
  {
    if ts != [] && ts[0] == NotTok then
      match ParseNot(ts[1..])
      case Fail => Fail
      case Done(n, rest) => Done(Not(n), rest)
    else ParsePrimary(ts)
  }

  function ParsePrimary(ts: seq<Tok>): (r: Parsed<Node>)
    ensures r.Done? ==> |r.rest| < |ts|
    decreases |ts|, 0
  {
    if ts != [] && ts[0] == LParen then
      match ParseOr(ts[1..])
      case Fail => Fail
      case Done(n, rest) => if rest != [] && rest[0] == RParen then Done(n, rest[1..]) else Fail
    else ParseCmp(ts)
  }

  function ParseCmp(ts: seq<Tok>): (r: Parsed<Node>)
    ensures r.Done? ==> |r.rest| < |ts|
  {
    match ParseOperand(ts)
    case Fail => Fail
    case Done(left, rest) => CmpTail(left, rest)
  }

  /** What may follow the first operand: a comparison, a membership, `contains`, or nothing of these. */
  function CmpTail(left: Node, ts: seq<Tok>): (r: Parsed<Node>)
    ensures r.Done? ==> |r.rest| <= |ts|
  {
    if ts == [] then Done(left, ts)
    else match ts[0]
      case OpTok(op) => BinaryTail(left, ts[0], ts[1..])
      case ContainsTok => BinaryTail(left, ts[0], ts[1..])
      case InTok => ListAfter(left, false, ts[1..])
      case NotTok => if |ts| > 1 && ts[1] == InTok then ListAfter(left, true, ts[2..]) else Done(left, ts)
      case _ => Done(left, ts)
  }

  function BinaryTail(left: Node, op: Tok, ts: seq<Tok>): (r: Parsed<Node>)
    requires op.OpTok? || op.ContainsTok?
    ensures r.Done? ==> |r.rest| < |ts|
  {
    match ParseOperand(ts)
    case Fail => Fail
    case Done(right, rest) => Done(if op.OpTok? then Compare(left, op.op, right) else Contains(left, right), rest)
  }

  function ListAfter(left: Node, negated: bool, ts: seq<Tok>): (r: Parsed<Node>)
    ensures r.Done? ==> |r.rest| < |ts|
  {
    match ParseList(ts)
    case Fail => Fail
    case Done(items, rest) => Done(InExpr(left, items, negated), rest)
  }

  function ParseOperand(ts: seq<Tok>): (r: Parsed<Node>)
    ensures r.Done? ==> |r.rest| < |ts|
  {
    if ts == [] then Fail else
      match ts[0]
      case LitTok(v) => Done(Literal(v), ts[1..])
      case PathTok(p) => Done(Path(p), ts[1..])
      case TrueTok => Done(Literal(Bool(true)), ts[1..])
      case FalseTok => Done(Literal(Bool(false)), ts[1..])
      case _ => Fail
  }

  function ParseItem(ts: seq<Tok>): (r: Parsed<Value>)
    ensures r.Done? ==> |r.rest| < |ts|
  {
    if ts == [] then Fail else
      match ts[0]
      case LitTok(v) => Done(v, ts[1..])
      case TrueTok => Done(Bool(true), ts[1..])
      case FalseTok => Done(Bool(false), ts[1..])
      case _ => Fail
  }

  function ParseList(ts: seq<Tok>): (r: Parsed<seq<Value>>)
    ensures r.Done? ==> |r.rest| < |ts|
  {
    if ts == [] || ts[0] != LBrack then Fail else ListTail([], ts[1..])
  }

  function ListTail(items: seq<Value>, ts: seq<Tok>): (r: Parsed<seq<Value>>)
    ensures r.Done? ==> |r.rest| < |ts|
    decreases |ts|
  {
    match ParseItem(ts)
    case Fail => Fail
    case Done(v, rest) =>
      if rest != [] && rest[0] == Comma then ListTail(items + [v], rest[1..])
      else if rest != [] && rest[0] == RBrack then Done(items + [v], rest[1..])
      else Fail
  }

  /** The whole input must be one expression. */
  function Parse(ts: seq<Tok>): Option<Node> {
    match ParseOr(ts)
    case Fail => None
    case Done(n, rest) => if rest == [] then Some(n) else None
  }

  // ---- Rendering with the parentheses that precedence requires ----

  function Level(n: Node): nat {
    match n
    case Or(_) => 0
    case And(_) => 1
    case Not(_) => 2
    case _ => 3
  }

  function ValueTok(v: Value): Tok {
    match v
    case Bool(true) => TrueTok
    case Bool(false) => FalseTok
    case _ => LitTok(v)
  }

  function OperandTok(n: Node): Tok
    requires IsOperand(n)
  {
    match n
    case Path(p) => PathTok(p)
    case Literal(v) => ValueTok(v)
  }

  function RenderItems(items: seq<Value>): seq<Tok> {
    if items == [] then [RBrack] else [Comma, ValueTok(items[0])] + RenderItems(items[1..])
  }

  function RenderList(items: seq<Value>): seq<Tok>
    requires items != []
  {
    [LBrack, ValueTok(items[0])] + RenderItems(items[1..])
  }

  /** Parentheses around anything that binds looser than its context. */
  function Render(n: Node, level: nat): seq<Tok>
    requires WellFormed(n)
    decreases n, 2
  {
    if Level(n) < level then [LParen] + RenderBody(n) + [RParen] else RenderBody(n)
  }

  function RenderBody(n: Node): seq<Tok>
    requires WellFormed(n)
    decreases n, 1
  {
    match n
    case Literal(_) => [OperandTok(n)]
    case Path(_) => [OperandTok(n)]
    case Compare(l, op, r) => [OperandTok(l), OpTok(op), OperandTok(r)]
    case InExpr(l, items, negated) => [OperandTok(l)] + (if negated then [NotTok, InTok] else [InTok]) +
      RenderList(items)
    case Contains(l, r) => [OperandTok(l), ContainsTok, OperandTok(r)]
    case Not(inner) => [NotTok] + Render(inner, 2)
    case And(parts) => assert AllWellFormed(parts); Render(parts[0], 2) + RenderTail(parts[1..], AndTok, 2)
    case Or(parts) => assert AllWellFormed(parts); Render(parts[0], 1) + RenderTail(parts[1..], OrTok, 1)
  }

  function RenderTail(ns: seq<Node>, sep: Tok, level: nat): seq<Tok>
    requires AllWellFormed(ns)
    decreases ns, 0
  {
    if ns == [] then [] else [sep] + Render(ns[0], level) + RenderTail(ns[1..], sep, level)
  }
}
