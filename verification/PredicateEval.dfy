/** Evaluating predicates: missing data reads as null, and null never makes a comparison true. */
module PredicateEval {
  import opened Common
  import opened Predicates
  import opened PredicateProofs

  /** The host language on non-null values: equality, ordering and membership (None where it raises a type error), and
      truth. All results below hold for every choice of these. */
  datatype Host = Host(
    eq: (Value, Value) -> bool,
    order: (string, Value, Value) -> Option<bool>,
    within: (Value, Value) -> Option<bool>,
    truthy: Value -> bool)

  /** Error stands for the "unknown node", "expected operand" and "unknown operator" exceptions. */
  datatype Outcome<T> = Ok(value: T) | Error

  /** Follows the segments down; anything missing reads as null. */
  function Resolve(ctx: Value, segments: seq<string>): Value
    decreases segments
  {
    if segments == [] then ctx
    else if ctx.Dict? && segments[0] in ctx.fields then Resolve(ctx.fields[segments[0]], segments[1..])
    else Null
  }

  method ResolvePath(ctx: Value, segments: seq<string>) returns (v: Value)
    ensures v == Resolve(ctx, segments)
  {
    v := ctx;
    for i := 0 to |segments|
      invariant Resolve(ctx, segments) == Resolve(v, segments[i..])
    {
      assert segments[i..][1..] == segments[i + 1..];
      if v.Dict? && segments[i] in v.fields {
        v := v.fields[segments[i]];
      } else {
        return Null;
      }
    }
  }

  function OrFalse(o: Option<bool>): bool {
    o.Some? && o.value
  }

  function CompareValues(h: Host, op: string, l: Value, r: Value): Outcome<bool> {
    if l == Null || r == Null then Ok(false)
    else if op == "==" then Ok(h.eq(l, r))
    else if op == "!=" then Ok(!h.eq(l, r))
    else if op in {">", ">=", "<", "<="} then Ok(OrFalse(h.order(op, l, r)))
    else Error
  }

  function Truthy(h: Host, v: Value): bool {
    v != Null && h.truthy(v)
  }

  function EvalValue(n: Node, ctx: Value): Outcome<Value> {
    match n
    case Literal(v) => Ok(v)
    case Path(p) => Ok(Resolve(ctx, p))
    case _ => Error
  }

  function Found(h: Host, v: Value, choices: seq<Value>): bool {
    exists i :: 0 <= i < |choices| && choices[i] != Null && h.eq(v, choices[i])
  }

  function Evaluate(h: Host, n: Node, ctx: Value): Outcome<bool>
    decreases n, 1
  {
    match n
    case Literal(v) => Ok(Truthy(h, v))
    case Path(p) => Ok(Truthy(h, Resolve(ctx, p)))
    case And(parts) => EvaluateAll(h, parts, ctx, true)
    case Or(parts) => EvaluateAll(h, parts, ctx, false)
    case Not(inner) =>
      (match Evaluate(h, inner, ctx)
       case Error => Error
       case Ok(b) => Ok(!b))
    case Compare(l, op, r) =>
      var lv, rv := EvalValue(l, ctx), EvalValue(r, ctx);
      if lv.Error? || rv.Error? then Error else CompareValues(h, op, lv.value, rv.value)
    case InExpr(l, choices, negated) =>
      var lv := EvalValue(l, ctx);
      if lv.Error? then Error
      else if lv.value == Null then Ok(false)
      else Ok(Found(h, lv.value, choices) != negated)
    case Contains(l, r) =>
      var lv, rv := EvalValue(l, ctx), EvalValue(r, ctx);
      if lv.Error? || rv.Error? then Error
      else if lv.value == Null || rv.value == Null then Ok(false)
      else Ok(OrFalse(h.within(rv.value, lv.value)))
  }

  /** Parts in order; stops at the first one that differs from `unit` (true for and, false for or). */
  function EvaluateAll(h: Host, ns: seq<Node>, ctx: Value, unit: bool): Outcome<bool>
    decreases ns, 0
  {
    if ns == [] then Ok(unit) else
      match Evaluate(h, ns[0], ctx)
      case Error => Error
      case Ok(b) => if b != unit then Ok(b) else EvaluateAll(h, ns[1..], ctx, unit)
  }

  // ---- Accepted predicates never raise ----

  lemma {:induction false} WellFormedEvaluates(h: Host, n: Node, ctx: Value)
    requires WellFormed(n)
    ensures Evaluate(h, n, ctx).Ok?
    decreases n, 1
  {
    match n
    case And(parts) => AllEvaluate(h, parts, ctx, true);
    case Or(parts) => AllEvaluate(h, parts, ctx, false);
    case Not(inner) => WellFormedEvaluates(h, inner, ctx);
    case _ =>
  }

  lemma {:induction false} AllEvaluate(h: Host, ns: seq<Node>, ctx: Value, unit: bool)
    requires AllWellFormed(ns)
    ensures EvaluateAll(h, ns, ctx, unit).Ok?
    decreases ns, 0
  {
    if ns != [] {
      WellFormedEvaluates(h, ns[0], ctx);
      AllEvaluate(h, ns[1..], ctx, unit);
    }
  }

  /** A predicate that parses evaluates to a truth value in every context. */
  lemma {:induction false} AcceptedEvaluates(h: Host, ts: seq<Tok>, ctx: Value)
    requires ValidToks(ts) && Parse(ts).Some?
    ensures Evaluate(h, Parse(ts).value, ctx).Ok?
  {
    ParseAcceptsWellFormed(ts);
    WellFormedEvaluates(h, Parse(ts).value, ctx);
  }

  // ---- What the connectives and comparisons mean ----

  predicate Holds(h: Host, n: Node, ctx: Value) {
    Evaluate(h, n, ctx) == Ok(true)
  }

  lemma {:induction false} AllHold(h: Host, ns: seq<Node>, ctx: Value)
    requires AllWellFormed(ns)
    ensures EvaluateAll(h, ns, ctx, true) == Ok(true) <==> forall i :: 0 <= i < |ns| ==> Holds(h, ns[i], ctx)
  {
    if ns != [] {
      WellFormedEvaluates(h, ns[0], ctx);
      AllHold(h, ns[1..], ctx);
      assert forall i :: 1 <= i < |ns| ==> ns[i] == ns[1..][i - 1];
    }
  }

  lemma {:induction false} SomeHolds(h: Host, ns: seq<Node>, ctx: Value)
    requires AllWellFormed(ns)
    ensures EvaluateAll(h, ns, ctx, false) == Ok(true) <==> exists i :: 0 <= i < |ns| && Holds(h, ns[i], ctx)
  {
    if ns != [] {
      WellFormedEvaluates(h, ns[0], ctx);
      SomeHolds(h, ns[1..], ctx);
      assert forall i :: 1 <= i < |ns| ==> ns[i] == ns[1..][i - 1];
    }
  }

  /** `and` holds exactly when every part does, `or` exactly when some part does, `not` exactly when its operand does
      not. */
  lemma {:induction false} ConnectivesMean(h: Host, n: Node, ctx: Value)
    requires WellFormed(n)
    ensures n.And? ==> (Holds(h, n, ctx) <==> forall i :: 0 <= i < |n.parts| ==> Holds(h, n.parts[i], ctx))
    ensures n.Or? ==> (Holds(h, n, ctx) <==> exists i :: 0 <= i < |n.parts| && Holds(h, n.parts[i], ctx))
    ensures n.Not? ==> (Holds(h, n, ctx) <==> !Holds(h, n.inner, ctx))
  {
    match n
    case And(parts) => AllHold(h, parts, ctx);
    case Or(parts) => SomeHolds(h, parts, ctx);
    case Not(inner) => WellFormedEvaluates(h, inner, ctx);
    case _ =>
  }

  /** The value an operand stands for: its literal, or what its path leads to. */
  function Reads(n: Node, ctx: Value): Value
    requires IsOperand(n)
  {
    if n.Literal? then n.v else Resolve(ctx, n.segments)
  }

  /** Null on either side makes every comparison false; otherwise `==` is the host's equality, `!=` the opposite of
      `==`,
      and the orderings hold exactly when the host's do. A bare operand holds exactly when its value is truthy. */
  lemma {:induction false} ComparisonsMean(h: Host, n: Node, ctx: Value)
    requires WellFormed(n) && (n.Compare? || n.Contains? || IsOperand(n))
    ensures IsOperand(n) ==> (Holds(h, n, ctx) <==> Reads(n, ctx) != Null && h.truthy(Reads(n, ctx)))
    ensures n.Compare? || n.Contains? ==>
      var l, r := Reads(n.left, ctx), Reads(n.right, ctx);
      if l == Null || r == Null then !Holds(h, n, ctx)
      else if n.Contains? then Holds(h, n, ctx) <==> h.within(r, l) == Some(true)
      else if n.op == "==" then Holds(h, n, ctx) <==> h.eq(l, r)
      else if n.op == "!=" then Holds(h, n, ctx) <==> !Holds(h, Compare(n.left, "==", n.right), ctx)
      else Holds(h, n, ctx) <==> h.order(n.op, l, r) == Some(true)
  {
  }

  /** `x in [v1, .., vn]` holds exactly when some `x == vi` does, and on a non-null x `not in` is its opposite; with x
      missing neither holds. */
  lemma {:induction false} MembershipMeans(h: Host, n: Node, ctx: Value)
    requires WellFormed(n) && n.InExpr?
    ensures !n.negated ==>
      (Holds(h, n, ctx) <==>
       exists i :: 0 <= i < |n.choices| && Holds(h, Compare(n.left, "==", Literal(n.choices[i])), ctx))
    ensures n.negated ==>
      (Holds(h, n, ctx) <==> Reads(n.left, ctx) != Null && !Holds(h, InExpr(n.left, n.choices, false), ctx))
  {
    forall i | 0 <= i < |n.choices|
      ensures Holds(h, Compare(n.left, "==", Literal(n.choices[i])), ctx) <==>
        Reads(n.left, ctx) != Null && n.choices[i] != Null && h.eq(Reads(n.left, ctx), n.choices[i])
    {
      assert Scalar(n.choices[i]);
    }
  }

  // ---- Missing data is fail-safe ----

  /** Every path reads in the small context as in the large one, or as null. */
  ghost predicate Refines(small: Value, large: Value) {
    forall p :: p != [] ==> Resolve(small, p) == Null || Resolve(small, p) == Resolve(large, p)
  }

  lemma {:induction false} OperandRefines(n: Node, small: Value, large: Value)
    requires IsOperand(n) && Refines(small, large)
    ensures EvalValue(n, small).Ok? && EvalValue(n, large).Ok?
    ensures EvalValue(n, small).value == Null || EvalValue(n, small) == EvalValue(n, large)
  {
    if n.Path? {
      assert Resolve(small, n.segments) == Null || Resolve(small, n.segments) == Resolve(large, n.segments);
    }
  }

  /** No path under an odd number of negations (under an even number, when `up` is false). */
  predicate PathsUp(n: Node, up: bool)
    decreases n, 1
  {
    match n
    case Literal(_) => true
    case Path(_) => up
    case Compare(l, _, r) => up || (!l.Path? && !r.Path?)
    case InExpr(l, _, _) => up || !l.Path?
    case Contains(l, r) => up || (!l.Path? && !r.Path?)
    case And(parts) => AllPathsUp(parts, up)
    case Or(parts) => AllPathsUp(parts, up)
    case Not(inner) => PathsUp(inner, !up)
  }

  predicate AllPathsUp(ns: seq<Node>, up: bool)
    decreases ns, 0
  {
    ns == [] || (PathsUp(ns[0], up) && AllPathsUp(ns[1..], up))
  }

  lemma {:induction false} NotFreePathsUp(n: Node)
    requires NotFree(n)
    ensures PathsUp(n, true)
    decreases n, 1
  {
    match n
    case And(parts) => AllNotFreePathsUp(parts);
    case Or(parts) => AllNotFreePathsUp(parts);
    case _ =>
  }

  lemma {:induction false} AllNotFreePathsUp(ns: seq<Node>)
    requires forall i :: 0 <= i < |ns| ==> NotFree(ns[i])
    ensures AllPathsUp(ns, true)
    decreases ns, 0
  {
    if ns != [] {
      NotFreePathsUp(ns[0]);
      AllNotFreePathsUp(ns[1..]);
    }
  }

  /** Filling in data moves truth in one direction only: up if no path is under an odd number of negations, down if none
      is under an even number. */
  lemma {:induction false} TruthMovesOneWay(h: Host, n: Node, small: Value, large: Value, up: bool)
    requires WellFormed(n) && PathsUp(n, up) && Refines(small, large)
    ensures var a, b := if up then small else large, if up then large else small;
      Evaluate(h, n, a) == Ok(true) ==> Evaluate(h, n, b) == Ok(true)
    decreases n, 1
  {
    match n
    case Literal(_) =>
    case Path(p) => OperandRefines(n, small, large);
    case Compare(l, op, r) =>
      OperandRefines(l, small, large);
      OperandRefines(r, small, large);
    case InExpr(l, choices, negated) => OperandRefines(l, small, large);
    case Contains(l, r) =>
      OperandRefines(l, small, large);
      OperandRefines(r, small, large);
    case Not(inner) =>
      TruthMovesOneWay(h, inner, small, large, !up);
      WellFormedEvaluates(h, inner, small);
      WellFormedEvaluates(h, inner, large);
    case And(parts) => AllMoveOneWay(h, parts, small, large, up, true);
    case Or(parts) => AllMoveOneWay(h, parts, small, large, up, false);
  }

  lemma {:induction false} AllMoveOneWay(h: Host, ns: seq<Node>, small: Value, large: Value, up: bool, unit: bool)
    requires AllWellFormed(ns) && AllPathsUp(ns, up) && Refines(small, large)
    ensures var a, b := if up then small else large, if up then large else small;
      EvaluateAll(h, ns, a, unit) == Ok(true) ==> EvaluateAll(h, ns, b, unit) == Ok(true)
    decreases ns, 0
  {
    if ns != [] {
      TruthMovesOneWay(h, ns[0], small, large, up);
      WellFormedEvaluates(h, ns[0], small);
      WellFormedEvaluates(h, ns[0], large);
      AllMoveOneWay(h, ns[1..], small, large, up, unit);
    }
  }

  /** From source tokens to truth: an accepted predicate that has no path under an odd number of negations and holds
      with
      data missing still holds when the data is there. Input without a bare `not` always qualifies. */
  lemma {:induction false} MissingDataIsFailSafe(h: Host, ts: seq<Tok>, small: Value, large: Value)
    requires ValidToks(ts) && Parse(ts).Some? && Refines(small, large)
    ensures NoBareNot(ts) ==> PathsUp(Parse(ts).value, true)
    ensures PathsUp(Parse(ts).value, true) && Evaluate(h, Parse(ts).value, small) == Ok(true) ==>
      Evaluate(h, Parse(ts).value, large) == Ok(true)
  {
    ParseAcceptsWellFormed(ts);
    if NoBareNot(ts) {
      NotFreePathsUp(Parse(ts).value);
    }
    if PathsUp(Parse(ts).value, true) {
      TruthMovesOneWay(h, Parse(ts).value, small, large, true);
    }
  }

  /** A bare `not` turns a missing path into truth: `not x` holds while x is missing and fails once it is there. */
  lemma {:induction false} NegationIsNotFailSafe(h: Host)
    requires h.truthy(Bool(true))
    ensures
      var ts, small, large := [NotTok, PathTok(["x"])], Dict(map[]), Dict(map["x" := Bool(true)]);
      && ValidToks(ts) && Parse(ts) == Some(Not(Path(["x"]))) && Refines(small, large)
      && Evaluate(h, Parse(ts).value, small) == Ok(true) && Evaluate(h, Parse(ts).value, large) == Ok(false)
  {
    var n, small, large := Not(Path(["x"])), Dict(map[]), Dict(map["x" := Bool(true)]);
    var ts := [NotTok, PathTok(["x"])];
    assert Render(Path(["x"]), 2) == [PathTok(["x"])];
    assert Render(n, 0) == [NotTok] + [PathTok(["x"])] == ts;
    ParseUndoesRender(n);
    assert Resolve(large, ["x"]) == Resolve(Bool(true), ["x"][1..]) == Bool(true);
    assert Resolve(small, ["x"]) == Null;
  }
}
