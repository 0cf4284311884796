/** The recursive-descent parser with its mutable cursor, against the grammar. */
module PredicateParser {
  import opened Common
  import opened Predicates

  class Parser {
    const toks: seq<Tok>
    var i: nat

    constructor (toks: seq<Tok>)
      ensures this.toks == toks && i == 0
    {
      this.toks, i := toks, 0;
    }

    ghost predicate Valid()
      reads this
    {
      i <= |toks|
    }

    ghost function Rest(): seq<Tok>
      requires Valid()
      reads this
    {
      toks[i..]
    }

    /** The cursor stands where the grammar says, with the same result; after a syntax error it may stand anywhere. */
    ghost predicate Agrees<T>(p: Parsed<T>, r: Option<T>)
      reads this
    {
      Valid() && match p
      case Fail => r.None?
      case Done(v, rest) => r == Some(v) && Rest() == rest
    }

    method Peek(ahead: nat) returns (t: Option<Tok>)
      requires Valid()
      ensures t == if ahead < |Rest()| then Some(Rest()[ahead]) else None
    {
      t := if i + ahead < |toks| then Some(toks[i + ahead]) else None;
    }

    method Next() returns (t: Option<Tok>)
      requires Valid()
      modifies this
      ensures Valid()
      ensures old(Rest()) == [] ==> t.None? && i == old(i)
      ensures old(Rest()) != [] ==> t == Some(old(Rest())[0]) && Rest() == old(Rest())[1..] && i == old(i) + 1
    {
      t := Peek(0);
      if t.Some? {
        i := i + 1;
      }
    }

    method Expect(kind: Tok) returns (ok: bool)
      requires Valid()
      modifies this
      ensures Valid() && ok == (old(Rest()) != [] && old(Rest())[0] == kind)
      ensures ok ==> Rest() == old(Rest())[1..] && i == old(i) + 1
    {
      var t := Peek(0);
      ok := t == Some(kind);
      if ok {
        t := Next();
      }
    }

    /** The whole input, with no token left over. */
    method ParseAll() returns (r: Option<Node>)
      requires i == 0
      modifies this
      ensures r == Parse(toks)
    {
      assert toks[0..] == toks;
      r := OrExpr();
      if r.Some? && i < |toks| {
        r := None;
      }
    }

    method OrExpr() returns (r: Option<Node>)
      requires Valid()
      modifies this
      ensures Agrees(ParseOr(old(Rest())), r)
      decreases |toks| - i, 5
    {
      r := AndExpr();
      if r.None? {
        return;
      }
      var parts := [r.value];
      var t := Peek(0);
      while t == Some(OrTok)
        invariant Valid() && parts != [] && OrTail(parts, Rest()) == ParseOr(old(Rest())) && i > old(i)
        invariant t == if Rest() != [] then Some(Rest()[0]) else None
        decreases |toks| - i
      {
        t := Next();
        r := AndExpr();
        if r.None? {
          return;
        }
        parts := parts + [r.value];
        t := Peek(0);
      }
      r := Some(if |parts| == 1 then parts[0] else Or(parts));
    }

    method AndExpr() returns (r: Option<Node>)
      requires Valid()
      modifies this
      ensures Agrees(ParseAnd(old(Rest())), r)
      decreases |toks| - i, 4
    {
      r := NotExpr();
      if r.None? {
        return;
      }
      var parts := [r.value];
      var t := Peek(0);
      while t == Some(AndTok)
        invariant Valid() && parts != [] && AndTail(parts, Rest()) == ParseAnd(old(Rest())) && i > old(i)
        invariant t == if Rest() != [] then Some(Rest()[0]) else None
        decreases |toks| - i
      {
        t := Next();
        r := NotExpr();
        if r.None? {
          return;
        }
        parts := parts + [r.value];
        t := Peek(0);
      }
      r := Some(if |parts| == 1 then parts[0] else And(parts));
    }

    method NotExpr() returns (r: Option<Node>)
      requires Valid()
      modifies this
      ensures Agrees(ParseNot(old(Rest())), r)
      decreases |toks| - i, 3
    {
      var t := Peek(0);
      if t == Some(NotTok) {
        t := Next();
        r := NotExpr();
        r := if r.Some? then Some(Not(r.value)) else None;
      } else {
        r := Primary();
      }
    }

    method Primary() returns (r: Option<Node>)
      requires Valid()
      modifies this
      ensures Agrees(ParsePrimary(old(Rest())), r)
      decreases |toks| - i, 2
    {
      var t := Peek(0);
      if t == Some(LParen) {
        t := Next();
        r := OrExpr();
        if r.Some? {
          var closed := Expect(RParen);
          if !closed {
            r := None;
          }
        }
      } else {
        r := Comparison();
      }
    }

    method Comparison() returns (r: Option<Node>)
      requires Valid()
      modifies this
      ensures Agrees(ParseCmp(old(Rest())), r)
    {
      var left := Operand();
      if left.None? {
        return None;
      }
      r := AfterOperand(left.value);
    }

    /** The rest of a comparison, a membership with or without `not`, `contains`, or a bare operand. */
    method AfterOperand(left: Node) returns (r: Option<Node>)
      requires Valid()
      modifies this
      ensures Agrees(CmpTail(left, old(Rest())), r)
    {
      var t := Peek(0);
      if t.None? {
        return Some(left);
      }
      match t.value {
        case OpTok(_) => r := Binary(left);
        case ContainsTok => r := Binary(left);
        case InTok =>
          t := Next();
          r := Membership(left, false);
        case NotTok =>
          var t1 := Peek(1);
          if t1 != Some(InTok) {
            return Some(left);
          }
          ghost var rest := Rest();
          t := Next();
          t := Next();
          assert Rest() == rest[2..];
          r := Membership(left, true);
        case _ => r := Some(left);
      }
    }

    method Binary(left: Node) returns (r: Option<Node>)
      requires Valid() && Rest() != [] && (Rest()[0].OpTok? || Rest()[0].ContainsTok?)
      modifies this
      ensures Agrees(BinaryTail(left, old(Rest())[0], old(Rest())[1..]), r)
    {
      var t := Next();
      var right := Operand();
      if right.None? {
        return None;
      }
      r := Some(if t.value.OpTok? then Compare(left, t.value.op, right.value) else Contains(left, right.value));
    }

    method Membership(left: Node, negated: bool) returns (r: Option<Node>)
      requires Valid()
      modifies this
      ensures Agrees(ListAfter(left, negated, old(Rest())), r)
    {
      var items := ListExpr();
      r := if items.Some? then Some(InExpr(left, items.value, negated)) else None;
    }

    method Operand() returns (r: Option<Node>)
      requires Valid()
      modifies this
      ensures Agrees(ParseOperand(old(Rest())), r)
    {
      var t := Next();
      if t.None? {
        return None;
      }
      match t.value {
        case LitTok(v) => r := Some(Literal(v));
        case PathTok(p) => r := Some(Path(p));
        case TrueTok => r := Some(Literal(Bool(true)));
        case FalseTok => r := Some(Literal(Bool(false)));
        case _ => r := None;
      }
    }

    method ListExpr() returns (r: Option<seq<Value>>)
      requires Valid()
      modifies this
      ensures Agrees(ParseList(old(Rest())), r)
    {
      var open := Expect(LBrack);
      if !open {
        return None;
      }
      var items := [];
      while true
        invariant Valid() && ListTail(items, Rest()) == ParseList(old(Rest()))
        decreases |toks| - i
      {
        var t := Next();
        if t.None? {
          return None;
        }
        match t.value {
          case LitTok(v) => items := items + [v];
          case TrueTok => items := items + [Bool(true)];
          case FalseTok => items := items + [Bool(false)];
          case _ => return None;
        }
        var sep := Peek(0);
        if sep == Some(Comma) {
          sep := Next();
        } else {
          break;
        }
      }
      var closed := Expect(RBrack);
      r := if closed then Some(items) else None;
    }
  }
}
