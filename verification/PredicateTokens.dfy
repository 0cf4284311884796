/** No token is ignored: what the parser accepts is, parentheses aside, exactly the rendering of its tree. */
module PredicateTokens {
  import opened Common
  import opened Predicates
  import opened PredicateProofs

  // ---- Tokens without parentheses ----

  function Bare(ts: seq<Tok>): seq<Tok> {
    if ts == [] then [] else (if ts[0] == LParen || ts[0] == RParen then [] else [ts[0]]) + Bare(ts[1..])
  }

  /** Opening minus closing parentheses. */
  function Net(ts: seq<Tok>): int {
    if ts == [] then 0 else (if ts[0] == LParen then 1 else if ts[0] == RParen then -1 else 0) + Net(ts[1..])
  }

  function BareHead(t: Tok): seq<Tok> {
    if t == LParen || t == RParen then [] else [t]
  }

  lemma {:induction false} BareCons(t: Tok, ts: seq<Tok>)
    ensures Bare([t] + ts) == BareHead(t) + Bare(ts)
    ensures Net([t] + ts) == (if t == LParen then 1 else if t == RParen then -1 else 0) + Net(ts)
  {
    assert ([t] + ts)[1..] == ts;
  }

  lemma {:induction false} Assoc(a: seq<Tok>, b: seq<Tok>, c: seq<Tok>)
    ensures (a + b) + c == a + (b + c)
  {
  }

  lemma {:induction false} NetConcat(a: seq<Tok>, b: seq<Tok>)
    ensures Net(a + b) == Net(a) + Net(b)
  {
    if a == [] {
      assert a + b == b;
    } else {
      NetConcat(a[1..], b);
      assert (a + b)[1..] == a[1..] + b;
    }
  }

  lemma {:induction false} BareConcat(a: seq<Tok>, b: seq<Tok>)
    ensures Bare(a + b) == Bare(a) + Bare(b)
  {
    if a == [] {
      assert a + b == b;
    } else {
      var t, ts := a[0], a[1..];
      BareConcat(ts, b);
      assert a + b == [t] + (ts + b) && a == [t] + ts;
      BareCons(t, ts + b);
      BareCons(t, ts);
      Assoc(BareHead(t), Bare(ts), Bare(b));
    }
  }

  predicate NoParens(ts: seq<Tok>) {
    forall i :: 0 <= i < |ts| ==> ts[i] != LParen && ts[i] != RParen
  }

  lemma {:induction false} NoParensNoNet(ts: seq<Tok>)
    requires NoParens(ts)
    ensures Net(ts) == 0
  {
    if ts != [] {
      NoParensNoNet(ts[1..]);
    }
  }

  // ---- Comparisons: token for token ----

  lemma {:induction false} OperandExact(ts: seq<Tok>)
    requires ValidToks(ts) && ParseOperand(ts).Done?
    ensures IsOperand(ParseOperand(ts).value) && ts == [OperandTok(ParseOperand(ts).value)] + ParseOperand(ts).rest
  {
    assert ValidTok(ts[0]);
  }

  lemma {:induction false} ListExact(items: seq<Value>, ts: seq<Tok>)
    requires ValidToks(ts) && ListTail(items, ts).Done?
    ensures var r, k := ListTail(items, ts), |items|;
      items < r.value && ts == [ValueTok(r.value[k])] + (RenderItems(r.value[k + 1..]) + r.rest)
    decreases |ts|
  {
    var p, r, k := ParseItem(ts), ListTail(items, ts), |items|;
    assert ValidTok(ts[0]);
    assert ts == [ValueTok(p.value)] + p.rest;
    assert p.rest == [p.rest[0]] + p.rest[1..];
    if p.rest[0] == Comma {
      assert forall i :: 0 <= i < |p.rest[1..]| ==> p.rest[1..][i] == ts[i + 2];
      ListExact(items + [p.value], p.rest[1..]);
      RenderedItems(r.value[k + 1..], r.rest);
      assert r.value[k + 1..][1..] == r.value[k + 2..];
    } else {
      RenderedItems(r.value[k + 1..], r.rest);
    }
  }

  lemma {:induction false} CmpTailExact(left: Node, ts: seq<Tok>)
    requires IsOperand(left) && ValidToks(ts) && CmpTail(left, ts).Done? && WellFormed(CmpTail(left, ts).value)
    ensures [OperandTok(left)] + ts == RenderBody(CmpTail(left, ts).value) + CmpTail(left, ts).rest
  {
    var r := CmpTail(left, ts);
    if ts != [] && (ts[0].OpTok? || ts[0].ContainsTok?) {
      assert ValidToks(ts[1..]) by {
        Suffix(ts, 1, false);
      }
      OperandExact(ts[1..]);
      assert ts == [ts[0]] + ts[1..];
    } else if ts != [] && (ts[0] == InTok || (ts[0] == NotTok && |ts| > 1 && ts[1] == InTok)) {
      var k := if ts[0] == InTok then 1 else 2;
      Suffix(ts, k, false);
      Suffix(ts[k..], 1, false);
      ListExact([], ts[k..][1..]);
      MemberExact(left, r.value.choices, ts, k, r.rest);
    }
  }

  lemma {:induction false} MemberExact(left: Node, items: seq<Value>, ts: seq<Tok>, k: nat, rest: seq<Tok>)
    requires IsOperand(left) && items != [] && forall i :: 0 <= i < |items| ==> Scalar(items[i])
    requires (k == 1 && |ts| > 1 && ts[0] == InTok) || (k == 2 && |ts| > 2 && ts[0] == NotTok && ts[1] == InTok)
    requires ts[k] == LBrack && ts[k + 1..] == [ValueTok(items[0])] + (RenderItems(items[1..]) + rest)
    ensures [OperandTok(left)] + ts == RenderBody(InExpr(left, items, k == 2)) + rest
  {
    var op, list := if k == 2 then [NotTok, InTok] else [InTok], RenderList(items);
    ListRendered(items, rest);
    assert ts[k..] == [LBrack] + ts[k + 1..];
    assert ts[..k] == op;
    assert ts == op + ts[k..];
    Regroup([OperandTok(left)], op, list, rest);
    assert RenderBody(InExpr(left, items, k == 2)) == [OperandTok(left)] + op + list;
    assert [OperandTok(left)] + op + list == [OperandTok(left)] + (op + list);
  }

  lemma {:induction false} ListRendered(items: seq<Value>, rest: seq<Tok>)
    requires items != []
    ensures RenderList(items) + rest == [LBrack] + ([ValueTok(items[0])] + (RenderItems(items[1..]) + rest))
  {
  }

  lemma {:induction false} CmpExact(ts: seq<Tok>)
    requires ValidToks(ts) && ParseCmp(ts).Done?
    ensures WellFormed(ParseCmp(ts).value) && ts == RenderBody(ParseCmp(ts).value) + ParseCmp(ts).rest
  {
    CmpSound(ts, false);
    OperandExact(ts);
    OperandSound(ts, false);
    CmpTailExact(ParseOperand(ts).value, ParseOperand(ts).rest);
  }

  // ---- Renderings, parentheses aside ----

  /** A list of operands after the first, each behind its separator. */
  function BareTail(ns: seq<Node>, sep: Tok): seq<Tok>
    requires AllWellFormed(ns)
  {
    if ns == [] then [] else [sep] + Bare(RenderBody(ns[0])) + BareTail(ns[1..], sep)
  }

  lemma {:induction false} BareRender(n: Node, level: nat)
    requires WellFormed(n)
    ensures Bare(Render(n, level)) == Bare(RenderBody(n))
  {
    if Level(n) < level {
      BareConcat([LParen] + RenderBody(n), [RParen]);
      BareConcat([LParen], RenderBody(n));
    }
  }

  lemma {:induction false} BareRenderTail(ns: seq<Node>, sep: Tok, level: nat)
    requires AllWellFormed(ns) && (sep == AndTok || sep == OrTok)
    ensures Bare(RenderTail(ns, sep, level)) == BareTail(ns, sep)
  {
    if ns != [] {
      BareRenderTail(ns[1..], sep, level);
      BareRender(ns[0], level);
      BareConcat([sep] + Render(ns[0], level), RenderTail(ns[1..], sep, level));
      BareConcat([sep], Render(ns[0], level));
    }
  }

  function BareParts(parts: seq<Node>, sep: Tok): seq<Tok>
    requires parts != [] && AllWellFormed(parts)
  {
    Bare(RenderBody(parts[0])) + BareTail(parts[1..], sep)
  }

  /** A list node renders as its parts. */
  lemma {:induction false} BareList(parts: seq<Node>, isAnd: bool)
    requires |parts| >= 2 && AllWellFormed(parts)
    ensures WellFormed(if isAnd then And(parts) else Or(parts))
    ensures Bare(RenderBody(if isAnd then And(parts) else Or(parts))) ==
      BareParts(parts, if isAnd then AndTok else OrTok)
  {
    var sep, level := if isAnd then AndTok else OrTok, if isAnd then 2 else 1;
    BareConcat(Render(parts[0], level), RenderTail(parts[1..], sep, level));
    BareRender(parts[0], level);
    BareRenderTail(parts[1..], sep, level);
  }

  lemma {:induction false} BareTailSnoc(ns: seq<Node>, n: Node, sep: Tok)
    requires AllWellFormed(ns) && WellFormed(n)
    ensures BareTail(ns + [n], sep) == BareTail(ns, sep) + ([sep] + Bare(RenderBody(n)))
  {
    var all, last := ns + [n], [sep] + Bare(RenderBody(n));
    if ns == [] {
      assert all[1..] == [] && BareTail(all[1..], sep) == [];
    } else {
      var h := [sep] + Bare(RenderBody(ns[0]));
      assert all[0] == ns[0] && all[1..] == ns[1..] + [n];
      BareTailSnoc(ns[1..], n, sep);
      Assoc(h, BareTail(ns[1..], sep), last);
    }
  }

  lemma {:induction false} BarePartsSnoc(parts: seq<Node>, n: Node, sep: Tok)
    requires parts != [] && AllWellFormed(parts) && WellFormed(n)
    ensures BareParts(parts + [n], sep) == BareParts(parts, sep) + ([sep] + Bare(RenderBody(n)))
  {
    BareTailSnoc(parts[1..], n, sep);
    assert (parts + [n])[1..] == parts[1..] + [n];
  }

  // ---- Every parse accounts for the tokens it consumes ----

  /** Parentheses aside, the input is the tree's rendering and the rest; parentheses are consumed in pairs. */
  predicate Accounts(ts: seq<Tok>, r: Parsed<Node>) {
    r.Done? ==> WellFormed(r.value) && ValidToks(r.rest) && Bare(ts) == Bare(RenderBody(r.value)) + Bare(r.rest) &&
                Net(ts) == Net(r.rest)
  }

  lemma {:induction false} CmpAccounts(ts: seq<Tok>)
    requires ValidToks(ts)
    ensures Accounts(ts, ParseCmp(ts))
  {
    if ParseCmp(ts).Done? {
      CmpSound(ts, false);
      CmpExact(ts);
      BareConcat(RenderBody(ParseCmp(ts).value), ParseCmp(ts).rest);
      NetConcat(RenderBody(ParseCmp(ts).value), ParseCmp(ts).rest);
      CmpHasNoParens(ParseCmp(ts).value);
    }
  }

  lemma {:induction false} ItemsHaveNoParens(items: seq<Value>)
    ensures NoParens(RenderItems(items))
  {
    if items != [] {
      ItemsHaveNoParens(items[1..]);
    }
  }

  lemma {:induction false} CmpHasNoParens(n: Node)
    requires WellFormed(n) && Level(n) == 3
    ensures Net(RenderBody(n)) == 0
  {
    if n.InExpr? {
      ItemsHaveNoParens(n.choices[1..]);
    }
    assert NoParens(RenderBody(n));
    NoParensNoNet(RenderBody(n));
  }

  lemma {:induction false} PrimaryAccounts(ts: seq<Tok>)
    requires ValidToks(ts)
    ensures Accounts(ts, ParsePrimary(ts))
    decreases |ts|, 0
  {
    if ts != [] && ts[0] == LParen {
      Suffix(ts, 1, false);
      OrAccounts(ts[1..]);
      var r := ParseOr(ts[1..]);
      if r.Done? && r.rest != [] {
        Suffix(r.rest, 1, false);
      }
    } else {
      CmpAccounts(ts);
      if ParseCmp(ts).Done? {
        CmpSound(ts, false);
      }
    }
  }

  lemma {:induction false} BareNot(n: Node)
    requires WellFormed(n)
    ensures Bare(RenderBody(Not(n))) == [NotTok] + Bare(RenderBody(n))
  {
    BareCons(NotTok, Render(n, 2));
    BareRender(n, 2);
  }

  lemma {:induction false} NotAccounts(ts: seq<Tok>)
    requires ValidToks(ts)
    ensures Accounts(ts, ParseNot(ts))
    decreases |ts|, 1
  {
    if ts != [] && ts[0] == NotTok {
      Suffix(ts, 1, false);
      NotAccounts(ts[1..]);
      var r := ParseNot(ts[1..]);
      assert ts == [NotTok] + ts[1..];
      BareCons(NotTok, ts[1..]);
      if r.Done? {
        BareNot(r.value);
        Assoc([NotTok], Bare(RenderBody(r.value)), Bare(r.rest));
      }
    } else {
      PrimaryAccounts(ts);
    }
  }

  lemma {:induction false} AndTailAccounts(parts: seq<Node>, ts: seq<Tok>)
    requires ValidToks(ts) && parts != [] && AllWellFormed(parts)
    ensures var r := AndTail(parts, ts);
      r.Done? ==> WellFormed(r.value) && ValidToks(r.rest) && Net(ts) == Net(r.rest) &&
                  BareParts(parts, AndTok) + Bare(ts) == Bare(RenderBody(r.value)) + Bare(r.rest)
    decreases |ts|, 2
  {
    if ts != [] && ts[0] == AndTok {
      Suffix(ts, 1, false);
      NotAccounts(ts[1..]);
      var p := ParseNot(ts[1..]);
      if p.Done? {
        BarePartsSnoc(parts, p.value, AndTok);
        AndTailAccounts(parts + [p.value], p.rest);
        Regroup(BareParts(parts, AndTok), [AndTok], Bare(RenderBody(p.value)), Bare(p.rest));
      }
    } else if |parts| >= 2 {
      BareList(parts, true);
    }
  }

  lemma {:induction false} OrTailAccounts(parts: seq<Node>, ts: seq<Tok>)
    requires ValidToks(ts) && parts != [] && AllWellFormed(parts)
    ensures var r := OrTail(parts, ts);
      r.Done? ==> WellFormed(r.value) && ValidToks(r.rest) && Net(ts) == Net(r.rest) &&
                  BareParts(parts, OrTok) + Bare(ts) == Bare(RenderBody(r.value)) + Bare(r.rest)
    decreases |ts|, 4
  {
    if ts != [] && ts[0] == OrTok {
      Suffix(ts, 1, false);
      AndAccounts(ts[1..]);
      var p := ParseAnd(ts[1..]);
      if p.Done? {
        BarePartsSnoc(parts, p.value, OrTok);
        OrTailAccounts(parts + [p.value], p.rest);
        Regroup(BareParts(parts, OrTok), [OrTok], Bare(RenderBody(p.value)), Bare(p.rest));
      }
    } else if |parts| >= 2 {
      BareList(parts, false);
    }
  }

  lemma {:induction false} Regroup(a: seq<Tok>, b: seq<Tok>, c: seq<Tok>, d: seq<Tok>)
    ensures (a + (b + c)) + d == a + (b + (c + d))
  {
  }

  lemma {:induction false} AndAccounts(ts: seq<Tok>)
    requires ValidToks(ts)
    ensures Accounts(ts, ParseAnd(ts))
    decreases |ts|, 3
  {
    NotAccounts(ts);
    var r := ParseNot(ts);
    if r.Done? {
      AndTailAccounts([r.value], r.rest);
    }
  }

  lemma {:induction false} OrAccounts(ts: seq<Tok>)
    requires ValidToks(ts)
    ensures Accounts(ts, ParseOr(ts))
    decreases |ts|, 5
  {
    AndAccounts(ts);
    var r := ParseAnd(ts);
    if r.Done? {
      OrTailAccounts([r.value], r.rest);
    }
  }

  /** An accepted token list is, parentheses aside, the rendering of its tree, and its parentheses are balanced in
      number. */
  lemma {:induction false} NothingIgnored(ts: seq<Tok>)
    requires ValidToks(ts) && Parse(ts).Some?
    ensures WellFormed(Parse(ts).value) && Bare(ts) == Bare(Render(Parse(ts).value, 0)) && Net(ts) == 0
  {
    OrAccounts(ts);
    BareRender(Parse(ts).value, 0);
  }
}
