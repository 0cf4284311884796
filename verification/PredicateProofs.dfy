/** The grammar is unambiguous and complete: parsing undoes rendering, and accepts only well-formed trees. */
module PredicateProofs {
  import opened Common
  import opened Predicates

  // ---- What may follow an expression in a given context ----

  predicate Follows(ts: seq<Tok>, level: nat) {
    ts == [] || ts[0] == RParen || (level >= 1 && ts[0] == OrTok) || (level >= 2 && ts[0] == AndTok)
  }

  lemma {:induction false} OperandRoundTrip(n: Node, rest: seq<Tok>)
    requires IsOperand(n)
    ensures ParseOperand([OperandTok(n)] + rest) == Done(n, rest)
  {
    assert ([OperandTok(n)] + rest)[1..] == rest;
  }

  lemma {:induction false} ItemRoundTrip(v: Value, rest: seq<Tok>)
    requires Scalar(v)
    ensures ParseItem([ValueTok(v)] + rest) == Done(v, rest)
  {
    assert ([ValueTok(v)] + rest)[1..] == rest;
  }

  lemma {:induction false} ListSteps(done: seq<Value>, v: Value, ts: seq<Tok>)
    requires Scalar(v)
    ensures ListTail(done, [ValueTok(v)] + ([Comma] + ts)) == ListTail(done + [v], ts)
    ensures ListTail(done, [ValueTok(v)] + ([RBrack] + ts)) == Done(done + [v], ts)
  {
    ItemRoundTrip(v, [Comma] + ts);
    ItemRoundTrip(v, [RBrack] + ts);
    assert ([Comma] + ts)[1..] == ts && ([RBrack] + ts)[1..] == ts;
  }

  lemma {:induction false} RenderedItems(more: seq<Value>, rest: seq<Tok>)
    ensures RenderItems(more) + rest ==
      if more == [] then [RBrack] + rest else [Comma] + ([ValueTok(more[0])] + (RenderItems(more[1..]) + rest))
  {
  }

  lemma {:induction false} MoveHead<T>(done: seq<T>, ns: seq<T>)
    requires ns != []
    ensures done + [ns[0]] + ns[1..] == done + ns
  {
  }

  lemma {:induction false} ItemsRoundTrip(done: seq<Value>, v: Value, more: seq<Value>, rest: seq<Tok>)
    requires Scalar(v) && forall i :: 0 <= i < |more| ==> Scalar(more[i])
    ensures ListTail(done, [ValueTok(v)] + (RenderItems(more) + rest)) == Done(done + [v] + more, rest)
    decreases more
  {
    RenderedItems(more, rest);
    if more == [] {
      ListSteps(done, v, rest);
      assert done + [v] + more == done + [v];
    } else {
      ListSteps(done, v, [ValueTok(more[0])] + (RenderItems(more[1..]) + rest));
      ItemsRoundTrip(done + [v], more[0], more[1..], rest);
      MoveHead(done + [v], more);
    }
  }

  lemma {:induction false} ListRoundTrip(items: seq<Value>, rest: seq<Tok>)
    requires items != [] && forall i :: 0 <= i < |items| ==> Scalar(items[i])
    ensures ParseList(RenderList(items) + rest) == Done(items, rest)
  {
    var ts := RenderList(items) + rest;
    assert ts[1..] == [ValueTok(items[0])] + (RenderItems(items[1..]) + rest);
    ItemsRoundTrip([], items[0], items[1..], rest);
    assert [] + [items[0]] + items[1..] == items;
  }

  lemma {:induction false} BareRoundTrip(n: Node, rest: seq<Tok>)
    requires IsOperand(n) && Follows(rest, 2)
    ensures ParseCmp([OperandTok(n)] + rest) == Done(n, rest)
  {
    OperandRoundTrip(n, rest);
  }

  lemma {:induction false} BinaryRoundTrip(l: Node, sep: Tok, r: Node, rest: seq<Tok>)
    requires IsOperand(l) && IsOperand(r) && (sep.OpTok? || sep.ContainsTok?)
    ensures ParseCmp([OperandTok(l), sep, OperandTok(r)] + rest) ==
      Done(if sep.OpTok? then Compare(l, sep.op, r) else Contains(l, r), rest)
  {
    var ts := [sep] + ([OperandTok(r)] + rest);
    assert [OperandTok(l), sep, OperandTok(r)] + rest == [OperandTok(l)] + ts;
    OperandRoundTrip(l, ts);
    assert ts[1..] == [OperandTok(r)] + rest;
    OperandRoundTrip(r, rest);
  }

  lemma {:induction false} MembershipSteps(l: Node, ts: seq<Tok>)
    ensures CmpTail(l, [InTok] + ts) == ListAfter(l, false, ts)
    ensures CmpTail(l, [NotTok, InTok] + ts) == ListAfter(l, true, ts)
  {
    assert ([InTok] + ts)[1..] == ts && ([NotTok, InTok] + ts)[2..] == ts;
  }

  lemma {:induction false} MembershipRoundTrip(l: Node, items: seq<Value>, negated: bool, rest: seq<Tok>)
    requires IsOperand(l) && items != [] && forall i :: 0 <= i < |items| ==> Scalar(items[i])
    ensures ParseCmp([OperandTok(l)] + (if negated then [NotTok, InTok] else [InTok]) + RenderList(items) + rest)
         == Done(InExpr(l, items, negated), rest)
  {
    var op, list := if negated then [NotTok, InTok] else [InTok], RenderList(items) + rest;
    assert [OperandTok(l)] + op + RenderList(items) + rest == [OperandTok(l)] + (op + list);
    OperandRoundTrip(l, op + list);
    MembershipSteps(l, list);
    ListRoundTrip(items, rest);
  }

  /** Comparisons, memberships and bare operands. */
  lemma {:induction false} CmpRoundTrip(n: Node, rest: seq<Tok>)
    requires WellFormed(n) && Level(n) == 3 && Follows(rest, 2)
    ensures ParseCmp(RenderBody(n) + rest) == Done(n, rest)
  {
    match n
    case Literal(_) => BareRoundTrip(n, rest);
    case Path(_) => BareRoundTrip(n, rest);
    case Compare(l, op, r) => BinaryRoundTrip(l, OpTok(op), r, rest);
    case Contains(l, r) => BinaryRoundTrip(l, ContainsTok, r, rest);
    case InExpr(l, items, negated) => MembershipRoundTrip(l, items, negated, rest);
  }

  lemma {:induction false} StartsAtom(n: Node)
    requires WellFormed(n) && Level(n) == 3
    ensures RenderBody(n) != [] && RenderBody(n)[0] != NotTok && RenderBody(n)[0] != LParen
  {
  }

  // ---- The three levels, by induction on the tree ----

  /** Which level is reduced to which: a looser node in a tighter context goes through parentheses first. */
  function Rank(n: Node, level: nat): nat {
    if n.Or? then (if level == 1 then 3 else if level == 2 then 2 else 1)
    else if n.And? then (if level == 2 then 3 else if level == 0 then 2 else 1)
    else (if level == 0 then 3 else if level == 1 then 2 else 1)
  }

  /** How a primary starts: a negation, a parenthesis or an atom. */
  lemma {:induction false} PrimarySteps(ts: seq<Tok>, n: Node, rest: seq<Tok>)
    ensures ParseNot(ts) == Done(n, rest) ==> ParseNot([NotTok] + ts) == Done(Not(n), rest)
    ensures ParseOr(ts) == Done(n, [RParen] + rest) ==> ParseNot([LParen] + ts) == Done(n, rest)
    ensures ts != [] && ts[0] != NotTok && ts[0] != LParen ==> ParseNot(ts) == ParseCmp(ts)
  {
    assert ([NotTok] + ts)[1..] == ts && ([LParen] + ts)[1..] == ts && ([RParen] + rest)[1..] == rest;
  }

  lemma {:induction false} RenderedPrimary(n: Node, rest: seq<Tok>)
    requires WellFormed(n)
    ensures Render(n, 2) + rest ==
      if n.Not? then [NotTok] + (Render(n.inner, 2) + rest)
      else if Level(n) == 3 then RenderBody(n) + rest
      else [LParen] + (Render(n, 0) + ([RParen] + rest))
  {
  }

  lemma {:induction false} NotRoundTrip(n: Node, rest: seq<Tok>)
    requires WellFormed(n) && Follows(rest, 2)
    ensures ParseNot(Render(n, 2) + rest) == Done(n, rest)
    decreases n, Rank(n, 2)
  {
    RenderedPrimary(n, rest);
    if n.Not? {
      NotRoundTrip(n.inner, rest);
      PrimarySteps(Render(n.inner, 2) + rest, n.inner, rest);
    } else if Level(n) == 3 {
      StartsAtom(n);
      CmpRoundTrip(n, rest);
      PrimarySteps(RenderBody(n) + rest, n, rest);
    } else {
      OrRoundTrip(n, [RParen] + rest);
      PrimarySteps(Render(n, 0) + ([RParen] + rest), n, rest);
    }
  }

  lemma {:induction false} RenderedParts(n: Node, rest: seq<Tok>)
    requires WellFormed(n) && (n.And? || n.Or?)
    ensures AllWellFormed(n.parts) && n.parts != [] && AllWellFormed(n.parts[1..]) && WellFormed(n.parts[0])
    ensures n.And? ==> Render(n, 1) + rest == Render(n.parts[0], 2) + (RenderTail(n.parts[1..], AndTok, 2) + rest)
    ensures n.Or? ==> Render(n, 0) + rest == Render(n.parts[0], 1) + (RenderTail(n.parts[1..], OrTok, 1) + rest)
    ensures [n.parts[0]] + n.parts[1..] == n.parts
  {
  }

  lemma {:induction false} AndRoundTrip(n: Node, rest: seq<Tok>)
    requires WellFormed(n) && Follows(rest, 1)
    ensures ParseAnd(Render(n, 1) + rest) == Done(n, rest)
    decreases n, Rank(n, 1)
  {
    if n.And? {
      var ts := RenderTail(n.parts[1..], AndTok, 2) + rest;
      RenderedParts(n, rest);
      TailFollows(n.parts[1..], AndTok, 2, rest);
      NotRoundTrip(n.parts[0], ts);
      AndTailRoundTrip([n.parts[0]], n.parts[1..], rest);
    } else {
      assert Render(n, 1) == Render(n, 2);
      NotRoundTrip(n, rest);
    }
  }

  lemma {:induction false} OrRoundTrip(n: Node, rest: seq<Tok>)
    requires WellFormed(n) && Follows(rest, 0)
    ensures ParseOr(Render(n, 0) + rest) == Done(n, rest)
    decreases n, Rank(n, 0)
  {
    if n.Or? {
      var ts := RenderTail(n.parts[1..], OrTok, 1) + rest;
      RenderedParts(n, rest);
      TailFollows(n.parts[1..], OrTok, 1, rest);
      AndRoundTrip(n.parts[0], ts);
      OrTailRoundTrip([n.parts[0]], n.parts[1..], rest);
    } else {
      assert Render(n, 0) == Render(n, 1);
      AndRoundTrip(n, rest);
    }
  }

  lemma {:induction false} TailFollows(ns: seq<Node>, sep: Tok, level: nat, rest: seq<Tok>)
    requires AllWellFormed(ns) && Follows(rest, level) &&
      ((sep == OrTok && level == 1) || (sep == AndTok && level == 2))
    ensures Follows(RenderTail(ns, sep, level) + rest, level)
  {
    if ns == [] {
      assert RenderTail(ns, sep, level) + rest == rest;
    }
  }

  lemma {:induction false} TailCons(ns: seq<Node>, sep: Tok, level: nat, rest: seq<Tok>)
    requires ns != [] && AllWellFormed(ns)
    ensures AllWellFormed(ns[1..]) && WellFormed(ns[0])
    ensures RenderTail(ns, sep, level) + rest ==
      [sep] + (Render(ns[0], level) + (RenderTail(ns[1..], sep, level) + rest))
  {
  }

  /** One operand of a rendered list is parsed and moved to the parts. */
  lemma {:induction false} AndTailPeel(done: seq<Node>, ns: seq<Node>, rest: seq<Tok>)
    requires done != [] && ns != [] && AllWellFormed(ns)
    requires var ts := RenderTail(ns[1..], AndTok, 2) + rest; ParseNot(Render(ns[0], 2) + ts) == Done(ns[0], ts)
    ensures AndTail(done, RenderTail(ns, AndTok, 2) + rest) ==
      AndTail(done + [ns[0]], RenderTail(ns[1..], AndTok, 2) + rest)
  {
    var ts := Render(ns[0], 2) + (RenderTail(ns[1..], AndTok, 2) + rest);
    TailCons(ns, AndTok, 2, rest);
    assert ([AndTok] + ts)[1..] == ts;
  }

  lemma {:induction false} AndTailRoundTrip(done: seq<Node>, ns: seq<Node>, rest: seq<Tok>)
    requires AllWellFormed(ns) && Follows(rest, 1) && done != []
    ensures AndTail(done, RenderTail(ns, AndTok, 2) + rest) == AndTail(done + ns, rest)
    decreases ns, 0
  {
    if ns == [] {
      assert RenderTail(ns, AndTok, 2) + rest == rest && done + ns == done;
    } else {
      TailFollows(ns[1..], AndTok, 2, rest);
      NotRoundTrip(ns[0], RenderTail(ns[1..], AndTok, 2) + rest);
      AndTailPeel(done, ns, rest);
      AndTailRoundTrip(done + [ns[0]], ns[1..], rest);
      MoveHead(done, ns);
    }
  }

  /** One operand of a rendered list is parsed and moved to the parts. */
  lemma {:induction false} OrTailPeel(done: seq<Node>, ns: seq<Node>, rest: seq<Tok>)
    requires done != [] && ns != [] && AllWellFormed(ns)
    requires var ts := RenderTail(ns[1..], OrTok, 1) + rest; ParseAnd(Render(ns[0], 1) + ts) == Done(ns[0], ts)
    ensures OrTail(done, RenderTail(ns, OrTok, 1) + rest) ==
      OrTail(done + [ns[0]], RenderTail(ns[1..], OrTok, 1) + rest)
  {
    var ts := Render(ns[0], 1) + (RenderTail(ns[1..], OrTok, 1) + rest);
    TailCons(ns, OrTok, 1, rest);
    assert ([OrTok] + ts)[1..] == ts;
  }

  lemma {:induction false} OrTailRoundTrip(done: seq<Node>, ns: seq<Node>, rest: seq<Tok>)
    requires AllWellFormed(ns) && Follows(rest, 0) && done != []
    ensures OrTail(done, RenderTail(ns, OrTok, 1) + rest) == OrTail(done + ns, rest)
    decreases ns, 0
  {
    if ns == [] {
      assert RenderTail(ns, OrTok, 1) + rest == rest && done + ns == done;
    } else {
      TailFollows(ns[1..], OrTok, 1, rest);
      AndRoundTrip(ns[0], RenderTail(ns[1..], OrTok, 1) + rest);
      OrTailPeel(done, ns, rest);
      OrTailRoundTrip(done + [ns[0]], ns[1..], rest);
      MoveHead(done, ns);
    }
  }

  /** Parsing a rendered tree gives it back and consumes every token; in particular different trees render differently.
      */
  lemma {:induction false} ParseUndoesRender(n: Node)
    requires WellFormed(n)
    ensures Parse(Render(n, 0)) == Some(n)
  {
    OrRoundTrip(n, []);
    assert Render(n, 0) + [] == Render(n, 0);
  }

  // ---- Whatever is accepted is well-formed, and has no negation node if the input has no bare `not` ----

  /** A well-formed tree, free of Not nodes if `plain`, with sound tokens left over. */
  predicate Sound(r: Parsed<Node>, plain: bool) {
    r.Done? ==> WellFormed(r.value) && SoundToks(r.rest, plain) && (plain ==> NotFree(r.value))
  }

  predicate SoundToks(ts: seq<Tok>, plain: bool) {
    ValidToks(ts) && (plain ==> NoBareNot(ts))
  }

  predicate SoundParts(parts: seq<Node>, plain: bool) {
    parts != [] && AllWellFormed(parts) && (plain ==> forall i :: 0 <= i < |parts| ==> NotFree(parts[i]))
  }

  lemma {:induction false} Suffix(ts: seq<Tok>, k: nat, plain: bool)
    requires SoundToks(ts, plain) && k <= |ts|
    ensures SoundToks(ts[k..], plain)
  {
    forall i | plain && 0 <= i < |ts[k..]| && ts[k..][i] == NotTok
      ensures i + 1 < |ts[k..]| && ts[k..][i + 1] == InTok {
      assert ts[k + i] == NotTok;
    }
  }

  lemma {:induction false} ListSound(items: seq<Value>, ts: seq<Tok>, plain: bool)
    requires SoundToks(ts, plain) && ListTail(items, ts).Done? && forall i :: 0 <= i < |items| ==> Scalar(items[i])
    ensures var r := ListTail(items, ts);
      SoundToks(r.rest, plain) && r.value != [] && forall i :: 0 <= i < |r.value| ==> Scalar(r.value[i])
    decreases |ts|
  {
    var r := ParseItem(ts);
    assert ValidTok(ts[0]);
    Suffix(ts, 1, plain);
    Suffix(r.rest, 1, plain);
    if r.rest[0] == Comma {
      ListSound(items + [r.value], r.rest[1..], plain);
    }
  }

  lemma {:induction false} OperandSound(ts: seq<Tok>, plain: bool)
    requires SoundToks(ts, plain) && ParseOperand(ts).Done?
    ensures IsOperand(ParseOperand(ts).value) && SoundToks(ParseOperand(ts).rest, plain)
  {
    assert ValidTok(ts[0]);
    Suffix(ts, 1, plain);
  }

  lemma {:induction false} MembershipSound(ts: seq<Tok>, plain: bool)
    requires SoundToks(ts, plain) && ParseList(ts).Done?
    ensures var r := ParseList(ts); SoundToks(r.rest, plain) && r.value != [] && forall i :: 0 <= i < |r.value| ==>
      Scalar(r.value[i])
  {
    Suffix(ts, 1, plain);
    ListSound([], ts[1..], plain);
  }

  lemma {:induction false} BinarySound(left: Node, op: Tok, ts: seq<Tok>, plain: bool)
    requires IsOperand(left) && ValidTok(op) && (op.OpTok? || op.ContainsTok?) && SoundToks(ts, plain)
    ensures Sound(BinaryTail(left, op, ts), plain)
  {
    if ParseOperand(ts).Done? {
      OperandSound(ts, plain);
    }
  }

  lemma {:induction false} MemberSound(left: Node, negated: bool, ts: seq<Tok>, plain: bool)
    requires IsOperand(left) && SoundToks(ts, plain)
    ensures Sound(ListAfter(left, negated, ts), plain)
  {
    if ParseList(ts).Done? {
      MembershipSound(ts, plain);
    }
  }

  lemma {:induction false} CmpTailSound(left: Node, ts: seq<Tok>, plain: bool)
    requires IsOperand(left) && SoundToks(ts, plain)
    ensures Sound(CmpTail(left, ts), plain)
  {
    if ts != [] {
      assert ValidTok(ts[0]);
      Suffix(ts, 1, plain);
      match ts[0]
      case OpTok(_) => BinarySound(left, ts[0], ts[1..], plain);
      case ContainsTok => BinarySound(left, ts[0], ts[1..], plain);
      case InTok => MemberSound(left, false, ts[1..], plain);
      case NotTok =>
        if |ts| > 1 && ts[1] == InTok {
          Suffix(ts, 2, plain);
          MemberSound(left, true, ts[2..], plain);
        }
      case _ =>
    }
  }

  lemma {:induction false} CmpSound(ts: seq<Tok>, plain: bool)
    requires SoundToks(ts, plain)
    ensures Sound(ParseCmp(ts), plain)
  {
    if ParseOperand(ts).Done? {
      OperandSound(ts, plain);
      CmpTailSound(ParseOperand(ts).value, ParseOperand(ts).rest, plain);
    }
  }

  lemma {:induction false} PrimarySound(ts: seq<Tok>, plain: bool)
    requires SoundToks(ts, plain)
    ensures Sound(ParsePrimary(ts), plain)
    decreases |ts|, 0
  {
    if ts != [] && ts[0] == LParen {
      Suffix(ts, 1, plain);
      OrSound(ts[1..], plain);
      var r := ParseOr(ts[1..]);
      if r.Done? && r.rest != [] {
        Suffix(r.rest, 1, plain);
      }
    } else {
      CmpSound(ts, plain);
    }
  }

  lemma {:induction false} NotSound(ts: seq<Tok>, plain: bool)
    requires SoundToks(ts, plain)
    ensures Sound(ParseNot(ts), plain)
    decreases |ts|, 1
  {
    if ts != [] && ts[0] == NotTok {
      Suffix(ts, 1, plain);
      if plain {
        assert ts[1..][0] == InTok;
        assert ParsePrimary(ts[1..]) == Fail;
      } else {
        NotSound(ts[1..], plain);
      }
    } else {
      PrimarySound(ts, plain);
    }
  }

  lemma {:induction false} AndTailSound(parts: seq<Node>, ts: seq<Tok>, plain: bool)
    requires SoundToks(ts, plain) && SoundParts(parts, plain)
    ensures Sound(AndTail(parts, ts), plain)
    decreases |ts|, 2
  {
    if ts != [] && ts[0] == AndTok {
      Suffix(ts, 1, plain);
      NotSound(ts[1..], plain);
      var r := ParseNot(ts[1..]);
      if r.Done? {
        AndTailSound(parts + [r.value], r.rest, plain);
      }
    }
  }

  lemma {:induction false} AndSound(ts: seq<Tok>, plain: bool)
    requires SoundToks(ts, plain)
    ensures Sound(ParseAnd(ts), plain)
    decreases |ts|, 3
  {
    NotSound(ts, plain);
    var r := ParseNot(ts);
    if r.Done? {
      AndTailSound([r.value], r.rest, plain);
    }
  }

  lemma {:induction false} OrTailSound(parts: seq<Node>, ts: seq<Tok>, plain: bool)
    requires SoundToks(ts, plain) && SoundParts(parts, plain)
    ensures Sound(OrTail(parts, ts), plain)
    decreases |ts|, 4
  {
    if ts != [] && ts[0] == OrTok {
      Suffix(ts, 1, plain);
      AndSound(ts[1..], plain);
      var r := ParseAnd(ts[1..]);
      if r.Done? {
        OrTailSound(parts + [r.value], r.rest, plain);
      }
    }
  }

  lemma {:induction false} OrSound(ts: seq<Tok>, plain: bool)
    requires SoundToks(ts, plain)
    ensures Sound(ParseOr(ts), plain)
    decreases |ts|, 5
  {
    AndSound(ts, plain);
    var r := ParseAnd(ts);
    if r.Done? {
      OrTailSound([r.value], r.rest, plain);
    }
  }

  /** Accepted trees are exactly the well-formed ones: every accepted tree is well-formed, and every well-formed tree is
      accepted in its rendered form. Without a bare `not` in the input there is no Not node in the tree. */
  lemma {:induction false} ParseAcceptsWellFormed(ts: seq<Tok>)
    requires ValidToks(ts) && Parse(ts).Some?
    ensures WellFormed(Parse(ts).value) && Parse(Render(Parse(ts).value, 0)) == Parse(ts)
    ensures NoBareNot(ts) ==> NotFree(Parse(ts).value)
  {
    OrSound(ts, NoBareNot(ts));
    ParseUndoesRender(Parse(ts).value);
  }
}
