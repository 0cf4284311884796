/** Which queries the enforcement accepts, said of lexical bindings and the policy alone. */
module AclAcceptance {
  import opened Common
  import opened Sql
  import opened AclRewrite
  import opened AclCheck
  import opened AclNonInterference

  // ---- What a node may do, by what its names are bound to ----

  predicate BoundToBase(ctx: seq<Frame>, t: Name) {
    Binding(ctx, t).Some? && Binding(ctx, t).value.Base?
  }

  function BoundKey(ctx: seq<Frame>, t: Name): Name
    requires BoundToBase(ctx, t)
  {
    TableKey(Binding(ctx, t).value)
  }

  predicate ColumnsRestricted(policy: Policy, key: Name) {
    key in policy && policy[key].visible != {}
  }

  predicate SomeRestricted(policy: Policy, refs: set<Name>) {
    exists k :: k in refs && ColumnsRestricted(policy, k)
  }

  /** A column of a column-restricted table must be visible; other columns are free. */
  predicate VisibleColumn(policy: Policy, n: Node) {
    n.ColNode? && BoundToBase(n.ctx, n.table) && ColumnsRestricted(policy, BoundKey(n.ctx, n.table)) ==>
      n.col in policy[BoundKey(n.ctx, n.table)].visible
  }

  /** COLUMNS() only if no referenced table is column-restricted. */
  predicate NamedColumns(policy: Policy, refs: set<Name>, n: Node) {
    n.ColumnsNode? ==> !SomeRestricted(policy, refs)
  }

  /** `t.*` only on a table without column restriction, a bare star only if there is none in the query. */
  predicate FreeStar(policy: Policy, refs: set<Name>, n: Node) {
    && (n.StarNode? ==> !SomeRestricted(policy, refs))
    && (n.TableStarNode? && BoundToBase(n.ctx, n.table) ==> !ColumnsRestricted(policy, BoundKey(n.ctx, n.table)))
  }

  function VisibleCheck(policy: Policy): Node -> bool {
    (n: Node) => VisibleColumn(policy, n)
  }

  function NamedCheck(policy: Policy, refs: set<Name>): Node -> bool {
    (n: Node) => NamedColumns(policy, refs, n)
  }

  function StarsFree(policy: Policy, refs: set<Name>): Node -> bool {
    (n: Node) => FreeStar(policy, refs, n)
  }

  // ---- Names ----

  /** `names` holds every alias and real name of the base tables of a select. */
  predicate FromNamed(names: set<Name>, from: seq<Join>) {
    forall i :: 0 <= i < |from| && from[i].src.Base? ==> from[i].src.alias in names && TableKey(from[i].src) in names
  }

  /** A name that is not bound to a base table is no base table's alias or real name anywhere in the query. */
  predicate NameOk(names: set<Name>, n: Node) {
    match n
    case ColNode(ctx, t, _) => BoundToBase(ctx, t) || t !in names
    case TableStarNode(ctx, t) => BoundToBase(ctx, t) || t !in names
    case SelectNode(from) => FromNamed(names, from)
    case _ => true
  }

  function NameCheck(names: set<Name>): Node -> bool {
    (n: Node) => NameOk(names, n)
  }

  predicate CtxNamed(names: set<Name>, ctx: seq<Frame>) {
    forall i :: 0 <= i < |ctx| ==> FromNamed(names, ctx[i].from)
  }

  predicate ScopeOk(refs: set<Name>, names: set<Name>, n: Node) {
    n.ColNode? || n.TableStarNode? ==> CtxOk(refs, n.ctx) && CtxNamed(names, n.ctx)
  }

  function ScopesCheck(refs: set<Name>, names: set<Name>): Node -> bool {
    (n: Node) => ScopeOk(refs, names, n)
  }

  lemma {:induction false} FreshResolvesToItself(names: set<Name>, ctx: seq<Frame>, t: Name, fallback: map<Name, Name>)
    requires CtxNamed(names, ctx) && t !in names && fallback.Keys <= names
    ensures Resolve(ctx, t, fallback) == t
  {
    if t != "" && ctx != [] {
      if t in LocalAliasMap(ctx[0].from) {
        var k := LocalEntry(ctx[0].from, t);
        assert false;
      }
      FreshResolvesToItself(names, ctx[1..], t, fallback);
    }
  }

  // ---- The selects around every node are well-formed ----

  predicate Surrounded(refs: set<Name>, names: set<Name>, ctx: seq<Frame>) {
    CtxOk(refs, ctx) && CtxNamed(names, ctx)
  }

  lemma {:induction false} Enter(refs: set<Name>, names: set<Name>, f: Frame, ctx: seq<Frame>)
    requires Surrounded(refs, names, ctx) && FromOk(refs, f.from) && Keyed(refs, f.from) && FromNamed(names, f.from)
    ensures Surrounded(refs, names, [f] + ctx)
  {
  }

  lemma {:induction false} ScopesOk(q: Query, ctx: seq<Frame>, refs: set<Name>, names: set<Name>)
    requires Surrounded(refs, names, ctx) && Tables(q) <= refs
    requires All(q, ctx, ScopeCheck(refs)) && All(q, ctx, NameCheck(names))
    ensures All(q, ctx, ScopesCheck(refs, names))
    decreases q, 1
  {
    match q
    case UnionAll(l, r) =>
      ScopesOk(l, ctx, refs, names);
      ScopesOk(r, ctx, refs, names);
    case Select(items, from, where, grouping) =>
      var inner := [Frame(from, false)] + ctx;
      FromIsKeyed(refs, from);
      assert NodeOk(refs, SelectNode(from)) && NameOk(names, SelectNode(from));
      Enter(refs, names, Frame(from, false), ctx);
      ListScopesOk(items, inner, refs, names);
      JoinScopesOk(from, from, ctx, refs, names);
      ExprScopesOk(where, inner, refs, names);
      if grouping.By? {
        ListScopesOk(grouping.keys, inner, refs, names);
        ExprScopesOk(grouping.having, inner, refs, names);
      }
  }

  lemma {:induction false} ExprScopesOk(e: Expr, ctx: seq<Frame>, refs: set<Name>, names: set<Name>)
    requires Surrounded(refs, names, ctx) && TablesOfExpr(e) <= refs
    requires AllExpr(e, ctx, ScopeCheck(refs)) && AllExpr(e, ctx, NameCheck(names))
    ensures AllExpr(e, ctx, ScopesCheck(refs, names))
    decreases e, 1
  {
    match e
    case Op(_, args) => ListScopesOk(args, ctx, refs, names);
    case Agg(_, arg) => ExprScopesOk(arg, ctx, refs, names);
    case Alias(e1, _) => ExprScopesOk(e1, ctx, refs, names);
    case Sub(_, args, q) =>
      ListScopesOk(args, ctx, refs, names);
      ScopesOk(q, ctx, refs, names);
    case _ =>
  }

  lemma {:induction false} ListScopesOk(es: seq<Expr>, ctx: seq<Frame>, refs: set<Name>, names: set<Name>)
    requires Surrounded(refs, names, ctx) && TablesOfList(es) <= refs
    requires AllList(es, ctx, ScopeCheck(refs)) && AllList(es, ctx, NameCheck(names))
    ensures AllList(es, ctx, ScopesCheck(refs, names))
    decreases es, 0
  {
    if es != [] {
      ExprScopesOk(es[0], ctx, refs, names);
      ListScopesOk(es[1..], ctx, refs, names);
    }
  }

  lemma {:induction false} JoinScopesOk(js: seq<Join>, from: seq<Join>, ctx: seq<Frame>, refs: set<Name>,
      names: set<Name>)
    requires Surrounded(refs, names, ctx) && TablesOfJoins(js) <= refs
    requires FromOk(refs, from) && Keyed(refs, from) && FromNamed(names, from)
    requires AllJoins(js, from, ctx, ScopeCheck(refs)) && AllJoins(js, from, ctx, NameCheck(names))
    ensures AllJoins(js, from, ctx, ScopesCheck(refs, names))
    decreases js, 0
  {
    if js != [] {
      var last := js[|js| - 1];
      assert js decreases to last;
      JoinScopesOk(js[..|js| - 1], from, ctx, refs, names);
      Enter(refs, names, Frame(from, false), ctx);
      ExprScopesOk(last.on, [Frame(from, false)] + ctx, refs, names);
      if last.src.Derived? {
        Enter(refs, names, Frame(from, true), ctx);
        ScopesOk(last.src.q, [Frame(from, true)] + ctx, refs, names);
      }
    }
  }

  // ---- The walk of the checks and the binding agree, node by node ----

  /** What the checks look up for a name is what the policy says of the table the name is bound to. */
  lemma {:induction false} LookedUp(q: Query, policy: Policy, names: set<Name>, ctx: seq<Frame>, t: Name,
      fallback: map<Name, Name>)
    requires t != "" && CtxOk(Tables(q), ctx) && CtxNamed(names, ctx) && NoCapture(ctx, t)
    requires Tables(q) <= names && fallback.Keys <= names && (BoundToBase(ctx, t) || t !in names)
    ensures
      var acls, key := ActiveAcls(q, policy), Resolve(ctx, t, fallback);
      if BoundToBase(ctx, t) then
        && key == BoundKey(ctx, t) && (Restricts(acls, key) <==> ColumnsRestricted(policy, key))
        && (Restricts(acls, key) ==> acls[key].visible == policy[key].visible)
      else !Restricts(acls, key)
  {
    if BoundToBase(ctx, t) {
      ResolveFindsBinding(Tables(q), ctx, t, fallback);
      BoundIsReferenced(Tables(q), ctx, t);
    } else {
      FreshResolvesToItself(names, ctx, t, fallback);
    }
  }

  lemma {:induction false} BoundIsReferenced(refs: set<Name>, ctx: seq<Frame>, t: Name)
    requires CtxOk(refs, ctx) && BoundToBase(ctx, t)
    ensures BoundKey(ctx, t) in refs
  {
    if !ctx[0].hidden && t in Aliases(ctx[0].from) {
      assert FromOk(refs, ctx[0].from) && Keyed(refs, ctx[0].from);
      var i :| 0 <= i < |ctx[0].from| && ctx[0].from[i].src == SourceOf(ctx[0].from, t);
    } else {
      BoundIsReferenced(refs, ctx[1..], t);
    }
  }

  /** A node in good order: scoped, named and surrounded by well-formed selects. */
  predicate InOrder(q: Query, names: set<Name>, n: Node) {
    NodeOk(Tables(q), n) && NameOk(names, n) && ScopeOk(Tables(q), names, n)
  }

  function OrderCheck(q: Query, names: set<Name>): Node -> bool {
    (n: Node) => InOrder(q, names, n)
  }

  lemma {:induction false} NodesAgree(q: Query, policy: Policy, names: set<Name>, fallback: map<Name, Name>, n: Node)
    requires InOrder(q, names, n) && Tables(q) <= names && fallback.Keys <= names
    ensures ColumnOk(ActiveAcls(q, policy), fallback, n) <==> VisibleColumn(policy, n)
    ensures StarOk(ActiveAcls(q, policy), fallback, n) <==> FreeStar(policy, Tables(q), n)
  {
    RestrictedAgree(q, policy);
    if n.ColNode? || n.TableStarNode? {
      LookedUp(q, policy, names, n.ctx, n.table, fallback);
    }
  }

  lemma {:induction false} RestrictedAgree(q: Query, policy: Policy)
    ensures AnyRestricts(ActiveAcls(q, policy)) <==> SomeRestricted(policy, Tables(q))
  {
    var acls := ActiveAcls(q, policy);
    if SomeRestricted(policy, Tables(q)) {
      var k :| k in Tables(q) && ColumnsRestricted(policy, k);
      assert k in acls && Restricts(acls, k);
    }
    if AnyRestricts(acls) {
      var k :| k in acls && Restricts(acls, k);
      assert ColumnsRestricted(policy, k);
    }
  }

  lemma {:induction false} AllInOrder(q: Query, names: set<Name>)
    requires WellScoped(q) && All(q, [], NameCheck(names))
    ensures All(q, [], OrderCheck(q, names))
  {
    ScopesOk(q, [], Tables(q), names);
    var both := (n: Node) => NodeOk(Tables(q), n) && NameOk(names, n);
    Both(q, [], ScopeCheck(Tables(q)), NameCheck(names), both);
    Both(q, [], both, ScopesCheck(Tables(q), names), OrderCheck(q, names));
  }

  // ---- The main result ----

  predicate AllReadable(q: Query, readable: Name -> bool) {
    forall k :: k in Tables(q) ==> readable(k)
  }

  /** The policy lets the query through: every column of a restricted table is visible, and wildcards reach none. */
  predicate Lawful(q: Query, policy: Policy) {
    && All(q, [], VisibleCheck(policy)) && All(q, [], NamedCheck(policy, Tables(q)))
    && All(q, [], StarsFree(policy, Tables(q)))
  }

  lemma {:induction false} PassesAgree(q: Query, policy: Policy, names: set<Name>, fallback: map<Name, Name>)
    requires WellScoped(q) && All(q, [], NameCheck(names)) && Tables(q) <= names && fallback.Keys <= names
    ensures var acls := ActiveAcls(q, policy);
      && (All(q, [], ColumnCheck(acls, fallback)) <==> All(q, [], VisibleCheck(policy)))
      && (All(q, [], StarCheck(acls, fallback)) <==> All(q, [], StarsFree(policy, Tables(q))))
  {
    var acls, ok := ActiveAcls(q, policy), OrderCheck(q, names);
    AllInOrder(q, names);
    forall n: Node | ok(n)
      ensures ColumnCheck(acls, fallback)(n) <==> VisibleCheck(policy)(n)
      ensures StarCheck(acls, fallback)(n) <==> StarsFree(policy, Tables(q))(n)
    {
      NodesAgree(q, policy, names, fallback, n);
    }
    if All(q, [], ColumnCheck(acls, fallback)) {
      Both(q, [], ok, ColumnCheck(acls, fallback), VisibleCheck(policy));
    }
    if All(q, [], VisibleCheck(policy)) {
      Both(q, [], ok, VisibleCheck(policy), ColumnCheck(acls, fallback));
    }
    if All(q, [], StarCheck(acls, fallback)) {
      Both(q, [], ok, StarCheck(acls, fallback), StarsFree(policy, Tables(q)));
    }
    if All(q, [], StarsFree(policy, Tables(q))) {
      Both(q, [], ok, StarsFree(policy, Tables(q)), StarCheck(acls, fallback));
    }
  }

  lemma {:induction false} WildcardsAgree(q: Query, policy: Policy)
    ensures All(q, [], NamedCheck(policy, Tables(q))) <==>
      !SomeRestricted(policy, Tables(q)) || All(q, [], NoColumnsCheck())
  {
    AllIsEvery(q, [], NamedCheck(policy, Tables(q)));
    AllIsEvery(q, [], NoColumnsCheck());
    var ns := Nodes(q, []);
    if Every(ns, NamedCheck(policy, Tables(q))) && SomeRestricted(policy, Tables(q)) {
      forall i | 0 <= i < |ns| ensures NoColumnsCheck()(ns[i]) {
        assert NamedCheck(policy, Tables(q))(ns[i]);
      }
    }
    if Every(ns, NoColumnsCheck()) {
      forall i | 0 <= i < |ns| ensures NamedCheck(policy, Tables(q))(ns[i]) {
        assert NoColumnsCheck()(ns[i]);
      }
    }
  }

  /** The enforcement accepts exactly the lawful queries whose tables are all readable, and names the first violation it
      meets. `names` is any set with all aliases and real names of the query's base tables, the keys of the tree-wide
      map
      among them; names bound to derived tables, or unbound, are not in it. */
  lemma {:induction false} AcceptsExactly(q: Query, policy: Policy, readable: Name -> bool, fallback: map<Name, Name>,
      names: set<Name>)
    requires WellScoped(q) && All(q, [], NameCheck(names)) && Tables(q) <= names && fallback.Keys <= names
    ensures Enforce(q, policy, readable, fallback).Ok? <==> AllReadable(q, readable) && Lawful(q, policy)
    ensures Enforce(q, policy, readable, fallback).Ok? ==>
      Enforce(q, policy, readable, fallback).q == Rewrite(q, ActiveAcls(q, policy))
    ensures Enforce(q, policy, readable, fallback) == Rejected(ReadDenied) <==> !AllReadable(q, readable)
    ensures Enforce(q, policy, readable, fallback) == Rejected(HiddenColumn) <==>
      AllReadable(q, readable) && !All(q, [], VisibleCheck(policy))
    ensures Enforce(q, policy, readable, fallback) == Rejected(ColumnsWildcard) <==>
      AllReadable(q, readable) && All(q, [], VisibleCheck(policy)) && !All(q, [], NamedCheck(policy, Tables(q)))
  {
    PassesAgree(q, policy, names, fallback);
    WildcardsAgree(q, policy);
    RestrictedAgree(q, policy);
    if ActiveAcls(q, policy) == map[] {
      TrivialChecks(q, fallback);
      RewriteLeavesUnfiltered(q, ActiveAcls(q, policy));
    }
  }
}
