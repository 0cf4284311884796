/** Column ACLs: which tree nodes are inspected, how a column's table is resolved, which queries pass. */
module AclCheck {
  import opened Common
  import opened Sql
  import opened AclRewrite

  /** A select that encloses a node. It is hidden when the node sits inside one of its derived tables: the
      name walk visits it although its aliases are not in lexical scope there. */
  datatype Frame = Frame(from: seq<Join>, hidden: bool)

  /** The nodes the checks look at, each with its enclosing selects, innermost first. */
  datatype Node =
    | ColNode(ctx: seq<Frame>, table: Name, col: Name)
    | TableStarNode(ctx: seq<Frame>, table: Name)
    | StarNode
    | ColumnsNode
    | FilterNode
    | SelectNode(from: seq<Join>)

  // ---- Every node of a tree ----

  predicate All(q: Query, ctx: seq<Frame>, p: Node -> bool)
    decreases q, 1
  {
    match q
    case UnionAll(l, r) => All(l, ctx, p) && All(r, ctx, p)
    case Select(items, from, where, grouping) =>
      var inner := [Frame(from, false)] + ctx;
      p(SelectNode(from)) && AllList(items, inner, p) && AllJoins(from, from, ctx, p) && AllExpr(where, inner, p) &&
      match grouping
      case Plain => true
      case By(keys, having) => AllList(keys, inner, p) && AllExpr(having, inner, p)
  }

  predicate AllExpr(e: Expr, ctx: seq<Frame>, p: Node -> bool)
    decreases e, 1
  {
    match e
    case Col(t, c) => p(ColNode(ctx, t, c))
    case TableStar(t) => p(TableStarNode(ctx, t))
    case Star => p(StarNode)
    case Columns(_) => p(ColumnsNode)
    case RowFilter(_, _) => p(FilterNode)
    case Op(_, args) => AllList(args, ctx, p)
    case Agg(_, arg) => AllExpr(arg, ctx, p)
    case Alias(e1, _) => AllExpr(e1, ctx, p)
    case Sub(_, args, q) => AllList(args, ctx, p) && All(q, ctx, p)
    case _ => true
  }

  predicate AllList(es: seq<Expr>, ctx: seq<Frame>, p: Node -> bool)
    decreases es, 0
  {
    es == [] || (AllExpr(es[0], ctx, p) && AllList(es[1..], ctx, p))
  }

  predicate AllJoins(js: seq<Join>, from: seq<Join>, ctx: seq<Frame>, p: Node -> bool)
    decreases js, 0
  {
    js == [] ||
    var last := js[|js| - 1];
    assert js decreases to last;
    AllJoins(js[..|js| - 1], from, ctx, p) && AllExpr(last.on, [Frame(from, false)] + ctx, p) &&
    (last.src.Derived? ==> All(last.src.q, [Frame(from, true)] + ctx, p))
  }

  // ---- Name resolution as the check performs it ----

  /** Alias -> key and key -> key for the base tables of one select, later entries winning. */
  function LocalAliasMap(from: seq<Join>): map<Name, Name> {
    if from == [] then map[] else
      var src := from[|from| - 1].src;
      var m := LocalAliasMap(from[..|from| - 1]);
      if src.Derived? then m else m[TableKey(src) := TableKey(src)][src.alias := TableKey(src)]
  }

  /** The enclosing selects outward, then the tree-wide map. */
  function Resolve(ctx: seq<Frame>, t: Name, fallback: map<Name, Name>): Name {
    if t == "" then ""
    else if ctx == [] then (if t in fallback then fallback[t] else t)
    else
      var local := LocalAliasMap(ctx[0].from);
      if t in local then local[t] else Resolve(ctx[1..], t, fallback)
  }

  method ComputeLocalAliasMap(from: seq<Join>) returns (local: map<Name, Name>)
    ensures local == LocalAliasMap(from)
  {
    local := map[];
    for i := 0 to |from|
      invariant local == LocalAliasMap(from[..i])
    {
      var src := from[i].src;
      if src.Base? {
        var key := TableKey(src);
        local := local[key := key];
        local := local[src.alias := key];
      }
      assert from[..i + 1][..i] == from[..i];
    }
    assert from[..|from|] == from;
  }

  method ResolveRealTable(ctx: seq<Frame>, t: Name, fallback: map<Name, Name>) returns (key: Name)
    ensures key == Resolve(ctx, t, fallback)
  {
    if t == "" {
      return "";
    }
    var i := 0;
    while i < |ctx|
      invariant 0 <= i <= |ctx|
      invariant Resolve(ctx, t, fallback) == Resolve(ctx[i..], t, fallback)
    {
      var local := ComputeLocalAliasMap(ctx[i].from);
      if t in local {
        return local[t];
      }
      assert ctx[i..][1..] == ctx[i + 1..];
      i := i + 1;
    }
    return if t in fallback then fallback[t] else t;
  }

  // ---- Name resolution as the engine performs it ----

  function SourceOf(from: seq<Join>, a: Name): (src: Source)
    requires a in Aliases(from)
    ensures src.alias == a && exists i :: 0 <= i < |from| && from[i].src == src
  {
    if from[|from| - 1].src.alias == a then from[|from| - 1].src
    else
      assert forall j :: j in from <==> j in from[..|from| - 1] || j == from[|from| - 1];
      SourceOf(from[..|from| - 1], a)
  }

  /** The source a name is bound to: the innermost select in scope that declares it. */
  function Binding(ctx: seq<Frame>, t: Name): Option<Source> {
    if ctx == [] then None
    else if !ctx[0].hidden && t in Aliases(ctx[0].from) then Some(SourceOf(ctx[0].from, t))
    else Binding(ctx[1..], t)
  }

  // ---- Well-scoped queries ----

  /** On the way out to the base table that a name is bound to, the first sibling of a derived table with that name, if
      it is a base table, is the same one. */
  predicate NoCapture(ctx: seq<Frame>, t: Name) {
    Binding(ctx, t).Some? && Binding(ctx, t).value.Base? ==> NotCaptured(ctx, t, TableKey(Binding(ctx, t).value))
  }

  predicate NotCaptured(ctx: seq<Frame>, t: Name, key: Name) {
    ctx == [] ||
    if t in Aliases(ctx[0].from) && (!ctx[0].hidden || SourceOf(ctx[0].from, t).Base?)
    then !ctx[0].hidden || TableKey(SourceOf(ctx[0].from, t)) == key
    else NotCaptured(ctx[1..], t, key)
  }

  /** Aliases of one select are distinct, and none is the real name of a different referenced table. */
  predicate FromOk(refs: set<Name>, from: seq<Join>) {
    && (forall i, j :: 0 <= i < j < |from| ==> from[i].src.alias != from[j].src.alias)
    && (forall i :: 0 <= i < |from| && from[i].src.Base? && from[i].src.alias in refs ==>
      TableKey(from[i].src) == from[i].src.alias)
  }

  predicate NodeOk(refs: set<Name>, n: Node) {
    match n
    case ColNode(ctx, t, _) => t != "" && NoCapture(ctx, t)
    case TableStarNode(ctx, t) => t != "" && NoCapture(ctx, t)
    case SelectNode(from) => FromOk(refs, from)
    case FilterNode => false
    case _ => true
  }

  function ScopeCheck(refs: set<Name>): Node -> bool {
    (n: Node) => NodeOk(refs, n)
  }

  predicate WellScoped(q: Query) {
    All(q, [], ScopeCheck(Tables(q)))
  }

  // ---- The outward walk finds the table that lexical scoping binds ----

  predicate Keyed(refs: set<Name>, from: seq<Join>) {
    forall i :: 0 <= i < |from| && from[i].src.Base? ==> TableKey(from[i].src) in refs
  }

  predicate CtxOk(refs: set<Name>, ctx: seq<Frame>) {
    forall i :: 0 <= i < |ctx| ==> FromOk(refs, ctx[i].from) && Keyed(refs, ctx[i].from)
  }

  /** Every entry of a local map comes from a base table, under its alias or its real name. */
  lemma {:induction false} LocalEntry(from: seq<Join>, t: Name) returns (k: nat)
    requires t in LocalAliasMap(from)
    ensures k < |from| && from[k].src.Base? && LocalAliasMap(from)[t] == TableKey(from[k].src)
    ensures t == from[k].src.alias || t == TableKey(from[k].src)
  {
    var src := from[|from| - 1].src;
    if src.Base? && (t == src.alias || t == TableKey(src)) {
      k := |from| - 1;
    } else {
      k := LocalEntry(from[..|from| - 1], t);
    }
  }

  lemma {:induction false} LocalHasAliases(from: seq<Join>, k: nat)
    requires k < |from| && from[k].src.Base?
    ensures from[k].src.alias in LocalAliasMap(from)
  {
    if k < |from| - 1 {
      LocalHasAliases(from[..|from| - 1], k);
    }
  }

  lemma {:induction false} AliasMember(from: seq<Join>, k: nat)
    requires k < |from|
    ensures from[k].src.alias in Aliases(from)
  {
    assert from[k] in from;
  }

  /** A bound source declares the name, and keeps the naming discipline of its select. */
  lemma {:induction false} BindingOk(refs: set<Name>, ctx: seq<Frame>, t: Name)
    requires CtxOk(refs, ctx) && Binding(ctx, t).Some? && Binding(ctx, t).value.Base?
    ensures Binding(ctx, t).value.alias == t
    ensures t in refs ==> TableKey(Binding(ctx, t).value) == t
  {
    if !(!ctx[0].hidden && t in Aliases(ctx[0].from)) {
      BindingOk(refs, ctx[1..], t);
    }
  }

  /** A name that is the real name of a referenced table means that table wherever a base table carries it. */
  lemma {:induction false} RealNamesAreSafe(refs: set<Name>, ctx: seq<Frame>, t: Name)
    requires CtxOk(refs, ctx) && t in refs
    ensures NotCaptured(ctx, t, t)
  {
    if ctx != [] {
      RealNamesAreSafe(refs, ctx[1..], t);
      if t in Aliases(ctx[0].from) {
        var k :| 0 <= k < |ctx[0].from| && ctx[0].from[k].src == SourceOf(ctx[0].from, t);
      }
    }
  }

  /** The local map, under FromOk: by alias the source itself, by real name that name. */
  lemma {:induction false} LocalMeaning(refs: set<Name>, from: seq<Join>, t: Name)
    requires FromOk(refs, from) && Keyed(refs, from)
    ensures t in Aliases(from) && SourceOf(from, t).Base? ==>
      t in LocalAliasMap(from) && LocalAliasMap(from)[t] == TableKey(SourceOf(from, t))
    ensures t in LocalAliasMap(from) && !(t in Aliases(from) && SourceOf(from, t).Base?) ==>
      t in refs && LocalAliasMap(from)[t] == t
  {
    if t in Aliases(from) {
      var k :| 0 <= k < |from| && from[k].src == SourceOf(from, t);
      if from[k].src.Base? {
        LocalHasAliases(from, k);
      }
    }
    if t in LocalAliasMap(from) {
      var k := LocalEntry(from, t);
      if t == from[k].src.alias {
        AliasMember(from, k);
        assert SourceOf(from, t) == from[k].src;
      }
    }
  }

  /** The outward walk finds the base table that lexical scoping binds the name to exactly when no base-table sibling of
      an enclosing derived table captures the name. */
  lemma {:induction false} ResolveFindsBinding(refs: set<Name>, ctx: seq<Frame>, t: Name, fallback: map<Name, Name>)
    requires t != "" && CtxOk(refs, ctx)
    requires Binding(ctx, t).Some? && Binding(ctx, t).value.Base?
    ensures Resolve(ctx, t, fallback) == TableKey(Binding(ctx, t).value) <==> NoCapture(ctx, t)
  {
    var from := ctx[0].from;
    BindingOk(refs, ctx, t);
    LocalMeaning(refs, from, t);
    if t in LocalAliasMap(from) {
      if t in refs {
        RealNamesAreSafe(refs, ctx, t);
      }
    } else {
      ResolveFindsBinding(refs, ctx[1..], t, fallback);
    }
  }

  // ---- The checks and the whole enforcement ----

  predicate Restricts(acls: Policy, key: Name) {
    key in acls && acls[key].visible != {}
  }

  predicate AnyRestricts(acls: Policy) {
    exists k :: k in acls && Restricts(acls, k)
  }

  predicate ColumnOk(acls: Policy, fallback: map<Name, Name>, n: Node) {
    n.ColNode? ==>
      var key := Resolve(n.ctx, n.table, fallback);
      Restricts(acls, key) ==> n.col in acls[key].visible
  }

  predicate StarOk(acls: Policy, fallback: map<Name, Name>, n: Node) {
    && (n.StarNode? ==> !AnyRestricts(acls))
    && (n.TableStarNode? ==>
          if n.table == "" then !AnyRestricts(acls) else !Restricts(acls, Resolve(n.ctx, n.table, fallback)))
  }

  function ColumnCheck(acls: Policy, fallback: map<Name, Name>): Node -> bool {
    (n: Node) => ColumnOk(acls, fallback, n)
  }

  function StarCheck(acls: Policy, fallback: map<Name, Name>): Node -> bool {
    (n: Node) => StarOk(acls, fallback, n)
  }

  function NoColumnsCheck(): Node -> bool {
    (n: Node) => !n.ColumnsNode?
  }

  datatype Violation = ReadDenied | HiddenColumn | ColumnsWildcard | StarOnRestricted

  datatype Outcome = Ok(q: Query) | Rejected(v: Violation)

  /** The ACLs of the referenced tables that restrict anything. */
  function ActiveAcls(q: Query, policy: Policy): Policy {
    map k | k in policy && k in Tables(q) && (policy[k].rowFilter || policy[k].visible != {}) :: policy[k]
  }

  /** The loop over the referenced tables, in any order and with repetitions. */
  method CollectAcls(referenced: seq<Name>, policy: Policy) returns (acls: Policy)
    ensures acls == map k | k in policy && k in referenced &&
      (policy[k].rowFilter || policy[k].visible != {}) :: policy[k]
  {
    acls := map[];
    for i := 0 to |referenced|
      invariant acls == map k | k in policy && k in referenced[..i] &&
        (policy[k].rowFilter || policy[k].visible != {}) :: policy[k]
    {
      var key := referenced[i];
      if key in policy && (policy[key].rowFilter || policy[key].visible != {}) {
        acls := acls[key := policy[key]];
      }
      assert forall k :: k in referenced[..i + 1] <==> k in referenced[..i] || k == key;
    }
    assert referenced[..|referenced|] == referenced;
  }

  function Enforce(q: Query, policy: Policy, readable: Name -> bool, fallback: map<Name, Name>): Outcome {
    var acls := ActiveAcls(q, policy);
    if exists k :: k in Tables(q) && !readable(k) then Rejected(ReadDenied)
    else if acls == map[] then Ok(q)
    else if !All(q, [], ColumnCheck(acls, fallback)) then Rejected(HiddenColumn)
    else if AnyRestricts(acls) && !All(q, [], NoColumnsCheck()) then Rejected(ColumnsWildcard)
    else if !All(q, [], StarCheck(acls, fallback)) then Rejected(StarOnRestricted)
    else Ok(Rewrite(q, acls))
  }

  // ---- The enforcement as it runs: passes over a list of nodes ----

  function Nodes(q: Query, ctx: seq<Frame>): seq<Node>
    decreases q, 1
  {
    match q
    case UnionAll(l, r) => Nodes(l, ctx) + Nodes(r, ctx)
    case Select(items, from, where, grouping) =>
      var inner := [Frame(from, false)] + ctx;
      [SelectNode(from)] + NodesOfList(items, inner) + NodesOfJoins(from, from, ctx) + NodesOfExpr(where, inner) +
      match grouping
      case Plain => []
      case By(keys, having) => NodesOfList(keys, inner) + NodesOfExpr(having, inner)
  }

  function NodesOfExpr(e: Expr, ctx: seq<Frame>): seq<Node>
    decreases e, 1
  {
    match e
    case Col(t, c) => [ColNode(ctx, t, c)]
    case TableStar(t) => [TableStarNode(ctx, t)]
    case Star => [StarNode]
    case Columns(_) => [ColumnsNode]
    case RowFilter(_, _) => [FilterNode]
    case Op(_, args) => NodesOfList(args, ctx)
    case Agg(_, arg) => NodesOfExpr(arg, ctx)
    case Alias(e1, _) => NodesOfExpr(e1, ctx)
    case Sub(_, args, q) => NodesOfList(args, ctx) + Nodes(q, ctx)
    case _ => []
  }

  function NodesOfList(es: seq<Expr>, ctx: seq<Frame>): seq<Node>
    decreases es, 0
  {
    if es == [] then [] else NodesOfExpr(es[0], ctx) + NodesOfList(es[1..], ctx)
  }

  function NodesOfJoins(js: seq<Join>, from: seq<Join>, ctx: seq<Frame>): seq<Node>
    decreases js, 0
  {
    if js == [] then [] else
      var last := js[|js| - 1];
      assert js decreases to last;
      NodesOfJoins(js[..|js| - 1], from, ctx) + NodesOfExpr(last.on, [Frame(from, false)] + ctx) +
      if last.src.Derived? then Nodes(last.src.q, [Frame(from, true)] + ctx) else []
  }

  predicate Every(ns: seq<Node>, p: Node -> bool) {
    forall i :: 0 <= i < |ns| ==> p(ns[i])
  }

  lemma {:induction false} EveryConcat(a: seq<Node>, b: seq<Node>, p: Node -> bool)
    ensures Every(a + b, p) <==> Every(a, p) && Every(b, p)
  {
    if Every(a + b, p) {
      assert forall i :: 0 <= i < |a| ==> (a + b)[i] == a[i];
      assert forall i :: 0 <= i < |b| ==> (a + b)[|a| + i] == b[i];
    }
  }

  lemma {:induction false} EveryOne(n: Node, p: Node -> bool)
    ensures Every([n], p) <==> p(n)
  {
    assert [n][0] == n;
  }

  lemma {:induction false} AllIsEvery(q: Query, ctx: seq<Frame>, p: Node -> bool)
    ensures All(q, ctx, p) <==> Every(Nodes(q, ctx), p)
    decreases q, 1
  {
    match q
    case UnionAll(l, r) =>
      AllIsEvery(l, ctx, p);
      AllIsEvery(r, ctx, p);
      EveryConcat(Nodes(l, ctx), Nodes(r, ctx), p);
    case Select(items, from, where, grouping) =>
      var inner := [Frame(from, false)] + ctx;
      var a, b, c := NodesOfList(items, inner), NodesOfJoins(from, from, ctx), NodesOfExpr(where, inner);
      ListIsEvery(items, inner, p);
      JoinsAreEvery(from, from, ctx, p);
      ExprIsEvery(where, inner, p);
      EveryOne(SelectNode(from), p);
      EveryConcat([SelectNode(from)], a, p);
      EveryConcat([SelectNode(from)] + a, b, p);
      EveryConcat([SelectNode(from)] + a + b, c, p);
      match grouping
      case Plain => EveryConcat([SelectNode(from)] + a + b + c, [], p);
      case By(keys, having) =>
        ListIsEvery(keys, inner, p);
        ExprIsEvery(having, inner, p);
        EveryConcat(NodesOfList(keys, inner), NodesOfExpr(having, inner), p);
        EveryConcat([SelectNode(from)] + a + b + c, NodesOfList(keys, inner) + NodesOfExpr(having, inner), p);
  }

  lemma {:induction false} ExprIsEvery(e: Expr, ctx: seq<Frame>, p: Node -> bool)
    ensures AllExpr(e, ctx, p) <==> Every(NodesOfExpr(e, ctx), p)
    decreases e, 1
  {
    match e
    case Op(_, args) => ListIsEvery(args, ctx, p);
    case Agg(_, arg) => ExprIsEvery(arg, ctx, p);
    case Alias(e1, _) => ExprIsEvery(e1, ctx, p);
    case Sub(_, args, q) =>
      ListIsEvery(args, ctx, p);
      AllIsEvery(q, ctx, p);
      EveryConcat(NodesOfList(args, ctx), Nodes(q, ctx), p);
    case Col(t, c) => EveryOne(ColNode(ctx, t, c), p);
    case TableStar(t) => EveryOne(TableStarNode(ctx, t), p);
    case Star => EveryOne(StarNode, p);
    case Columns(_) => EveryOne(ColumnsNode, p);
    case RowFilter(_, _) => EveryOne(FilterNode, p);
    case _ =>
  }

  lemma {:induction false} ListIsEvery(es: seq<Expr>, ctx: seq<Frame>, p: Node -> bool)
    ensures AllList(es, ctx, p) <==> Every(NodesOfList(es, ctx), p)
    decreases es, 0
  {
    if es != [] {
      ExprIsEvery(es[0], ctx, p);
      ListIsEvery(es[1..], ctx, p);
      EveryConcat(NodesOfExpr(es[0], ctx), NodesOfList(es[1..], ctx), p);
    }
  }

  lemma {:induction false} JoinsAreEvery(js: seq<Join>, from: seq<Join>, ctx: seq<Frame>, p: Node -> bool)
    ensures AllJoins(js, from, ctx, p) <==> Every(NodesOfJoins(js, from, ctx), p)
    decreases js, 0
  {
    if js != [] {
      var last := js[|js| - 1];
      assert js decreases to last;
      var a, b := NodesOfJoins(js[..|js| - 1], from, ctx), NodesOfExpr(last.on, [Frame(from, false)] + ctx);
      var c := if last.src.Derived? then Nodes(last.src.q, [Frame(from, true)] + ctx) else [];
      JoinsAreEvery(js[..|js| - 1], from, ctx, p);
      ExprIsEvery(last.on, [Frame(from, false)] + ctx, p);
      if last.src.Derived? {
        AllIsEvery(last.src.q, [Frame(from, true)] + ctx, p);
      }
      EveryConcat(a, b, p);
      EveryConcat(a + b, c, p);
    }
  }

  /** Every referenced table must be readable; the first that is not ends the enforcement. */
  method CheckReadable(tables: set<Name>, readable: Name -> bool) returns (ok: bool, referenced: seq<Name>)
    ensures ok <==> forall k :: k in tables ==> readable(k)
    ensures ok ==> Elements(referenced) == tables
  {
    referenced := [];
    var rest := tables;
    while rest != {}
      invariant rest <= tables && Elements(referenced) == tables - rest
      invariant forall k :: k in tables - rest ==> readable(k)
      decreases rest
    {
      var k :| k in rest;
      if !readable(k) {
        return false, referenced;
      }
      assert Elements(referenced + [k]) == Elements(referenced) + {k};
      referenced, rest := referenced + [k], rest - {k};
    }
    return true, referenced;
  }

  method CheckColumns(ns: seq<Node>, acls: Policy, fallback: map<Name, Name>) returns (ok: bool)
    ensures ok <==> Every(ns, ColumnCheck(acls, fallback))
  {
    for i := 0 to |ns|
      invariant forall j :: 0 <= j < i ==> ColumnCheck(acls, fallback)(ns[j])
    {
      if ns[i].ColNode? {
        var key := ResolveRealTable(ns[i].ctx, ns[i].table, fallback);
        if Restricts(acls, key) && ns[i].col !in acls[key].visible {
          assert !ColumnCheck(acls, fallback)(ns[i]);
          return false;
        }
      }
    }
    return true;
  }

  method CheckStars(ns: seq<Node>, acls: Policy, fallback: map<Name, Name>) returns (ok: bool)
    ensures ok <==> Every(ns, StarCheck(acls, fallback))
  {
    for i := 0 to |ns|
      invariant forall j :: 0 <= j < i ==> StarCheck(acls, fallback)(ns[j])
    {
      var bad := false;
      if ns[i].TableStarNode? && ns[i].table != "" {
        var key := ResolveRealTable(ns[i].ctx, ns[i].table, fallback);
        bad := Restricts(acls, key);
      } else if ns[i].TableStarNode? || ns[i].StarNode? {
        bad := AnyRestricts(acls);
      }
      if bad {
        assert !StarCheck(acls, fallback)(ns[i]);
        return false;
      }
    }
    return true;
  }

  method HasColumnsNode(ns: seq<Node>) returns (found: bool)
    ensures found <==> !Every(ns, NoColumnsCheck())
  {
    for i := 0 to |ns|
      invariant forall j :: 0 <= j < i ==> NoColumnsCheck()(ns[j])
    {
      if ns[i].ColumnsNode? {
        assert !NoColumnsCheck()(ns[i]);
        return true;
      }
    }
    return false;
  }

  /** The passes in their order, each over all nodes of the tree, then the rewriting. */
  method EnforceSqlAcl(q: Query, policy: Policy, readable: Name -> bool, fallback: map<Name, Name>) returns (r: Outcome)
    ensures r == Enforce(q, policy, readable, fallback)
  {
    var ok, referenced := CheckReadable(Tables(q), readable);
    if !ok {
      return Rejected(ReadDenied);
    }
    assert forall k :: k in referenced <==> k in Elements(referenced);
    var acls := CollectAcls(referenced, policy);
    assert acls == ActiveAcls(q, policy);
    if acls == map[] {
      return Ok(q);
    }
    var ns := Nodes(q, []);
    AllIsEvery(q, [], ColumnCheck(acls, fallback));
    AllIsEvery(q, [], NoColumnsCheck());
    AllIsEvery(q, [], StarCheck(acls, fallback));
    ok := CheckColumns(ns, acls, fallback);
    if !ok {
      return Rejected(HiddenColumn);
    }
    if AnyRestricts(acls) {
      var found := HasColumnsNode(ns);
      if found {
        return Rejected(ColumnsWildcard);
      }
    }
    ok := CheckStars(ns, acls, fallback);
    if !ok {
      return Rejected(StarOnRestricted);
    }
    return Ok(Rewrite(q, acls));
  }
}
