/** What an accepted query can reveal: only visible columns of passing rows. */
module AclNonInterference {
  import opened Common
  import opened Sql
  import opened AclRewrite
  import opened AclCheck

  // ---- Databases, rows and scopes that look the same through an ACL ----

  predicate RowsLookAlike(acls: Policy, key: Name, r1: Row, r2: Row) {
    if Restricts(acls, key) then forall c :: c in acls[key].visible ==> Cell(r1, c) == Cell(r2, c) else r1 == r2
  }

  predicate SourceRowsLookAlike(acls: Policy, src: Source, r1: Row, r2: Row) {
    if src.Base? then RowsLookAlike(acls, TableKey(src), r1, r2) else r1 == r2
  }

  predicate RowListsLookAlike(acls: Policy, src: Source, rows1: seq<Row>, rows2: seq<Row>) {
    |rows1| == |rows2| && forall i :: 0 <= i < |rows1| ==> SourceRowsLookAlike(acls, src, rows1[i], rows2[i])
  }

  predicate TablesLookAlike(acls: Policy, key: Name, rows1: seq<Row>, rows2: seq<Row>) {
    |rows1| == |rows2| && forall i :: 0 <= i < |rows1| ==> RowsLookAlike(acls, key, rows1[i], rows2[i])
  }

  /** On the tables in `refs`: visible columns of a column-restricted table, everything of any other. */
  predicate DbsLookAlike(acls: Policy, refs: set<Name>, db1: Db, db2: Db) {
    forall k :: k in refs ==> TablesLookAlike(acls, k, Rows(db1, k), Rows(db2, k))
  }

  predicate ScopesLookAlike(acls: Policy, from: seq<Join>, s1: Scope, s2: Scope) {
    && s1.Keys == s2.Keys == Aliases(from)
    && forall a :: a in Aliases(from) ==> SourceRowsLookAlike(acls, SourceOf(from, a), s1[a], s2[a])
  }

  predicate ListsLookAlike(acls: Policy, from: seq<Join>, ss1: seq<Scope>, ss2: seq<Scope>) {
    |ss1| == |ss2| && forall i :: 0 <= i < |ss1| ==> ScopesLookAlike(acls, from, ss1[i], ss2[i])
  }

  predicate GroupsLookAlike(acls: Policy, from: seq<Join>, gs1: seq<seq<Scope>>, gs2: seq<seq<Scope>>) {
    |gs1| == |gs2| && forall i :: 0 <= i < |gs1| ==> ListsLookAlike(acls, from, gs1[i], gs2[i])
  }

  /** The run-time scopes are those of the selects in lexical scope, pairwise alike. */
  predicate EnvsLookAlike(acls: Policy, ctx: seq<Frame>, env1: Env, env2: Env) {
    if ctx == [] then env1 == [] && env2 == []
    else if ctx[0].hidden then EnvsLookAlike(acls, ctx[1..], env1, env2)
    else env1 != [] && env2 != [] && ScopesLookAlike(acls, ctx[0].from, env1[0], env2[0]) &&
         EnvsLookAlike(acls, ctx[1..], env1[1..], env2[1..])
  }

  // ---- The setting of one comparison ----

  datatype Setting = Setting(acls: Policy, refs: set<Name>, fallback: map<Name, Name>, m: Engine, db1: Db, db2: Db)

  predicate Safe(w: Setting, n: Node) {
    NodeOk(w.refs, n) && ColumnOk(w.acls, w.fallback, n) && StarOk(w.acls, w.fallback, n) &&
    (n.ColumnsNode? ==> !AnyRestricts(w.acls))
  }

  function SafeCheck(w: Setting): Node -> bool {
    (n: Node) => Safe(w, n)
  }

  predicate Around(w: Setting, ctx: seq<Frame>, o1: Env, o2: Env) {
    CtxOk(w.refs, ctx) && EnvsLookAlike(w.acls, ctx, o1, o2) && DbsLookAlike(w.acls, w.refs, w.db1, w.db2)
  }

  predicate Inside(w: Setting, from: seq<Join>, ctx: seq<Frame>, o1: Env, o2: Env) {
    FromOk(w.refs, from) && Keyed(w.refs, from) && Around(w, ctx, o1, o2)
  }

  // ---- Lists ----

  predicate Pairwise<T>(rel: (T, T) -> bool, a: seq<T>, b: seq<T>) {
    |a| == |b| && forall i :: 0 <= i < |a| ==> rel(a[i], b[i])
  }

  lemma {:induction false} PairwiseConcat<T>(rel: (T, T) -> bool, a1: seq<T>, a2: seq<T>, b1: seq<T>, b2: seq<T>)
    requires Pairwise(rel, a1, a2) && Pairwise(rel, b1, b2)
    ensures Pairwise(rel, a1 + b1, a2 + b2)
  {
  }

  lemma {:induction false} PairwiseKeep<T>(rel: (T, T) -> bool, a: seq<T>, b: seq<T>, flags: seq<Value>)
    requires Pairwise(rel, a, b) && |flags| == |a|
    ensures Pairwise(rel, Keep(a, flags), Keep(b, flags))
  {
    if a != [] {
      PairwiseKeep(rel, a[1..], b[1..], flags[1..]);
    }
  }

  lemma {:induction false} KeepLookAlike(acls: Policy, from: seq<Join>, ss1: seq<Scope>, ss2: seq<Scope>,
      flags: seq<Value>)
    requires ListsLookAlike(acls, from, ss1, ss2) && |flags| == |ss1|
    ensures ListsLookAlike(acls, from, Keep(ss1, flags), Keep(ss2, flags))
  {
    var rel := (s1: Scope, s2: Scope) => ScopesLookAlike(acls, from, s1, s2);
    PairwiseKeep(rel, ss1, ss2, flags);
    assert Pairwise(rel, Keep(ss1, flags), Keep(ss2, flags));
  }

  lemma {:induction false} ConcatLooksAlike(acls: Policy, from: seq<Join>, a1: seq<Scope>, a2: seq<Scope>,
      b1: seq<Scope>, b2: seq<Scope>)
    requires ListsLookAlike(acls, from, a1, a2) && ListsLookAlike(acls, from, b1, b2)
    ensures ListsLookAlike(acls, from, a1 + b1, a2 + b2)
  {
    var rel := (s1: Scope, s2: Scope) => ScopesLookAlike(acls, from, s1, s2);
    PairwiseConcat(rel, a1, a2, b1, b2);
    assert Pairwise(rel, a1 + b1, a2 + b2);
  }

  lemma {:induction false} ConsLooksAlike(acls: Policy, from: seq<Join>, g1: seq<Scope>, g2: seq<Scope>,
      gs1: seq<seq<Scope>>, gs2: seq<seq<Scope>>)
    requires ListsLookAlike(acls, from, g1, g2) && GroupsLookAlike(acls, from, gs1, gs2)
    ensures GroupsLookAlike(acls, from, [g1] + gs1, [g2] + gs2)
  {
  }

  lemma {:induction false} GroupByLookAlike(acls: Policy, from: seq<Join>, keys: seq<seq<Value>>, ss1: seq<Scope>,
      ss2: seq<Scope>)
    requires ListsLookAlike(acls, from, ss1, ss2) && |keys| == |ss1|
    ensures GroupsLookAlike(acls, from, GroupBy(keys, ss1), GroupBy(keys, ss2))
    decreases |keys|
  {
    if ss1 != [] {
      var ks := keys[1..];
      var same, other := SameKey(ks, keys[0], true), SameKey(ks, keys[0], false);
      KeepLookAlike(acls, from, ss1[1..], ss2[1..], same);
      KeepLookAlike(acls, from, ss1[1..], ss2[1..], other);
      KeepLength(ks, ss1[1..], other);
      KeepLength(ks, ss2[1..], other);
      GroupByLookAlike(acls, from, Keep(ks, other), Keep(ss1[1..], other), Keep(ss2[1..], other));
      ConcatLooksAlike(acls, from, [ss1[0]], [ss2[0]], Keep(ss1[1..], same), Keep(ss2[1..], same));
      ConsLooksAlike(acls, from, [ss1[0]] + Keep(ss1[1..], same), [ss2[0]] + Keep(ss2[1..], same),
                     GroupBy(Keep(ks, other), Keep(ss1[1..], other)), GroupBy(Keep(ks, other), Keep(ss2[1..], other)));
    }
  }

  // ---- Names ----

  /** At run time a name reads the row of the source that lexical scoping binds. */
  lemma {:induction false} LookupLooksAlike(acls: Policy, ctx: seq<Frame>, env1: Env, env2: Env, t: Name)
    requires EnvsLookAlike(acls, ctx, env1, env2)
    ensures Lookup(env1, t).Some? == Lookup(env2, t).Some? == Binding(ctx, t).Some?
    ensures Lookup(env1, t).Some? ==> SourceRowsLookAlike(acls, Binding(ctx, t).value, Lookup(env1, t).value,
      Lookup(env2, t).value)
  {
    if ctx != [] {
      if ctx[0].hidden {
        LookupLooksAlike(acls, ctx[1..], env1, env2, t);
      } else if t !in Aliases(ctx[0].from) {
        LookupLooksAlike(acls, ctx[1..], env1[1..], env2[1..], t);
      }
    }
  }

  lemma {:induction false} ColumnLooksAlike(w: Setting, ctx: seq<Frame>, env1: Env, env2: Env, t: Name, c: Name)
    requires Around(w, ctx, env1, env2) && Safe(w, ColNode(ctx, t, c)) && Lookup(env1, t).Some?
    ensures Lookup(env2, t).Some? && Cell(Lookup(env1, t).value, c) == Cell(Lookup(env2, t).value, c)
  {
    LookupLooksAlike(w.acls, ctx, env1, env2, t);
    if Binding(ctx, t).value.Base? {
      ResolveFindsBinding(w.refs, ctx, t, w.fallback);
    }
  }

  lemma {:induction false} TableStarLooksAlike(w: Setting, ctx: seq<Frame>, env1: Env, env2: Env, t: Name)
    requires Around(w, ctx, env1, env2) && Safe(w, TableStarNode(ctx, t))
    ensures Lookup(env1, t) == Lookup(env2, t)
  {
    LookupLooksAlike(w.acls, ctx, env1, env2, t);
    if Binding(ctx, t).Some? && Binding(ctx, t).value.Base? {
      ResolveFindsBinding(w.refs, ctx, t, w.fallback);
    }
  }

  lemma {:induction false} UnrestrictedScopesEqual(acls: Policy, from: seq<Join>, s1: Scope, s2: Scope)
    requires ScopesLookAlike(acls, from, s1, s2) && !AnyRestricts(acls)
    ensures s1 == s2
  {
    forall a | a in Aliases(from) ensures s1[a] == s2[a] {
      assert SourceRowsLookAlike(acls, SourceOf(from, a), s1[a], s2[a]);
    }
  }

  lemma {:induction false} EnterScope(w: Setting, from: seq<Join>, ctx: seq<Frame>, h1: Scope, h2: Scope, o1: Env,
      o2: Env)
    requires Inside(w, from, ctx, o1, o2) && ScopesLookAlike(w.acls, from, h1, h2)
    ensures Around(w, [Frame(from, false)] + ctx, [h1] + o1, [h2] + o2)
  {
    var inner := [Frame(from, false)] + ctx;
    assert inner[1..] == ctx && ([h1] + o1)[1..] == o1 && ([h2] + o2)[1..] == o2;
  }

  lemma {:induction false} EnterDerived(w: Setting, from: seq<Join>, ctx: seq<Frame>, o1: Env, o2: Env)
    requires Inside(w, from, ctx, o1, o2)
    ensures Around(w, [Frame(from, true)] + ctx, o1, o2)
  {
    assert ([Frame(from, true)] + ctx)[1..] == ctx;
  }

  // ---- Expressions ----

  lemma {:induction false} SameColumn(w: Setting, t: Name, c: Name, from: seq<Join>, ctx: seq<Frame>, h1: Scope,
      h2: Scope, o1: Env, o2: Env)
    requires Inside(w, from, ctx, o1, o2) && ScopesLookAlike(w.acls, from, h1, h2)
    requires Safe(w, ColNode([Frame(from, false)] + ctx, t, c))
    ensures Lookup([h1] + o1, t).Some? == Lookup([h2] + o2, t).Some?
    ensures Lookup([h1] + o1, t).Some? ==> Cell(Lookup([h1] + o1, t).value, c) == Cell(Lookup([h2] + o2, t).value, c)
  {
    var inner := [Frame(from, false)] + ctx;
    EnterScope(w, from, ctx, h1, h2, o1, o2);
    LookupLooksAlike(w.acls, inner, [h1] + o1, [h2] + o2, t);
    if Lookup([h1] + o1, t).Some? {
      ColumnLooksAlike(w, inner, [h1] + o1, [h2] + o2, t, c);
    }
  }

  lemma {:induction false} SameExpr(w: Setting, e: Expr, from: seq<Join>, ctx: seq<Frame>, g1: seq<Scope>,
      g2: seq<Scope>, h1: Scope, h2: Scope, o1: Env, o2: Env)
    requires Inside(w, from, ctx, o1, o2) && ListsLookAlike(w.acls, from, g1, g2) &&
      ScopesLookAlike(w.acls, from, h1, h2)
    requires AllExpr(e, [Frame(from, false)] + ctx, SafeCheck(w)) && TablesOfExpr(e) <= w.refs
    ensures Eval(e, g1, h1, o1, w.db1, w.m) == Eval(e, g2, h2, o2, w.db2, w.m)
    decreases e, 1, 0
  {
    var inner := [Frame(from, false)] + ctx;
    match e
    case Col(t, c) => SameColumn(w, t, c, from, ctx, h1, h2, o1, o2);
    case Columns(_) => UnrestrictedScopesEqual(w.acls, from, h1, h2);
    case Op(_, args) => SameList(w, args, from, ctx, g1, g2, h1, h2, o1, o2);
    case Agg(_, arg) => SameEach(w, arg, from, ctx, g1, g2, o1, o2);
    case Alias(e1, _) => SameExpr(w, e1, from, ctx, g1, g2, h1, h2, o1, o2);
    case Sub(_, args, q) =>
      SameList(w, args, from, ctx, g1, g2, h1, h2, o1, o2);
      EnterScope(w, from, ctx, h1, h2, o1, o2);
      SameQuery(w, q, inner, [h1] + o1, [h2] + o2);
    case _ =>
  }

  lemma {:induction false} SameList(w: Setting, es: seq<Expr>, from: seq<Join>, ctx: seq<Frame>, g1: seq<Scope>,
      g2: seq<Scope>, h1: Scope, h2: Scope, o1: Env, o2: Env)
    requires Inside(w, from, ctx, o1, o2) && ListsLookAlike(w.acls, from, g1, g2) &&
      ScopesLookAlike(w.acls, from, h1, h2)
    requires AllList(es, [Frame(from, false)] + ctx, SafeCheck(w)) && TablesOfList(es) <= w.refs
    ensures EvalList(es, g1, h1, o1, w.db1, w.m) == EvalList(es, g2, h2, o2, w.db2, w.m)
    decreases es, 0, 0
  {
    if es != [] {
      SameExpr(w, es[0], from, ctx, g1, g2, h1, h2, o1, o2);
      SameList(w, es[1..], from, ctx, g1, g2, h1, h2, o1, o2);
    }
  }

  lemma {:induction false} SameEach(w: Setting, e: Expr, from: seq<Join>, ctx: seq<Frame>, ss1: seq<Scope>,
      ss2: seq<Scope>, o1: Env, o2: Env)
    requires Inside(w, from, ctx, o1, o2) && ListsLookAlike(w.acls, from, ss1, ss2)
    requires AllExpr(e, [Frame(from, false)] + ctx, SafeCheck(w)) && TablesOfExpr(e) <= w.refs
    ensures EvalEach(e, ss1, o1, w.db1, w.m) == EvalEach(e, ss2, o2, w.db2, w.m)
    decreases e, 2, |ss1|
  {
    if ss1 != [] {
      SameExpr(w, e, from, ctx, [ss1[0]], [ss2[0]], ss1[0], ss2[0], o1, o2);
      SameEach(w, e, from, ctx, ss1[1..], ss2[1..], o1, o2);
    }
  }

  lemma {:induction false} SameKeys(w: Setting, es: seq<Expr>, from: seq<Join>, ctx: seq<Frame>, ss1: seq<Scope>,
      ss2: seq<Scope>, o1: Env, o2: Env)
    requires Inside(w, from, ctx, o1, o2) && ListsLookAlike(w.acls, from, ss1, ss2)
    requires AllList(es, [Frame(from, false)] + ctx, SafeCheck(w)) && TablesOfList(es) <= w.refs
    ensures EvalKeys(es, ss1, o1, w.db1, w.m) == EvalKeys(es, ss2, o2, w.db2, w.m)
    decreases es, 1, |ss1|
  {
    if ss1 != [] {
      SameList(w, es, from, ctx, [ss1[0]], [ss2[0]], ss1[0], ss2[0], o1, o2);
      SameKeys(w, es, from, ctx, ss1[1..], ss2[1..], o1, o2);
    }
  }

  // ---- Projections ----

  lemma {:induction false} SameTableStar(w: Setting, t: Name, from: seq<Join>, ctx: seq<Frame>, h1: Scope, h2: Scope,
      o1: Env, o2: Env)
    requires Inside(w, from, ctx, o1, o2) && ScopesLookAlike(w.acls, from, h1, h2)
    requires Safe(w, TableStarNode([Frame(from, false)] + ctx, t))
    ensures Lookup([h1] + o1, t) == Lookup([h2] + o2, t)
  {
    EnterScope(w, from, ctx, h1, h2, o1, o2);
    TableStarLooksAlike(w, [Frame(from, false)] + ctx, [h1] + o1, [h2] + o2, t);
  }

  lemma {:induction false} SameOutput(w: Setting, e: Expr, from: seq<Join>, ctx: seq<Frame>, g1: seq<Scope>,
      g2: seq<Scope>, h1: Scope, h2: Scope, o1: Env, o2: Env)
    requires Inside(w, from, ctx, o1, o2) && ListsLookAlike(w.acls, from, g1, g2) &&
      ScopesLookAlike(w.acls, from, h1, h2)
    requires AllExpr(e, [Frame(from, false)] + ctx, SafeCheck(w)) && TablesOfExpr(e) <= w.refs
    ensures Output(e, from, g1, h1, o1, w.db1, w.m) == Output(e, from, g2, h2, o2, w.db2, w.m)
    decreases e, 2, 0
  {
    if e.Star? {
      UnrestrictedScopesEqual(w.acls, from, h1, h2);
    } else if e.TableStar? {
      SameTableStar(w, e.table, from, ctx, h1, h2, o1, o2);
    } else {
      SameExpr(w, if e.Alias? then e.e else e, from, ctx, g1, g2, h1, h2, o1, o2);
    }
  }

  lemma {:induction false} SameProject(w: Setting, es: seq<Expr>, from: seq<Join>, ctx: seq<Frame>, g1: seq<Scope>,
      g2: seq<Scope>, h1: Scope, h2: Scope, o1: Env, o2: Env)
    requires Inside(w, from, ctx, o1, o2) && ListsLookAlike(w.acls, from, g1, g2) &&
      ScopesLookAlike(w.acls, from, h1, h2)
    requires AllList(es, [Frame(from, false)] + ctx, SafeCheck(w)) && TablesOfList(es) <= w.refs
    ensures Project(es, from, g1, h1, o1, w.db1, w.m) == Project(es, from, g2, h2, o2, w.db2, w.m)
    decreases es, 1, 0
  {
    if es != [] {
      SameOutput(w, es[0], from, ctx, g1, g2, h1, h2, o1, o2);
      SameProject(w, es[1..], from, ctx, g1, g2, h1, h2, o1, o2);
    }
  }

  lemma {:induction false} NullScopesLookAlike(acls: Policy, from: seq<Join>)
    ensures ScopesLookAlike(acls, from, NullScope(from), NullScope(from))
  {
  }

  lemma {:induction false} SameProjectAll(w: Setting, q: Query, ctx: seq<Frame>, gs1: seq<seq<Scope>>,
      gs2: seq<seq<Scope>>, o1: Env, o2: Env)
    requires q.Select? && Inside(w, q.from, ctx, o1, o2) && GroupsLookAlike(w.acls, q.from, gs1, gs2)
    requires All(q, ctx, SafeCheck(w)) && Tables(q) <= w.refs
    ensures ProjectAll(q, gs1, o1, w.db1, w.m) == ProjectAll(q, gs2, o2, w.db2, w.m)
    decreases q, 0, |gs1|
  {
    if gs1 != [] {
      var g1, g2 := gs1[0], gs2[0];
      NullScopesLookAlike(w.acls, q.from);
      var h1 := if g1 == [] then NullScope(q.from) else g1[0];
      var h2 := if g2 == [] then NullScope(q.from) else g2[0];
      SameProject(w, q.items, q.from, ctx, g1, g2, h1, h2, o1, o2);
      if q.grouping.By? {
        SameExpr(w, q.grouping.having, q.from, ctx, g1, g2, h1, h2, o1, o2);
      }
      SameProjectAll(w, q, ctx, gs1[1..], gs2[1..], o1, o2);
    }
  }

  // ---- Joins ----

  lemma {:induction false} ExtendLooksAlike(w: Setting, from: seq<Join>, k: nat, s1: Scope, s2: Scope, rows1: seq<Row>,
      rows2: seq<Row>)
    requires k < |from| && FromOk(w.refs, from) && ScopesLookAlike(w.acls, from, s1, s2)
    requires RowListsLookAlike(w.acls, from[k].src, rows1, rows2)
    ensures ListsLookAlike(w.acls, from, Extend(s1, from[k].src.alias, rows1), Extend(s2, from[k].src.alias, rows2))
  {
    var a := from[k].src.alias;
    AliasMember(from, k);
    assert SourceOf(from, a) == from[k].src;
    var ss1, ss2 := Extend(s1, a, rows1), Extend(s2, a, rows2);
    forall i | 0 <= i < |ss1| ensures ScopesLookAlike(w.acls, from, ss1[i], ss2[i]) {
      assert SourceRowsLookAlike(w.acls, from[k].src, rows1[i], rows2[i]);
    }
  }

  lemma {:induction false} SameJoinOne(w: Setting, from: seq<Join>, k: nat, ctx: seq<Frame>, s1: Scope, s2: Scope,
      rows1: seq<Row>, rows2: seq<Row>, o1: Env, o2: Env)
    requires k < |from| && Inside(w, from, ctx, o1, o2) && ScopesLookAlike(w.acls, from, s1, s2)
    requires RowListsLookAlike(w.acls, from[k].src, rows1, rows2)
    requires AllExpr(from[k].on, [Frame(from, false)] + ctx, SafeCheck(w)) && TablesOfExpr(from[k].on) <= w.refs
    ensures
      var j := from[k];
      ListsLookAlike(w.acls, from, JoinOne(s1, j.kind, j.src.alias, rows1, j.on, o1, w.db1, w.m),
                                   JoinOne(s2, j.kind, j.src.alias, rows2, j.on, o2, w.db2, w.m))
    decreases from[k].on, 3, 0
  {
    var j := from[k];
    var cs1, cs2 := Extend(s1, j.src.alias, rows1), Extend(s2, j.src.alias, rows2);
    ExtendLooksAlike(w, from, k, s1, s2, rows1, rows2);
    SameEach(w, j.on, from, ctx, cs1, cs2, o1, o2);
    var flags := EvalEach(j.on, cs1, o1, w.db1, w.m);
    KeepLookAlike(w.acls, from, cs1, cs2, flags);
    OneLooksAlike(w.acls, from, j.kind, s1, s2, Keep(cs1, flags), Keep(cs2, flags));
  }

  /** A left join keeps a scope that nothing matches. */
  lemma {:induction false} OneLooksAlike(acls: Policy, from: seq<Join>, kind: JoinKind, s1: Scope, s2: Scope,
      kept1: seq<Scope>, kept2: seq<Scope>)
    requires ScopesLookAlike(acls, from, s1, s2) && ListsLookAlike(acls, from, kept1, kept2)
    ensures ListsLookAlike(acls, from, if kind == Left && kept1 == [] then [s1] else kept1,
                                       if kind == Left && kept2 == [] then [s2] else kept2)
  {
  }

  lemma {:induction false} SameJoinEach(w: Setting, from: seq<Join>, k: nat, ctx: seq<Frame>, ss1: seq<Scope>,
      ss2: seq<Scope>, rows1: seq<Row>, rows2: seq<Row>, o1: Env, o2: Env)
    requires k < |from| && Inside(w, from, ctx, o1, o2) && ListsLookAlike(w.acls, from, ss1, ss2)
    requires RowListsLookAlike(w.acls, from[k].src, rows1, rows2)
    requires AllExpr(from[k].on, [Frame(from, false)] + ctx, SafeCheck(w)) && TablesOfExpr(from[k].on) <= w.refs
    ensures
      var j := from[k];
      ListsLookAlike(w.acls, from, JoinEach(ss1, j.kind, j.src.alias, rows1, j.on, o1, w.db1, w.m),
                                   JoinEach(ss2, j.kind, j.src.alias, rows2, j.on, o2, w.db2, w.m))
    decreases from[k].on, 4, |ss1|
  {
    if ss1 != [] {
      var j := from[k];
      SameJoinOne(w, from, k, ctx, ss1[0], ss2[0], rows1, rows2, o1, o2);
      SameJoinEach(w, from, k, ctx, ss1[1..], ss2[1..], rows1, rows2, o1, o2);
      ConcatLooksAlike(w.acls, from,
        JoinOne(ss1[0], j.kind, j.src.alias, rows1, j.on, o1, w.db1, w.m),
          JoinOne(ss2[0], j.kind, j.src.alias, rows2, j.on, o2, w.db2, w.m),
        JoinEach(ss1[1..], j.kind, j.src.alias, rows1, j.on, o1, w.db1, w.m),
          JoinEach(ss2[1..], j.kind, j.src.alias, rows2, j.on, o2, w.db2, w.m));
    }
  }

  lemma {:induction false} SameSource(w: Setting, src: Source, from: seq<Join>, ctx: seq<Frame>, o1: Env, o2: Env)
    requires Inside(w, from, ctx, o1, o2)
    requires src.Base? ==> TableKey(src) in w.refs
    requires src.Derived? ==> All(src.q, [Frame(from, true)] + ctx, SafeCheck(w)) && Tables(src.q) <= w.refs
    ensures RowListsLookAlike(w.acls, src, EvalSource(src, o1, w.db1, w.m), EvalSource(src, o2, w.db2, w.m))
    decreases src, 2, 0
  {
    match src
    case Base(_, _, _) => assert TablesLookAlike(w.acls, TableKey(src), Rows(w.db1, TableKey(src)),
      Rows(w.db2, TableKey(src)));
    case Derived(q, _) =>
      EnterDerived(w, from, ctx, o1, o2);
      SameQuery(w, q, [Frame(from, true)] + ctx, o1, o2);
  }

  lemma {:induction false} SameJoins(w: Setting, js: seq<Join>, from: seq<Join>, ctx: seq<Frame>, o1: Env, o2: Env)
    requires Inside(w, from, ctx, o1, o2) && |js| <= |from| && js == from[..|js|]
    requires AllJoins(js, from, ctx, SafeCheck(w)) && TablesOfJoins(js) <= w.refs
    ensures ListsLookAlike(w.acls, from, EvalJoins(js, NullScope(from), o1, w.db1, w.m),
      EvalJoins(js, NullScope(from), o2, w.db2, w.m))
    decreases js, 1, 0
  {
    NullScopesLookAlike(w.acls, from);
    if js != [] {
      var k := |js| - 1;
      var last := js[k];
      assert js decreases to last;
      SameJoins(w, js[..k], from, ctx, o1, o2);
      SameSource(w, last.src, from, ctx, o1, o2);
      SameJoinEach(w, from, k, ctx,
                   EvalJoins(js[..k], NullScope(from), o1, w.db1, w.m),
                     EvalJoins(js[..k], NullScope(from), o2, w.db2, w.m),
                   EvalSource(last.src, o1, w.db1, w.m), EvalSource(last.src, o2, w.db2, w.m), o1, o2);
    }
  }

  lemma {:induction false} FromIsKeyed(refs: set<Name>, from: seq<Join>)
    requires TablesOfJoins(from) <= refs
    ensures Keyed(refs, from)
  {
    if from != [] {
      FromIsKeyed(refs, from[..|from| - 1]);
    }
  }

  // ---- Queries ----

  lemma {:induction false} SameQuery(w: Setting, q: Query, ctx: seq<Frame>, o1: Env, o2: Env)
    requires Around(w, ctx, o1, o2) && All(q, ctx, SafeCheck(w)) && Tables(q) <= w.refs
    ensures EvalQuery(q, o1, w.db1, w.m) == EvalQuery(q, o2, w.db2, w.m)
    decreases q, 1, 0
  {
    match q
    case UnionAll(l, r) =>
      SameQuery(w, l, ctx, o1, o2);
      SameQuery(w, r, ctx, o1, o2);
    case Select(items, from, where, grouping) =>
      FromIsKeyed(w.refs, from);
      SameJoins(w, from, from, ctx, o1, o2);
      var ss1, ss2 := EvalJoins(from, NullScope(from), o1, w.db1, w.m),
        EvalJoins(from, NullScope(from), o2, w.db2, w.m);
      SameEach(w, where, from, ctx, ss1, ss2, o1, o2);
      var flags := EvalEach(where, ss1, o1, w.db1, w.m);
      KeepLookAlike(w.acls, from, ss1, ss2, flags);
      var kept1, kept2 := Keep(ss1, flags), Keep(ss2, flags);
      match grouping
      case Plain => SameProjectAll(w, q, ctx, Singletons(kept1), Singletons(kept2), o1, o2);
      case By(keys, having) =>
        SameKeys(w, keys, from, ctx, kept1, kept2, o1, o2);
        var ks := EvalKeys(keys, kept1, o1, w.db1, w.m);
        GroupByLookAlike(w.acls, from, ks, kept1, kept2);
        var gs1 := if keys == [] then [kept1] else GroupBy(ks, kept1);
        var gs2 := if keys == [] then [kept2] else GroupBy(ks, kept2);
        SameProjectAll(w, q, ctx, gs1, gs2, o1, o2);
  }

  // ---- From the passes of the enforcement to one safe tree ----

  /** Node checks compose: a tree that passes p and r passes any check they imply. */
  ghost predicate Implied(p: Node -> bool, r: Node -> bool, s: Node -> bool) {
    forall n: Node :: p(n) && r(n) ==> s(n)
  }

  lemma {:induction false} Both(q: Query, ctx: seq<Frame>, p: Node -> bool, r: Node -> bool, s: Node -> bool)
    requires Implied(p, r, s) && All(q, ctx, p) && All(q, ctx, r)
    ensures All(q, ctx, s)
    decreases q, 1
  {
    match q
    case UnionAll(l, r') =>
      Both(l, ctx, p, r, s);
      Both(r', ctx, p, r, s);
    case Select(items, from, where, grouping) =>
      var inner := [Frame(from, false)] + ctx;
      BothList(items, inner, p, r, s);
      BothJoins(from, from, ctx, p, r, s);
      BothExpr(where, inner, p, r, s);
      if grouping.By? {
        BothList(grouping.keys, inner, p, r, s);
        BothExpr(grouping.having, inner, p, r, s);
      }
  }

  lemma {:induction false} BothExpr(e: Expr, ctx: seq<Frame>, p: Node -> bool, r: Node -> bool, s: Node -> bool)
    requires Implied(p, r, s) && AllExpr(e, ctx, p) && AllExpr(e, ctx, r)
    ensures AllExpr(e, ctx, s)
    decreases e, 1
  {
    match e
    case Op(_, args) => BothList(args, ctx, p, r, s);
    case Agg(_, arg) => BothExpr(arg, ctx, p, r, s);
    case Alias(e1, _) => BothExpr(e1, ctx, p, r, s);
    case Sub(_, args, q) =>
      BothList(args, ctx, p, r, s);
      Both(q, ctx, p, r, s);
    case _ =>
  }

  lemma {:induction false} BothList(es: seq<Expr>, ctx: seq<Frame>, p: Node -> bool, r: Node -> bool, s: Node -> bool)
    requires Implied(p, r, s) && AllList(es, ctx, p) && AllList(es, ctx, r)
    ensures AllList(es, ctx, s)
    decreases es, 0
  {
    if es != [] {
      BothExpr(es[0], ctx, p, r, s);
      BothList(es[1..], ctx, p, r, s);
    }
  }

  lemma {:induction false} BothJoins(js: seq<Join>, from: seq<Join>, ctx: seq<Frame>, p: Node -> bool, r: Node -> bool,
      s: Node -> bool)
    requires Implied(p, r, s) && AllJoins(js, from, ctx, p) && AllJoins(js, from, ctx, r)
    ensures AllJoins(js, from, ctx, s)
    decreases js, 0
  {
    if js != [] {
      var last := js[|js| - 1];
      assert js decreases to last;
      BothJoins(js[..|js| - 1], from, ctx, p, r, s);
      BothExpr(last.on, [Frame(from, false)] + ctx, p, r, s);
      if last.src.Derived? {
        Both(last.src.q, [Frame(from, true)] + ctx, p, r, s);
      }
    }
  }

  // ---- The main result ----

  /** The two databases agree on what the policy lets through: in every referenced table the rows passing its
      filter have the same visible columns, in order. Nothing is said about other tables or other rows. */
  predicate SameView(q: Query, policy: Policy, m: Engine, db1: Db, db2: Db) {
    var acls := ActiveAcls(q, policy);
    DbsLookAlike(acls, Tables(q), FilterDb(db1, acls, m), FilterDb(db2, acls, m))
  }

  lemma {:induction false} SafeTree(q: Query, w: Setting)
    requires WellScoped(q) && w.refs == Tables(q)
    requires All(q, [], ColumnCheck(w.acls, w.fallback)) && All(q, [], StarCheck(w.acls, w.fallback))
    requires AnyRestricts(w.acls) ==> All(q, [], NoColumnsCheck())
    ensures All(q, [], SafeCheck(w))
  {
    var p1 := (n: Node) => NodeOk(w.refs, n) && ColumnOk(w.acls, w.fallback, n);
    var p2 := (n: Node) => p1(n) && StarOk(w.acls, w.fallback, n);
    Both(q, [], ScopeCheck(w.refs), ColumnCheck(w.acls, w.fallback), p1);
    Both(q, [], p1, StarCheck(w.acls, w.fallback), p2);
    if AnyRestricts(w.acls) {
      Both(q, [], p2, NoColumnsCheck(), SafeCheck(w));
    } else {
      Both(q, [], p2, p2, SafeCheck(w));
    }
  }

  lemma {:induction false} TrivialChecks(q: Query, fallback: map<Name, Name>)
    requires WellScoped(q)
    ensures All(q, [], ColumnCheck(map[], fallback)) && All(q, [], StarCheck(map[], fallback))
  {
    Both(q, [], ScopeCheck(Tables(q)), ScopeCheck(Tables(q)), ColumnCheck(map[], fallback));
    Both(q, [], ScopeCheck(Tables(q)), ScopeCheck(Tables(q)), StarCheck(map[], fallback));
  }

  /** Whatever the enforcement lets through gives the same answer on any two databases with the same view. */
  lemma {:induction false} NonInterference(q: Query, policy: Policy, readable: Name -> bool, fallback: map<Name, Name>,
      m: Engine, db1: Db, db2: Db)
    requires WellScoped(q) && SameView(q, policy, m, db1, db2)
    requires Enforce(q, policy, readable, fallback).Ok?
    ensures
      var r := Enforce(q, policy, readable, fallback).q;
      EvalQuery(r, [], db1, m) == EvalQuery(r, [], db2, m)
  {
    var acls := ActiveAcls(q, policy);
    var fdb1, fdb2 := FilterDb(db1, acls, m), FilterDb(db2, acls, m);
    var w := Setting(acls, Tables(q), fallback, m, fdb1, fdb2);
    if acls == map[] {
      TrivialChecks(q, fallback);
      assert fdb1 == db1 && fdb2 == db2;
    } else {
      RowFilterPushdown(q, acls, [], db1, m);
      RowFilterPushdown(q, acls, [], db2, m);
    }
    SafeTree(q, w);
    SameQuery(w, q, [], [], []);
  }
}
