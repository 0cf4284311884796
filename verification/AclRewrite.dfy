/** Row filters as query rewriting: every reference to a filtered table becomes a filtered subquery. */
module AclRewrite {
  import opened Common
  import opened Sql

  /** `visible == {}` means every column is visible. The filter itself is the engine's `passes`. */
  datatype Acl = Acl(visible: set<Name>, rowFilter: bool)

  type Policy = map<Name, Acl>

  predicate Filtered(acls: Policy, key: Name) {
    key in acls && acls[key].rowFilter
  }

  // ---- The rewriting ----

  /** (SELECT * FROM t WHERE predicate) AS alias */
  function FilteredSource(t: Source): Source
    requires t.Base?
  {
    Derived(Select([Star], [Join(Inner, Base(t.db, t.name, t.name), TRUE)], RowFilter(TableKey(t), t.name), Plain),
      t.alias)
  }

  function Rewrite(q: Query, acls: Policy): (r: Query)
    ensures r.Select? == q.Select?
    decreases q, 1
  {
    match q
    case UnionAll(l, r) => UnionAll(Rewrite(l, acls), Rewrite(r, acls))
    case Select(items, from, where, grouping) =>
      Select(RewriteList(items, acls), RewriteJoins(from, acls), RewriteExpr(where, acls),
             match grouping
             case Plain => Plain
             case By(keys, having) => By(RewriteList(keys, acls), RewriteExpr(having, acls)))
  }

  function RewriteExpr(e: Expr, acls: Policy): Expr
    decreases e, 1
  {
    match e
    case Op(op, args) => Op(op, RewriteList(args, acls))
    case Agg(fn, arg) => Agg(fn, RewriteExpr(arg, acls))
    case Alias(e1, a) => Alias(RewriteExpr(e1, acls), a)
    case Sub(op, args, q) => Sub(op, RewriteList(args, acls), Rewrite(q, acls))
    case _ => e
  }

  function RewriteList(es: seq<Expr>, acls: Policy): (r: seq<Expr>)
    ensures |r| == |es|
    decreases es, 0
  {
    if es == [] then [] else [RewriteExpr(es[0], acls)] + RewriteList(es[1..], acls)
  }

  function RewriteJoins(js: seq<Join>, acls: Policy): (r: seq<Join>)
    ensures |r| == |js|
    ensures forall i :: 0 <= i < |js| ==> r[i].src.alias == js[i].src.alias
    decreases js, 0
  {
    if js == [] then [] else
      var last := js[|js| - 1];
      assert js decreases to last;
      var src :=
        match last.src
        case Base(_, _, _) => if Filtered(acls, TableKey(last.src)) then FilteredSource(last.src) else last.src
        case Derived(q, a) => Derived(Rewrite(q, acls), a);
      RewriteJoins(js[..|js| - 1], acls) + [Join(last.kind, src, RewriteExpr(last.on, acls))]
  }

  /** A query that references no table with a row filter is left as it is. */
  lemma {:induction false} RewriteLeavesUnfiltered(q: Query, acls: Policy)
    requires forall k :: k in Tables(q) && k in acls ==> !acls[k].rowFilter
    ensures Rewrite(q, acls) == q
    decreases q, 1
  {
    match q
    case UnionAll(l, r) =>
      RewriteLeavesUnfiltered(l, acls);
      RewriteLeavesUnfiltered(r, acls);
    case Select(items, from, where, grouping) =>
      ListUnfiltered(items, acls);
      JoinsUnfiltered(from, acls);
      ExprUnfiltered(where, acls);
      if grouping.By? {
        ListUnfiltered(grouping.keys, acls);
        ExprUnfiltered(grouping.having, acls);
      }
  }

  lemma {:induction false} ExprUnfiltered(e: Expr, acls: Policy)
    requires forall k :: k in TablesOfExpr(e) && k in acls ==> !acls[k].rowFilter
    ensures RewriteExpr(e, acls) == e
    decreases e, 1
  {
    match e
    case Op(_, args) => ListUnfiltered(args, acls);
    case Agg(_, arg) => ExprUnfiltered(arg, acls);
    case Alias(e1, _) => ExprUnfiltered(e1, acls);
    case Sub(_, args, q) =>
      ListUnfiltered(args, acls);
      RewriteLeavesUnfiltered(q, acls);
    case _ =>
  }

  lemma {:induction false} ListUnfiltered(es: seq<Expr>, acls: Policy)
    requires forall k :: k in TablesOfList(es) && k in acls ==> !acls[k].rowFilter
    ensures RewriteList(es, acls) == es
    decreases es, 0
  {
    if es != [] {
      ExprUnfiltered(es[0], acls);
      ListUnfiltered(es[1..], acls);
    }
  }

  lemma {:induction false} JoinsUnfiltered(js: seq<Join>, acls: Policy)
    requires forall k :: k in TablesOfJoins(js) && k in acls ==> !acls[k].rowFilter
    ensures RewriteJoins(js, acls) == js
    decreases js, 0
  {
    if js != [] {
      var last := js[|js| - 1];
      assert js decreases to last;
      JoinsUnfiltered(js[..|js| - 1], acls);
      ExprUnfiltered(last.on, acls);
      if last.src.Derived? {
        RewriteLeavesUnfiltered(last.src.q, acls);
      }
    }
  }

  // ---- What it should mean: the query on a database whose tables are already filtered ----

  function Passing(rows: seq<Row>, key: Name, m: Engine): seq<Row> {
    if rows == [] then []
    else (if m.passes(key, rows[0]) then [rows[0]] else []) + Passing(rows[1..], key, m)
  }

  function FilterDb(db: Db, acls: Policy, m: Engine): Db {
    map k | k in db :: if Filtered(acls, k) then Passing(db[k], k, m) else db[k]
  }

  // ---- The filtered subquery yields exactly the passing rows ----

  lemma {:induction false} AlwaysTrue(ss: seq<Scope>, outer: Env, db: Db, m: Engine)
    ensures Keep(ss, EvalEach(TRUE, ss, outer, db, m)) == ss
  {
    if ss != [] {
      AlwaysTrue(ss[1..], outer, db, m);
    }
  }

  lemma {:induction false} StarOutput(from: seq<Join>, s: Scope, outer: Env, db: Db, m: Engine)
    requires |from| == 1 && from[0].src.alias in s
    ensures Project([Star], from, [s], s, outer, db, m) == s[from[0].src.alias]
  {
    assert from[..0] == [];
    assert Merged(s, from) == Merged(s, []) + s[from[0].src.alias];
    assert [Star][1..] == [];
    assert Project([], from, [s], s, outer, db, m) == map[];
  }

  /** Keep and ProjectAll, one scope at a time. */
  lemma {:induction false} ProjectCons(q: Query, s: Scope, rest: seq<Scope>, outer: Env, db: Db, m: Engine)
    requires q.Select? && q.grouping.Plain?
    ensures ProjectAll(q, Singletons([s] + rest), outer, db, m)
         == [Project(q.items, q.from, [s], s, outer, db, m)] + ProjectAll(q, Singletons(rest), outer, db, m)
  {
    var groups := Singletons([s] + rest);
    assert groups[0] == [s];
    assert groups[1..] == Singletons(rest);
  }

  lemma {:induction false} FilterRows(q: Query, s: Scope, rows: seq<Row>, outer: Env, db: Db, m: Engine)
    requires q.Select? && q.items == [Star] && |q.from| == 1 && q.grouping.Plain?
    requires q.where.RowFilter? && q.where.binding == q.from[0].src.alias
    ensures
      var ss := Extend(s, q.from[0].src.alias, rows);
      ProjectAll(q, Singletons(Keep(ss, EvalEach(q.where, ss, outer, db, m))), outer, db, m)
      == Passing(rows, q.where.key, m)
  {
    var a := q.from[0].src.alias;
    var ss := Extend(s, a, rows);
    if rows != [] {
      FilterRows(q, s, rows[1..], outer, db, m);
      assert ss[1..] == Extend(s, a, rows[1..]);
      var rest := Keep(ss[1..], EvalEach(q.where, ss[1..], outer, db, m));
      ProjectCons(q, ss[0], rest, outer, db, m);
      StarOutput(q.from, ss[0], outer, db, m);
      assert Keep(ss, EvalEach(q.where, ss, outer, db, m)) ==
        (if m.passes(q.where.key, rows[0]) then [ss[0]] + rest else rest);
    }
  }

  lemma {:induction false} FilteredSubquery(t: Source, outer: Env, db: Db, m: Engine)
    requires t.Base?
    ensures EvalSource(FilteredSource(t), outer, db, m) == Passing(Rows(db, TableKey(t)), TableKey(t), m)
  {
    var q := FilteredSource(t).q;
    var rows := Rows(db, TableKey(t));
    var s0 := NullScope(q.from);
    var ss := Extend(s0, t.name, rows);
    assert EvalJoins(q.from, s0, outer, db, m) == ss by {
      assert q.from[..0] == [];
      assert EvalJoins([], s0, outer, db, m) == [s0];
      assert EvalSource(q.from[0].src, outer, db, m) == rows;
      AlwaysTrue(ss, outer, db, m);
      assert JoinOne(s0, Inner, t.name, rows, TRUE, outer, db, m) == ss;
      assert JoinEach([s0], Inner, t.name, rows, TRUE, outer, db, m) == ss + [];
    }
    FilterRows(q, s0, rows, outer, db, m);
  }

  // ---- Rewriting preserves meaning ----

  lemma {:induction false} SameScopes(from: seq<Join>, from': seq<Join>, s: Scope)
    requires |from| == |from'|
    requires forall i :: 0 <= i < |from| ==> from[i].src.alias == from'[i].src.alias
    ensures NullScope(from) == NullScope(from')
    ensures Merged(s, from) == Merged(s, from')
  {
    forall a | a in Aliases(from) ensures a in Aliases(from') {
      var j :| j in from && j.src.alias == a;
      var i :| 0 <= i < |from| && from[i] == j;
      assert from'[i] in from';
    }
    forall a | a in Aliases(from') ensures a in Aliases(from) {
      var j :| j in from' && j.src.alias == a;
      var i :| 0 <= i < |from'| && from'[i] == j;
      assert from[i] in from;
    }
    assert Aliases(from) == Aliases(from');
    if from != [] {
      SameScopes(from[..|from| - 1], from'[..|from'| - 1], s);
    }
  }

  lemma {:induction false} PushExpr(e: Expr, acls: Policy, group: seq<Scope>, head: Scope, outer: Env, db: Db,
      m: Engine)
    ensures Eval(RewriteExpr(e, acls), group, head, outer, db, m) ==
      Eval(e, group, head, outer, FilterDb(db, acls, m), m)
    decreases e, 1, 0
  {
    match e
    case Op(_, args) => PushList(args, acls, group, head, outer, db, m);
    case Agg(_, arg) => PushEach(arg, acls, group, outer, db, m);
    case Alias(e1, _) => PushExpr(e1, acls, group, head, outer, db, m);
    case Sub(_, args, q) =>
      PushList(args, acls, group, head, outer, db, m);
      RowFilterPushdown(q, acls, [head] + outer, db, m);
    case _ => PushLeaf(e, acls, group, head, outer, db, m);
  }

  /** Everything else reads rows already bound, not the database. */
  lemma {:induction false} PushLeaf(e: Expr, acls: Policy, group: seq<Scope>, head: Scope, outer: Env, db: Db,
      m: Engine)
    requires !e.Op? && !e.Agg? && !e.Alias? && !e.Sub?
    ensures Eval(RewriteExpr(e, acls), group, head, outer, db, m) ==
      Eval(e, group, head, outer, FilterDb(db, acls, m), m)
  {
  }

  lemma {:induction false} PushList(es: seq<Expr>, acls: Policy, group: seq<Scope>, head: Scope, outer: Env, db: Db,
      m: Engine)
    ensures EvalList(RewriteList(es, acls), group, head, outer, db, m) ==
      EvalList(es, group, head, outer, FilterDb(db, acls, m), m)
    decreases es, 0, 0
  {
    if es != [] {
      PushExpr(es[0], acls, group, head, outer, db, m);
      PushList(es[1..], acls, group, head, outer, db, m);
      assert RewriteList(es, acls)[1..] == RewriteList(es[1..], acls);
    }
  }

  lemma {:induction false} PushEach(e: Expr, acls: Policy, ss: seq<Scope>, outer: Env, db: Db, m: Engine)
    ensures EvalEach(RewriteExpr(e, acls), ss, outer, db, m) == EvalEach(e, ss, outer, FilterDb(db, acls, m), m)
    decreases e, 2, |ss|
  {
    if ss != [] {
      PushExpr(e, acls, [ss[0]], ss[0], outer, db, m);
      PushEach(e, acls, ss[1..], outer, db, m);
    }
  }

  lemma {:induction false} PushKeys(es: seq<Expr>, acls: Policy, ss: seq<Scope>, outer: Env, db: Db, m: Engine)
    ensures EvalKeys(RewriteList(es, acls), ss, outer, db, m) == EvalKeys(es, ss, outer, FilterDb(db, acls, m), m)
    decreases es, 1, |ss|
  {
    if ss != [] {
      PushList(es, acls, [ss[0]], ss[0], outer, db, m);
      PushKeys(es, acls, ss[1..], outer, db, m);
    }
  }

  lemma {:induction false} PushOutput(item: Expr, from: seq<Join>, acls: Policy, group: seq<Scope>, head: Scope,
      outer: Env, db: Db, m: Engine)
    ensures Output(RewriteExpr(item, acls), RewriteJoins(from, acls), group, head, outer, db, m)
         == Output(item, from, group, head, outer, FilterDb(db, acls, m), m)
    decreases item, 2, 0
  {
    match item
    case Star => SameScopes(from, RewriteJoins(from, acls), head);
    case TableStar(_) =>
    case Alias(e, _) => PushExpr(e, acls, group, head, outer, db, m);
    case _ => PushExpr(item, acls, group, head, outer, db, m);
  }

  lemma {:induction false} PushProject(items: seq<Expr>, from: seq<Join>, acls: Policy, group: seq<Scope>, head: Scope,
      outer: Env, db: Db, m: Engine)
    ensures Project(RewriteList(items, acls), RewriteJoins(from, acls), group, head, outer, db, m)
         == Project(items, from, group, head, outer, FilterDb(db, acls, m), m)
    decreases items, 1, 0
  {
    if items != [] {
      PushOutput(items[0], from, acls, group, head, outer, db, m);
      PushProject(items[1..], from, acls, group, head, outer, db, m);
      assert RewriteList(items, acls)[1..] == RewriteList(items[1..], acls);
    }
  }

  lemma {:induction false} PushProjectAll(q: Query, acls: Policy, groups: seq<seq<Scope>>, outer: Env, db: Db,
      m: Engine)
    requires q.Select?
    ensures ProjectAll(Rewrite(q, acls), groups, outer, db, m) == ProjectAll(q, groups, outer, FilterDb(db, acls, m), m)
    decreases q, 0, |groups|
  {
    if groups != [] {
      var g := groups[0];
      SameScopes(q.from, RewriteJoins(q.from, acls), map[]);
      var head := if g == [] then NullScope(q.from) else g[0];
      PushProject(q.items, q.from, acls, g, head, outer, db, m);
      if q.grouping.By? {
        PushExpr(q.grouping.having, acls, g, head, outer, db, m);
      }
      PushProjectAll(q, acls, groups[1..], outer, db, m);
    }
  }

  lemma {:induction false} PushJoinEach(ss: seq<Scope>, kind: JoinKind, alias: Name, rows: seq<Row>, on: Expr,
      acls: Policy, outer: Env, db: Db, m: Engine)
    ensures JoinEach(ss, kind, alias, rows, RewriteExpr(on, acls), outer, db, m)
         == JoinEach(ss, kind, alias, rows, on, outer, FilterDb(db, acls, m), m)
    decreases on, 3, |ss|
  {
    if ss != [] {
      PushEach(on, acls, Extend(ss[0], alias, rows), outer, db, m);
      PushJoinEach(ss[1..], kind, alias, rows, on, acls, outer, db, m);
    }
  }

  lemma {:induction false} PushJoins(js: seq<Join>, acls: Policy, base: Scope, outer: Env, db: Db, m: Engine)
    ensures EvalJoins(RewriteJoins(js, acls), base, outer, db, m) ==
      EvalJoins(js, base, outer, FilterDb(db, acls, m), m)
    decreases js, 1, 0
  {
    if js != [] {
      var last := js[|js| - 1];
      assert js decreases to last;
      var js' := RewriteJoins(js, acls);
      PushJoins(js[..|js| - 1], acls, base, outer, db, m);
      assert js'[..|js'| - 1] == RewriteJoins(js[..|js| - 1], acls);
      assert EvalSource(js'[|js'| - 1].src, outer, db, m) == EvalSource(last.src, outer, FilterDb(db, acls, m), m) by {
        match last.src
        case Base(_, _, _) => FilteredSubquery(last.src, outer, db, m);
        case Derived(q, _) => RowFilterPushdown(q, acls, outer, db, m);
      }
      var fdb := FilterDb(db, acls, m);
      PushJoinEach(EvalJoins(js[..|js| - 1], base, outer, fdb, m), last.kind, last.src.alias,
                   EvalSource(last.src, outer, fdb, m), last.on, acls, outer, db, m);
    }
  }

  /** Evaluating the rewritten query is evaluating the original on the filtered database: in nested queries,
      on either side of joins and before any aggregation. */
  lemma {:induction false} RowFilterPushdown(q: Query, acls: Policy, outer: Env, db: Db, m: Engine)
    ensures EvalQuery(Rewrite(q, acls), outer, db, m) == EvalQuery(q, outer, FilterDb(db, acls, m), m)
    decreases q, 1, 0
  {
    match q
    case UnionAll(l, r) =>
      RowFilterPushdown(l, acls, outer, db, m);
      RowFilterPushdown(r, acls, outer, db, m);
    case Select(items, from, where, grouping) =>
      var fdb := FilterDb(db, acls, m);
      SameScopes(from, RewriteJoins(from, acls), map[]);
      PushJoins(from, acls, NullScope(from), outer, db, m);
      var ss := EvalJoins(from, NullScope(from), outer, fdb, m);
      PushEach(where, acls, ss, outer, db, m);
      var kept := Keep(ss, EvalEach(where, ss, outer, fdb, m));
      match grouping
      case Plain => PushProjectAll(q, acls, Singletons(kept), outer, db, m);
      case By(keys, having) =>
        PushKeys(keys, acls, kept, outer, db, m);
        var groups := if keys == [] then [kept] else GroupBy(EvalKeys(keys, kept, outer, fdb, m), kept);
        PushProjectAll(q, acls, groups, outer, db, m);
  }
}
