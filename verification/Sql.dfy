/** Qualified SQL: the syntax trees that the ACL layer inspects and rewrites, and their meaning.

    A tree is what name qualification leaves behind: every column carries its table name, every table
    reference carries an alias, every projection is aliased. Identifiers are already in canonical case. */
module Sql {
  import opened Common

  type Name = string

  datatype Value = Null | Bool(b: bool) | Int(n: int) | Str(s: string)

  datatype Expr =
    | Col(table: Name, col: Name)
    | Lit(v: Value)
    | Op(op: Name, args: seq<Expr>)
    | Agg(fn: Name, arg: Expr)
    | CountStar
    | Star                                          // SELECT *
    | TableStar(table: Name)                        // SELECT t.*
    | Columns(pattern: Name)                        // COLUMNS('pattern')
    | Alias(e: Expr, name: Name)
    | Sub(op: Name, args: seq<Expr>, q: Query)      // scalar subquery, EXISTS, IN, ANY, ALL
    | RowFilter(key: Name, binding: Name)           // an ACL predicate, produced only by the rewriting

  datatype Source =
    | Base(db: Name, name: Name, alias: Name)       // db == "" for a one-part reference
    | Derived(q: Query, alias: Name)

  datatype JoinKind = Inner | Left

  /** FROM is the first element of a select's source list, joined with kind Inner and condition TRUE. */
  datatype Join = Join(kind: JoinKind, src: Source, on: Expr)

  datatype Grouping = Plain | By(keys: seq<Expr>, having: Expr)

  datatype Query =
    | Select(items: seq<Expr>, from: seq<Join>, where: Expr, grouping: Grouping)
    | UnionAll(left: Query, right: Query)

  const TRUE := Lit(Bool(true))

  /** The identity under which ACLs are looked up: the full dotted name of a two-part reference. */
  function TableKey(t: Source): Name
    requires t.Base?
  {
    if t.db != "" then t.db + "." + t.name else t.name
  }

  /** Two-part references never share a key with another table, in or out of a database. */
  lemma {:induction false} KeysTellTablesApart(a: Source, b: Source)
    requires a.Base? && b.Base? && '.' !in a.db + a.name && '.' !in b.db + b.name
    ensures TableKey(a) == TableKey(b) <==> a.db == b.db && a.name == b.name
  {
    if TableKey(a) == TableKey(b) {
      if |a.db| < |b.db| {
        DotFirst(b, a);
      } else if |b.db| < |a.db| {
        DotFirst(a, b);
      } else if a.db != "" {
        assert TableKey(a)[..|a.db|] == a.db && TableKey(b)[..|b.db|] == b.db;
        assert TableKey(a)[|a.db| + 1..] == a.name && TableKey(b)[|b.db| + 1..] == b.name;
      }
    }
  }

  lemma {:induction false} DotFirst(a: Source, b: Source)
    requires a.Base? && b.Base? && '.' !in a.db + a.name && '.' !in b.db + b.name && |b.db| < |a.db|
    ensures TableKey(a) != TableKey(b)
  {
    assert TableKey(a)[|a.db|] == '.' && (b.db != "" ==> TableKey(b)[|b.db|] == '.');
  }

  /** The keys of all base tables referenced anywhere in the tree. */
  function Tables(q: Query): set<Name>
    decreases q, 1
  {
    match q
    case UnionAll(l, r) => Tables(l) + Tables(r)
    case Select(items, from, where, grouping) =>
      TablesOfList(items) + TablesOfJoins(from) + TablesOfExpr(where) +
      match grouping
      case Plain => {}
      case By(keys, having) => TablesOfList(keys) + TablesOfExpr(having)
  }

  function TablesOfExpr(e: Expr): set<Name>
    decreases e, 1
  {
    match e
    case Op(_, args) => TablesOfList(args)
    case Agg(_, arg) => TablesOfExpr(arg)
    case Alias(e1, _) => TablesOfExpr(e1)
    case Sub(_, args, q) => TablesOfList(args) + Tables(q)
    case _ => {}
  }

  function TablesOfList(es: seq<Expr>): set<Name>
    decreases es, 0
  {
    if es == [] then {} else TablesOfExpr(es[0]) + TablesOfList(es[1..])
  }

  function TablesOfJoins(js: seq<Join>): set<Name>
    decreases js, 0
  {
    if js == [] then {} else
      var last := js[|js| - 1];
      assert js decreases to last;
      TablesOfJoins(js[..|js| - 1]) + TablesOfExpr(last.on) +
      match last.src
      case Base(_, _, _) => {TableKey(last.src)}
      case Derived(q, _) => Tables(q)
  }

  // ---- Meaning ----

  type Row = map<Name, Value>

  /** One binding of the sources of a select: alias -> current row. A missing column reads as NULL. */
  type Scope = map<Name, Row>

  /** Enclosing scopes, innermost first. */
  type Env = seq<Scope>

  type Db = map<Name, seq<Row>>

  /** Everything the engine supplies: operators, aggregates, COLUMNS(), subquery operators and the truth of
      each ACL predicate on a row. All results below hold for every such engine. */
  datatype Engine = Engine(
    op: (Name, seq<Value>) -> Value,
    agg: (Name, seq<Value>) -> Value,
    columns: (Name, Scope) -> Value,
    sub: (Name, seq<Value>, seq<Row>) -> Value,
    passes: (Name, Row) -> bool)

  function Cell(r: Row, c: Name): Value {
    if c in r then r[c] else Null
  }

  function Rows(db: Db, key: Name): seq<Row> {
    if key in db then db[key] else []
  }

  /** Lexical scoping at run time: the innermost scope that binds the name. */
  function Lookup(env: Env, t: Name): Option<Row> {
    if env == [] then None
    else if t in env[0] then Some(env[0][t])
    else Lookup(env[1..], t)
  }

  function Keep<T>(xs: seq<T>, flags: seq<Value>): (r: seq<T>)
    requires |xs| == |flags|
    ensures |r| <= |xs|
  {
    if xs == [] then []
    else (if flags[0] == Bool(true) then [xs[0]] else []) + Keep(xs[1..], flags[1..])
  }

  function SameKey(keys: seq<seq<Value>>, k: seq<Value>, same: bool): (r: seq<Value>)
    ensures |r| == |keys|
  {
    seq(|keys|, i requires 0 <= i < |keys| => Bool((keys[i] == k) == same))
  }

  /** Groups in order of first occurrence of their key. */
  function GroupBy(keys: seq<seq<Value>>, ss: seq<Scope>): seq<seq<Scope>>
    requires |keys| == |ss|
    decreases |keys|
  {
    if ss == [] then [] else
      var k, ks := keys[0], keys[1..];
      var same, other := SameKey(ks, k, true), SameKey(ks, k, false);
      KeepLength(ks, ss[1..], other);
      [[ss[0]] + Keep(ss[1..], same)] + GroupBy(Keep(ks, other), Keep(ss[1..], other))
  }

  lemma {:induction false} KeepLength<A, B>(xs: seq<A>, ys: seq<B>, flags: seq<Value>)
    requires |xs| == |ys| == |flags|
    ensures |Keep(xs, flags)| == |Keep(ys, flags)|
  {
    if xs != [] {
      KeepLength(xs[1..], ys[1..], flags[1..]);
    }
  }

  function Extend(s: Scope, alias: Name, rows: seq<Row>): (r: seq<Scope>)
    ensures |r| == |rows|
    ensures forall i :: 0 <= i < |rows| ==> r[i] == s[alias := rows[i]]
  {
    seq(|rows|, i requires 0 <= i < |rows| => s[alias := rows[i]])
  }

  function Aliases(from: seq<Join>): set<Name> {
    set j | j in from :: j.src.alias
  }

  /** All sources of a select bound to the all-NULL row: where joining starts, what an unmatched outer join
      leaves behind, and what an aggregate over no rows sees. */
  function NullScope(from: seq<Join>): (s: Scope)
    ensures s.Keys == Aliases(from)
  {
    map a | a in Aliases(from) :: map[]
  }

  /** SELECT * over one scope: the columns of all sources, later sources winning on a name clash. */
  function Merged(s: Scope, from: seq<Join>): Row {
    if from == [] then map[]
    else
      var a := from[|from| - 1].src.alias;
      Merged(s, from[..|from| - 1]) + (if a in s then s[a] else map[])
  }

  /** The value of an expression for the scope `head` standing for the rows in `group`. */
  function Eval(e: Expr, group: seq<Scope>, head: Scope, outer: Env, db: Db, m: Engine): Value
    decreases e, 1, 0
  {
    match e
    case Col(t, c) =>
      (match Lookup([head] + outer, t)
       case Some(r) => Cell(r, c)
       case None => Null)
    case Lit(v) => v
    case Op(op, args) => m.op(op, EvalList(args, group, head, outer, db, m))
    case Agg(fn, arg) => m.agg(fn, EvalEach(arg, group, outer, db, m))
    case CountStar => Int(|group|)
    case Star => Null
    case TableStar(_) => Null
    case Columns(p) => m.columns(p, head)
    case Alias(e1, _) => Eval(e1, group, head, outer, db, m)
    case Sub(op, args, q) => m.sub(op, EvalList(args, group, head, outer, db, m), EvalQuery(q, [head] + outer, db, m))
    case RowFilter(key, b) => Bool(b in head && m.passes(key, head[b]))
  }

  function EvalList(es: seq<Expr>, group: seq<Scope>, head: Scope, outer: Env, db: Db, m: Engine): seq<Value>
    decreases es, 0, 0
  {
    if es == [] then [] else [Eval(es[0], group, head, outer, db, m)] + EvalList(es[1..], group, head, outer, db, m)
  }

  /** One value per scope, each scope standing for itself. */
  function EvalEach(e: Expr, ss: seq<Scope>, outer: Env, db: Db, m: Engine): (r: seq<Value>)
    ensures |r| == |ss|
    decreases e, 2, |ss|
  {
    if ss == [] then [] else [Eval(e, [ss[0]], ss[0], outer, db, m)] + EvalEach(e, ss[1..], outer, db, m)
  }

  function EvalKeys(es: seq<Expr>, ss: seq<Scope>, outer: Env, db: Db, m: Engine): (r: seq<seq<Value>>)
    ensures |r| == |ss|
    decreases es, 1, |ss|
  {
    if ss == [] then [] else [EvalList(es, [ss[0]], ss[0], outer, db, m)] + EvalKeys(es, ss[1..], outer, db, m)
  }

  /** What one element of a select list contributes to the output row. */
  function Output(item: Expr, from: seq<Join>, group: seq<Scope>, head: Scope, outer: Env, db: Db, m: Engine): Row
    decreases item, 2, 0
  {
    match item
    case Star => Merged(head, from)
    case TableStar(t) =>
      (match Lookup([head] + outer, t)
       case Some(r) => r
       case None => map[])
    case Alias(e, a) => map[a := Eval(e, group, head, outer, db, m)]
    case _ => map["" := Eval(item, group, head, outer, db, m)]
  }

  /** The output row of a select list. */
  function Project(items: seq<Expr>, from: seq<Join>, group: seq<Scope>, head: Scope, outer: Env, db: Db,
      m: Engine): Row
    decreases items, 1, 0
  {
    if items == [] then map[] else
      Output(items[0], from, group, head, outer, db, m) + Project(items[1..], from, group, head, outer, db, m)
  }

  /** The output rows of a select: one per group that satisfies HAVING. */
  function ProjectAll(q: Query, groups: seq<seq<Scope>>, outer: Env, db: Db, m: Engine): seq<Row>
    requires q.Select?
    decreases q, 0, |groups|
  {
    if groups == [] then [] else
      var g := groups[0];
      var head := if g == [] then NullScope(q.from) else g[0];
      (if q.grouping.Plain? || Eval(q.grouping.having, g, head, outer, db, m) == Bool(true)
       then [Project(q.items, q.from, g, head, outer, db, m)] else []) +
      ProjectAll(q, groups[1..], outer, db, m)
  }

  function Singletons(ss: seq<Scope>): (r: seq<seq<Scope>>)
    ensures |r| == |ss| && forall i :: 0 <= i < |ss| ==> r[i] == [ss[i]]
  {
    seq(|ss|, i requires 0 <= i < |ss| => [ss[i]])
  }

  function EvalSource(src: Source, outer: Env, db: Db, m: Engine): seq<Row>
    decreases src, 2, 0
  {
    match src
    case Base(_, _, _) => Rows(db, TableKey(src))
    case Derived(q, _) => EvalQuery(q, outer, db, m)
  }

  /** The joined scopes of a prefix of a select's sources. A derived table sees the scopes outside its
      select, not its siblings. */
  function EvalJoins(js: seq<Join>, base: Scope, outer: Env, db: Db, m: Engine): seq<Scope>
    decreases js, 1, 0
  {
    if js == [] then [base] else
      var last := js[|js| - 1];
      assert js decreases to last;
      var rows := EvalSource(last.src, outer, db, m);
      JoinEach(EvalJoins(js[..|js| - 1], base, outer, db, m), last.kind, last.src.alias, rows, last.on, outer, db, m)
  }

  function JoinOne(s: Scope, kind: JoinKind, alias: Name, rows: seq<Row>, on: Expr, outer: Env, db: Db,
      m: Engine): seq<Scope>
    decreases on, 3, 0
  {
    var cs := Extend(s, alias, rows);
    var kept := Keep(cs, EvalEach(on, cs, outer, db, m));
    if kind == Left && kept == [] then [s] else kept
  }

  function JoinEach(ss: seq<Scope>, kind: JoinKind, alias: Name, rows: seq<Row>, on: Expr, outer: Env, db: Db,
      m: Engine): seq<Scope>
    decreases on, 4, |ss|
  {
    if ss == [] then []
    else JoinOne(ss[0], kind, alias, rows, on, outer, db, m) + JoinEach(ss[1..], kind, alias, rows, on, outer, db, m)
  }

  function EvalQuery(q: Query, outer: Env, db: Db, m: Engine): seq<Row>
    decreases q, 1, 0
  {
    match q
    case UnionAll(l, r) => EvalQuery(l, outer, db, m) + EvalQuery(r, outer, db, m)
    case Select(items, from, where, grouping) =>
      var ss := EvalJoins(from, NullScope(from), outer, db, m);
      var kept := Keep(ss, EvalEach(where, ss, outer, db, m));
      match grouping
      case Plain => ProjectAll(q, Singletons(kept), outer, db, m)
      case By(keys, having) =>
        var groups := if keys == [] then [kept] else GroupBy(EvalKeys(keys, kept, outer, db, m), kept);
        ProjectAll(q, groups, outer, db, m)
  }
}
