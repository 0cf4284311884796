/** Embedding a text column: the null backfill, and concurrent jobs that drop and re-add the column. */
module Backfill {
  import opened Common

  /** A row's text may itself be null. */
  type Text = Option<string>

  type Column<V> = seq<Option<V>>

  /** v is an encoding of the row's text; the backfill encodes a null text as the empty string. */
  predicate Fits<V(==)>(enc: Text -> V, t: Text, v: V) {
    v == enc(t) || (t.None? && v == enc(Some("")))
  }

  function OrEmpty(t: Text): Text {
    if t.Some? then t else Some("")
  }

  // ---- Gather and scatter ----

  /** The rows whose nullness is as asked, in order. */
  function Where<V>(emb: Column<V>, isNull: bool): (r: seq<nat>)
    ensures |r| <= |emb|
    ensures forall k :: 0 <= k < |r| ==> r[k] < |emb| && emb[r[k]].None? == isNull
    ensures forall i :: 0 <= i < |emb| && emb[i].None? == isNull ==> i in r
    ensures forall k, l :: 0 <= k < l < |r| ==> r[k] < r[l]
  {
    if emb == [] then [] else
      var front := Where(emb[..|emb| - 1], isNull);
      if emb[|emb| - 1].None? == isNull then front + [|emb| - 1] else front
  }

  /** The packed values of the non-null rows: null rows occupy no slot in the stored child array. */
  function Packed<V>(emb: Column<V>): seq<V> {
    var idx := Where(emb, false);
    seq(|idx|, k requires 0 <= k < |idx| => emb[idx[k]].value)
  }

  /** Scatters the packed values back to their rows and puts new encodings into the null rows. */
  method Rebuild<V(0)>(texts: seq<Text>, emb: Column<V>, packed: seq<V>, enc: Text -> V) returns (full: array<V>)
    requires |texts| == |emb| && packed == Packed(emb)
    ensures fresh(full) && full.Length == |emb|
    ensures full[..] == Rebuilt(enc, texts, emb)
  {
    var nulls, others := Where(emb, true), Where(emb, false);
    full := new V[|emb|];
    for k := 0 to |others|
      invariant forall l :: 0 <= l < k ==> full[others[l]] == packed[l]
    {
      full[others[k]] := packed[k];
    }
    for k := 0 to |nulls|
      invariant forall l :: 0 <= l < |others| ==> full[others[l]] == packed[l]
      invariant forall l :: 0 <= l < k ==> full[nulls[l]] == enc(OrEmpty(texts[nulls[l]]))
    {
      full[nulls[k]] := enc(OrEmpty(texts[nulls[k]]));
    }
    forall i | 0 <= i < |emb| ensures full[i] == if emb[i].Some? then emb[i].value else enc(OrEmpty(texts[i])) {
      if emb[i].Some? {
        assert i in others;
      } else {
        assert i in nulls;
      }
    }
  }

  // ---- The stored table and the jobs working on it ----

  /** An absent column is None; appended rows have a null embedding. */
  datatype Table<V> = Table(texts: seq<Text>, column: Option<Column<V>>)

  /** A job carries the column it built from its snapshot. Jobs look, read, check and write in separate steps. */
  datatype Job<V> =
    | Looked(hasColumn: bool)  // has asked whether the column exists
    | ToAdd(full: seq<V>)      // first-time path: encoded everything, about to add
    | ToGuard(full: seq<V>)    // backfill: rebuilt, about to re-check the row count
    | ToDrop(full: seq<V>)     // row count matched, about to drop the old column
    | ToReAdd(full: seq<V>)    // dropped, about to add

  datatype State<V> = State(table: Table<V>, jobs: map<nat, Job<V>>)

  datatype Event =
    | AppendRows(texts: seq<Text>)
    | Look(j: nat)
    | Read(j: nat)
    | Guard(j: nat)
    | Drop(j: nat)
    | Add(j: nat)
    | Fail(j: nat)

  function Nulls<V>(n: nat): (r: Column<V>)
    ensures |r| == n && forall i :: 0 <= i < n ==> r[i] == None
  {
    seq(n, i => None)
  }

  function EncodeAll<V>(enc: Text -> V, texts: seq<Text>): (r: seq<V>)
    ensures |r| == |texts| && forall i :: 0 <= i < |texts| ==> r[i] == enc(texts[i])
  {
    seq(|texts|, i requires 0 <= i < |texts| => enc(texts[i]))
  }

  function Rebuilt<V>(enc: Text -> V, texts: seq<Text>, emb: Column<V>): (r: seq<V>)
    requires |texts| == |emb|
    ensures |r| == |emb| && forall i :: 0 <= i < |emb| ==> r[i] == if emb[i].Some? then emb[i].value
      else enc(OrEmpty(texts[i]))
  {
    seq(|emb|, i requires 0 <= i < |emb| => if emb[i].Some? then emb[i].value else enc(OrEmpty(texts[i])))
  }

  function Stored<V>(full: seq<V>): (r: Column<V>)
    ensures |r| == |full| && forall i :: 0 <= i < |full| ==> r[i] == Some(full[i])
  {
    seq(|full|, i requires 0 <= i < |full| => Some(full[i]))
  }

  predicate HasNulls<V(==)>(emb: Column<V>) {
    exists i :: 0 <= i < |emb| && emb[i].None?
  }

  /** The column is still there and has something to backfill; otherwise reading it fails or ends the job. */
  predicate Readable<V(==)>(t: Table<V>) {
    t.column.Some? && |t.column.value| == |t.texts| && HasNulls(t.column.value)
  }

  predicate Enabled<V(==)>(s: State<V>, e: Event) {
    match e
    case AppendRows(_) => true
    case Look(j) => j !in s.jobs
    case Read(j) => j in s.jobs && s.jobs[j].Looked? && (s.jobs[j].hasColumn ==> Readable(s.table))
    case Guard(j) => j in s.jobs && s.jobs[j].ToGuard?
    case Drop(j) => j in s.jobs && s.jobs[j].ToDrop? && s.table.column.Some?
    case Add(j) => j in s.jobs && (s.jobs[j].ToAdd? || s.jobs[j].ToReAdd?)
    case Fail(j) => j in s.jobs
  }

  /** The store refuses to add a column that exists or whose row count differs; such a job fails and changes nothing. */
  function Step<V(==)>(enc: Text -> V, s: State<V>, e: Event): State<V>
    requires Enabled(s, e)
  {
    var t := s.table;
    match e
    case AppendRows(more) =>
      s.(table := Table(t.texts + more, if t.column.None? then None else Some(t.column.value + Nulls(|more|))))
    case Look(j) => s.(jobs := s.jobs[j := Looked(t.column.Some?)])
    case Read(j) =>
      s.(jobs := s.jobs[j := if s.jobs[j].hasColumn then ToGuard(Rebuilt(enc, t.texts, t.column.value))
        else ToAdd(EncodeAll(enc, t.texts))])
    case Guard(j) =>
      if |t.texts| == |s.jobs[j].full| then s.(jobs := s.jobs[j := ToDrop(s.jobs[j].full)])
        else s.(jobs := s.jobs - {j})
    case Drop(j) => State(t.(column := None), s.jobs[j := ToReAdd(s.jobs[j].full)])
    case Add(j) =>
      var full := s.jobs[j].full;
      if t.column.None? && |full| == |t.texts| then State(t.(column := Some(Stored(full))), s.jobs - {j})
        else s.(jobs := s.jobs - {j})
    case Fail(j) => s.(jobs := s.jobs - {j})
  }

  predicate ValidTrace<V(==)>(enc: Text -> V, s: State<V>, trace: seq<Event>)
    decreases trace
  {
    trace == [] || (Enabled(s, trace[0]) && ValidTrace(enc, Step(enc, s, trace[0]), trace[1..]))
  }

  function Run<V(==)>(enc: Text -> V, s: State<V>, trace: seq<Event>): State<V>
    requires ValidTrace(enc, s, trace)
    decreases trace
  {
    if trace == [] then s else Run(enc, Step(enc, s, trace[0]), trace[1..])
  }

  // ---- No vector in the wrong row ----

  predicate RowsFit<V(==)>(enc: Text -> V, texts: seq<Text>, full: seq<V>) {
    |full| <= |texts| && forall i :: 0 <= i < |full| ==> Fits(enc, texts[i], full[i])
  }

  predicate ColumnFits<V(==)>(enc: Text -> V, t: Table<V>) {
    t.column.Some? ==>
      |t.column.value| == |t.texts| &&
      forall i :: 0 <= i < |t.texts| && t.column.value[i].Some? ==> Fits(enc, t.texts[i], t.column.value[i].value)
  }

  predicate Sound<V(==)>(enc: Text -> V, s: State<V>) {
    ColumnFits(enc, s.table) && forall j :: j in s.jobs && !s.jobs[j].Looked? ==>
      RowsFit(enc, s.table.texts, s.jobs[j].full)
  }

  lemma {:induction false} StepKeeps<V>(enc: Text -> V, s: State<V>, e: Event)
    requires Sound(enc, s) && Enabled(s, e)
    ensures Sound(enc, Step(enc, s, e))
  {
  }

  lemma {:induction false} RunKeeps<V>(enc: Text -> V, s: State<V>, trace: seq<Event>)
    requires Sound(enc, s) && ValidTrace(enc, s, trace)
    ensures Sound(enc, Run(enc, s, trace))
    decreases trace
  {
    if trace != [] {
      StepKeeps(enc, s, trace[0]);
      RunKeeps(enc, Step(enc, s, trace[0]), trace[1..]);
    }
  }

  /** Over any interleaving of appends and of any number of embedding jobs, with failures anywhere (between drop and
      re-add
      included), every stored vector is an encoding of its own row's text. */
  lemma {:induction false} VectorsStayWithTheirRows<V>(enc: Text -> V, trace: seq<Event>)
    requires ValidTrace(enc, State(Table([], None), map[]), trace)
    ensures ColumnFits(enc, Run(enc, State(Table([], None), map[]), trace).table)
  {
    RunKeeps(enc, State(Table([], None), map[]), trace);
  }

  // ---- One undisturbed call heals whatever was left behind ----

  predicate Complete<V(==)>(enc: Text -> V, t: Table<V>) {
    && t.column.Some? && ColumnFits(enc, t)
    && forall i :: 0 <= i < |t.column.value| ==> t.column.value[i].Some?
  }

  class Dataset<V(0,==)> {
    var table: Table<V>

    constructor (texts: seq<Text>)
      ensures table == Table(texts, None)
    {
      table := Table(texts, None);
    }

    /** First-time add, or backfill of the null rows. Vectors already stored are kept. */
    method EmbedAndAdd(enc: Text -> V) returns (n: nat)
      requires ColumnFits(enc, table)
      modifies this
      ensures Complete(enc, table) && table.texts == old(table.texts)
      ensures old(table.column).Some? ==> forall i :: 0 <= i < |table.texts| && old(table.column).value[i].Some? ==>
                table.column.value[i] == old(table.column).value[i]
      ensures old(table.column).None? ==> n == |table.texts|
      ensures old(table.column).Some? ==> n == |Where(old(table.column).value, true)|
    {
      if table.column.None? {
        var full := EncodeAll(enc, table.texts);
        table := table.(column := Some(Stored(full)));
        return |table.texts|;
      }
      var emb := table.column.value;
      var nulls := Where(emb, true);
      n := |nulls|;
      if n == 0 {
        return;
      }
      var full := Rebuild(table.texts, emb, Packed(emb), enc);
      table := table.(column := None);
      table := table.(column := Some(Stored(full[..])));
    }
  }
}
