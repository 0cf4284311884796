/** Recovering annotations into an append-only, versioned layer: what is written, and what crashes cannot lose. */
module Recovery {
  import opened Common
  import Kappa

  /** A parsed annotation: which row, who said it, and its canonical content. */
  datatype Rec = Rec(row: string, annotator: string, signature: string)

  /** An exported task: annotations that are cancelled, empty or unparseable are None. */
  datatype Task = Task(id: int, anns: seq<Option<Rec>>)

  type Verdict = Kappa.Verdict

  type Hash = Rec -> string

  type Group = (string, string)

  datatype AdlRow = AdlRow(id: string, row: string, annotator: string, review: Verdict, version: int) {
    function Key(): Group { (row, annotator) }
  }

  // ---- The layer, as a specification ----

  function Ids(adl: seq<AdlRow>): set<string> {
    set r | r in adl :: r.id
  }

  /** Rows already written for a (row, annotator) pair. */
  function InGroup(adl: seq<AdlRow>, g: Group): nat {
    if adl == [] then 0 else InGroup(adl[..|adl| - 1], g) + if adl[|adl| - 1].Key() == g then 1 else 0
  }

  function ReviewOf(verdicts: map<string, Verdict>, row: string): Verdict {
    if row in verdicts then verdicts[row] else Kappa.Pending
  }

  /** Appends an annotation unless its content is already there; a new one gets the next version of its group. */
  function Append(h: Hash, adl: seq<AdlRow>, rec: Rec, verdicts: map<string, Verdict>): seq<AdlRow> {
    if h(rec) in Ids(adl) then adl
    else adl + [AdlRow(h(rec), rec.row, rec.annotator, ReviewOf(verdicts, rec.row),
      InGroup(adl, (rec.row, rec.annotator)) + 1)]
  }

  function AppendAll(h: Hash, adl: seq<AdlRow>, recs: seq<Rec>, verdicts: map<string, Verdict>): seq<AdlRow> {
    if recs == [] then adl else Append(h, AppendAll(h, adl, recs[..|recs| - 1], verdicts), recs[|recs| - 1], verdicts)
  }

  /** Ids are unique and the i-th row of a group, in append order, has version i: versions are 1..k without gap or
      repeat. */
  predicate Chained(adl: seq<AdlRow>) {
    && (forall i, j :: 0 <= i < j < |adl| ==> adl[i].id != adl[j].id)
    && (forall i :: 0 <= i < |adl| ==> adl[i].version == InGroup(adl[..i], adl[i].Key()) + 1)
  }

  lemma {:induction false} IdsSnoc(adl: seq<AdlRow>, r: AdlRow)
    ensures Ids(adl + [r]) == Ids(adl) + {r.id}
    ensures forall g :: InGroup(adl + [r], g) == InGroup(adl, g) + if r.Key() == g then 1 else 0
  {
    assert (adl + [r])[..|adl|] == adl;
  }

  lemma {:induction false} ChainedSnoc(adl: seq<AdlRow>, r: AdlRow)
    requires Chained(adl) && r.id !in Ids(adl) && r.version == InGroup(adl, r.Key()) + 1
    ensures Chained(adl + [r])
  {
    var next := adl + [r];
    forall i, j | 0 <= i < j < |next| ensures next[i].id != next[j].id {
      assert adl[i] in adl;
    }
    forall i | 0 <= i < |next| ensures next[i].version == InGroup(next[..i], next[i].Key()) + 1 {
      assert next[..i] == adl[..i];
      assert adl[..|adl|] == adl;
    }
  }

  lemma {:induction false} AppendKeeps(h: Hash, adl: seq<AdlRow>, rec: Rec, verdicts: map<string, Verdict>)
    requires Chained(adl)
    ensures Chained(Append(h, adl, rec, verdicts))
    ensures Ids(Append(h, adl, rec, verdicts)) == Ids(adl) + {h(rec)}
    ensures adl <= Append(h, adl, rec, verdicts)
  {
    var next := Append(h, adl, rec, verdicts);
    if h(rec) !in Ids(adl) {
      var r := AdlRow(h(rec), rec.row, rec.annotator, ReviewOf(verdicts, rec.row),
        InGroup(adl, (rec.row, rec.annotator)) + 1);
      IdsSnoc(adl, r);
      ChainedSnoc(adl, r);
    }
  }

  function HashesOf(h: Hash, recs: seq<Rec>): set<string> {
    set r | r in recs :: h(r)
  }

  lemma {:induction false} HashesSnoc(h: Hash, recs: seq<Rec>, rec: Rec)
    ensures HashesOf(h, recs + [rec]) == HashesOf(h, recs) + {h(rec)}
  {
  }

  lemma {:induction false} AppendAllSnoc(h: Hash, adl: seq<AdlRow>, recs: seq<Rec>, rec: Rec, verdicts: map<string,
      Verdict>)
    ensures AppendAll(h, adl, recs + [rec], verdicts) == Append(h, AppendAll(h, adl, recs, verdicts), rec, verdicts)
  {
    assert (recs + [rec])[..|recs|] == recs;
  }

  /** Appending keeps the chains, adds exactly the contents, and never rewrites a row. */
  lemma {:induction false} AppendAllKeeps(h: Hash, adl: seq<AdlRow>, recs: seq<Rec>, verdicts: map<string, Verdict>)
    requires Chained(adl)
    ensures Chained(AppendAll(h, adl, recs, verdicts))
    ensures Ids(AppendAll(h, adl, recs, verdicts)) == Ids(adl) + HashesOf(h, recs)
    ensures adl <= AppendAll(h, adl, recs, verdicts)
  {
    if recs == [] {
      assert HashesOf(h, recs) == {};
    } else {
      var front, last := recs[..|recs| - 1], recs[|recs| - 1];
      assert recs == front + [last];
      AppendAllKeeps(h, adl, front, verdicts);
      AppendAllSnoc(h, adl, front, last, verdicts);
      HashesSnoc(h, front, last);
      var mid := AppendAll(h, adl, front, verdicts);
      AppendKeeps(h, mid, last, verdicts);
      PrefixTransitive(adl, mid, Append(h, mid, last, verdicts));
    }
  }

  lemma {:induction false} PrefixTransitive(a: seq<AdlRow>, b: seq<AdlRow>, c: seq<AdlRow>)
    requires a <= b && b <= c
    ensures a <= c
  {
    assert a == c[..|a|];
  }

  /** Every row an append adds carries the review status its row was adjudicated, pending if it was not. */
  lemma {:induction false} AddedRowsCarryVerdicts(h: Hash, adl: seq<AdlRow>, recs: seq<Rec>, verdicts: map<string,
      Verdict>)
    ensures var next := AppendAll(h, adl, recs, verdicts);
      |adl| <= |next| && forall i :: |adl| <= i < |next| ==>
        && (next[i].row in verdicts ==> next[i].review == verdicts[next[i].row])
        && (next[i].row !in verdicts ==> next[i].review == Kappa.Pending)
        && exists r :: r in recs && next[i].id == h(r) && next[i].Key() == (r.row, r.annotator)
  {
    if recs != [] {
      var front, last := recs[..|recs| - 1], recs[|recs| - 1];
      AddedRowsCarryVerdicts(h, adl, front, verdicts);
      assert last in recs && forall r :: r in front ==> r in recs;
    }
  }

  /** Replaying annotations that are already there writes nothing. */
  lemma {:induction false} ReplayWritesNothing(h: Hash, adl: seq<AdlRow>, recs: seq<Rec>, verdicts: map<string,
      Verdict>)
    requires HashesOf(h, recs) <= Ids(adl)
    ensures AppendAll(h, adl, recs, verdicts) == adl
  {
    if recs != [] {
      var front, last := recs[..|recs| - 1], recs[|recs| - 1];
      assert h(last) in HashesOf(h, recs);
      assert HashesOf(h, front) <= HashesOf(h, recs);
      ReplayWritesNothing(h, adl, front, verdicts);
    }
  }

  // ---- Batches, as they are built ----

  /** The versions of each group run from 1 to its size, so its maximum is its size. */
  ghost predicate Sizes(adl: seq<AdlRow>, versions: map<Group, int>) {
    forall g :: (if g in versions then versions[g] else 0) == InGroup(adl, g)
  }

  lemma {:induction false} SizesSnoc(adl: seq<AdlRow>, versions: map<Group, int>, row: AdlRow)
    requires Sizes(adl, versions) && row.version == (if row.Key() in versions then versions[row.Key()] else 0) + 1
    ensures Ids(adl + [row]) == Ids(adl) + {row.id} && row.version == InGroup(adl, row.Key()) + 1
    ensures Sizes(adl + [row], versions[row.Key() := row.version])
  {
    IdsSnoc(adl, row);
  }

  /** The highest version stored for a group, 0 if there is none. */
  function HighestVersion(adl: seq<AdlRow>, g: Group): int {
    if adl == [] then 0 else
      var prev, last := HighestVersion(adl[..|adl| - 1], g), adl[|adl| - 1];
      if last.Key() == g && last.version > prev then last.version else prev
  }

  /** In a chained table the highest version of a group is its size. */
  lemma {:induction false} HighestIsSize(adl: seq<AdlRow>, g: Group)
    requires Chained(adl)
    ensures HighestVersion(adl, g) == InGroup(adl, g)
  {
    if adl != [] {
      var front := adl[..|adl| - 1];
      forall i | 0 <= i < |front| ensures front[i].version == InGroup(front[..i], front[i].Key()) + 1 {
        assert front[..i] == adl[..i];
      }
      HighestIsSize(front, g);
    }
  }

  /** One pass over the stored table: all ids, and the highest version per group. */
  method ExistingState(adl: seq<AdlRow>) returns (ids: set<string>, versions: map<Group, int>)
    ensures ids == Ids(adl) && forall g :: (if g in versions then versions[g] else 0) == HighestVersion(adl, g)
    ensures Chained(adl) ==> Sizes(adl, versions)
  {
    ids, versions := {}, map[];
    for i := 0 to |adl|
      invariant ids == Ids(adl[..i])
      invariant forall g :: (if g in versions then versions[g] else 0) == HighestVersion(adl[..i], g)
    {
      assert adl[..i + 1] == adl[..i] + [adl[i]];
      IdsSnoc(adl[..i], adl[i]);
      assert adl[..i + 1][..i] == adl[..i];
      ids := ids + {adl[i].id};
      var g := adl[i].Key();
      var cur := if g in versions then versions[g] else 0;
      versions := versions[g := if adl[i].version > cur then adl[i].version else cur];
    }
    assert adl[..|adl|] == adl;
    if Chained(adl) {
      forall g ensures HighestVersion(adl, g) == InGroup(adl, g) {
        HighestIsSize(adl, g);
      }
    }
  }

  /** The batch so far is what appending the recovered annotations so far would add to the table. */
  ghost predicate Building(h: Hash, adl: seq<AdlRow>, recs: seq<Rec>, verdicts: map<string, Verdict>,
      known: set<string>, local: map<Group, int>, rows: seq<AdlRow>) {
    adl + rows == AppendAll(h, adl, recs, verdicts) && Ids(adl + rows) == known && Sizes(adl + rows, local)
  }

  lemma {:induction false} SkipKnown(h: Hash, adl: seq<AdlRow>, recs: seq<Rec>, rec: Rec, verdicts: map<string,
      Verdict>, known: set<string>, local: map<Group, int>, rows: seq<AdlRow>)
    requires Building(h, adl, recs, verdicts, known, local, rows) && h(rec) in known
    ensures Building(h, adl, recs + [rec], verdicts, known, local, rows)
  {
    assert (recs + [rec])[..|recs|] == recs;
  }

  lemma {:induction false} AddNew(h: Hash, adl: seq<AdlRow>, recs: seq<Rec>, rec: Rec, verdicts: map<string, Verdict>,
      known: set<string>, local: map<Group, int>, rows: seq<AdlRow>, row: AdlRow)
    requires Building(h, adl, recs, verdicts, known, local, rows) && h(rec) !in known
    requires var g := (rec.row, rec.annotator);
      row == AdlRow(h(rec), rec.row, rec.annotator, ReviewOf(verdicts, rec.row),
        (if g in local then local[g] else 0) + 1)
    ensures Building(h, adl, recs + [rec], verdicts, known + {row.id}, local[row.Key() := row.version], rows + [row])
  {
    assert (recs + [rec])[..|recs|] == recs;
    SizesSnoc(adl + rows, local, row);
    assert adl + (rows + [row]) == adl + rows + [row];
  }

  /** New rows for the recovered annotations, deduplicated against the table and within the batch. */
  method BuildAdlBatch(h: Hash, recs: seq<Rec>, verdicts: map<string, Verdict>, existing: set<string>,
      versions: map<Group, int>, ghost adl: seq<AdlRow>)
    returns (rows: seq<AdlRow>)
    requires existing == Ids(adl) && Sizes(adl, versions)
    ensures adl + rows == AppendAll(h, adl, recs, verdicts)
  {
    rows := [];
    var seen := {};
    var local := versions;
    assert adl + rows == adl;
    for i := 0 to |recs|
      invariant Building(h, adl, recs[..i], verdicts, existing + seen, local, rows)
    {
      var rec := recs[i];
      assert recs[..i + 1] == recs[..i] + [rec];
      var id := h(rec);
      if id in existing || id in seen {
        SkipKnown(h, adl, recs[..i], rec, verdicts, existing + seen, local, rows);
      } else {
        var g := (rec.row, rec.annotator);
        var row := AdlRow(id, rec.row, rec.annotator, ReviewOf(verdicts, rec.row),
          (if g in local then local[g] else 0) + 1);
        AddNew(h, adl, recs[..i], rec, verdicts, existing + seen, local, rows, row);
        assert existing + seen + {id} == existing + (seen + {id});
        seen := seen + {id};
        local := local[g := row.version];
        rows := rows + [row];
      }
    }
    assert recs[..|recs|] == recs;
  }

  // ---- Which tasks a poll looks at ----

  function CountOf(counts: map<int, nat>, id: int): nat {
    if id in counts then counts[id] else 0
  }

  predicate IsDue(t: Task, watermark: int, counts: map<int, nat>) {
    t.anns != [] && (t.id > watermark || |t.anns| > CountOf(counts, t.id))
  }

  function Due(tasks: seq<Task>, watermark: int, counts: map<int, nat>): seq<Task> {
    if tasks == [] then [] else
      Due(tasks[..|tasks| - 1], watermark, counts) +
      if IsDue(tasks[|tasks| - 1], watermark, counts) then [tasks[|tasks| - 1]] else []
  }

  /** Annotation counts of the tasks that have any. */
  function Counts(tasks: seq<Task>): map<int, nat> {
    if tasks == [] then map[] else
      var t := tasks[|tasks| - 1];
      if t.anns == [] then Counts(tasks[..|tasks| - 1]) else Counts(tasks[..|tasks| - 1])[t.id := |t.anns|]
  }

  function HighestId(watermark: int, tasks: seq<Task>): int {
    if tasks == [] then watermark else
      var prev, id := HighestId(watermark, tasks[..|tasks| - 1]), tasks[|tasks| - 1].id;
      if id > prev then id else prev
  }

  method IncrementalTasks(tasks: seq<Task>, watermark: int, prev: map<int, nat>)
    returns (due: seq<Task>, newWatermark: int, counts: map<int, nat>)
    ensures due == Due(tasks, watermark, prev) && counts == Counts(tasks) && newWatermark == HighestId(watermark, due)
  {
    due, counts := [], map[];
    for i := 0 to |tasks|
      invariant due == Due(tasks[..i], watermark, prev) && counts == Counts(tasks[..i])
    {
      assert tasks[..i + 1][..i] == tasks[..i];
      var t := tasks[i];
      var n := |t.anns|;
      if n > 0 && (t.id > watermark || n > CountOf(prev, t.id)) {
        due := due + [t];
      }
      if n > 0 {
        counts := counts[t.id := n];
      }
    }
    assert tasks[..|tasks|] == tasks;
    newWatermark := watermark;
    for i := 0 to |due|
      invariant newWatermark == HighestId(watermark, due[..i])
    {
      assert due[..i + 1][..i] == due[..i];
      if due[i].id > newWatermark {
        newWatermark := due[i].id;
      }
    }
    assert due[..|due|] == due;
  }

  function Parse(anns: seq<Option<Rec>>): seq<Rec> {
    if anns == [] then [] else
      Parse(anns[..|anns| - 1]) + match anns[|anns| - 1] case None => [] case Some(r) => [r]
  }

  function ParseAll(tasks: seq<Task>): seq<Rec> {
    if tasks == [] then [] else ParseAll(tasks[..|tasks| - 1]) + Parse(tasks[|tasks| - 1].anns)
  }

  // ---- One recovery ----

  datatype State = State(adl: seq<AdlRow>, watermark: int, counts: map<int, nat>)

  const EMPTY := State([], 0, map[])

  /** How far a recovery got before its process died: nothing, rows written, watermark written, or all of it. */
  datatype Reach = Nothing | RowsWritten | WatermarkWritten | Finished

  function Recover(h: Hash, s: State, tasks: seq<Task>, verdicts: map<string, Verdict>, reach: Reach): State {
    var due := Due(tasks, s.watermark, s.counts);
    var adl := AppendAll(h, s.adl, ParseAll(due), verdicts);
    var watermark := HighestId(s.watermark, due);
    match reach
    case Nothing => s
    case RowsWritten => s.(adl := adl)
    case WatermarkWritten => s.(adl := adl, watermark := watermark)
    case Finished => State(adl, watermark, Counts(tasks))
  }

  class Recoverer {
    var s: State

    constructor ()
      ensures s == EMPTY
    {
      s := EMPTY;
    }

    /** Rows first, then the watermark, then the counts; the process may die in between. */
    method RecoverOne(h: Hash, tasks: seq<Task>, verdicts: map<string, Verdict>, reach: Reach)
      requires Chained(s.adl)
      modifies this
      ensures s == Recover(h, old(s), tasks, verdicts, reach) && Chained(s.adl)
    {
      var due, watermark, counts := IncrementalTasks(tasks, s.watermark, s.counts);
      var recs := CollectRecs(due);
      var ids, versions := ExistingState(s.adl);
      var rows := BuildAdlBatch(h, recs, verdicts, ids, versions, s.adl);
      AppendAllKeeps(h, s.adl, recs, verdicts);
      if reach == Nothing {
        return;
      }
      if rows != [] {
        s := s.(adl := s.adl + rows);
      } else {
        assert s.adl + rows == s.adl;
      }
      if reach == RowsWritten {
        return;
      }
      s := s.(watermark := watermark);
      if reach == WatermarkWritten {
        return;
      }
      s := s.(counts := counts);
    }
  }

  method CollectRecs(tasks: seq<Task>) returns (recs: seq<Rec>)
    ensures recs == ParseAll(tasks)
  {
    recs := [];
    for i := 0 to |tasks|
      invariant recs == ParseAll(tasks[..i])
    {
      assert tasks[..i + 1][..i] == tasks[..i];
      var anns := tasks[i].anns;
      ghost var before := recs;
      for j := 0 to |anns|
        invariant recs == before + Parse(anns[..j])
      {
        assert anns[..j + 1][..j] == anns[..j];
        if anns[j].Some? {
          recs := recs + [anns[j].value];
        }
      }
      assert anns[..|anns|] == anns;
    }
    assert tasks[..|tasks|] == tasks;
  }
}
