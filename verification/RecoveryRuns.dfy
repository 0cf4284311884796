/** Sequences of polls: nothing seen is lost, nothing is written twice, whatever crashes in between. */
module RecoveryRuns {
  import opened Common
  import opened Recovery

  // ---- Polls ----

  /** Task ids are unique within an export. */
  predicate UniqueIds(tasks: seq<Task>) {
    forall i, j :: 0 <= i < j < |tasks| ==> tasks[i].id != tasks[j].id
  }

  /** Later exports still hold every task, with all its annotations and perhaps more, in any order. */
  predicate Extends(a: seq<Task>, b: seq<Task>) {
    forall t :: t in a ==> exists u :: u in b && Grew(t, u)
  }

  predicate Grew(t: Task, u: Task) {
    u.id == t.id && multiset(t.anns) <= multiset(u.anns)
  }

  predicate Seen(h: Hash, tasks: seq<Task>, id: string) {
    exists i, j :: 0 <= i < |tasks| && 0 <= j < |tasks[i].anns| && tasks[i].anns[j].Some? &&
      h(tasks[i].anns[j].value) == id
  }

  datatype Poll = Poll(tasks: seq<Task>, verdicts: map<string, Verdict>, reach: Reach)

  predicate ValidPolls(polls: seq<Poll>) {
    && (forall i :: 0 <= i < |polls| ==> UniqueIds(polls[i].tasks))
    && (forall i :: 0 <= i < |polls| - 1 ==> Extends(polls[i].tasks, polls[i + 1].tasks))
  }

  function RunPolls(h: Hash, polls: seq<Poll>): State {
    if polls == [] then EMPTY else
      var p := polls[|polls| - 1];
      Recover(h, RunPolls(h, polls[..|polls| - 1]), p.tasks, p.verdicts, p.reach)
  }

  // ---- What one recovery collects ----

  lemma {:induction false} ParseMembers(anns: seq<Option<Rec>>)
    ensures forall r :: r in Parse(anns) <==> Some(r) in anns
  {
    if anns != [] {
      ParseMembers(anns[..|anns| - 1]);
      assert forall a :: a in anns <==> a in anns[..|anns| - 1] || a == anns[|anns| - 1];
    }
  }

  lemma {:induction false} ParseAllMembers(tasks: seq<Task>)
    ensures forall r :: r in ParseAll(tasks) <==> exists t :: t in tasks && Some(r) in t.anns
  {
    if tasks != [] {
      var front, last := tasks[..|tasks| - 1], tasks[|tasks| - 1];
      ParseAllMembers(front);
      ParseMembers(last.anns);
      assert forall t :: t in tasks <==> t in front || t == last;
    }
  }

  lemma {:induction false} DueMembers(tasks: seq<Task>, watermark: int, counts: map<int, nat>)
    ensures forall t :: t in Due(tasks, watermark, counts) <==> t in tasks && IsDue(t, watermark, counts)
  {
    if tasks != [] {
      DueMembers(tasks[..|tasks| - 1], watermark, counts);
    }
  }

  lemma {:induction false} CountsMeaning(tasks: seq<Task>)
    requires UniqueIds(tasks)
    ensures forall t :: t in tasks ==> CountOf(Counts(tasks), t.id) == |t.anns|
    ensures forall k :: k in Counts(tasks) ==> exists t :: t in tasks && t.id == k
  {
    if tasks != [] {
      var front, last := tasks[..|tasks| - 1], tasks[|tasks| - 1];
      CountsMeaning(front);
      assert forall t :: t in front ==> t.id != last.id;
    }
  }

  // ---- The invariant ----

  /** Annotations that need no further work: unparseable, or with their content in the layer. */
  predicate IsCovered(h: Hash, ids: set<string>, ann: Option<Rec>) {
    ann.Some? ==> h(ann.value) in ids
  }

  function NumCovered(h: Hash, ids: set<string>, anns: seq<Option<Rec>>): (n: nat)
    ensures n <= |anns|
  {
    if anns == [] then 0 else
      NumCovered(h, ids, anns[..|anns| - 1]) + if IsCovered(h, ids, anns[|anns| - 1]) then 1 else 0
  }

  lemma {:induction false} CoveredConcat(h: Hash, ids: set<string>, a: seq<Option<Rec>>, b: seq<Option<Rec>>)
    ensures NumCovered(h, ids, a + b) == NumCovered(h, ids, a) + NumCovered(h, ids, b)
    decreases b
  {
    if b == [] {
      assert a + b == a;
    } else {
      CoveredConcat(h, ids, a, b[..|b| - 1]);
      assert (a + b)[..|a + b| - 1] == a + b[..|b| - 1];
    }
  }

  lemma {:induction false} TakeOut(h: Hash, ids: set<string>, b: seq<Option<Rec>>, i: nat)
    requires i < |b|
    ensures multiset(b) == multiset(b[..i] + b[i + 1..]) + multiset{b[i]}
    ensures NumCovered(h, ids, b) == NumCovered(h, ids, b[..i] + b[i + 1..]) + if IsCovered(h, ids, b[i]) then 1 else 0
  {
    assert b == b[..i] + [b[i]] + b[i + 1..];
    CoveredConcat(h, ids, b[..i], b[i + 1..]);
    CoveredConcat(h, ids, b[..i] + [b[i]], b[i + 1..]);
    CoveredConcat(h, ids, b[..i], [b[i]]);
  }

  lemma {:induction false} CancelOne<T>(a: multiset<T>, b: multiset<T>, x: T)
    requires a + multiset{x} <= b + multiset{x}
    ensures a <= b
  {
    forall y ensures a[y] <= b[y] {
      assert (a + multiset{x})[y] <= (b + multiset{x})[y];
    }
  }

  /** Growing at any place keeps what is covered. */
  lemma {:induction false} CoveredGrows(h: Hash, ids: set<string>, a: seq<Option<Rec>>, b: seq<Option<Rec>>)
    requires multiset(a) <= multiset(b)
    ensures NumCovered(h, ids, a) <= NumCovered(h, ids, b)
    decreases a
  {
    if a != [] {
      var n, x := |a| - 1, a[|a| - 1];
      assert a[..n] + a[n + 1..] == a[..n];
      assert x in multiset(a);
      var i :| 0 <= i < |b| && b[i] == x;
      TakeOut(h, ids, a, n);
      TakeOut(h, ids, b, i);
      CancelOne(multiset(a[..n]), multiset(b[..i] + b[i + 1..]), x);
      CoveredGrows(h, ids, a[..n], b[..i] + b[i + 1..]);
    }
  }

  lemma {:induction false} MoreIdsCoverMore(h: Hash, ids: set<string>, more: set<string>, anns: seq<Option<Rec>>)
    requires ids <= more
    ensures NumCovered(h, ids, anns) <= NumCovered(h, more, anns)
  {
    if anns != [] {
      MoreIdsCoverMore(h, ids, more, anns[..|anns| - 1]);
    }
  }

  lemma {:induction false} AllCovered(h: Hash, ids: set<string>, anns: seq<Option<Rec>>)
    ensures NumCovered(h, ids, anns) == |anns| <==> forall j :: 0 <= j < |anns| ==> IsCovered(h, ids, anns[j])
  {
    if anns != [] {
      AllCovered(h, ids, anns[..|anns| - 1]);
    }
  }

  /** For the given export: at least as many annotations of a task as were counted are covered by the layer, and the
      layer
      holds nothing unseen. */
  ghost predicate Covered(h: Hash, s: State, tasks: seq<Task>) {
    && Chained(s.adl)
    && (forall t :: t in tasks ==> CountOf(s.counts, t.id) <= NumCovered(h, Ids(s.adl), t.anns))
    && (forall id :: id in Ids(s.adl) ==> Seen(h, tasks, id))
  }

  lemma {:induction false} Counterpart(s: State, a: seq<Task>, b: seq<Task>, u: Task) returns (t: Task)
    requires Extends(a, b) && UniqueIds(b) && CountsKnown(s, a) && u in b && u.id in s.counts
    ensures t in a && Grew(t, u)
  {
    t :| t in a && t.id == u.id;
    var u' :| u' in b && Grew(t, u');
    assert u' == u;
  }

  lemma {:induction false} ExtendCovered(h: Hash, s: State, a: seq<Task>, b: seq<Task>)
    requires Covered(h, s, a) && Extends(a, b) && UniqueIds(b) && CountsKnown(s, a)
    ensures Covered(h, s, b)
  {
    forall u | u in b ensures CountOf(s.counts, u.id) <= NumCovered(h, Ids(s.adl), u.anns) {
      if u.id in s.counts {
        var t := Counterpart(s, a, b, u);
        CoveredGrows(h, Ids(s.adl), t.anns, u.anns);
      }
    }
    forall id | id in Ids(s.adl) ensures Seen(h, b, id) {
      assert Seen(h, a, id);
      SeenLater(h, a, b, id);
    }
  }

  /** Only tasks of the export have a recorded count. */
  ghost predicate CountsKnown(s: State, tasks: seq<Task>) {
    forall k :: k in s.counts ==> exists t :: t in tasks && t.id == k
  }

  lemma {:induction false} SeenLater(h: Hash, a: seq<Task>, b: seq<Task>, id: string)
    requires Extends(a, b) && Seen(h, a, id)
    ensures Seen(h, b, id)
  {
    var i, j :| 0 <= i < |a| && 0 <= j < |a[i].anns| && a[i].anns[j].Some? && h(a[i].anns[j].value) == id;
    assert a[i] in a;
    var u :| u in b && Grew(a[i], u);
    var k :| 0 <= k < |b| && b[k] == u;
    assert a[i].anns[j] in multiset(a[i].anns);
    var m :| 0 <= m < |u.anns| && u.anns[m] == a[i].anns[j];
    assert b[k].anns[m].Some?;
  }

  /** The rows one recovery writes: all due annotations, and nothing else. A task that is not due is covered already. */
  lemma {:induction false} DueRowsWritten(h: Hash, s: State, tasks: seq<Task>, verdicts: map<string, Verdict>)
    requires Covered(h, s, tasks)
    ensures
      var due := Due(tasks, s.watermark, s.counts);
      var adl := AppendAll(h, s.adl, ParseAll(due), verdicts);
      && Chained(adl) && Ids(s.adl) <= Ids(adl)
      && (forall id :: id in Ids(adl) ==> Seen(h, tasks, id))
      && (forall t :: t in tasks ==> NumCovered(h, Ids(adl), t.anns) == |t.anns|)
  {
    var due := Due(tasks, s.watermark, s.counts);
    var recs := ParseAll(due);
    var adl := AppendAll(h, s.adl, recs, verdicts);
    AppendAllKeeps(h, s.adl, recs, verdicts);
    ParseAllMembers(due);
    DueMembers(tasks, s.watermark, s.counts);
    forall id | id in HashesOf(h, recs) ensures Seen(h, tasks, id) {
      var r :| r in recs && h(r) == id;
      var t :| t in due && Some(r) in t.anns;
      HoldsSeen(h, tasks, t, r);
    }
    forall t | t in tasks ensures NumCovered(h, Ids(adl), t.anns) == |t.anns| {
      AllCovered(h, Ids(adl), t.anns);
      if IsDue(t, s.watermark, s.counts) {
        forall j | 0 <= j < |t.anns| && t.anns[j].Some? ensures h(t.anns[j].value) in Ids(adl) {
          assert Some(t.anns[j].value) in t.anns;
          assert t.anns[j].value in recs;
          assert h(t.anns[j].value) in HashesOf(h, recs);
        }
      } else {
        MoreIdsCoverMore(h, Ids(s.adl), Ids(adl), t.anns);
      }
    }
  }

  lemma {:induction false} HoldsSeen(h: Hash, tasks: seq<Task>, t: Task, r: Rec)
    requires t in tasks && Some(r) in t.anns
    ensures Seen(h, tasks, h(r))
  {
    var i :| 0 <= i < |tasks| && tasks[i] == t;
    var j :| 0 <= j < |t.anns| && t.anns[j] == Some(r);
    assert tasks[i].anns[j].Some?;
  }

  lemma {:induction false} RecoverKeeps(h: Hash, s: State, p: Poll)
    requires Covered(h, s, p.tasks) && UniqueIds(p.tasks) && CountsKnown(s, p.tasks)
    ensures
      var s' := Recover(h, s, p.tasks, p.verdicts, p.reach);
      && Covered(h, s', p.tasks) && CountsKnown(s', p.tasks)
      && (p.reach == Finished ==> forall id :: id in Ids(s'.adl) <==> Seen(h, p.tasks, id))
  {
    var s' := Recover(h, s, p.tasks, p.verdicts, p.reach);
    DueRowsWritten(h, s, p.tasks, p.verdicts);
    CountsMeaning(p.tasks);
    if p.reach == Finished {
      forall id | Seen(h, p.tasks, id) ensures id in Ids(s'.adl) {
        SeenIsCovered(h, Ids(s'.adl), p.tasks, id);
      }
    }
  }

  lemma {:induction false} SeenIsCovered(h: Hash, ids: set<string>, tasks: seq<Task>, id: string)
    requires Seen(h, tasks, id) && forall t :: t in tasks ==> NumCovered(h, ids, t.anns) == |t.anns|
    ensures id in ids
  {
    var i, j :| 0 <= i < |tasks| && 0 <= j < |tasks[i].anns| && tasks[i].anns[j].Some? &&
      h(tasks[i].anns[j].value) == id;
    assert tasks[i] in tasks;
    AllCovered(h, ids, tasks[i].anns);
    assert IsCovered(h, ids, tasks[i].anns[j]);
  }

  lemma {:induction false} PollsKeep(h: Hash, polls: seq<Poll>)
    requires ValidPolls(polls) && polls != []
    ensures
      var last := polls[|polls| - 1];
      && Covered(h, RunPolls(h, polls), last.tasks) && CountsKnown(RunPolls(h, polls), last.tasks)
      && (last.reach == Finished ==> forall id :: id in Ids(RunPolls(h, polls).adl) <==> Seen(h, last.tasks, id))
  {
    var front, last := polls[..|polls| - 1], polls[|polls| - 1];
    var s := RunPolls(h, front);
    if front != [] {
      PrefixValid(polls);
      PollsKeep(h, front);
      var prev := front[|front| - 1];
      assert Extends(polls[|polls| - 2].tasks, polls[|polls| - 2 + 1].tasks);
      ExtendCovered(h, s, prev.tasks, last.tasks);
      CountsStayKnown(s, prev.tasks, last.tasks);
    }
    RecoverKeeps(h, s, last);
  }

  lemma {:induction false} PrefixValid(polls: seq<Poll>)
    requires ValidPolls(polls) && polls != []
    ensures ValidPolls(polls[..|polls| - 1])
  {
    var front := polls[..|polls| - 1];
    forall i | 0 <= i < |front| - 1 ensures Extends(front[i].tasks, front[i + 1].tasks) {
      assert Extends(polls[i].tasks, polls[i + 1].tasks);
    }
  }

  lemma {:induction false} CountsStayKnown(s: State, a: seq<Task>, b: seq<Task>)
    requires CountsKnown(s, a) && Extends(a, b)
    ensures CountsKnown(s, b)
  {
    forall k | k in s.counts ensures exists t :: t in b && t.id == k {
      var t :| t in a && t.id == k;
      var u :| u in b && Grew(t, u);
    }
  }

  lemma {:induction false} ExtendsAlong(polls: seq<Poll>, i: nat)
    requires ValidPolls(polls) && i < |polls|
    ensures forall h: Hash, id :: Seen(h, polls[i].tasks, id) ==> Seen(h, polls[|polls| - 1].tasks, id)
  {
    if i < |polls| - 1 {
      var front := polls[..|polls| - 1];
      PrefixValid(polls);
      ExtendsAlong(front, i);
      assert Extends(polls[|polls| - 2].tasks, polls[|polls| - 2 + 1].tasks);
      forall h: Hash, id | Seen(h, polls[i].tasks, id) ensures Seen(h, polls[|polls| - 1].tasks, id) {
        assert Seen(h, front[|front| - 1].tasks, id);
        SeenLater(h, front[|front| - 1].tasks, polls[|polls| - 1].tasks, id);
      }
    }
  }

  /** After a recovery that finishes, the layer holds exactly the contents of the parseable annotations seen in any
      poll so
      far, whatever earlier recoveries crashed and wherever. */
  lemma {:induction false} RecoveryLosesNothing(h: Hash, polls: seq<Poll>)
    requires ValidPolls(polls) && polls != [] && polls[|polls| - 1].reach == Finished
    ensures forall id :: id in Ids(RunPolls(h, polls).adl) <==>
      exists i :: 0 <= i < |polls| && Seen(h, polls[i].tasks, id)
  {
    PollsKeep(h, polls);
    forall i, id | 0 <= i < |polls| && Seen(h, polls[i].tasks, id) ensures Seen(h, polls[|polls| - 1].tasks, id) {
      ExtendsAlong(polls, i);
    }
  }

  /** At every moment, crashed or not: unique ids and gapless version chains. */
  lemma {:induction false} VersionsStayChained(h: Hash, polls: seq<Poll>)
    ensures Chained(RunPolls(h, polls).adl)
  {
    if polls != [] {
      var p, s := polls[|polls| - 1], RunPolls(h, polls[..|polls| - 1]);
      VersionsStayChained(h, polls[..|polls| - 1]);
      AppendAllKeeps(h, s.adl, ParseAll(Due(p.tasks, s.watermark, s.counts)), p.verdicts);
    }
  }

  lemma {:induction false} GroupBound(adl: seq<AdlRow>, i: nat)
    requires i < |adl|
    ensures InGroup(adl[..i], adl[i].Key()) < InGroup(adl, adl[i].Key())
  {
    if i == |adl| - 1 {
    } else {
      GroupBound(adl[..|adl| - 1], i);
      assert adl[..|adl| - 1][..i] == adl[..i];
    }
  }

  lemma {:induction false} VersionExists(adl: seq<AdlRow>, g: Group, v: int)
    requires Chained(adl) && 1 <= v <= InGroup(adl, g)
    ensures HasVersion(adl, g, v)
  {
    var front, last := adl[..|adl| - 1], adl[|adl| - 1];
    if last.Key() == g && v == InGroup(adl, g) {
      assert adl[|adl| - 1].version == v;
    } else {
      assert Chained(front) by {
        assert forall i :: 0 <= i < |front| ==> front[..i] == adl[..i];
      }
      VersionExists(front, g, v);
      var i :| 0 <= i < |front| && front[i].Key() == g && front[i].version == v;
      assert adl[i] == front[i];
    }
  }

  predicate HasVersion(adl: seq<AdlRow>, g: Group, v: int) {
    exists i :: 0 <= i < |adl| && adl[i].Key() == g && adl[i].version == v
  }

  /** The versions stored for a (row, annotator) pair are exactly 1..k, k the number of its rows, ascending in append
      order and so each once. */
  lemma {:induction false} ChainIsGapless(adl: seq<AdlRow>, g: Group)
    requires Chained(adl)
    ensures forall v :: HasVersion(adl, g, v) <==> 1 <= v <= InGroup(adl, g)
    ensures forall i, j :: 0 <= i < j < |adl| && adl[i].Key() == g && adl[j].Key() == g ==>
      adl[i].version < adl[j].version
  {
    forall v ensures HasVersion(adl, g, v) <==> 1 <= v <= InGroup(adl, g) {
      if 1 <= v <= InGroup(adl, g) {
        VersionExists(adl, g, v);
      }
      if i :| 0 <= i < |adl| && adl[i].Key() == g && adl[i].version == v {
        GroupBound(adl, i);
      }
    }
    forall i, j | 0 <= i < j < |adl| && adl[i].Key() == g && adl[j].Key() == g ensures adl[i].version < adl[j].version {
      VersionsAscend(adl, i, j);
    }
  }

  lemma {:induction false} VersionsAscend(adl: seq<AdlRow>, i: nat, j: nat)
    requires Chained(adl) && i < j < |adl| && adl[i].Key() == adl[j].Key()
    ensures adl[i].version < adl[j].version
  {
    GroupBound(adl[..j], i);
    assert adl[..j][..i] == adl[..i];
  }

  lemma {:induction false} HighestCovers(w: int, tasks: seq<Task>)
    ensures HighestId(w, tasks) >= w && forall t :: t in tasks ==> t.id <= HighestId(w, tasks)
  {
    if tasks != [] {
      HighestCovers(w, tasks[..|tasks| - 1]);
    }
  }

  lemma {:induction false} NoneDue(tasks: seq<Task>, watermark: int, counts: map<int, nat>)
    requires forall t :: t in tasks ==> !IsDue(t, watermark, counts)
    ensures Due(tasks, watermark, counts) == []
  {
    if tasks != [] {
      NoneDue(tasks[..|tasks| - 1], watermark, counts);
    }
  }

  /** How many annotations a task had in an export, 0 if it was not there. */
  function Had(tasks: seq<Task>, id: int): nat {
    if tasks == [] then 0
    else if tasks[|tasks| - 1].id == id then |tasks[|tasks| - 1].anns|
    else Had(tasks[..|tasks| - 1], id)
  }

  lemma {:induction false} CountIsHad(tasks: seq<Task>, id: int)
    requires UniqueIds(tasks)
    ensures CountOf(Counts(tasks), id) == Had(tasks, id)
    ensures Had(tasks, id) > 0 ==> exists t :: t in tasks && t.id == id && t.anns != []
    ensures (forall t :: t in tasks ==> t.id != id) ==> Had(tasks, id) == 0
  {
    if tasks != [] {
      var front, last := tasks[..|tasks| - 1], tasks[|tasks| - 1];
      CountIsHad(front, id);
      assert forall t :: t in front ==> t in tasks && t.id != last.id;
      assert last in tasks;
    }
  }

  /** After a finished recovery, a task of any later export is due exactly when it has gained annotations: nothing
      grown is
      passed over, and nothing unchanged is read again. */
  lemma {:induction false} DueExactly(h: Hash, s: State, tasks: seq<Task>, verdicts: map<string, Verdict>, u: Task)
    requires UniqueIds(tasks)
    ensures var s' := Recover(h, s, tasks, verdicts, Finished);
      IsDue(u, s'.watermark, s'.counts) <==> |u.anns| > Had(tasks, u.id)
  {
    CountIsHad(tasks, u.id);
    WatermarkCovers(h, s, tasks, verdicts);
  }

  /** Polling the same export again after a finished recovery finds nothing due and changes nothing. */
  lemma {:induction false} RepollChangesNothing(h: Hash, s: State, tasks: seq<Task>, verdicts: map<string, Verdict>,
      verdicts': map<string, Verdict>, reach: Reach)
    requires UniqueIds(tasks)
    ensures
      var s' := Recover(h, s, tasks, verdicts, Finished);
      Due(tasks, s'.watermark, s'.counts) == [] && Recover(h, s', tasks, verdicts', reach) == s'
  {
    var s' := Recover(h, s, tasks, verdicts, Finished);
    var due := Due(tasks, s.watermark, s.counts);
    CountsMeaning(tasks);
    HighestCovers(s.watermark, due);
    DueMembers(tasks, s.watermark, s.counts);
    forall t | t in tasks ensures !IsDue(t, s'.watermark, s'.counts) {
      assert t in due || t.anns == [] || t.id <= s.watermark;
    }
    NoneDue(tasks, s'.watermark, s'.counts);
    assert ParseAll([]) == [];
  }

  // ---- Unique ids are needed ----

  /** The export in which task i has gained the given annotations. */
  function WithMore(tasks: seq<Task>, i: nat, more: seq<Option<Rec>>): (r: seq<Task>)
    requires i < |tasks|
    ensures |r| == |tasks| && r[i] == Task(tasks[i].id, tasks[i].anns + more)
    ensures forall k :: 0 <= k < |tasks| && k != i ==> r[k] == tasks[k]
  {
    tasks[i := Task(tasks[i].id, tasks[i].anns + more)]
  }

  lemma {:induction false} GainExtends(tasks: seq<Task>, i: nat, more: seq<Option<Rec>>)
    requires i < |tasks|
    ensures Extends(tasks, WithMore(tasks, i, more))
  {
    var next := WithMore(tasks, i, more);
    forall t | t in tasks ensures exists u :: u in next && Grew(t, u) {
      var k :| 0 <= k < |tasks| && tasks[k] == t;
      assert next[k] in next && Grew(t, next[k]);
    }
  }

  /** The count kept under an id is that of its last task with annotations. */
  lemma {:induction false} LastCounts(tasks: seq<Task>, j: nat)
    requires j < |tasks| && tasks[j].anns != [] && forall k :: j < k < |tasks| ==> tasks[k].id != tasks[j].id
    ensures CountOf(Counts(tasks), tasks[j].id) == |tasks[j].anns|
  {
    if j < |tasks| - 1 {
      LastCounts(tasks[..|tasks| - 1], j);
    }
  }

  /** After a finished recovery no task with annotations is above the watermark. */
  lemma {:induction false} WatermarkCovers(h: Hash, s: State, tasks: seq<Task>, verdicts: map<string, Verdict>)
    ensures forall t :: t in tasks && t.anns != [] ==> t.id <= Recover(h, s, tasks, verdicts, Finished).watermark
  {
    HighestCovers(s.watermark, Due(tasks, s.watermark, s.counts));
    DueMembers(tasks, s.watermark, s.counts);
  }

  /** What a recovery adds comes from a due task. */
  lemma {:induction false} AddedWasDue(h: Hash, s: State, tasks: seq<Task>, verdicts: map<string, Verdict>,
      reach: Reach, id: string)
    requires Chained(s.adl) && id !in Ids(s.adl)
    requires forall t :: t in tasks && IsDue(t, s.watermark, s.counts) ==> forall r :: Some(r) in t.anns ==> h(r) != id
    ensures Chained(Recover(h, s, tasks, verdicts, reach).adl) && id !in Ids(Recover(h, s, tasks, verdicts, reach).adl)
  {
    var due := Due(tasks, s.watermark, s.counts);
    AppendAllKeeps(h, s.adl, ParseAll(due), verdicts);
    ParseAllMembers(due);
    DueMembers(tasks, s.watermark, s.counts);
  }

  /** Task i, which shares the id of the longer task j, is not due when it has grown to at most the length of j. */
  lemma {:induction false} NeverDue(h: Hash, s: State, tasks: seq<Task>, v: map<string, Verdict>, i: nat, j: nat,
      gain: seq<Option<Rec>>)
    requires i < j < |tasks| && tasks[i].id == tasks[j].id && forall k :: j < k < |tasks| ==> tasks[k].id != tasks[j].id
    requires gain != [] && |tasks[i].anns| + |gain| <= |tasks[j].anns|
    ensures var s1 := Recover(h, s, tasks, v, Finished); !IsDue(WithMore(tasks, i, gain)[i], s1.watermark, s1.counts)
  {
    LastCounts(tasks, j);
    WatermarkCovers(h, s, tasks, v);
    assert tasks[j] in tasks;
  }

  lemma {:induction false} OthersUnchanged(tasks: seq<Task>, i: nat, gain: seq<Option<Rec>>, watermark: int,
      counts: map<int, nat>)
    requires i < |tasks| && !IsDue(WithMore(tasks, i, gain)[i], watermark, counts)
    ensures forall t :: t in WithMore(tasks, i, gain) && IsDue(t, watermark, counts) ==> t in tasks
  {
    var next := WithMore(tasks, i, gain);
    forall t | t in next && IsDue(t, watermark, counts) ensures t in tasks {
      var k :| 0 <= k < |next| && next[k] == t;
      assert t == tasks[k];
    }
  }

  /** Whenever two tasks i and j of an export share an id, j the last with it, there is a growth that loses an
      annotation,
      from any stored state: j gains annotations until it has more than i and is recovered, then i gains d, which is
      never
      due. So recovery loses nothing exactly when ids are unique. */
  lemma {:induction false} SharedIdsLoseAnnotations(h: Hash, s: State, tasks: seq<Task>, i: nat, j: nat,
      more: seq<Option<Rec>>, d: Rec,
                                                    v1: map<string, Verdict>, v2: map<string, Verdict>)
    requires i < j < |tasks| && tasks[i].id == tasks[j].id && forall k :: j < k < |tasks| ==> tasks[k].id != tasks[j].id
    requires |tasks[j].anns| + |more| > |tasks[i].anns| && Chained(s.adl)
    requires h(d) !in Ids(s.adl) && !Seen(h, WithMore(tasks, j, more), h(d))
    ensures
      var first := WithMore(tasks, j, more);
      var second := WithMore(first, i, [Some(d)]);
      var end := Recover(h, Recover(h, s, first, v1, Finished), second, v2, Finished);
      Extends(tasks, first) && Extends(first, second) && Seen(h, second, h(d)) && h(d) !in Ids(end.adl)
  {
    var first := WithMore(tasks, j, more);
    var second := WithMore(first, i, [Some(d)]);
    GainExtends(tasks, j, more);
    GainExtends(first, i, [Some(d)]);
    assert second[i].anns[|tasks[i].anns|] == Some(d);
    var s1 := Recover(h, s, first, v1, Finished);
    forall t, r | t in first && Some(r) in t.anns ensures h(r) != h(d) {
      HoldsSeen(h, first, t, r);
    }
    AddedWasDue(h, s, first, v1, Finished, h(d));
    NeverDue(h, s, first, v1, i, j, [Some(d)]);
    OthersUnchanged(first, i, [Some(d)], s1.watermark, s1.counts);
    AddedWasDue(h, s1, second, v2, Finished, h(d));
  }
}
