/** Resumed runs: what they leave unsettled, and what crashes and resumes cannot undo. */
module ScenarioResume {
  import opened Common
  import opened Scenario
  import opened ScenarioProofs
  import opened ScenarioDeadlock
  import opened ScenarioRunner

  // ---- What becomes of a row ----

  /** An earlier run left the step failed, timed out, dead or in manual intervention. */
  predicate FoundFailed(status: Statuses, x: StepId) {
    Terminal(status, x) && !Settled(status, x)
  }

  predicate DispatchedBefore(h: seq<Round>, k: nat, x: StepId)
    requires k <= |h|
  {
    exists i :: 0 <= i < k && x in h[i].batch
  }

  /** A terminal row is as it was; any other is at most skipped. */
  predicate Kept(a: Statuses, b: Statuses, x: StepId) {
    if Terminal(a, x) then x in b && b[x] == a[x] else Terminal(b, x) ==> b[x] == Skipped
  }

  lemma {:induction false} RowFate(spec: Spec, w: World, status: Statuses, h: seq<Round>, k: nat, ready: State,
      x: StepId)
    requires ValidSpec(spec) && ValidHistory(spec, w, status, h) && Reached(spec, w, status, h, k, ready)
    ensures DispatchedBefore(h, k, x) ==> Is(ready.status, x, Succeeded)
    ensures !DispatchedBefore(h, k, x) ==> Kept(status, ready.status, x)
    decreases k
  {
    if i :| 0 <= i < k && x in h[i].batch {
      StaysSettled(spec, w, status, h, i, k, ready);
    } else {
      ReachedIsReady(spec, w, status, h, k, ready);
      ReadyOnlySkips(spec, Gate(w, k), HeadState(w, status, h, k), ready);
      if k > 0 {
        var prev := h[k - 1];
        assert x !in prev.batch;
        assert !DispatchedBefore(h, k - 1, x);
        RowFate(spec, w, status, h, k - 1, prev.ready, x);
        FinishMeaning(w, k - 1, prev.ready.status, prev.batch);
        SameRow(prev.ready.status, HeadState(w, status, h, k).status, x);
      }
    }
  }

  lemma {:induction false} SameRow(a: Statuses, b: Statuses, x: StepId)
    requires forall st :: Is(a, x, st) == Is(b, x, st)
    ensures x in a <==> x in b
    ensures x in a ==> a[x] == b[x]
  {
    assert x in a ==> Is(a, x, a[x]);
    assert x in b ==> Is(b, x, b[x]);
  }

  /** A run that ends with nothing pending leaves a step unsettled exactly if it found it failed and never dispatched
      it. */
  lemma {:induction false} UnsettledExactly(spec: Spec, w: World, status: Statuses, h: seq<Round>, ready: State)
    requires ValidSpec(spec) && ValidHistory(spec, w, status, h) && Reached(spec, w, status, h, |h|, ready)
    requires Pending(spec, ready.status) == {}
    ensures forall s :: s in spec.steps ==>
      (!Settled(ready.status, s.id) <==> FoundFailed(status, s.id) && !DispatchedBefore(h, |h|, s.id))
  {
    forall s | s in spec.steps
      ensures !Settled(ready.status, s.id) <==> FoundFailed(status, s.id) && !DispatchedBefore(h, |h|, s.id)
    {
      assert s.id !in Pending(spec, ready.status);
      RowFate(spec, w, status, h, |h|, ready, s.id);
    }
  }

  // ---- Which rows a resumed run is sure to settle ----

  /** K holds every step that can ever be skipped, and no step that was found failed. */
  predicate SparesFailed(spec: Spec, status: Statuses, K: set<StepId>) {
    && ClosedUnderRequires(spec, K) && With(status, Skipped) <= K
    && (forall g :: g in spec.gateways && g.xor ==> g.Arms() <= K)
    && (forall s :: s in spec.steps && FoundFailed(status, s.id) ==> s.id !in K)
  }

  /** No step that was found failed is in a gateway arm or depends on an arm or on a skipped row. */
  ghost predicate FailuresStandApart(spec: Spec, status: Statuses) {
    exists K: set<StepId> :: SparesFailed(spec, status, K)
  }

  lemma {:induction false} DecidedInside(spec: Spec, gs: seq<Gateway>, s: State, gate: GatewayId -> bool,
      K: set<StepId>)
    requires With(s.status, Skipped) <= K && forall g :: g in gs && g.xor ==> g.Arms() <= K
    ensures With(DecideAll(spec, gs, s, gate).status, Skipped) <= K
  {
    if gs != [] {
      DecidedInside(spec, gs[..|gs| - 1], s, gate, K);
    }
  }

  lemma {:induction false} SkippedInside(spec: Spec, w: World, status: Statuses, h: seq<Round>, k: nat, ready: State,
      K: set<StepId>)
    requires ValidSpec(spec) && ValidHistory(spec, w, status, h) && Reached(spec, w, status, h, k, ready)
    requires SparesFailed(spec, status, K)
    ensures With(ready.status, Skipped) <= K
    decreases k
  {
    ReachedIsReady(spec, w, status, h, k, ready);
    var head := HeadState(w, status, h, k);
    if k > 0 {
      SkippedInside(spec, w, status, h, k - 1, h[k - 1].ready, K);
      BatchSkipsNothing(w, k - 1, h[k - 1], K);
    }
    DecidedInside(spec, spec.gateways, head, Gate(w, k), K);
    assert AbsorbsDependents(spec, DecideAll(spec, spec.gateways, head, Gate(w, k)).status, K);
  }

  lemma {:induction false} BatchSkipsNothing(w: World, k: nat, r: Round, K: set<StepId>)
    requires With(r.ready.status, Skipped) <= K
    ensures With(After(w, k, r).status, Skipped) <= K
  {
    FinishMeaning(w, k, r.ready.status, r.batch);
    forall x | x in With(After(w, k, r).status, Skipped) ensures x in K {
      assert Is(After(w, k, r).status, x, Skipped);
    }
  }

  /** Such a step is left unsettled only because of a requirement that is left unsettled. */
  lemma {:induction false} UnsettledWaits(spec: Spec, status: Statuses, ready: State, K: set<StepId>, s: Step)
      returns (r: StepId)
    requires CrossReferenced(spec) && SparesFailed(spec, status, K) && With(ready.status, Skipped) <= K
    requires Pending(spec, ready.status) == {} && s in spec.steps && FoundFailed(status, s.id) &&
      !Settled(ready.status, s.id)
    requires !IsRunnable(spec, s, ready)
    ensures r in s.needs && r in StepIds(spec) && !Settled(ready.status, r)
  {
    assert !Blocked(spec, s.id, ready.decided);
    r :| r in s.needs && !Is(ready.status, r, Succeeded);
    assert Is(ready.status, r, Skipped) ==> r in s.needs * K;
  }

  /** A run over rows whose failures stand apart, of a scenario with acyclic requirements, settles every step if it ends
      completed. */
  lemma {:induction false} ResumeSettles(spec: Spec, w: World, status: Statuses, h: seq<Round>, ready: State)
    requires ValidSpec(spec) && CrossReferenced(spec) && Acyclic(RequiresEdges(spec)) &&
      FailuresStandApart(spec, status)
    requires ValidHistory(spec, w, status, h) && Exhausted(spec, w, status, h, ready) &&
      Pending(spec, ready.status) == {}
    ensures forall s :: s in spec.steps ==> Settled(ready.status, s.id)
  {
    var K: set<StepId> :| SparesFailed(spec, status, K);
    SkippedInside(spec, w, status, h, |h|, ready, K);
    UnsettledExactly(spec, w, status, h, ready);
    RunnableMeaning(spec, spec.steps, ready);
    var open := Open(spec, ready.status);
    forall x | x in open ensures HasNext(RequiresEdges(spec), open, x) {
      var s :| s in spec.steps && s.id == x && !Settled(ready.status, x);
      var r := UnsettledWaits(spec, status, ready, K, s);
      assert r in open && Requires(spec, x, r);
    }
    if x :| x in open {
      EndlessMeansCycle(RequiresEdges(spec), open, x);
      assert false;
    }
    forall s | s in spec.steps ensures Settled(ready.status, s.id) {
      assert s.id !in open;
    }
  }

  // ---- Without that: a resumed run that completes around a timed-out step ----

  /** Gateway g chooses between e and a. */
  function ArmSpec(a: StepId, e: StepId, g: GatewayId): Spec {
    Spec([Step(a, false, {}), Step(e, false, {})], [Gateway(g, true, {e}, {a})], None)
  }

  lemma {:induction false} ArmDecides(a: StepId, e: StepId, g: GatewayId, rows: Statuses, gate: GatewayId -> bool)
    requires a != e
    ensures
      var spec := ArmSpec(a, e, g);
      DecideAll(spec, spec.gateways, State(rows, map[]), gate) ==
      State(SkipAll(rows, if gate(g) then {a} else {e}), map[g := gate(g)])
  {
    var spec := ArmSpec(a, e, g);
    assert GatewayNeeds(spec, spec.gateways[0]) == {};
    assert spec.gateways[..0] == [];
  }

  /** Nothing requires anything, so nothing cascades. */
  lemma {:induction false} ArmCascades(a: StepId, e: StepId, g: GatewayId, status: Statuses, next: Statuses)
    requires IsCascade(ArmSpec(a, e, g), status, next)
    ensures next == status
  {
    var skipped := With(status, Skipped);
    assert AbsorbsDependents(ArmSpec(a, e, g), status, skipped);
    assert With(next, Skipped) <= skipped;
  }

  /** The first round of the first run: e loses. */
  lemma {:induction false} FirstReady(w: World, a: StepId, e: StepId, g: GatewayId, ready: State)
    requires a != e && !w.gate(0, g) && IsReady(ArmSpec(a, e, g), Gate(w, 0), State(map[], map[]), ready)
    ensures ready.status == map[e := Skipped]
    ensures AfterTimeout(ArmSpec(a, e, g), w, 0, ready.status) == map[a := TimedOut, e := Skipped]
  {
    var spec := ArmSpec(a, e, g);
    ArmDecides(a, e, g, map[], Gate(w, 0));
    assert SkipAll(map[], {e}) == map[e := Skipped];
    ArmCascades(a, e, g, map[e := Skipped], ready.status);
    assert spec.steps[..2] == spec.steps && spec.steps[..1] == [spec.steps[0]] && [spec.steps[0]][..0] == [];
    assert TimeOutAll(spec, [spec.steps[0]], ready.status) == map[a := TimedOut, e := Skipped];
  }

  /** The first round of the resumed run: a loses but is terminal, and nothing is left to run. */
  lemma {:induction false} SecondReady(w: World, a: StepId, e: StepId, g: GatewayId, rows: Statuses, ready: State)
    requires a != e && w.gate(0, g) && rows == map[a := TimedOut, e := Skipped]
    requires IsReady(ArmSpec(a, e, g), Gate(w, 0), State(rows, map[]), ready)
    ensures ready.status == rows
    ensures Runnable(ArmSpec(a, e, g), ArmSpec(a, e, g).steps, ready) == [] && Pending(ArmSpec(a, e, g), rows) == {}
  {
    ArmDecides(a, e, g, rows, Gate(w, 0));
    ArmKeeps(a, e, rows);
    ArmCascades(a, e, g, rows, ready.status);
    ArmIsStuck(a, e, g, ready);
  }

  lemma {:induction false} ArmKeeps(a: StepId, e: StepId, rows: Statuses)
    requires a != e && rows == map[a := TimedOut, e := Skipped]
    ensures SkipAll(rows, {a}) == rows
  {
  }

  lemma {:induction false} ArmIsStuck(a: StepId, e: StepId, g: GatewayId, ready: State)
    requires a != e && ready.status == map[a := TimedOut, e := Skipped] && ready.decided == map[g := true]
    ensures Runnable(ArmSpec(a, e, g), ArmSpec(a, e, g).steps, ready) == [] &&
      Pending(ArmSpec(a, e, g), ready.status) == {}
  {
    var spec := ArmSpec(a, e, g);
    assert spec.gateways[0] in spec.gateways && Blocked(spec, a, ready.decided);
    NoneRunnable(spec, spec.steps, ready);
  }

  lemma {:induction false} ArmIsSaved(a: StepId, e: StepId, g: GatewayId)
    requires a != e
    ensures ValidSpec(ArmSpec(a, e, g)) && CrossReferenced(ArmSpec(a, e, g)) && Acyclic(RequiresEdges(ArmSpec(a, e, g)))
  {
    var spec := ArmSpec(a, e, g);
    assert StepIds(spec) == {a, e} by {
      assert spec.steps[0].id == a && spec.steps[1].id == e;
    }
    RankedMeansAcyclic(RequiresEdges(spec), x => 0);
  }

  lemma {:induction false} FirstRun(w: World, a: StepId, e: StepId, g: GatewayId, h: seq<Round>, ready: State,
      inst: Instance)
    requires a != e && !w.terminated(0) && w.late(0) && !w.gate(0, g)
    requires ValidHistory(ArmSpec(a, e, g), w, map[], h) &&
      EndsBecause(ArmSpec(a, e, g), w, map[], map[], h, ready, inst)
    ensures h == [] && inst == DeadlineExceeded
    ensures FinalView(ArmSpec(a, e, g), w, map[], h, ready, inst) == map[a := TimedOut, e := Skipped]
  {
    assert h != [] ==> RoundOk(ArmSpec(a, e, g), w, map[], h, 0);
    FirstReady(w, a, e, g, ready);
  }

  lemma {:induction false} SecondRun(w: World, a: StepId, e: StepId, g: GatewayId, rows: Statuses, h: seq<Round>,
      ready: State, inst: Instance)
    requires a != e && !w.terminated(0) && !w.late(0) && w.gate(0, g) && rows == map[a := TimedOut, e := Skipped]
    requires ValidHistory(ArmSpec(a, e, g), w, rows, h) && EndsBecause(ArmSpec(a, e, g), w, map[], rows, h, ready, inst)
    ensures h == [] && inst == Completed
    ensures FinalView(ArmSpec(a, e, g), w, rows, h, ready, inst) == rows
  {
    if h != [] {
      assert RoundOk(ArmSpec(a, e, g), w, rows, h, 0);
      SecondReady(w, a, e, g, rows, h[0].ready);
      assert false;
    }
    SecondReady(w, a, e, g, rows, ready);
  }

  lemma {:induction false} ArmStandsInTheWay(a: StepId, e: StepId, g: GatewayId, rows: Statuses)
    requires a != e && rows == map[a := TimedOut, e := Skipped]
    ensures !FailuresStandApart(ArmSpec(a, e, g), rows)
  {
    var spec := ArmSpec(a, e, g);
    assert spec.steps[0] in spec.steps && spec.gateways[0] in spec.gateways && a in spec.gateways[0].Arms();
  }

  lemma {:induction false} ArmRemembers(a: StepId, e: StepId, g: GatewayId, rows: Statuses, resume: bool)
    ensures StartStatus(ArmSpec(a, e, g), rows, resume) == rows
  {
  }

  method FirstTimesOut(w: World, a: StepId, e: StepId, g: GatewayId) returns (runner: Runner)
    requires a != e && !w.terminated(0) && w.late(0) && !w.gate(0, g)
    ensures fresh(runner) && runner.spec == ArmSpec(a, e, g) && runner.compensation == map[]
    ensures runner.instance == DeadlineExceeded && runner.rows == map[a := TimedOut, e := Skipped] &&
      Starts(runner.log) == []
  {
    ArmIsSaved(a, e, g);
    ArmRemembers(a, e, g, map[], false);
    runner := new Runner(ArmSpec(a, e, g), map[]);
    var h, ready := runner.Run(false, w);
    FirstRun(w, a, e, g, h, ready, runner.instance);
  }

  method ThenCompletes(runner: Runner, w: World, a: StepId, e: StepId, g: GatewayId)
    requires a != e && !w.terminated(0) && !w.late(0) && w.gate(0, g)
    requires runner.spec == ArmSpec(a, e, g) && runner.compensation == map[]
    requires runner.instance == Active && runner.rows == map[a := TimedOut, e := Skipped]
    modifies runner
    ensures runner.instance == Completed && runner.rows == old(runner.rows) && Starts(runner.log) == []
  {
    ArmIsSaved(a, e, g);
    ArmRemembers(a, e, g, runner.rows, true);
    ghost var rows := runner.rows;
    var h, ready := runner.Run(true, w);
    SecondRun(w, a, e, g, rows, h, ready, runner.instance);
  }

  /** "Completed only if every step is succeeded or skipped" needs a condition on resumed runs. The first run decides
      for a
      and times out; the resumed run decides for e, which is skipped already, does not skip a, which is terminal, and
      completes: no step was ever started, and a is neither succeeded nor skipped. */
  method ResumeCompletesAroundTimeout(first: World, second: World, a: StepId, e: StepId, g: GatewayId)
    returns (ends: (Instance, Instance), rows: Statuses, started: seq<StepId>)
    requires a != e && !first.terminated(0) && first.late(0) && !first.gate(0, g)
    requires !second.terminated(0) && !second.late(0) && second.gate(0, g)
    ensures ends == (DeadlineExceeded, Completed) && rows == map[a := TimedOut, e := Skipped] && started == []
    ensures !Settled(rows, a) && !FailuresStandApart(ArmSpec(a, e, g), rows)
  {
    var runner := FirstTimesOut(first, a, e, g);
    var end := runner.instance;
    started := Starts(runner.log);
    var reopened := runner.Reopen();
    ThenCompletes(runner, second, a, e, g);
    ends, rows, started := (end, runner.instance), runner.rows, started + Starts(runner.log);
    ArmStandsInTheWay(a, e, g, rows);
  }

  // ---- Crashes and resumes ----

  /** The rows a sequence of runs leaves behind. Each run writes some prefix of its log: all of it, or as far as it got
      before its process died. */
  datatype Attempt = Attempt(resume: bool, log: seq<Write>, crashed: nat)

  function Survives(a: Attempt): seq<Write> {
    if a.crashed <= |a.log| then a.log[..a.crashed] else a.log
  }

  function RowsAfter(rows: Statuses, runs: seq<Attempt>): Statuses {
    if runs == [] then rows else Replay(RowsAfter(rows, runs[..|runs| - 1]), Survives(runs[|runs| - 1]))
  }

  /** Every run respects the rows it remembers as succeeded. */
  ghost predicate ValidAttempts(spec: Spec, rows: Statuses, runs: seq<Attempt>) {
    runs == [] ||
    var front, last := runs[..|runs| - 1], runs[|runs| - 1];
    ValidAttempts(spec, rows, front) && NoRewrite(StartStatus(spec, RowsAfter(rows, front), last.resume), last.log)
  }

  lemma {:induction false} PrefixNoRewrite(base: Statuses, log: seq<Write>, n: nat)
    requires NoRewrite(base, log) && n <= |log|
    ensures NoRewrite(base, log[..n])
  {
    if n < |log| {
      PrefixNoRewrite(base, log[..|log| - 1], n);
      assert log[..|log| - 1][..n] == log[..n];
    } else {
      assert log[..n] == log;
    }
  }

  lemma {:induction false} SucceededIsUntouched(base: Statuses, rows: Statuses, log: seq<Write>, id: StepId)
    requires NoRewrite(base, log) && Is(base, id, Succeeded) && Is(rows, id, Succeeded)
    ensures Is(Replay(base, log), id, Succeeded) && Is(Replay(rows, log), id, Succeeded)
    ensures forall j :: 0 <= j < |log| ==> log[j].step != id
  {
    if log != [] {
      SucceededIsUntouched(base, rows, log[..|log| - 1], id);
    }
  }

  lemma {:induction false} ActionKeptOnResume(spec: Spec, rows: Statuses, resume: bool, id: StepId)
    requires !IsAssess(spec, id) && Is(rows, id, Succeeded)
    ensures Is(StartStatus(spec, rows, resume), id, Succeeded)
  {
  }

  /** One more run leaves a succeeded action row alone, however far it gets. */
  lemma {:induction false} NextAttemptKeeps(spec: Spec, rows: Statuses, a: Attempt, id: StepId)
    requires NoRewrite(StartStatus(spec, rows, a.resume), a.log) && !IsAssess(spec, id) && Is(rows, id, Succeeded)
    ensures Is(Replay(rows, Survives(a)), id, Succeeded) && forall j :: 0 <= j < |a.log| ==> a.log[j].step != id
  {
    var base := StartStatus(spec, rows, a.resume);
    ActionKeptOnResume(spec, rows, a.resume, id);
    SucceededIsUntouched(base, rows, a.log, id);
    if a.crashed <= |a.log| {
      PrefixNoRewrite(base, a.log, a.crashed);
      SucceededIsUntouched(base, rows, a.log[..a.crashed], id);
    }
  }

  predicate Untouched(runs: seq<Attempt>, from: nat, id: StepId) {
    forall k, j :: from <= k < |runs| && 0 <= j < |runs[k].log| ==> runs[k].log[j].step != id
  }

  /** Once the row of an action step is succeeded, after any number of runs, no later run starts the step or touches its
      row, however many runs follow, resumed or not, crashing where they may. */
  lemma {:induction false} SucceededActionsStayPut(spec: Spec, rows: Statuses, runs: seq<Attempt>, i: nat, id: StepId)
    requires ValidAttempts(spec, rows, runs) && i <= |runs| && !IsAssess(spec, id)
    requires Is(RowsAfter(rows, runs[..i]), id, Succeeded)
    ensures Is(RowsAfter(rows, runs), id, Succeeded) && Untouched(runs, i, id)
  {
    if i == |runs| {
      assert runs[..i] == runs;
    } else {
      var front, last := runs[..|runs| - 1], runs[|runs| - 1];
      assert front[..i] == runs[..i] && runs == front + [last];
      AttemptsSnoc(spec, rows, front, last);
      SucceededActionsStayPut(spec, rows, front, i, id);
      NextAttemptKeeps(spec, RowsAfter(rows, front), last, id);
      UntouchedSnoc(front, last, i, id);
    }
  }

  lemma {:induction false} UntouchedSnoc(runs: seq<Attempt>, a: Attempt, from: nat, id: StepId)
    requires Untouched(runs, from, id) && forall j :: 0 <= j < |a.log| ==> a.log[j].step != id
    ensures Untouched(runs + [a], from, id)
  {
  }

  lemma {:induction false} AttemptsSnoc(spec: Spec, rows: Statuses, runs: seq<Attempt>, a: Attempt)
    ensures RowsAfter(rows, runs + [a]) == Replay(RowsAfter(rows, runs), Survives(a))
    ensures ValidAttempts(spec, rows, runs + [a]) <==>
      ValidAttempts(spec, rows, runs) && NoRewrite(StartStatus(spec, RowsAfter(rows, runs), a.resume), a.log)
  {
    assert (runs + [a])[..|runs|] == runs;
  }

  /** The runner executed again and again over the rows its predecessors left, each time resumed or not, in a world of
      its
      own, and dying after any number of its writes: once the row of an action step is succeeded, no later run writes to
      it. */
  method RunRepeatedly(spec: Spec, comp: map<StepId, string>, plan: seq<(bool, World, nat)>)
      returns (runs: seq<Attempt>, rows: Statuses)
    requires ValidSpec(spec)
    ensures |runs| == |plan| && rows == RowsAfter(map[], runs)
    ensures forall i, id ::
      0 <= i <= |runs| && !IsAssess(spec, id) && Is(RowsAfter(map[], runs[..i]), id, Succeeded) ==>
      Untouched(runs, i, id) && Is(rows, id, Succeeded)
  {
    runs, rows := [], map[];
    for n := 0 to |plan|
      invariant |runs| == n && ValidAttempts(spec, map[], runs) && rows == RowsAfter(map[], runs)
    {
      var (resume, w, cut) := plan[n];
      var runner := new Runner.OverRows(spec, comp, rows);
      var h, ready := runner.Run(resume, w);
      var a := Attempt(resume, runner.log, cut);
      AttemptsSnoc(spec, map[], runs, a);
      rows := ReplayRows(rows, Survives(a));
      runs := runs + [a];
    }
    forall i, id | 0 <= i <= |runs| && !IsAssess(spec, id) && Is(RowsAfter(map[], runs[..i]), id, Succeeded)
      ensures Untouched(runs, i, id) && Is(rows, id, Succeeded)
    {
      SucceededActionsStayPut(spec, map[], runs, i, id);
    }
  }

  method ReplayRows(rows: Statuses, log: seq<Write>) returns (after: Statuses)
    ensures after == Replay(rows, log)
  {
    after := rows;
    for i := 0 to |log|
      invariant after == Replay(rows, log[..i])
    {
      assert log[..i + 1][..i] == log[..i];
      after := Apply(after, log[i]);
    }
    assert log[..|log|] == log;
  }

  // ---- What a run starts again ----

  lemma {:induction false} StartsAreWrites(log: seq<Write>, x: StepId) returns (j: nat)
    requires x in Starts(log)
    ensures j < |log| && log[j].step == x
  {
    j := |log| - 1;
    if log[j].step != x {
      j := StartsAreWrites(log[..j], x);
    }
  }

  lemma {:induction false} FlatContains(h: seq<Round>, i: nat, x: StepId)
    requires i < |h| && x in h[i].order
    ensures x in Flat(h)
  {
    if i < |h| - 1 {
      FlatContains(h[..|h| - 1], i, x);
    }
  }

  /** What is written to a row that one view does not know is in every view. */
  lemma {:induction false} WrittenAgrees(a: Statuses, b: Statuses, log: seq<Write>, x: StepId)
    requires x !in a && x in Replay(a, log)
    ensures x in Replay(b, log) && Replay(b, log)[x] == Replay(a, log)[x]
  {
    if log != [] && log[|log| - 1].step != x {
      WrittenAgrees(a, b, log[..|log| - 1], x);
    }
  }

  /** A step the run does not remember is dispatched or skipped if the run completes. */
  lemma {:induction false} ForgottenIsSettled(spec: Spec, w: World, base: Statuses, h: seq<Round>, ready: State,
      x: StepId)
    requires ValidSpec(spec) && ValidHistory(spec, w, base, h) && Exhausted(spec, w, base, h, ready)
    requires Pending(spec, ready.status) == {} && x in StepIds(spec) && x !in base
    ensures x in Flat(h) || Is(ready.status, x, Skipped)
  {
    RowFate(spec, w, base, h, |h|, ready, x);
    assert x !in Pending(spec, ready.status);
    if i :| 0 <= i < |h| && x in h[i].batch {
      assert RoundOk(spec, w, base, h, i);
      FlatContains(h, i, x);
    }
  }

  /** One run over stored rows. Without `resume` nothing that succeeded is started again; with it, succeeded actions are
      not, and if the run completes every succeeded assess step has been started again or skipped. */
  method RunOver(spec: Spec, comp: map<StepId, string>, rows: Statuses, resume: bool, w: World)
    returns (inst: Instance, after: Statuses, started: seq<StepId>)
    requires ValidSpec(spec)
    ensures forall x :: Is(rows, x, Succeeded) && (!resume || !IsAssess(spec, x)) ==>
      x !in started && Is(after, x, Succeeded)
    ensures resume && inst == Completed ==>
      forall s :: s in spec.steps && s.assess && Is(rows, s.id, Succeeded) ==>
        s.id in started || Is(after, s.id, Skipped)
  {
    var runner := new Runner.OverRows(spec, comp, rows);
    var h, ready := runner.Run(resume, w);
    inst, after, started := runner.instance, runner.rows, Starts(runner.log);
    ghost var base := StartStatus(spec, rows, resume);
    forall x | Is(rows, x, Succeeded) && (!resume || !IsAssess(spec, x))
      ensures x !in started && Is(after, x, Succeeded) {
      SucceededIsUntouched(base, rows, runner.log, x);
      if x in started {
        var j := StartsAreWrites(runner.log, x);
        assert false;
      }
    }
    if resume && inst == Completed {
      forall s | s in spec.steps && s.assess && Is(rows, s.id, Succeeded)
        ensures s.id in started || Is(after, s.id, Skipped) {
        assert IsAssess(spec, s.id) && s.id !in base;
        ForgottenIsSettled(spec, w, base, h, ready, s.id);
        if Is(ready.status, s.id, Skipped) {
          WrittenAgrees(base, rows, runner.log, s.id);
        }
      }
    }
  }
}
