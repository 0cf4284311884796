/** Whole runs and sequences of runs: how they end, and what crashes and resumes cannot undo. */
module ScenarioRuns {
  import opened Common
  import opened Scenario
  import opened ScenarioProofs
  import opened ScenarioDeadlock
  import opened ScenarioRunner

  // ---- A fresh run where everything succeeds ----

  /** No termination, no deadline, every step succeeds. */
  ghost predicate Undisturbed(w: World) {
    && (forall k: nat :: !w.terminated(k) && !w.late(k))
    && (forall k: nat, s :: w.outcome(k, s) == Succeeded)
  }

  lemma {:induction false} UndisturbedEnds(spec: Spec, w: World, comp: map<StepId, string>, h: seq<Round>,
      ready: State, inst: Instance)
    requires Undisturbed(w) && EndsBecause(spec, w, comp, map[], h, ready, inst)
    ensures Reached(spec, w, map[], h, |h|, ready) && Runnable(spec, spec.steps, ready) == []
    ensures inst == if Pending(spec, ready.status) == {} then Completed else Unsatisfiable(Pending(spec, ready.status))
  {
    assert !inst.Terminated? && !inst.DeadlineExceeded? && !inst.StoppedAt? && !inst.Compensated?;
  }

  /** Gateway-free: completed if and only if requirements are acyclic, otherwise failed naming exactly the steps
      that reach a cycle. */
  lemma {:induction false} GatewayFreeVerdict(spec: Spec, w: World, comp: map<StepId, string>, h: seq<Round>,
      ready: State, inst: Instance)
    requires ValidSpec(spec) && CrossReferenced(spec) && GatewayFree(spec) && Undisturbed(w)
    requires ValidHistory(spec, w, map[], h) && EndsBecause(spec, w, comp, map[], h, ready, inst)
    ensures inst == Completed <==> Acyclic(RequiresEdges(spec))
    ensures inst != Completed ==> inst.Unsatisfiable? && forall x :: x in inst.pending <==>
      x in StepIds(spec) && ReachesCycle(RequiresEdges(spec), x)
  {
    UndisturbedEnds(spec, w, comp, h, ready, inst);
    DeadlockGuardIsExact(spec, w, h, ready);
  }

  /** With gateways: completed, with every step succeeded or skipped. */
  lemma {:induction false} GatewayVerdict(spec: Spec, w: World, comp: map<StepId, string>, h: seq<Round>, ready: State,
      inst: Instance)
    requires ValidSpec(spec) && CrossReferenced(spec) && Acyclic(WaitEdges(spec)) && NestsSafely(spec) && Undisturbed(w)
    requires ValidHistory(spec, w, map[], h) && EndsBecause(spec, w, comp, map[], h, ready, inst)
    ensures inst == Completed && forall s :: s in spec.steps ==> Settled(ready.status, s.id)
  {
    UndisturbedEnds(spec, w, comp, h, ready, inst);
    AcyclicCompletes(spec, w, h, ready);
    CompletedMeansSettled(spec, w, map[], h, ready);
  }

  lemma {:induction false} FlatMembers(h: seq<Round>, x: StepId) returns (k: nat)
    requires x in Flat(h) && forall k :: 0 <= k < |h| ==> IsOrder(h[k].order, h[k].batch)
    ensures k < |h| && x in h[k].batch
  {
    var n := |h| - 1;
    if x in h[n].batch {
      k := n;
    } else {
      k := FlatMembers(h[..n], x);
    }
  }

  /** What RunsMakeProgress says of the batches, said of the list of started steps. */
  lemma {:induction false} StartedOnce(h: seq<Round>)
    requires forall i, k, s :: 0 <= i < k < |h| && s in h[i].batch ==> s !in h[k].batch
    requires forall k, i, j :: 0 <= k < |h| && 0 <= i < j < |h[k].batch| ==> h[k].batch[i] != h[k].batch[j]
    requires forall k :: 0 <= k < |h| ==> IsOrder(h[k].order, h[k].batch)
    ensures Distinct(Flat(h))
  {
    if h != [] {
      var n := |h| - 1;
      var front, last := h[..n], h[n].order;
      StartedOnce(front);
      forall x | x in Flat(front) ensures x !in last {
        var k := FlatMembers(front, x);
        assert x in h[k].batch;
      }
      AppendDistinct(Flat(front), last);
    }
  }

  lemma {:induction false} AppendDistinct(a: seq<StepId>, b: seq<StepId>)
    requires Distinct(a) && Distinct(b) && forall x :: x in a ==> x !in b
    ensures Distinct(a + b)
  {
    forall i, j | 0 <= i < j < |a + b| ensures (a + b)[i] != (a + b)[j] {
      if i < |a| <= j {
        assert a[i] in a && b[j - |a|] in b;
      }
    }
  }

  /** The runner on a new instance in which every step succeeds: the verdicts above, reached by the code, with no
      step started twice. */
  method FreshRun(spec: Spec, comp: map<StepId, string>, w: World) returns (inst: Instance, started: seq<StepId>)
    requires ValidSpec(spec) && CrossReferenced(spec) && Undisturbed(w)
    ensures inst == Completed || inst.Unsatisfiable?
    ensures GatewayFree(spec) ==> (inst == Completed <==> Acyclic(RequiresEdges(spec)))
    ensures GatewayFree(spec) && inst != Completed ==>
      forall x :: x in inst.pending <==> x in StepIds(spec) && ReachesCycle(RequiresEdges(spec), x)
    ensures Acyclic(WaitEdges(spec)) && NestsSafely(spec) ==> inst == Completed
    ensures Distinct(started)
  {
    var r := new Runner(spec, comp);
    var h, ready := r.Run(false, w);
    assert StartStatus(spec, map[], false) == map[];
    inst, started := r.instance, Starts(r.log);
    UndisturbedEnds(spec, w, comp, h, ready, inst);
    if GatewayFree(spec) {
      GatewayFreeVerdict(spec, w, comp, h, ready, inst);
    }
    if Acyclic(WaitEdges(spec)) && NestsSafely(spec) {
      GatewayVerdict(spec, w, comp, h, ready, inst);
    }
    RunsMakeProgress(spec, w, map[], h);
    forall k | 0 <= k < |h| ensures IsOrder(h[k].order, h[k].batch) {
      assert RoundOk(spec, w, map[], h, k);
    }
    StartedOnce(h);
  }
}
