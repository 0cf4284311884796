/** The deadlock guard: which fresh runs end as unsatisfiable, and naming which steps. */
module ScenarioDeadlock {
  import opened Common
  import opened Scenario
  import opened ScenarioProofs

  // ---- Walks and cycles ----

  type Edges = (StepId, StepId) -> bool

  predicate IsWalk(edge: Edges, p: seq<StepId>) {
    p != [] && forall i :: 0 <= i < |p| - 1 ==> edge(p[i], p[i + 1])
  }

  predicate Repeats(p: seq<StepId>) {
    exists i, j :: 0 <= i < j < |p| && p[i] == p[j]
  }

  ghost predicate ReachesCycle(edge: Edges, s: StepId) {
    exists p :: IsWalk(edge, p) && p[0] == s && Repeats(p)
  }

  ghost predicate Acyclic(edge: Edges) {
    forall p :: IsWalk(edge, p) ==> !Repeats(p)
  }

  predicate HasNext(edge: Edges, P: set<StepId>, x: StepId) {
    exists y :: y in P && edge(x, y)
  }

  predicate Endless(edge: Edges, P: set<StepId>) {
    forall x :: x in P ==> HasNext(edge, P, x)
  }

  /** If every member of P has a successor in P, walks inside P never get stuck. */
  lemma {:induction false} LongWalk(edge: Edges, P: set<StepId>, s: StepId, n: nat) returns (p: seq<StepId>)
    requires s in P && Endless(edge, P)
    ensures |p| == n + 1 && p[0] == s && IsWalk(edge, p) && forall i :: 0 <= i < |p| ==> p[i] in P
    decreases n
  {
    if n == 0 {
      p := [s];
    } else {
      assert HasNext(edge, P, s);
      var y :| y in P && edge(s, y);
      var q := LongWalk(edge, P, y, n - 1);
      p := [s] + q;
    }
  }

  lemma {:induction false} Pigeonhole(P: set<StepId>, p: seq<StepId>)
    requires |p| > |P| && forall i :: 0 <= i < |p| ==> p[i] in P
    ensures Repeats(p)
    decreases |P|
  {
    var x, rest := p[0], p[1..];
    if x in rest {
      var j :| 0 <= j < |rest| && rest[j] == x;
      assert p[0] == p[j + 1];
    } else {
      forall i | 0 <= i < |rest| ensures rest[i] in P - {x} {
        assert rest[i] == p[i + 1];
      }
      Pigeonhole(P - {x}, rest);
      var i, j :| 0 <= i < j < |rest| && rest[i] == rest[j];
      assert p[i + 1] == p[j + 1];
    }
  }

  lemma {:induction false} EndlessMeansCycle(edge: Edges, P: set<StepId>, s: StepId)
    requires s in P && Endless(edge, P)
    ensures ReachesCycle(edge, s)
  {
    var p := LongWalk(edge, P, s, |P|);
    Pigeonhole(P, p);
  }

  // ---- The dependency graphs of a scenario ----

  predicate Requires(spec: Spec, a: StepId, b: StepId) {
    exists s :: s in spec.steps && s.id == a && b in s.needs
  }

  function RequiresEdges(spec: Spec): Edges {
    (a, b) => Requires(spec, a, b)
  }

  /** An arm step also waits for everything its gateway waits for. */
  predicate WaitsFor(spec: Spec, a: StepId, b: StepId) {
    Requires(spec, a, b) || NamedBy(spec, a, b)
  }

  function WaitEdges(spec: Spec): Edges {
    (a, b) => WaitsFor(spec, a, b)
  }

  // ---- Why a step is still pending when nothing is runnable ----

  lemma {:induction false} UndecidedWaits(spec: Spec, gs: seq<Gateway>, g: Gateway, s: State, gate: GatewayId -> bool)
      returns (r: StepId)
    requires g in gs && g.xor && g.id !in DecideAll(spec, gs, s, gate).decided
    ensures r in GatewayNeeds(spec, g) && !Terminal(s.status, r)
  {
    var front, last := gs[..|gs| - 1], gs[|gs| - 1];
    var mid := DecideAll(spec, front, s, gate);
    DecideAllOnlySkips(spec, front, s, gate);
    if g == last {
      r :| r in GatewayNeeds(spec, g) && !Terminal(mid.status, r);
    } else {
      r := UndecidedWaits(spec, front, g, s, gate);
    }
  }

  /** A step is pending, succeeded or skipped; pending ones require nothing skipped and are in no losing arm. */
  predicate Tidy(spec: Spec, ready: State) {
    && (forall x :: x in StepIds(spec) ==>
      x in Pending(spec, ready.status) || Is(ready.status, x, Succeeded) || Is(ready.status, x, Skipped))
    && (forall s, r :: s in spec.steps && s.id in Pending(spec, ready.status) && r in s.needs ==>
      !Is(ready.status, r, Skipped))
    && (forall g, x :: g in spec.gateways && g.xor && g.id in ready.decided && x in Pending(spec, ready.status) ==>
          x !in g.Losing(ready.decided[g.id]))
  }

  lemma {:induction false} FreshIsTidy(spec: Spec, ready: State)
    requires ValidSpec(spec) && FreshHead(spec, ready)
    requires IsLeastClosure(spec, LosingSoFar(spec, ready.decided), With(ready.status, Skipped))
    ensures Tidy(spec, ready)
  {
    var skipped := With(ready.status, Skipped);
    forall s, r | s in spec.steps && s.id in Pending(spec, ready.status) && r in s.needs
      ensures !Is(ready.status, r, Skipped) {
      assert r in skipped ==> r in s.needs * skipped;
    }
    forall g, x | g in spec.gateways && g.xor && g.id in ready.decided && x in Pending(spec, ready.status)
      ensures x !in g.Losing(ready.decided[g.id])
    {
      assert x in g.Losing(ready.decided[g.id]) ==> x in LosingSoFar(spec, ready.decided);
    }
  }

  predicate NamedBy(spec: Spec, x: StepId, r: StepId) {
    exists g :: g in spec.gateways && g.xor && x in g.Arms() && r in GatewayNeeds(spec, g)
  }

  lemma {:induction false} StuckTidily(spec: Spec, gate: GatewayId -> bool, before: State, ready: State, s: Step)
      returns (r: StepId)
    requires CrossReferenced(spec) && Tidy(spec, ready) && IsReady(spec, gate, before, ready)
    requires s in spec.steps && s.id in Pending(spec, ready.status) && !IsRunnable(spec, s, ready)
    ensures WaitsFor(spec, s.id, r) && r in StepIds(spec) && !Is(ready.status, r, Succeeded)
    ensures Is(ready.status, r, Skipped) ==> NamedBy(spec, s.id, r)
  {
    if r' :| r' in s.needs && !Is(ready.status, r', Succeeded) {
      r := r';
    } else {
      var g :| g in spec.gateways && g.xor && s.id in g.Arms() &&
        (g.id !in ready.decided || s.id !in g.Chosen(ready.decided[g.id]));
      r := UndecidedWaits(spec, spec.gateways, g, before, gate);
      ReadyOnlySkips(spec, gate, before, ready);
    }
  }

  /** In a stuck fresh run a pending step requires a pending step, or one of its gateways is undecided because a
      step it waits for was not finished at the head of the round: still pending now, or skipped since. */
  lemma {:induction false} StuckBecause(spec: Spec, w: World, h: seq<Round>, ready: State, x: StepId)
      returns (r: StepId)
    requires ValidSpec(spec) && CrossReferenced(spec) && ValidHistory(spec, w, map[], h)
    requires Reached(spec, w, map[], h, |h|, ready) && Runnable(spec, spec.steps, ready) == []
    requires x in Pending(spec, ready.status)
    ensures WaitsFor(spec, x, r) && r in StepIds(spec)
    ensures r in Pending(spec, ready.status) || (Is(ready.status, r, Skipped) && NamedBy(spec, x, r))
  {
    FreshInvariant(spec, w, h, |h|, ready);
    FreshIsTidy(spec, ready);
    RunnableMeaning(spec, spec.steps, ready);
    var s :| s in spec.steps && s.id == x;
    assert !IsRunnable(spec, s, ready);
    r := StuckTidily(spec, Gate(w, |h|), HeadState(w, map[], h, |h|), ready, s);
  }

  // ---- Without gateways: exactly the steps that reach a cycle ----

  lemma {:induction false} SucceededMeansDispatched(spec: Spec, w: World, h: seq<Round>, k: nat, ready: State,
      x: StepId) returns (i: nat)
    requires ValidSpec(spec) && ValidHistory(spec, w, map[], h) && Reached(spec, w, map[], h, k, ready)
    requires Is(ready.status, x, Succeeded)
    ensures i < k && x in h[i].batch
    decreases k
  {
    ReachedIsReady(spec, w, map[], h, k, ready);
    if k == 0 {
      ReadyOnlySkips(spec, Gate(w, 0), HeadState(w, map[], h, 0), ready);
      assert false;
    } else {
      RoundProgress(spec, w, k - 1, h[k - 1], ready);
      if x in h[k - 1].batch {
        i := k - 1;
      } else {
        i := SucceededMeansDispatched(spec, w, h, k - 1, h[k - 1].ready, x);
      }
    }
  }

  /** A requirement of a dispatched step was dispatched in an earlier batch, so walks go strictly back in time. */
  lemma {:induction false} WalksGoBack(spec: Spec, w: World, h: seq<Round>, p: seq<StepId>, i: nat, j: nat)
      returns (k: nat)
    requires ValidSpec(spec) && ValidHistory(spec, w, map[], h) && IsWalk(RequiresEdges(spec), p)
    requires i < |h| && p[0] in h[i].batch && j < |p|
    ensures k < |h| && k + j <= i && p[j] in h[k].batch
    decreases j
  {
    if j == 0 {
      k := i;
    } else {
      var m := WalksGoBack(spec, w, h, p, i, j - 1);
      assert Requires(spec, p[j - 1], p[j - 1 + 1]);
      var s :| s in spec.steps && s.id == p[j - 1] && p[j] in s.needs;
      RunsMakeProgress(spec, w, map[], h);
      assert RoundOk(spec, w, map[], h, m);
      k := SucceededMeansDispatched(spec, w, h, m, h[m].ready, p[j]);
    }
  }

  lemma {:induction false} DispatchedReachNoCycle(spec: Spec, w: World, h: seq<Round>, i: nat, x: StepId)
    requires ValidSpec(spec) && ValidHistory(spec, w, map[], h) && i < |h| && x in h[i].batch
    ensures !ReachesCycle(RequiresEdges(spec), x)
  {
    var edge := RequiresEdges(spec);
    forall p | IsWalk(edge, p) && p[0] == x ensures !Repeats(p) {
      if a, b :| 0 <= a < b < |p| && p[a] == p[b] {
        var k := WalksGoBack(spec, w, h, p, i, a);
        assert IsWalk(edge, p[a..]);
        var m := WalksGoBack(spec, w, h, p[a..], k, b - a);
        RunsMakeProgress(spec, w, map[], h);
        assert false;
      }
    }
  }

  predicate GatewayFree(spec: Spec) {
    forall g :: g in spec.gateways ==> !g.xor
  }

  lemma {:induction false} NothingSkipped(spec: Spec, w: World, h: seq<Round>, ready: State)
    requires ValidSpec(spec) && GatewayFree(spec)
    requires ValidHistory(spec, w, map[], h) && Reached(spec, w, map[], h, |h|, ready)
    ensures forall x :: !Is(ready.status, x, Skipped)
    ensures forall x :: x in StepIds(spec) && x !in Pending(spec, ready.status) ==> Is(ready.status, x, Succeeded)
  {
    FreshInvariant(spec, w, h, |h|, ready);
    assert LosingSoFar(spec, ready.decided) == {};
    assert ClosedUnderRequires(spec, {});
    assert forall x :: Is(ready.status, x, Skipped) ==> x in With(ready.status, Skipped);
  }

  lemma {:induction false} PendingIsEndless(spec: Spec, w: World, h: seq<Round>, ready: State)
    requires ValidSpec(spec) && CrossReferenced(spec) && GatewayFree(spec)
    requires ValidHistory(spec, w, map[], h) && Reached(spec, w, map[], h, |h|, ready)
    requires Runnable(spec, spec.steps, ready) == []
    ensures Endless(RequiresEdges(spec), Pending(spec, ready.status))
  {
    NothingSkipped(spec, w, h, ready);
    var P := Pending(spec, ready.status);
    forall x | x in P ensures HasNext(RequiresEdges(spec), P, x) {
      var r := StuckBecause(spec, w, h, ready, x);
    }
  }

  /** A fresh run of a gateway-free scenario in which every step succeeds ends with exactly those steps pending
      that reach a requirement cycle; so it completes if and only if there is no cycle. */
  lemma {:induction false} DeadlockGuardIsExact(spec: Spec, w: World, h: seq<Round>, ready: State)
    requires ValidSpec(spec) && CrossReferenced(spec) && GatewayFree(spec)
    requires ValidHistory(spec, w, map[], h) && Reached(spec, w, map[], h, |h|, ready)
    requires Runnable(spec, spec.steps, ready) == []
    ensures forall x :: x in StepIds(spec) ==>
      (x in Pending(spec, ready.status) <==> ReachesCycle(RequiresEdges(spec), x))
    ensures Pending(spec, ready.status) == {} <==> Acyclic(RequiresEdges(spec))
  {
    var edge, P := RequiresEdges(spec), Pending(spec, ready.status);
    forall x | x in StepIds(spec) ensures x in P <==> ReachesCycle(edge, x) {
      if x in P {
        PendingIsEndless(spec, w, h, ready);
        EndlessMeansCycle(edge, P, x);
      } else {
        NothingSkipped(spec, w, h, ready);
        var i := SucceededMeansDispatched(spec, w, h, |h|, ready, x);
        DispatchedReachNoCycle(spec, w, h, i, x);
      }
    }
    if P == {} {
      NoCycleAnywhere(spec);
    } else {
      var x :| x in P;
      assert x in StepIds(spec);
      assert ReachesCycle(edge, x);
    }
  }

  lemma {:induction false} NoCycleAnywhere(spec: Spec)
    requires forall x :: x in StepIds(spec) ==> !ReachesCycle(RequiresEdges(spec), x)
    ensures Acyclic(RequiresEdges(spec))
  {
    var edge := RequiresEdges(spec);
    forall p | IsWalk(edge, p) ensures !Repeats(p) {
      if Repeats(p) {
        assert edge(p[0], p[0 + 1]);
        assert ReachesCycle(edge, p[0]);
        assert false;
      }
    }
  }

  // ---- With gateways ----

  /** With an acyclic waits-for graph there is one way to get stuck: a pending step belongs to a gateway that waits
      for a step skipped in the very round that found nothing to run. */
  lemma {:induction false} StuckMeansNestedSkip(spec: Spec, w: World, h: seq<Round>, ready: State)
    requires ValidSpec(spec) && CrossReferenced(spec) && Acyclic(WaitEdges(spec))
    requires ValidHistory(spec, w, map[], h) && Reached(spec, w, map[], h, |h|, ready)
    requires Runnable(spec, spec.steps, ready) == [] && Pending(spec, ready.status) != {}
    ensures exists x, r :: x in Pending(spec, ready.status) && NamedBy(spec, x, r) && Is(ready.status, r, Skipped)
  {
    var edge, P := WaitEdges(spec), Pending(spec, ready.status);
    if (forall x, r :: x in P && NamedBy(spec, x, r) ==> !Is(ready.status, r, Skipped)) {
      forall x | x in P ensures HasNext(edge, P, x) {
        var r := StuckBecause(spec, w, h, ready, x);
        assert r in P;
      }
      var x :| x in P;
      EndlessMeansCycle(edge, P, x);
      assert false;
    }
  }

  /** x requires r, directly or through other steps. */
  ghost predicate DependsOn(spec: Spec, x: StepId, r: StepId) {
    exists p :: IsWalk(RequiresEdges(spec), p) && p[0] == x && p[|p| - 1] == r
  }

  lemma {:induction false} ClosedContainsDependents(spec: Spec, X: set<StepId>, p: seq<StepId>)
    requires ClosedUnderRequires(spec, X) && IsWalk(RequiresEdges(spec), p) && p[|p| - 1] in X
    ensures p[0] in X
  {
    if |p| > 1 {
      assert IsWalk(RequiresEdges(spec), p[1..]) by {
        forall i | 0 <= i < |p[1..]| - 1 ensures RequiresEdges(spec)(p[1..][i], p[1..][i + 1]) {
          assert RequiresEdges(spec)(p[i + 1], p[i + 1 + 1]);
        }
      }
      ClosedContainsDependents(spec, X, p[1..]);
      assert RequiresEdges(spec)(p[0], p[0 + 1]);
      var s :| s in spec.steps && s.id == p[0] && p[1] in s.needs;
      assert p[1] in s.needs * X;
    }
  }

  /** Where a gateway waits for a step that may be skipped, everything in its arms depends on that step and is skipped
      along with it. K holds every step that may be skipped. */
  ghost predicate NestsSafelyIn(spec: Spec, K: set<StepId>) {
    && ClosedUnderRequires(spec, K)
    && (forall g :: g in spec.gateways && g.xor ==> g.Arms() <= K)
    && (forall g, r, x :: g in spec.gateways && g.xor && r in GatewayNeeds(spec, g) && r in K && x in g.Arms() ==>
      DependsOn(spec, x, r))
  }

  ghost predicate NestsSafely(spec: Spec) {
    exists K: set<StepId> :: NestsSafelyIn(spec, K)
  }

  /** With gateways, waits-for acyclic and gateways nested safely if at all: the run completes whatever the gateways
      decide. */
  lemma {:induction false} AcyclicCompletes(spec: Spec, w: World, h: seq<Round>, ready: State)
    requires ValidSpec(spec) && CrossReferenced(spec) && Acyclic(WaitEdges(spec)) && NestsSafely(spec)
    requires ValidHistory(spec, w, map[], h) && Reached(spec, w, map[], h, |h|, ready)
    requires Runnable(spec, spec.steps, ready) == []
    ensures Pending(spec, ready.status) == {}
  {
    if Pending(spec, ready.status) != {} {
      StuckMeansNestedSkip(spec, w, h, ready);
      var x, r :| x in Pending(spec, ready.status) && NamedBy(spec, x, r) && Is(ready.status, r, Skipped);
      FreshInvariant(spec, w, h, |h|, ready);
      SkippedTogether(spec, ready, x, r);
    }
  }

  lemma {:induction false} SkippedTogether(spec: Spec, ready: State, x: StepId, r: StepId)
    requires NestsSafely(spec) && NamedBy(spec, x, r) && Is(ready.status, r, Skipped)
    requires IsLeastClosure(spec, LosingSoFar(spec, ready.decided), With(ready.status, Skipped))
    ensures Is(ready.status, x, Skipped)
  {
    var K: set<StepId> :| NestsSafelyIn(spec, K);
    var skipped := With(ready.status, Skipped);
    assert LosingSoFar(spec, ready.decided) <= K;
    assert r in skipped && skipped <= K;
    assert DependsOn(spec, x, r);
    var p :| IsWalk(RequiresEdges(spec), p) && p[0] == x && p[|p| - 1] == r;
    ClosedContainsDependents(spec, skipped, p);
  }

  // ---- Nested gateways: acyclic, yet stuck ----

  lemma {:induction false} RankFalls(edge: Edges, rank: StepId -> int, p: seq<StepId>, i: nat, j: nat)
    requires IsWalk(edge, p) && i < j < |p| && forall a, b :: edge(a, b) ==> rank(b) < rank(a)
    ensures rank(p[j]) < rank(p[i])
    decreases j
  {
    assert edge(p[j - 1], p[j - 1 + 1]);
    if i < j - 1 {
      RankFalls(edge, rank, p, i, j - 1);
    }
  }

  lemma {:induction false} RankedMeansAcyclic(edge: Edges, rank: StepId -> int)
    requires forall a, b :: edge(a, b) ==> rank(b) < rank(a)
    ensures Acyclic(edge)
  {
    forall p | IsWalk(edge, p) ensures !Repeats(p) {
      if i, j :| 0 <= i < j < |p| && p[i] == p[j] {
        RankFalls(edge, rank, p, i, j);
        assert false;
      }
    }
  }

  /** Names for a small scenario. */
  datatype Names = Names(b: StepId, c: StepId, d: StepId, e: StepId, outer: GatewayId, inner: GatewayId) {
    predicate Distinct() {
      b != c && b != d && b != e && c != d && c != e && d != e && outer != inner
    }
  }

  /** Gateway `outer` has only an else arm, b; c requires b and d requires c; gateway `inner` chooses between d and e.
      */
  function NestedSpec(n: Names): Spec {
    Spec([Step(n.b, false, {}), Step(n.c, false, {n.b}), Step(n.d, false, {n.c}), Step(n.e, false, {})],
         [Gateway(n.outer, true, {}, {n.b}), Gateway(n.inner, true, {n.d}, {n.e})], None)
  }

  function NestedEnd(n: Names): State {
    State(map[n.b := Skipped, n.c := Skipped, n.d := Skipped], map[n.outer := true])
  }

  lemma {:induction false} NestedIds(n: Names)
    ensures StepIds(NestedSpec(n)) == {n.b, n.c, n.d, n.e}
  {
    var steps := NestedSpec(n).steps;
    assert steps[0].id == n.b && steps[1].id == n.c && steps[2].id == n.d && steps[3].id == n.e;
  }

  lemma {:induction false} NestedNeeds(n: Names)
    requires n.Distinct()
    ensures forall g :: g in NestedSpec(n).gateways ==> GatewayNeeds(NestedSpec(n), g) == if g.id == n.outer then {}
      else {n.c}
  {
    assert NestedSpec(n).steps[2] in NestedSpec(n).steps;
  }

  lemma {:induction false} NestedIsSaved(n: Names)
    requires n.Distinct()
    ensures ValidSpec(NestedSpec(n)) && CrossReferenced(NestedSpec(n))
  {
    NestedIds(n);
  }

  lemma {:induction false} NestedIsAcyclic(n: Names)
    requires n.Distinct()
    ensures Acyclic(WaitEdges(NestedSpec(n)))
  {
    NestedNeeds(n);
    var rank := (x: StepId) => if x == n.b then 0 else if x == n.c then 1 else 2;
    RankedMeansAcyclic(WaitEdges(NestedSpec(n)), rank);
  }

  lemma {:induction false} NestedDecides(n: Names, gate: GatewayId -> bool)
    requires n.Distinct() && gate(n.outer)
    ensures DecideAll(NestedSpec(n), NestedSpec(n).gateways, State(map[], map[]), gate) ==
      State(map[n.b := Skipped], map[n.outer := true])
  {
    NestedNeeds(n);
    var spec, s0 := NestedSpec(n), State(map[], map[]);
    var outer, inner := spec.gateways[0], spec.gateways[1];
    var s1 := State(map[n.b := Skipped], map[n.outer := true]);
    assert spec.gateways[..1] == [outer] && [outer][..0] == [];
    assert CanDecide(spec, outer, s0);
    assert SkipAll(s0.status, {n.b}) == s1.status;
    assert DecideAll(spec, [outer], s0, gate) == s1;
    assert n.c in GatewayNeeds(spec, inner) && !CanDecide(spec, inner, s1);
  }

  /** The property "acyclic waits-for implies completion" fails without the nesting condition: when `outer`
      decides true, the cascade skips c after `inner` was looked at, and the round ends with e unsatisfiable. */
  lemma {:induction false} NestedGatewayDeadlocks(w: World, n: Names)
    requires n.Distinct() && w.gate(0, n.outer)
    ensures
      var spec := NestedSpec(n);
      && ValidSpec(spec) && CrossReferenced(spec) && Acyclic(WaitEdges(spec))
      && Reached(spec, w, map[], [], 0, NestedEnd(n))
      && Runnable(spec, spec.steps, NestedEnd(n)) == []
      && Pending(spec, NestedEnd(n).status) == {n.e}
  {
    NestedIsSaved(n);
    NestedIsAcyclic(n);
    NestedDecides(n, Gate(w, 0));
    NestedCascade(n, map[n.b := Skipped]);
    NestedStuck(n);
  }

  lemma {:induction false} NestedCascade(n: Names, status: Statuses)
    requires n.Distinct() && status == map[n.b := Skipped]
    ensures IsCascade(NestedSpec(n), status, NestedEnd(n).status)
  {
    var spec, next := NestedSpec(n), NestedEnd(n).status;
    NestedIds(n);
    assert With(next, Skipped) == {n.b, n.c, n.d};
    assert next == SkipAll(status, {n.b, n.c, n.d});
    forall X: set<StepId> | With(status, Skipped) <= X && AbsorbsDependents(spec, status, X)
      ensures With(next, Skipped) <= X {
      assert n.b in With(status, Skipped);
      assert spec.steps[1] in spec.steps && n.b in spec.steps[1].needs * X;
      assert n.c in X;
      assert spec.steps[2] in spec.steps && n.c in spec.steps[2].needs * X;
    }
  }

  lemma {:induction false} NestedStuck(n: Names)
    requires n.Distinct()
    ensures Runnable(NestedSpec(n), NestedSpec(n).steps, NestedEnd(n)) == []
    ensures Pending(NestedSpec(n), NestedEnd(n).status) == {n.e}
  {
    var spec, ready := NestedSpec(n), NestedEnd(n);
    NestedBlocks(n);
    forall s | s in spec.steps ensures !IsRunnable(spec, s, ready) {
      assert s.id == n.e || Is(ready.status, s.id, Skipped);
    }
    NoneRunnable(spec, spec.steps, ready);
    assert spec.steps[3] in spec.steps;
  }

  lemma {:induction false} NestedBlocks(n: Names)
    requires n.Distinct()
    ensures Blocked(NestedSpec(n), n.e, NestedEnd(n).decided)
  {
    var g := NestedSpec(n).gateways[1];
    assert g in NestedSpec(n).gateways && g.xor && n.e in g.Arms() && g.id !in NestedEnd(n).decided;
  }

  lemma {:induction false} NoneRunnable(spec: Spec, steps: seq<Step>, st: State)
    requires forall s :: s in steps ==> !IsRunnable(spec, s, st)
    ensures Runnable(spec, steps, st) == []
  {
    if steps != [] {
      NoneRunnable(spec, steps[..|steps| - 1], st);
    }
  }
}
