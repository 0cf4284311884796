/** What every run of a scenario keeps, whatever its gateways decide and its steps answer. */
module ScenarioProofs {
  import opened Common
  import opened Scenario

  // ---- Small facts about one round ----

  lemma {:induction false} RunnableMeaning(spec: Spec, steps: seq<Step>, st: State)
    requires forall i, j :: 0 <= i < j < |steps| ==> steps[i].id != steps[j].id
    ensures forall s :: s in steps && IsRunnable(spec, s, st) ==> s.id in Runnable(spec, steps, st)
    ensures forall x :: x in Runnable(spec, steps, st) ==>
      exists s :: s in steps && s.id == x && IsRunnable(spec, s, st)
    ensures Distinct(Runnable(spec, steps, st))
  {
    if steps != [] {
      var front, last := steps[..|steps| - 1], steps[|steps| - 1];
      RunnableMeaning(spec, front, st);
      assert forall s :: s in steps <==> s in front || s == last;
      assert forall s :: s in front ==> s.id != last.id;
      assert last.id !in Runnable(spec, front, st);
    }
  }

  lemma {:induction false} FinishMeaning(w: World, k: nat, status: Statuses, batch: seq<StepId>)
    ensures forall s :: s in batch ==> Is(Finish(w, k, status, batch), s, w.outcome(k, s))
    ensures forall s, st :: s !in batch ==> Is(Finish(w, k, status, batch), s, st) == Is(status, s, st)
  {
    if batch != [] {
      FinishMeaning(w, k, status, batch[..|batch| - 1]);
    }
  }

  /** Deciding gateways and cascading skips leave terminal statuses alone and add only skips. */
  ghost predicate OnlySkips(a: Statuses, b: Statuses) {
    && (forall s :: Terminal(a, s) ==> s in b && b[s] == a[s])
    && (forall s :: s in b && !Terminal(a, s) ==> (s in a && b[s] == Running) || b[s] == Skipped)
  }

  lemma {:induction false} DecideAllOnlySkips(spec: Spec, gs: seq<Gateway>, s: State, gate: GatewayId -> bool)
    ensures OnlySkips(s.status, DecideAll(spec, gs, s, gate).status)
    ensures forall d :: d in s.decided ==>
      d in DecideAll(spec, gs, s, gate).decided && DecideAll(spec, gs, s, gate).decided[d] == s.decided[d]
  {
    if gs != [] {
      DecideAllOnlySkips(spec, gs[..|gs| - 1], s, gate);
    }
  }

  lemma {:induction false} ReadyOnlySkips(spec: Spec, gate: GatewayId -> bool, before: State, ready: State)
    requires IsReady(spec, gate, before, ready)
    ensures OnlySkips(before.status, ready.status)
    ensures forall d :: d in before.decided ==> d in ready.decided && ready.decided[d] == before.decided[d]
  {
    DecideAllOnlySkips(spec, spec.gateways, before, gate);
    var mid := DecideAll(spec, spec.gateways, before, gate);
    assert OnlySkips(mid.status, ready.status);
  }

  // ---- Every run: progress ----

  predicate Settled(status: Statuses, s: StepId) {
    Is(status, s, Succeeded) || Is(status, s, Skipped)
  }

  function Open(spec: Spec, status: Statuses): set<StepId> {
    set s | s in spec.steps && !Settled(status, s.id) :: s.id
  }

  /** One fully successful round settles its batch and unsettles nothing. */
  lemma {:induction false} RoundProgress(spec: Spec, w: World, k: nat, r: Round, next: State)
    requires ValidSpec(spec) && ValidRound(spec, w, k, r) && AllSucceed(w, k, r.batch)
    requires IsReady(spec, Gate(w, k + 1), After(w, k, r), next)
    ensures forall s :: Settled(r.ready.status, s) ==> Settled(next.status, s)
    ensures forall s :: s in r.batch ==> Is(next.status, s, Succeeded)
    ensures forall s :: Is(r.ready.status, s, Succeeded) ==> Is(next.status, s, Succeeded)
    ensures forall s :: Is(next.status, s, Succeeded) ==> s in r.batch || Is(r.ready.status, s, Succeeded)
    ensures Open(spec, next.status) < Open(spec, r.ready.status)
  {
    RunnableMeaning(spec, spec.steps, r.ready);
    FinishMeaning(w, k, r.ready.status, r.batch);
    ReadyOnlySkips(spec, Gate(w, k + 1), After(w, k, r), next);
    forall s | Settled(r.ready.status, s) ensures Settled(next.status, s) {
      assert s !in r.batch;
    }
    forall s | Is(r.ready.status, s, Succeeded) ensures Is(next.status, s, Succeeded) {
      assert s !in r.batch;
    }
    forall s | s in r.batch ensures Is(next.status, s, Succeeded) {
      var i :| 0 <= i < |r.batch| && r.batch[i] == s;
      assert w.outcome(k, r.batch[i]) == Succeeded;
    }
    assert Open(spec, next.status) <= Open(spec, r.ready.status);
    assert r.batch[0] in Open(spec, r.ready.status);
  }

  /** The state a run reaches in round k: a dispatch, or the round in which it ends. */
  ghost predicate Reached(spec: Spec, w: World, status: Statuses, h: seq<Round>, k: nat, ready: State) {
    && k <= |h|
    && (if k < |h| then ready == h[k].ready
        else
          (h == [] || AllSucceed(w, |h| - 1, h[|h| - 1].batch)) &&
          IsReady(spec, Gate(w, k), HeadState(w, status, h, k), ready))
  }

  lemma {:induction false} ReachedIsReady(spec: Spec, w: World, status: Statuses, h: seq<Round>, k: nat, ready: State)
    requires ValidHistory(spec, w, status, h) && Reached(spec, w, status, h, k, ready)
    ensures IsReady(spec, Gate(w, k), HeadState(w, status, h, k), ready)
    ensures k > 0 ==> AllSucceed(w, k - 1, h[k - 1].batch) && HeadState(w, status, h, k) == After(w, k - 1, h[k - 1])
    ensures k > 0 ==> ValidRound(spec, w, k - 1, h[k - 1])
  {
    if k < |h| {
      assert RoundOk(spec, w, status, h, k);
    }
    if k > 0 {
      assert RoundOk(spec, w, status, h, k - 1);
    }
  }

  lemma {:induction false} StaysSettled(spec: Spec, w: World, status: Statuses, h: seq<Round>, i: nat, k: nat,
      ready: State)
    requires ValidSpec(spec) && ValidHistory(spec, w, status, h) && i < k && Reached(spec, w, status, h, k, ready)
    ensures forall s :: Settled(h[i].ready.status, s) ==> Settled(ready.status, s)
    ensures forall s :: Is(h[i].ready.status, s, Succeeded) ==> Is(ready.status, s, Succeeded)
    ensures forall s :: s in h[i].batch ==> Is(ready.status, s, Succeeded)
    ensures |Open(spec, ready.status)| + (k - i) <= |Open(spec, h[i].ready.status)|
    decreases k - i
  {
    ReachedIsReady(spec, w, status, h, k, ready);
    RoundProgress(spec, w, k - 1, h[k - 1], ready);
    SmallerSet(Open(spec, ready.status), Open(spec, h[k - 1].ready.status));
    if i < k - 1 {
      StaysSettled(spec, w, status, h, i, k - 1, h[k - 1].ready);
    }
  }

  lemma {:induction false} OpenBound(spec: Spec, steps: seq<Step>, status: Statuses)
    requires steps <= spec.steps
    ensures |set s | s in steps && !Settled(status, s.id) :: s.id| <= |steps|
  {
    var ids := set s | s in steps && !Settled(status, s.id) :: s.id;
    if steps == [] {
      assert ids == {};
    } else {
      var front, last := steps[..|steps| - 1], steps[|steps| - 1];
      OpenBound(spec, front, status);
      var ids' := set s | s in front && !Settled(status, s.id) :: s.id;
      assert ids <= ids' + {last.id};
      SubsetSize(ids, ids' + {last.id});
    }
  }

  /** Any run, fresh or resumed: at most one batch per step, fewer open steps at every dispatch, no step in two
      batches or twice in one, and every requirement of a dispatched step already succeeded. */
  lemma {:induction false} RunsMakeProgress(spec: Spec, w: World, status: Statuses, h: seq<Round>)
    requires ValidSpec(spec) && ValidHistory(spec, w, status, h)
    ensures |h| <= |spec.steps|
    ensures forall i, k :: 0 <= i < k < |h| ==> |Open(spec, h[k].ready.status)| < |Open(spec, h[i].ready.status)|
    ensures forall i, k, s :: 0 <= i < k < |h| && s in h[i].batch ==> s !in h[k].batch
    ensures forall k, i, j :: 0 <= k < |h| && 0 <= i < j < |h[k].batch| ==> h[k].batch[i] != h[k].batch[j]
    ensures forall k, s :: 0 <= k < |h| && s in spec.steps && s.id in h[k].batch ==>
              forall r :: r in s.needs ==> Is(h[k].ready.status, r, Succeeded)
  {
    forall k | 0 <= k < |h|
      ensures h[k].batch == Runnable(spec, spec.steps, h[k].ready) && h[k].batch != []
    {
      assert RoundOk(spec, w, status, h, k);
    }
    forall k | 0 <= k < |h|
      ensures Distinct(h[k].batch)
      ensures forall x :: x in h[k].batch ==>
        exists s :: s in spec.steps && s.id == x && IsRunnable(spec, s, h[k].ready)
    {
      RunnableMeaning(spec, spec.steps, h[k].ready);
    }
    forall i, k | 0 <= i < k < |h|
      ensures |Open(spec, h[k].ready.status)| + (k - i) <= |Open(spec, h[i].ready.status)|
      ensures forall s :: s in h[i].batch ==> s !in h[k].batch
    {
      StaysSettled(spec, w, status, h, i, k, h[k].ready);
    }
    forall k, s | 0 <= k < |h| && s in spec.steps && s.id in h[k].batch
      ensures forall r :: r in s.needs ==> Is(h[k].ready.status, r, Succeeded)
    {
      UniqueStep(spec, s.id);
    }
    if h != [] {
      var n := |h| - 1;
      OpenBound(spec, spec.steps, h[0].ready.status);
      var x := h[n].batch[0];
      assert x in h[n].batch;
      assert x in Open(spec, h[n].ready.status);
      SubsetSize({x}, Open(spec, h[n].ready.status));
      assert |Open(spec, h[n].ready.status)| + n <= |Open(spec, h[0].ready.status)| by {
        if 0 < n {
          StaysSettled(spec, w, status, h, 0, n, h[n].ready);
        }
      }
    }
  }

  lemma {:induction false} UniqueStep(spec: Spec, id: StepId)
    requires ValidSpec(spec)
    ensures forall s, t :: s in spec.steps && t in spec.steps && s.id == id && t.id == id ==> s == t
  {
  }

  // ---- Fresh runs: gateways and skips ----

  function LosingSoFar(spec: Spec, decided: Decisions): set<StepId> {
    set g, x | g in spec.gateways && g.xor && g.id in decided && x in g.Losing(decided[g.id]) :: x
  }

  predicate ClosedUnderRequires(spec: Spec, X: set<StepId>) {
    forall s :: s in spec.steps && s.needs * X != {} ==> s.id in X
  }

  /** L is the least set that contains `base` and every step requiring one of its members. */
  ghost predicate IsLeastClosure(spec: Spec, base: set<StepId>, L: set<StepId>) {
    base <= L && ClosedUnderRequires(spec, L) &&
    forall X: set<StepId> :: base <= X && ClosedUnderRequires(spec, X) ==> L <= X
  }

  /** What holds at the head of every round of a fresh run, and after each gateway. */
  ghost predicate FreshHead(spec: Spec, s: State) {
    && (forall x :: x in s.status ==> s.status[x] == Succeeded || s.status[x] == Skipped)
    && (forall x :: Is(s.status, x, Succeeded) ==> x in StepIds(spec))
    && (forall t :: t in spec.steps && Is(s.status, t.id, Succeeded) ==> forall r :: r in t.needs ==>
      Is(s.status, r, Succeeded))
    && (forall g, x :: g in spec.gateways && g.xor && x in g.Arms() && Is(s.status, x, Succeeded) ==>
          g.id in s.decided && x !in g.Losing(s.decided[g.id]))
    && LosingSoFar(spec, s.decided) <= With(s.status, Skipped)
    && (forall X: set<StepId> :: LosingSoFar(spec, s.decided) <= X && ClosedUnderRequires(spec, X) ==>
      With(s.status, Skipped) <= X)
  }

  lemma {:induction false} LosingGrows(spec: Spec, g: Gateway, decided: Decisions, d: bool)
    requires ValidSpec(spec) && g in spec.gateways && g.xor && g.id !in decided
    ensures LosingSoFar(spec, decided[g.id := d]) == LosingSoFar(spec, decided) + g.Losing(d)
  {
    var decided' := decided[g.id := d];
    assert forall g' :: g' in spec.gateways && g'.id in decided ==> decided'[g'.id] == decided[g'.id];
    forall x | x in LosingSoFar(spec, decided') ensures x in LosingSoFar(spec, decided) + g.Losing(d) {
      var g' :| g' in spec.gateways && g'.xor && g'.id in decided' && x in g'.Losing(decided'[g'.id]);
      if g'.id == g.id {
        assert g' == g;
      }
    }
    forall x | x in g.Losing(d) ensures x in LosingSoFar(spec, decided') {
      assert decided'[g.id] == d;
    }
  }

  lemma {:induction false} DecideKeeps(spec: Spec, g: Gateway, s: State, gate: GatewayId -> bool)
    requires ValidSpec(spec) && g in spec.gateways && FreshHead(spec, s)
    ensures FreshHead(spec, Decide(spec, g, s, gate))
  {
    if CanDecide(spec, g, s) {
      var d := gate(g.id);
      var s' := Decide(spec, g, s, gate);
      assert forall g' :: g' in spec.gateways && g' != g ==> g'.id != g.id;
      assert forall x :: x in g.Losing(d) ==> x in g.Arms() && !Is(s.status, x, Succeeded);
      assert forall x :: Is(s'.status, x, Succeeded) <==> Is(s.status, x, Succeeded);
      assert With(s'.status, Skipped) == With(s.status, Skipped) + g.Losing(d);
      LosingGrows(spec, g, s.decided, d);
    }
  }

  lemma {:induction false} DecideAllKeeps(spec: Spec, gs: seq<Gateway>, s: State, gate: GatewayId -> bool)
    requires ValidSpec(spec) && (forall g :: g in gs ==> g in spec.gateways) && FreshHead(spec, s)
    ensures FreshHead(spec, DecideAll(spec, gs, s, gate))
  {
    if gs != [] {
      DecideAllKeeps(spec, gs[..|gs| - 1], s, gate);
      DecideKeeps(spec, gs[|gs| - 1], DecideAll(spec, gs[..|gs| - 1], s, gate), gate);
    }
  }

  lemma {:induction false} CascadeKeeps(spec: Spec, s: State, next: Statuses)
    requires FreshHead(spec, s) && IsCascade(spec, s.status, next)
    ensures FreshHead(spec, State(next, s.decided))
    ensures IsLeastClosure(spec, LosingSoFar(spec, s.decided), With(next, Skipped))
  {
    assert forall x :: Is(next, x, Succeeded) <==> Is(s.status, x, Succeeded);
    assert With(s.status, Skipped) <= With(next, Skipped);
    forall X: set<StepId> | LosingSoFar(spec, s.decided) <= X && ClosedUnderRequires(spec, X)
      ensures With(next, Skipped) <= X
    {
      assert AbsorbsDependents(spec, s.status, X);
    }
    forall t | t in spec.steps && t.needs * With(next, Skipped) != {}
      ensures t.id in With(next, Skipped)
    {
      var r :| r in t.needs * With(next, Skipped);
      assert Is(next, r, Skipped);
    }
  }

  lemma {:induction false} ReadyKeeps(spec: Spec, gate: GatewayId -> bool, before: State, ready: State)
    requires ValidSpec(spec) && FreshHead(spec, before) && IsReady(spec, gate, before, ready)
    ensures FreshHead(spec, ready)
    ensures IsLeastClosure(spec, LosingSoFar(spec, ready.decided), With(ready.status, Skipped))
  {
    DecideAllKeeps(spec, spec.gateways, before, gate);
    CascadeKeeps(spec, DecideAll(spec, spec.gateways, before, gate), ready.status);
  }

  lemma {:induction false} BatchKeeps(spec: Spec, w: World, k: nat, r: Round)
    requires ValidSpec(spec) && ValidRound(spec, w, k, r) && AllSucceed(w, k, r.batch) && FreshHead(spec, r.ready)
    ensures FreshHead(spec, After(w, k, r))
  {
    var s := After(w, k, r);
    RunnableMeaning(spec, spec.steps, r.ready);
    FinishMeaning(w, k, r.ready.status, r.batch);
    forall x | x in r.batch ensures Is(s.status, x, Succeeded) && x in StepIds(spec) &&
      !Is(r.ready.status, x, Skipped) {
      var i :| 0 <= i < |r.batch| && r.batch[i] == x;
      assert w.outcome(k, r.batch[i]) == Succeeded;
    }
    forall x | x in s.status ensures s.status[x] == Succeeded || s.status[x] == Skipped {
      if x !in r.batch {
        assert Is(s.status, x, s.status[x]);
      }
    }
    forall t | t in spec.steps && Is(s.status, t.id, Succeeded)
      ensures forall q :: q in t.needs ==> Is(s.status, q, Succeeded) {
      UniqueStep(spec, t.id);
    }
    forall g, x | g in spec.gateways && g.xor && x in g.Arms() && Is(s.status, x, Succeeded)
      ensures g.id in s.decided && x !in g.Losing(s.decided[g.id])
    {
      if x in r.batch {
        assert !Blocked(spec, x, r.ready.decided);
      }
    }
    forall x ensures x in With(s.status, Skipped) <==> x in With(r.ready.status, Skipped) {
      assert Is(s.status, x, Skipped) <==> Is(r.ready.status, x, Skipped);
    }
  }

  lemma {:induction false} FreshStart(spec: Spec)
    ensures FreshHead(spec, State(map[], map[]))
  {
    assert LosingSoFar(spec, map[]) == {};
  }

  lemma {:induction false} FreshInvariant(spec: Spec, w: World, h: seq<Round>, k: nat, ready: State)
    requires ValidSpec(spec) && ValidHistory(spec, w, map[], h) && Reached(spec, w, map[], h, k, ready)
    ensures FreshHead(spec, HeadState(w, map[], h, k)) && FreshHead(spec, ready)
    ensures IsLeastClosure(spec, LosingSoFar(spec, ready.decided), With(ready.status, Skipped))
    decreases k
  {
    ReachedIsReady(spec, w, map[], h, k, ready);
    if k == 0 {
      FreshStart(spec);
    } else {
      FreshInvariant(spec, w, h, k - 1, h[k - 1].ready);
      BatchKeeps(spec, w, k - 1, h[k - 1]);
    }
    ReadyKeeps(spec, Gate(w, k), HeadState(w, map[], h, k), ready);
  }

  /** In a fresh run, whenever a batch is dispatched (and in the final round), the skipped steps are exactly the
      least set containing the losing arms so far and closed under requirements. */
  lemma {:induction false} SkipsAreLeastClosure(spec: Spec, w: World, h: seq<Round>, k: nat, ready: State)
    requires ValidSpec(spec) && ValidHistory(spec, w, map[], h) && Reached(spec, w, map[], h, k, ready)
    ensures IsLeastClosure(spec, LosingSoFar(spec, ready.decided), With(ready.status, Skipped))
  {
    FreshInvariant(spec, w, h, k, ready);
  }

  lemma {:induction false} DecisionsPersist(spec: Spec, w: World, status: Statuses, h: seq<Round>, i: nat, k: nat,
      ready: State)
    requires ValidHistory(spec, w, status, h) && i < |h| && i <= k && Reached(spec, w, status, h, k, ready)
    ensures LosingSoFar(spec, h[i].ready.decided) <= LosingSoFar(spec, ready.decided)
    decreases k - i
  {
    if i < k {
      ReachedIsReady(spec, w, status, h, k, ready);
      ReadyOnlySkips(spec, Gate(w, k), HeadState(w, status, h, k), ready);
      DecisionsPersist(spec, w, status, h, i, k - 1, h[k - 1].ready);
    }
  }

  /** In a fresh run no dispatched step is in an arm that has lost or will lose. */
  lemma {:induction false} XorExclusive(spec: Spec, w: World, h: seq<Round>, i: nat, k: nat, ready: State)
    requires ValidSpec(spec) && ValidHistory(spec, w, map[], h) && i < |h| && Reached(spec, w, map[], h, k, ready)
    ensures forall s :: s in h[i].batch ==> s !in LosingSoFar(spec, ready.decided)
  {
    assert RoundOk(spec, w, map[], h, i);
    RunnableMeaning(spec, spec.steps, h[i].ready);
    FreshInvariant(spec, w, h, i, h[i].ready);
    if k <= i {
      DecisionsPersist(spec, w, map[], h, k, i, h[i].ready);
    } else {
      FreshInvariant(spec, w, h, k, ready);
      StaysSettled(spec, w, map[], h, i, k, ready);
    }
  }

  // ---- When gateways are decided ----

  /** Every decided gateway has all its requirements finished. */
  ghost predicate DecidedInTime(spec: Spec, s: State) {
    forall g, r :: g in spec.gateways && g.id in s.decided && r in GatewayNeeds(spec, g) ==> Terminal(s.status, r)
  }

  lemma {:induction false} DecideStaysInTime(spec: Spec, gs: seq<Gateway>, s: State, gate: GatewayId -> bool)
    requires ValidSpec(spec) && (forall g :: g in gs ==> g in spec.gateways) && DecidedInTime(spec, s)
    ensures DecidedInTime(spec, DecideAll(spec, gs, s, gate))
  {
    if gs != [] {
      var front, g := gs[..|gs| - 1], gs[|gs| - 1];
      DecideStaysInTime(spec, front, s, gate);
      var mid := DecideAll(spec, front, s, gate);
      assert g in gs && g in spec.gateways;
      if CanDecide(spec, g, mid) {
        assert forall g' :: g' in spec.gateways && g' != g ==> g'.id != g.id;
        var next := Decide(spec, g, mid, gate);
        assert forall x :: Terminal(mid.status, x) ==> Terminal(next.status, x);
        forall g', r | g' in spec.gateways && g'.id in next.decided && r in GatewayNeeds(spec, g')
          ensures Terminal(next.status, r)
        {
          if g' == g {
            assert Terminal(mid.status, r);
          }
        }
      }
    }
  }

  lemma {:induction false} BatchStaysInTime(spec: Spec, w: World, k: nat, r: Round)
    requires DecidedInTime(spec, r.ready)
    ensures DecidedInTime(spec, After(w, k, r))
  {
    FinishMeaning(w, k, r.ready.status, r.batch);
    forall x | Terminal(r.ready.status, x) ensures Terminal(After(w, k, r).status, x) {
      assert x in r.batch ==> Is(After(w, k, r).status, x, w.outcome(k, x));
      var st := r.ready.status[x];
      assert x !in r.batch ==> Is(After(w, k, r).status, x, st) == Is(r.ready.status, x, st);
    }
  }

  /** In any run, a gateway is decided only once everything its arms require is terminal. */
  lemma {:induction false} GatewaysDecideInTime(spec: Spec, w: World, status: Statuses, h: seq<Round>, k: nat,
      ready: State)
    requires ValidSpec(spec) && ValidHistory(spec, w, status, h) && Reached(spec, w, status, h, k, ready)
    ensures DecidedInTime(spec, ready)
    decreases k
  {
    ReachedIsReady(spec, w, status, h, k, ready);
    if k > 0 {
      GatewaysDecideInTime(spec, w, status, h, k - 1, h[k - 1].ready);
      BatchStaysInTime(spec, w, k - 1, h[k - 1]);
    }
    var head := HeadState(w, status, h, k);
    DecideStaysInTime(spec, spec.gateways, head, Gate(w, k));
    var mid := DecideAll(spec, spec.gateways, head, Gate(w, k));
    assert forall x :: Terminal(mid.status, x) ==> Terminal(ready.status, x);
  }

  // ---- How runs end ----

  /** No row left behind by an earlier run as failed, timed out, dead or in manual intervention. */
  predicate NoFailedRows(status: Statuses) {
    forall s :: s in status ==> status[s] in {Running, Succeeded, Skipped}
  }

  lemma {:induction false} StaysFreeOfFailures(spec: Spec, w: World, status: Statuses, h: seq<Round>, k: nat,
      ready: State)
    requires ValidSpec(spec) && ValidHistory(spec, w, status, h) && Reached(spec, w, status, h, k, ready) &&
      NoFailedRows(status)
    ensures NoFailedRows(ready.status)
    decreases k
  {
    ReachedIsReady(spec, w, status, h, k, ready);
    ReadyOnlySkips(spec, Gate(w, k), HeadState(w, status, h, k), ready);
    if k > 0 {
      StaysFreeOfFailures(spec, w, status, h, k - 1, h[k - 1].ready);
      FinishMeaning(w, k - 1, h[k - 1].ready.status, h[k - 1].batch);
      forall s | s in HeadState(w, status, h, k).status
        ensures HeadState(w, status, h, k).status[s] in {Running, Succeeded, Skipped} {
        var st := HeadState(w, status, h, k).status[s];
        assert Is(HeadState(w, status, h, k).status, s, st);
        if s in h[k - 1].batch {
          var i :| 0 <= i < |h[k - 1].batch| && h[k - 1].batch[i] == s;
        }
      }
    }
  }

  /** A run that finds no failed rows (a fresh run in particular) and ends with nothing pending has settled every
      step: succeeded or skipped. */
  lemma {:induction false} CompletedMeansSettled(spec: Spec, w: World, status: Statuses, h: seq<Round>, ready: State)
    requires ValidSpec(spec) && ValidHistory(spec, w, status, h) && Reached(spec, w, status, h, |h|, ready)
    requires NoFailedRows(status) && Pending(spec, ready.status) == {}
    ensures forall s :: s in spec.steps ==> Settled(ready.status, s.id)
  {
    StaysFreeOfFailures(spec, w, status, h, |h|, ready);
    forall s | s in spec.steps ensures Settled(ready.status, s.id) {
      assert s.id !in Pending(spec, ready.status);
    }
  }
}
