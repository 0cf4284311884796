/** The scenario runner as it executes: one instance, its step rows and the loop that drives them. */
module ScenarioRunner {
  import opened Common
  import opened Scenario
  import opened ScenarioProofs

  // ---- The step-row writes of the instance store ----

  datatype Write = Started(step: StepId) | Finished(step: StepId, status: Status)

  function Apply(rows: Statuses, wr: Write): Statuses {
    match wr
    case Started(s) => rows[s := Running]
    case Finished(s, st) => rows[s := st]
  }

  function Replay(rows: Statuses, log: seq<Write>): Statuses {
    if log == [] then rows else Apply(Replay(rows, log[..|log| - 1]), log[|log| - 1])
  }

  /** No write touches a row that is already succeeded. */
  ghost predicate NoRewrite(rows: Statuses, log: seq<Write>) {
    log == [] || (NoRewrite(rows, log[..|log| - 1]) &&
      !Is(Replay(rows, log[..|log| - 1]), log[|log| - 1].step, Succeeded))
  }

  /** The steps started by a sequence of writes, in order. */
  function Starts(log: seq<Write>): seq<StepId> {
    if log == [] then [] else
      Starts(log[..|log| - 1]) + match log[|log| - 1] case Started(s) => [s] case Finished(_, _) => []
  }

  /** What a run remembers of the rows it finds: a resumed run forgets succeeded assess steps. */
  function StartStatus(spec: Spec, rows: Statuses, resume: bool): Statuses {
    map s | s in rows && !(resume && rows[s] == Succeeded && IsAssess(spec, s)) :: rows[s]
  }

  predicate IsAssess(spec: Spec, id: StepId) {
    exists s :: s in spec.steps && s.id == id && s.assess
  }

  datatype Instance =
    | Active
    | Terminated
    | Completed
    | Unsatisfiable(pending: set<StepId>)
    | StoppedAt(step: StepId, status: Status)
    | Compensated(actions: seq<string>)
    | DeadlineExceeded

  // ---- Failures of a batch ----

  function Flat(h: seq<Round>): seq<StepId> {
    if h == [] then [] else Flat(h[..|h| - 1]) + h[|h| - 1].order
  }

  /** The compensating actions of the failed steps of a batch, first occurrences only. */
  function Compensations(w: World, k: nat, comp: map<StepId, string>, batch: seq<StepId>): seq<string> {
    if batch == [] then [] else
      var prev, s := Compensations(w, k, comp, batch[..|batch| - 1]), batch[|batch| - 1];
      if w.outcome(k, s) != Succeeded && s in comp && comp[s] !in prev then prev + [comp[s]] else prev
  }

  /** The compensating action of a step that did not succeed. */
  function CompensationOf(comp: map<StepId, string>, s: StepId, st: Status): Option<string> {
    if st != Succeeded && s in comp then Some(comp[s]) else None
  }

  ghost predicate FirstFailure(w: World, k: nat, batch: seq<StepId>, s: StepId) {
    exists i :: 0 <= i < |batch| && batch[i] == s && w.outcome(k, s) != Succeeded &&
                forall j :: 0 <= j < i ==> w.outcome(k, batch[j]) == Succeeded
  }

  /** Why a run stopped after the dispatches h; `ready` is the state of its last, dispatch-less round. */
  ghost predicate EndsBecause(spec: Spec, w: World, comp: map<StepId, string>, status: Statuses, h: seq<Round>,
      ready: State, inst: Instance) {
    match inst
    case Active => false
    case Terminated => w.terminated(|h|)
    case DeadlineExceeded => !w.terminated(|h|) && w.late(|h|) && Reached(spec, w, status, h, |h|, ready)
    case Completed => Exhausted(spec, w, status, h, ready) && Pending(spec, ready.status) == {}
    case Unsatisfiable(pending) => Exhausted(spec, w, status, h, ready) && pending == Pending(spec, ready.status) != {}
    case StoppedAt(s, st) =>
      h != [] && var k := |h| - 1;
      FirstFailure(w, k, h[k].batch, s) && st == w.outcome(k, s) && Compensations(w, k, comp, h[k].batch) == []
    case Compensated(actions) =>
      h != [] && var k := |h| - 1;
      !AllSucceed(w, k, h[k].batch) && actions == Compensations(w, k, comp, h[k].batch) != []
  }

  /** The last round was neither terminated nor late, and found nothing to run. */
  ghost predicate Exhausted(spec: Spec, w: World, status: Statuses, h: seq<Round>, ready: State) {
    !w.terminated(|h|) && !w.late(|h|) && Reached(spec, w, status, h, |h|, ready) &&
      Runnable(spec, spec.steps, ready) == []
  }

  /** What the run believes of the steps when it ends. */
  function FinalView(spec: Spec, w: World, status: Statuses, h: seq<Round>, ready: State, inst: Instance): Statuses {
    match inst
    case Completed => ready.status
    case Unsatisfiable(_) => ready.status
    case DeadlineExceeded => AfterTimeout(spec, w, |h|, ready.status)
    case _ => HeadState(w, status, h, |h|).status
  }

  lemma {:induction false} Snoc(rows: Statuses, log: seq<Write>, wr: Write)
    ensures Replay(rows, log + [wr]) == Apply(Replay(rows, log), wr)
    ensures Starts(log + [wr]) == Starts(log) + match wr case Started(s) => [s] case Finished(_, _) => []
    ensures NoRewrite(rows, log + [wr]) <==> NoRewrite(rows, log) && !Is(Replay(rows, log), wr.step, Succeeded)
  {
    assert (log + [wr])[..|log|] == log;
  }

  lemma {:induction false} SkipNone(status: Statuses)
    ensures SkipAll(status, {}) == status
  {
  }

  lemma {:induction false} SkipOneMore(status: Statuses, done: set<StepId>, sid: StepId)
    requires sid !in done
    ensures SkipAll(status, done + {sid}) ==
            if Terminal(SkipAll(status, done), sid) then SkipAll(status, done)
              else SkipAll(status, done)[sid := Skipped]
  {
  }

  /** Exactly the compensating actions of the steps that did not succeed, each once. */
  lemma {:induction false} CompensationsMeaning(w: World, k: nat, comp: map<StepId, string>, batch: seq<StepId>)
    ensures Distinct(Compensations(w, k, comp, batch))
    ensures forall c :: c in Compensations(w, k, comp, batch) <==>
      exists s :: s in batch && w.outcome(k, s) != Succeeded && s in comp && comp[s] == c
  {
    if batch != [] {
      CompensationsMeaning(w, k, comp, batch[..|batch| - 1]);
      assert forall s :: s in batch <==> s in batch[..|batch| - 1] || s == batch[|batch| - 1];
    }
  }

  /** `stop` is the first failure of a batch, if it has one. */
  ghost predicate StopsAt(w: World, k: nat, batch: seq<StepId>, stop: Option<StepId>) {
    if stop.None? then AllSucceed(w, k, batch) else FirstFailure(w, k, batch, stop.value)
  }

  lemma {:induction false} StopsSnoc(w: World, k: nat, batch: seq<StepId>, id: StepId, stop: Option<StepId>)
    requires StopsAt(w, k, batch, stop)
    ensures StopsAt(w, k, batch + [id], if stop.None? && w.outcome(k, id) != Succeeded then Some(id) else stop)
  {
    if stop.None? {
      assert (batch + [id])[|batch|] == id;
    } else {
      var i :| 0 <= i < |batch| && batch[i] == stop.value && forall j :: 0 <= j < i ==>
        w.outcome(k, batch[j]) == Succeeded;
      assert (batch + [id])[i] == stop.value;
    }
  }

  lemma {:induction false} BatchSnoc(w: World, k: nat, comp: map<StepId, string>, before: Statuses, batch: seq<StepId>,
      i: nat)
    requires i < |batch|
    ensures Finish(w, k, before, batch[..i + 1]) == Finish(w, k, before, batch[..i])[batch[i] := w.outcome(k, batch[i])]
    ensures Compensations(w, k, comp, batch[..i + 1]) ==
      var prev, s := Compensations(w, k, comp, batch[..i]), batch[i];
      if w.outcome(k, s) != Succeeded && s in comp && comp[s] !in prev then prev + [comp[s]] else prev
    ensures batch[..i + 1] == batch[..i] + [batch[i]]
  {
    assert batch[..i + 1][..i] == batch[..i];
  }

  // ---- The concurrent steps of a batch ----

  /** The rows while a batch runs: steps of the batch no longer in `todo` have their outcome, those in `begun` are
      running,
      everything else is as before. */
  ghost predicate InFlight(w: World, k: nat, before: Statuses, batch: seq<StepId>, todo: seq<StepId>,
      begun: set<StepId>, view: Statuses) {
    && Distinct(todo) && (forall x :: x in todo ==> x in batch) && (forall x :: x in begun ==> x in todo)
    && forall x, st :: Is(view, x, st) <==> IsNow(w, k, before, batch, todo, begun, x, st)
  }

  ghost predicate IsNow(w: World, k: nat, before: Statuses, batch: seq<StepId>, todo: seq<StepId>, begun: set<StepId>,
      x: StepId, st: Status) {
    if x in batch && x !in todo then st == w.outcome(k, x) else if x in begun then st == Running else Is(before, x, st)
  }

  /** The steps started so far, in order. */
  ghost predicate StartedSoFar(started: seq<StepId>, batch: seq<StepId>, todo: seq<StepId>, begun: set<StepId>) {
    Distinct(started) && forall x :: x in started <==> x in batch && (x !in todo || x in begun)
  }

  function Without(todo: seq<StepId>, n: nat): seq<StepId>
    requires n < |todo|
  {
    todo[..n] + todo[n + 1..]
  }

  lemma {:induction false} WithoutMembers(todo: seq<StepId>, n: nat)
    requires n < |todo| && Distinct(todo)
    ensures Distinct(Without(todo, n)) && |Without(todo, n)| == |todo| - 1
    ensures forall x :: x in Without(todo, n) <==> x in todo && x != todo[n]
  {
    forall x | x in todo && x != todo[n] ensures x in Without(todo, n) {
      var i :| 0 <= i < |todo| && todo[i] == x;
      assert Without(todo, n)[if i < n then i else i - 1] == x;
    }
  }

  lemma {:induction false} Begins(w: World, k: nat, before: Statuses, batch: seq<StepId>, todo: seq<StepId>,
      begun: set<StepId>,
                                  view: Statuses, started: seq<StepId>, id: StepId)
    requires InFlight(w, k, before, batch, todo, begun, view) && StartedSoFar(started, batch, todo, begun)
    requires id in todo && id !in begun
    ensures InFlight(w, k, before, batch, todo, begun + {id}, view[id := Running])
    ensures StartedSoFar(started + [id], batch, todo, begun + {id})
  {
    forall x, st ensures Is(view[id := Running], x, st) <==> IsNow(w, k, before, batch, todo, begun + {id}, x, st) {
      assert Is(view, x, st) <==> IsNow(w, k, before, batch, todo, begun, x, st);
    }
  }

  lemma {:induction false} Ends(w: World, k: nat, before: Statuses, batch: seq<StepId>, todo: seq<StepId>,
      begun: set<StepId>,
                                view: Statuses, started: seq<StepId>, n: nat)
    requires InFlight(w, k, before, batch, todo, begun, view) && StartedSoFar(started, batch, todo, begun)
    requires n < |todo| && todo[n] in begun
    ensures InFlight(w, k, before, batch, Without(todo, n), begun - {todo[n]}, view[todo[n] := w.outcome(k, todo[n])])
    ensures StartedSoFar(started, batch, Without(todo, n), begun - {todo[n]})
  {
    WithoutMembers(todo, n);
    var id, rest := todo[n], Without(todo, n);
    forall x, st ensures Is(view[id := w.outcome(k, id)], x, st) <==>
      IsNow(w, k, before, batch, rest, begun - {id}, x, st) {
      assert Is(view, x, st) <==> IsNow(w, k, before, batch, todo, begun, x, st);
    }
  }

  /** When all have ended, the rows no longer tell in which order. */
  lemma {:induction false} AllEnded(w: World, k: nat, before: Statuses, batch: seq<StepId>, view: Statuses,
      started: seq<StepId>)
    requires InFlight(w, k, before, batch, [], {}, view) && StartedSoFar(started, batch, [], {})
    ensures view == Finish(w, k, before, batch) && IsOrder(started, batch)
  {
    FinishMeaning(w, k, before, batch);
    var done := Finish(w, k, before, batch);
    forall x, st ensures Is(view, x, st) <==> Is(done, x, st) {
      assert Is(view, x, st) <==> IsNow(w, k, before, batch, [], {}, x, st);
    }
    assert forall x :: x in view ==> Is(view, x, view[x]);
    assert forall x :: x in done ==> Is(done, x, done[x]);
  }

  class Runner {
    const spec: Spec
    /** step -> compensating action its action declares; assess steps have none */
    const compensation: map<StepId, string>
    var rows: Statuses
    var instance: Instance
    /** the step-row writes of the current run, in order */
    var log: seq<Write>

    constructor (spec: Spec, compensation: map<StepId, string>)
      ensures this.spec == spec && this.compensation == compensation
      ensures rows == map[] && log == [] && instance == Active
    {
      this.spec, this.compensation := spec, compensation;
      rows, log, instance := map[], [], Active;
    }

    /** A runner over rows that earlier runs of the instance left behind. */
    constructor OverRows(spec: Spec, compensation: map<StepId, string>, rows: Statuses)
      ensures this.spec == spec && this.compensation == compensation
      ensures this.rows == rows && log == [] && instance == Active
    {
      this.spec, this.compensation := spec, compensation;
      this.rows, log, instance := rows, [], Active;
    }

    /** Makes an instance that ended running again, unless it completed. */
    method Reopen() returns (ok: bool)
      modifies this`instance
      ensures ok <==> !old(instance).Active? && !old(instance).Completed?
      ensures instance == if ok then Active else old(instance)
    {
      ok := !instance.Active? && !instance.Completed?;
      if ok {
        instance := Active;
      }
    }

    /** The store rows, the run's own view of them and its writes agree, and no write touched a succeeded row. */
    ghost predicate Tracks(r0: Statuses, base: Statuses, status: Statuses)
      reads this
    {
      rows == Replay(r0, log) && status == Replay(base, log) && NoRewrite(base, log)
    }

    method Store(wr: Write, ghost r0: Statuses, ghost base: Statuses, ghost status: Statuses)
      requires Tracks(r0, base, status) && !Is(status, wr.step, Succeeded)
      modifies this`rows, this`log
      ensures Tracks(r0, base, Apply(status, wr))
      ensures log == old(log) + [wr]
      ensures Starts(log) == Starts(old(log)) + match wr case Started(s) => [s] case Finished(_, _) => []
    {
      Snoc(r0, log, wr);
      Snoc(base, log, wr);
      rows := Apply(rows, wr);
      log := log + [wr];
    }

    method GatewayRequirements(g: Gateway) returns (reqs: set<StepId>)
      ensures reqs == GatewayNeeds(spec, g)
    {
      reqs := {};
      for i := 0 to |spec.steps|
        invariant reqs == set s, r | s in spec.steps[..i] && s.id in g.Arms() && r in s.needs :: r
      {
        assert forall s :: s in spec.steps[..i + 1] <==> s in spec.steps[..i] || s == spec.steps[i];
        if spec.steps[i].id in g.Arms() {
          reqs := reqs + spec.steps[i].needs;
        }
      }
      assert spec.steps[..|spec.steps|] == spec.steps;
    }

    /** Marks the losing arm of one decided gateway. */
    method SkipArm(losing: set<StepId>, before: Statuses, ghost r0: Statuses, ghost base: Statuses)
        returns (status: Statuses)
      requires Tracks(r0, base, before)
      modifies this`rows, this`log
      ensures Tracks(r0, base, status) && status == SkipAll(before, losing)
      ensures Starts(log) == old(Starts(log))
    {
      status := before;
      var done := {};
      SkipNone(before);
      while losing - done != {}
        invariant done <= losing && Tracks(r0, base, status) && status == SkipAll(before, done)
        invariant Starts(log) == old(Starts(log))
        decreases losing - done
      {
        var sid :| sid in losing - done;
        SkipOneMore(before, done, sid);
        if !Terminal(status, sid) {
          Store(Finished(sid, Skipped), r0, base, status);
          status := status[sid := Skipped];
        }
        done := done + {sid};
      }
      assert done == losing;
    }

    method DecideGateways(w: World, k: nat, before: State, ghost r0: Statuses, ghost base: Statuses) returns (s: State)
      requires Tracks(r0, base, before.status)
      modifies this`rows, this`log
      ensures Tracks(r0, base, s.status) && s == DecideAll(spec, spec.gateways, before, Gate(w, k))
      ensures Starts(log) == old(Starts(log))
    {
      s := before;
      for i := 0 to |spec.gateways|
        invariant Tracks(r0, base, s.status) && s == DecideAll(spec, spec.gateways[..i], before, Gate(w, k))
        invariant Starts(log) == old(Starts(log))
      {
        assert spec.gateways[..i + 1][..i] == spec.gateways[..i];
        s := DecideGateway(spec.gateways[i], w, k, s, r0, base);
      }
      assert spec.gateways[..|spec.gateways|] == spec.gateways;
    }

    /** Decides one XOR gateway, once, when everything its arms require is terminal. */
    method DecideGateway(g: Gateway, w: World, k: nat, before: State, ghost r0: Statuses, ghost base: Statuses)
        returns (s: State)
      requires Tracks(r0, base, before.status)
      modifies this`rows, this`log
      ensures Tracks(r0, base, s.status) && s == Decide(spec, g, before, Gate(w, k))
      ensures Starts(log) == old(Starts(log))
    {
      s := before;
      if g.xor && g.id !in s.decided {
        var reqs := GatewayRequirements(g);
        if forall r :: r in reqs ==> Terminal(s.status, r) {
          var d := w.gate(k, g.id);
          var status := SkipArm(g.Losing(d), s.status, r0, base);
          s := State(status, s.decided[g.id := d]);
        }
      }
    }

    /** Skips unfinished steps that require a skipped one, until a whole pass changes nothing. */
    method CascadeSkips(before: Statuses, ghost r0: Statuses, ghost base: Statuses) returns (status: Statuses)
      requires Tracks(r0, base, before)
      modifies this`rows, this`log
      ensures Tracks(r0, base, status) && IsCascade(spec, before, status)
      ensures Starts(log) == old(Starts(log))
    {
      status := before;
      var changed := true;
      while changed
        invariant Tracks(r0, base, status) && CascadePart(spec, before, status)
        invariant !changed ==> SkipClosed(spec, status)
        invariant Starts(log) == old(Starts(log))
        decreases |Pending(spec, status)|, changed
      {
        changed := false;
        ghost var head := status;
        for i := 0 to |spec.steps|
          invariant Tracks(r0, base, status) && CascadePart(spec, before, status)
          invariant Starts(log) == old(Starts(log))
          invariant !changed ==> status == head && SkipClosedUpTo(spec, status, i)
          invariant changed ==> Pending(spec, status) < Pending(spec, head)
          invariant Pending(spec, status) <= Pending(spec, head)
        {
          var step := spec.steps[i];
          if !Terminal(status, step.id) && exists r :: r in step.needs && Is(status, r, Skipped) {
            CascadeStep(spec, before, status, step);
            Store(Finished(step.id, Skipped), r0, base, status);
            status := status[step.id := Skipped];
            changed := true;
          }
        }
        if changed {
          SmallerSet(Pending(spec, status), Pending(spec, head));
        }
      }
    }

    method RunnableSteps(st: State) returns (out: seq<StepId>)
      ensures out == Runnable(spec, spec.steps, st)
    {
      out := [];
      for i := 0 to |spec.steps|
        invariant out == Runnable(spec, spec.steps[..i], st)
      {
        assert spec.steps[..i + 1][..i] == spec.steps[..i];
        var step := spec.steps[i];
        if !Is(st.status, step.id, Succeeded) && !Is(st.status, step.id, Skipped) && forall r :: r in step.needs ==>
          Is(st.status, r, Succeeded) {
          var blocked := IsBlocked(step.id, st.decided);
          if !blocked {
            out := out + [step.id];
          }
        }
      }
      assert spec.steps[..|spec.steps|] == spec.steps;
    }

    method IsBlocked(id: StepId, decided: Decisions) returns (blocked: bool)
      ensures blocked == Blocked(spec, id, decided)
    {
      for i := 0 to |spec.gateways|
        invariant forall g :: g in spec.gateways[..i] && g.xor && id in g.Arms() ==>
          g.id in decided && id in g.Chosen(decided[g.id])
      {
        var g := spec.gateways[i];
        if g.xor && id in g.Arms() {
          if g.id !in decided {
            return true;
          }
          if id !in g.Chosen(decided[g.id]) {
            return true;
          }
        }
        assert forall g :: g in spec.gateways[..i + 1] <==> g in spec.gateways[..i] || g == spec.gateways[i];
      }
      assert spec.gateways[..|spec.gateways|] == spec.gateways;
      return false;
    }

    /** Executes one step between its start and finish rows. */
    method ExecStep(id: StepId, k: nat, w: World, ghost status: Statuses, ghost r0: Statuses, ghost base: Statuses)
      returns (st: Status, comp: Option<string>)
      requires Tracks(r0, base, status) && !Is(status, id, Succeeded)
      modifies this`rows, this`log
      ensures st == w.outcome(k, id) && Tracks(r0, base, status[id := st])
      ensures Starts(log) == old(Starts(log)) + [id]
      ensures comp == CompensationOf(compensation, id, st)
    {
      Store(Started(id), r0, base, status);
      st, comp := EndStep(id, k, w, status[id := Running], r0, base);
      assert status[id := Running][id := st] == status[id := st];
    }

    /** The second half of a step: its answer, its compensation and its finish row. */
    method EndStep(id: StepId, k: nat, w: World, ghost status: Statuses, ghost r0: Statuses, ghost base: Statuses)
      returns (st: Status, comp: Option<string>)
      requires Tracks(r0, base, status) && !Is(status, id, Succeeded)
      modifies this`rows, this`log
      ensures st == w.outcome(k, id) && Tracks(r0, base, status[id := st])
      ensures Starts(log) == old(Starts(log)) && comp == CompensationOf(compensation, id, st)
    {
      st := StatusOf(w.response(k, id));
      comp := if st != Succeeded && id in compensation then Some(compensation[id]) else None;
      Store(Finished(id, st), r0, base, status);
    }

    /** Runs the steps of a batch concurrently: whichever the schedule picks among the unfinished ones starts, or if it
        has
        started already, finishes. */
    method Gather(batch: seq<StepId>, k: nat, w: World, ghost before: Statuses, ghost r0: Statuses,
        ghost base: Statuses)
      returns (results: map<StepId, (Status, Option<string>)>, ghost order: seq<StepId>)
      requires Tracks(r0, base, before) && Distinct(batch) && forall x :: x in batch ==> !Is(before, x, Succeeded)
      modifies this`rows, this`log
      ensures Tracks(r0, base, Finish(w, k, before, batch))
      ensures IsOrder(order, batch) && Starts(log) == old(Starts(log)) + order
      ensures forall x :: x in batch ==>
        x in results && results[x] == (w.outcome(k, x), CompensationOf(compensation, x, w.outcome(k, x)))
    {
      var todo, begun, tick := batch, {}, 0;
      ghost var view := before;
      results, order := map[], [];
      while todo != []
        invariant Tracks(r0, base, view) && InFlight(w, k, before, batch, todo, begun, view)
        invariant StartedSoFar(order, batch, todo, begun) && Starts(log) == old(Starts(log)) + order
        invariant forall x :: x in batch && x !in todo ==>
          x in results && results[x] == (w.outcome(k, x), CompensationOf(compensation, x, w.outcome(k, x)))
        decreases |todo|, Elements(todo) - begun
      {
        var n := w.schedule(k, tick) % |todo|;
        var id := todo[n];
        tick := tick + 1;
        if id !in begun {
          Begins(w, k, before, batch, todo, begun, view, order, id);
          Store(Started(id), r0, base, view);
          view, begun, order := view[id := Running], begun + {id}, order + [id];
        } else {
          assert Is(view, id, Running);
          Ends(w, k, before, batch, todo, begun, view, order, n);
          WithoutMembers(todo, n);
          var st, comp := EndStep(id, k, w, view, r0, base);
          results := results[id := (st, comp)];
          view, todo, begun := view[id := st], Without(todo, n), begun - {id};
        }
      }
      assert begun == {};
      AllEnded(w, k, before, batch, view, order);
    }

    /** Dispatches one batch and collects, in batch order, its first failure and its compensations. */
    method RunBatch(batch: seq<StepId>, k: nat, w: World, before: Statuses, ghost r0: Statuses, ghost base: Statuses)
      returns (status: Statuses, stop: Option<StepId>, comps: seq<string>, ghost order: seq<StepId>)
      requires Tracks(r0, base, before)
      requires Distinct(batch) && forall x :: x in batch ==> !Is(before, x, Succeeded)
      modifies this`rows, this`log
      ensures Tracks(r0, base, status) && status == Finish(w, k, before, batch)
      ensures IsOrder(order, batch) && Starts(log) == old(Starts(log)) + order
      ensures StopsAt(w, k, batch, stop) && (stop.Some? ==> Is(status, stop.value, w.outcome(k, stop.value)))
      ensures comps == Compensations(w, k, compensation, batch)
    {
      var results;
      results, order := Gather(batch, k, w, before, r0, base);
      status, stop, comps := Collect(batch, k, w, before, results);
      FinishMeaning(w, k, before, batch);
    }

    /** Reads the results of a batch in batch order. */
    method Collect(batch: seq<StepId>, k: nat, ghost w: World, before: Statuses, results: map<StepId,
        (Status, Option<string>)>)
      returns (status: Statuses, stop: Option<StepId>, comps: seq<string>)
      requires forall x :: x in batch ==>
        x in results && results[x] == (w.outcome(k, x), CompensationOf(compensation, x, w.outcome(k, x)))
      ensures status == Finish(w, k, before, batch) && StopsAt(w, k, batch, stop)
      ensures comps == Compensations(w, k, compensation, batch)
    {
      status, stop, comps := before, None, [];
      for i := 0 to |batch|
        invariant status == Finish(w, k, before, batch[..i]) && StopsAt(w, k, batch[..i], stop)
        invariant comps == Compensations(w, k, compensation, batch[..i])
      {
        var id := batch[i];
        assert id in batch;
        BatchSnoc(w, k, compensation, before, batch, i);
        StopsSnoc(w, k, batch[..i], id, stop);
        var (st, comp) := results[id];
        status := status[id := st];
        if st != Succeeded {
          if stop.None? {
            stop := Some(id);
          }
          if comp.Some? && comp.value !in comps {
            comps := comps + [comp.value];
          }
        }
      }
      assert batch[..|batch|] == batch;
    }

    /** The deadline has passed: unfinished steps time out, then the escalation step runs unless it succeeded. */
    method HandleTimeout(before: Statuses, k: nat, w: World, ghost r0: Statuses, ghost base: Statuses)
        returns (ghost esc: seq<StepId>)
      requires Tracks(r0, base, before)
      modifies this
      ensures instance == DeadlineExceeded
      ensures Starts(log) == old(Starts(log)) + esc
      ensures esc == Escalation(spec, before)
      ensures Tracks(r0, base, AfterTimeout(spec, w, k, before))
    {
      var status := before;
      for i := 0 to |spec.steps|
        invariant Tracks(r0, base, status) && status == TimeOutAll(spec, spec.steps[..i], before)
        invariant Starts(log) == old(Starts(log))
      {
        assert spec.steps[..i + 1][..i] == spec.steps[..i];
        var id := spec.steps[i].id;
        if !Terminal(status, id) {
          Store(Finished(id, TimedOut), r0, base, status);
          status := status[id := TimedOut];
        }
      }
      assert spec.steps[..|spec.steps|] == spec.steps;
      TimeOutKeeps(spec, spec.steps, before);
      esc := [];
      if spec.onTimeout.Some? && spec.onTimeout.value in StepIds(spec) && !Is(status, spec.onTimeout.value, Succeeded) {
        esc := [spec.onTimeout.value];
        var st, comp := ExecStep(spec.onTimeout.value, k, w, status, r0, base);
      }
      instance := DeadlineExceeded;
    }

    /** The head of a round: everything dispatched so far succeeded, and the store agrees with the run. */
    ghost predicate AtHead(w: World, r0: Statuses, base: Statuses, h: seq<Round>, s: State)
      reads this
    {
      && instance == Active && Tracks(r0, base, s.status) && Starts(log) == Flat(h)
      && ValidHistory(spec, w, base, h) && s == HeadState(w, base, h, |h|)
      && (h != [] ==> AllSucceed(w, |h| - 1, h[|h| - 1].batch))
    }

    /** The run is over: why, and what it started. */
    ghost predicate Over(w: World, r0: Statuses, base: Statuses, h: seq<Round>, ready: State)
      reads this
    {
      && Tracks(r0, base, FinalView(spec, w, base, h, ready, instance)) && ValidHistory(spec, w, base, h)
      && EndsBecause(spec, w, compensation, base, h, ready, instance)
      && Starts(log) == Flat(h) + if instance == DeadlineExceeded then Escalation(spec, ready.status) else []
    }

    method PrepareRound(w: World, k: nat, before: State, ghost r0: Statuses, ghost base: Statuses)
        returns (ready: State)
      requires Tracks(r0, base, before.status)
      modifies this`rows, this`log
      ensures Tracks(r0, base, ready.status) && IsReady(spec, Gate(w, k), before, ready)
      ensures Starts(log) == old(Starts(log))
    {
      var mid := DecideGateways(w, k, before, r0, base);
      var status := CascadeSkips(mid.status, r0, base);
      ready := State(status, mid.decided);
    }

    /** Dispatches a nonempty batch: the next round's head, or the end of the run. */
    method Dispatch(w: World, k: nat, ghost before: State, ready: State, batch: seq<StepId>, ghost r0: Statuses,
        ghost base: Statuses, ghost h: seq<Round>)
      returns (next: State, ghost h': seq<Round>)
      requires ValidSpec(spec) && AtHeadOf(w, base, h, before) && k == |h| && !w.terminated(k) && !w.late(k)
      requires instance == Active && Tracks(r0, base, ready.status) && Starts(log) == Flat(h)
      requires IsReady(spec, Gate(w, k), before, ready) && batch == Runnable(spec, spec.steps, ready) != []
      modifies this
      ensures |h'| == k + 1
      ensures instance == Active ==> AtHead(w, r0, base, h', next)
      ensures instance != Active ==> Over(w, r0, base, h', ready)
    {
      RunnableIsUnstarted(spec, ready, batch);
      var status, stop, comps, order := RunBatch(batch, k, w, ready.status, r0, base);
      h' := h + [Round(before, ready, batch, order)];
      Dispatched(spec, w, compensation, base, h, h'[k], stop, comps);
      next := State(status, ready.decided);
      if stop.Some? {
        instance := Ending(stop.value, status[stop.value], comps);
      }
    }

    ghost predicate AtHeadOf(w: World, base: Statuses, h: seq<Round>, s: State) {
      && ValidHistory(spec, w, base, h) && s == HeadState(w, base, h, |h|)
      && (h != [] ==> AllSucceed(w, |h| - 1, h[|h| - 1].batch))
    }

    /** Nothing to run: unsatisfiable if steps are pending, completed otherwise. */
    method Conclude(st: State, ghost w: World, ghost r0: Statuses, ghost base: Statuses, ghost h: seq<Round>)
      requires Tracks(r0, base, st.status) && Starts(log) == Flat(h) && ValidHistory(spec, w, base, h)
      requires Exhausted(spec, w, base, h, st)
      modifies this`instance
      ensures instance != Active && Over(w, r0, base, h, st)
    {
      var pending := Pending(spec, st.status);
      instance := if pending != {} then Unsatisfiable(pending) else Completed;
    }

    /** One round of the loop. */
    method NextRound(w: World, k: nat, before: State, ghost r0: Statuses, ghost base: Statuses, ghost h: seq<Round>)
      returns (next: State, ghost ready: State, ghost h': seq<Round>)
      requires ValidSpec(spec) && AtHead(w, r0, base, h, before) && k == |h|
      modifies this
      ensures instance == Active ==> |h'| == k + 1 && AtHead(w, r0, base, h', next)
      ensures instance != Active ==> Over(w, r0, base, h', ready)
    {
      next, ready, h' := before, before, h;
      if w.terminated(k) {
        instance := Terminated;
        return;
      }
      var st := PrepareRound(w, k, before, r0, base);
      ready := st;
      assert Reached(spec, w, base, h, k, st);
      if w.late(k) {
        ghost var esc := HandleTimeout(st.status, k, w, r0, base);
        return;
      }
      var batch := RunnableSteps(st);
      if batch == [] {
        Conclude(st, w, r0, base, h);
      } else {
        next, h' := Dispatch(w, k, before, st, batch, r0, base, h);
      }
    }

    /** One run, from the stored rows to a final instance status. Every dispatch it makes is a round of the state
        machine, it starts exactly the dispatched steps (and the escalation step on timeout), and no write touches
        a row that the run remembers as succeeded. */
    method Run(resume: bool, w: World) returns (ghost h: seq<Round>, ghost ready: State)
      requires ValidSpec(spec)
      modifies this
      ensures old(instance) != Active ==> rows == old(rows) && instance == old(instance) && log == [] && h == []
      ensures old(instance) == Active ==> Over(w, old(rows), StartStatus(spec, old(rows), resume), h, ready)
    {
      h, ready, log := [], State(map[], map[]), [];
      if instance != Active {
        return;
      }
      var base := StartStatus(spec, rows, resume);
      var s, k := State(base, map[]), 0;
      while instance == Active
        invariant instance == Active ==> k == |h| && AtHead(w, old(rows), base, h, s)
        invariant instance != Active ==> Over(w, old(rows), base, h, ready)
        decreases instance == Active, |spec.steps| - k
      {
        BatchesBounded(spec, w, base, h);
        s, ready, h := NextRound(w, k, s, old(rows), base, h);
        BatchesBounded(spec, w, base, h);
        k := k + 1;
      }
    }
  }

  lemma {:induction false} BatchesBounded(spec: Spec, w: World, status: Statuses, h: seq<Round>)
    requires ValidSpec(spec) && ValidHistory(spec, w, status, h)
    ensures |h| <= |spec.steps|
  {
    RunsMakeProgress(spec, w, status, h);
  }

  /** The rows a timeout leaves behind: unfinished steps timed out, then the outcome of the escalation step. */
  function AfterTimeout(spec: Spec, w: World, k: nat, status: Statuses): Statuses {
    var timedOut, esc := TimeOutAll(spec, spec.steps, status), Escalation(spec, status);
    if esc == [] then timedOut else timedOut[esc[0] := w.outcome(k, esc[0])]
  }

  /** The step escalated to on timeout: the declared one, unless it is unknown or has succeeded. */
  function Escalation(spec: Spec, status: Statuses): seq<StepId> {
    if spec.onTimeout.Some? && spec.onTimeout.value in StepIds(spec) && !Is(status, spec.onTimeout.value, Succeeded)
    then [spec.onTimeout.value] else []
  }

  function TimeOutAll(spec: Spec, steps: seq<Step>, status: Statuses): Statuses {
    if steps == [] then status else
      var prev, id := TimeOutAll(spec, steps[..|steps| - 1], status), steps[|steps| - 1].id;
      if Terminal(prev, id) then prev else prev[id := TimedOut]
  }

  /** A timeout turns exactly the unfinished steps into timed-out ones. */
  lemma {:induction false} TimeOutMeaning(spec: Spec, steps: seq<Step>, status: Statuses, x: StepId)
    ensures var after := TimeOutAll(spec, steps, status);
      if !Terminal(status, x) && exists s :: s in steps && s.id == x then Is(after, x, TimedOut)
      else (x in after <==> x in status) && (x in status ==> after[x] == status[x])
  {
    if steps != [] {
      TimeOutMeaning(spec, steps[..|steps| - 1], status, x);
      assert forall s :: s in steps <==> s in steps[..|steps| - 1] || s == steps[|steps| - 1];
    }
  }

  lemma {:induction false} TimeOutKeeps(spec: Spec, steps: seq<Step>, status: Statuses)
    ensures forall s :: Is(TimeOutAll(spec, steps, status), s, Succeeded) <==> Is(status, s, Succeeded)
  {
    if steps != [] {
      TimeOutKeeps(spec, steps[..|steps| - 1], status);
    }
  }

  /** How a run ends that has a failed step. */
  function Ending(stop: StepId, st: Status, comps: seq<string>): Instance {
    if comps != [] then Compensated(comps) else StoppedAt(stop, st)
  }

  /** A dispatched round extends the history; a failure in it explains the end of the run. */
  lemma {:induction false} Dispatched(spec: Spec, w: World, comp: map<StepId, string>, base: Statuses, h: seq<Round>,
      r: Round,
                                      stop: Option<StepId>, comps: seq<string>)
    requires ValidHistory(spec, w, base, h) && (h != [] ==> AllSucceed(w, |h| - 1, h[|h| - 1].batch))
    requires ValidRound(spec, w, |h|, r) && r.before == HeadState(w, base, h, |h|) && !w.terminated(|h|) && !w.late(|h|)
    requires StopsAt(w, |h|, r.batch, stop) && comps == Compensations(w, |h|, comp, r.batch)
    ensures ValidHistory(spec, w, base, h + [r]) && Flat(h + [r]) == Flat(h) + r.order
    ensures HeadState(w, base, h + [r], |h| + 1) == After(w, |h|, r)
    ensures stop.Some? ==>
      EndsBecause(spec, w, comp, base, h + [r], r.ready, Ending(stop.value, w.outcome(|h|, stop.value), comps))
  {
    Extend(spec, w, base, h, r);
    FlatExtend(h, r);
    assert (h + [r])[|h|] == r;
  }

  lemma {:induction false} FlatExtend(h: seq<Round>, r: Round)
    ensures Flat(h + [r]) == Flat(h) + r.order
  {
    assert (h + [r])[..|h|] == h;
  }

  lemma {:induction false} RunnableIsUnstarted(spec: Spec, ready: State, batch: seq<StepId>)
    requires ValidSpec(spec) && batch == Runnable(spec, spec.steps, ready)
    ensures Distinct(batch) && forall x :: x in batch ==> !Is(ready.status, x, Succeeded)
  {
    RunnableMeaning(spec, spec.steps, ready);
  }

  lemma {:induction false} Extend(spec: Spec, w: World, status: Statuses, h: seq<Round>, r: Round)
    requires ValidHistory(spec, w, status, h) && (h != [] ==> AllSucceed(w, |h| - 1, h[|h| - 1].batch))
    requires ValidRound(spec, w, |h|, r) && r.before == HeadState(w, status, h, |h|) && !w.terminated(|h|) &&
      !w.late(|h|)
    ensures ValidHistory(spec, w, status, h + [r])
  {
    var h' := h + [r];
    forall k | 0 <= k < |h'| ensures RoundOk(spec, w, status, h', k) {
      if k < |h| {
        assert RoundOk(spec, w, status, h, k);
      }
    }
  }

  /** A cascade that is sound and least, though perhaps not finished. */
  ghost predicate CascadePart(spec: Spec, status: Statuses, next: Statuses) {
    && next == SkipAll(status, With(next, Skipped))
    && With(next, Skipped) <= With(status, Skipped) + StepIds(spec)
    && (forall X: set<StepId> :: With(status, Skipped) <= X && AbsorbsDependents(spec, status, X) ==>
      With(next, Skipped) <= X)
  }

  predicate SkipClosedUpTo(spec: Spec, status: Statuses, n: nat) {
    forall i :: 0 <= i < n && i < |spec.steps| && !Terminal(status, spec.steps[i].id) ==>
      forall r :: r in spec.steps[i].needs ==> !Is(status, r, Skipped)
  }

  lemma {:induction false} CascadeStep(spec: Spec, before: Statuses, status: Statuses, step: Step)
    requires CascadePart(spec, before, status) && step in spec.steps && !Terminal(status, step.id)
    requires exists r :: r in step.needs && Is(status, r, Skipped)
    ensures CascadePart(spec, before, status[step.id := Skipped])
    ensures Pending(spec, status[step.id := Skipped]) < Pending(spec, status)
  {
    var next := status[step.id := Skipped];
    assert With(next, Skipped) == With(status, Skipped) + {step.id};
    assert !Terminal(before, step.id);
    var r :| r in step.needs && Is(status, r, Skipped);
    forall X: set<StepId> | With(before, Skipped) <= X && AbsorbsDependents(spec, before, X)
      ensures With(next, Skipped) <= X {
      assert r in With(status, Skipped);
      assert r in step.needs * X;
    }
    assert step.id in Pending(spec, status) && step.id !in Pending(spec, next);
  }
}
