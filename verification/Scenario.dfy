/** Scenarios: steps with requirements, XOR gateways, and the rounds of a run as a state machine. */
module Scenario {
  import opened Common

  type StepId = string
  type GatewayId = string

  datatype Step = Step(id: StepId, assess: bool, needs: set<StepId>)

  /** Parallel splits have no run-time effect: `xor` is false for them. */
  datatype Gateway = Gateway(id: GatewayId, xor: bool, thenArm: set<StepId>, elseArm: set<StepId>) {
    function Arms(): set<StepId> { thenArm + elseArm }
    function Chosen(d: bool): set<StepId> { if d then thenArm else elseArm }
    function Losing(d: bool): set<StepId> { if d then elseArm else thenArm }
  }

  datatype Spec = Spec(steps: seq<Step>, gateways: seq<Gateway>, onTimeout: Option<StepId>)

  /** Step ids are unique by schema; unique gateway ids are an assumption of this model. */
  predicate ValidSpec(spec: Spec) {
    && (forall i, j :: 0 <= i < j < |spec.steps| ==> spec.steps[i].id != spec.steps[j].id)
    && (forall i, j :: 0 <= i < j < |spec.gateways| ==> spec.gateways[i].id != spec.gateways[j].id)
  }

  /** Saved scenarios: requirements name other steps, gateway arms name steps. */
  predicate CrossReferenced(spec: Spec) {
    && (forall s :: s in spec.steps ==> s.needs <= StepIds(spec) && s.id !in s.needs)
    && (forall g :: g in spec.gateways ==> g.Arms() <= StepIds(spec))
  }

  function StepIds(spec: Spec): set<StepId> {
    set s | s in spec.steps :: s.id
  }

  datatype Status = Running | Succeeded | Skipped | Failed | ManualIntervention | DeadLetter | TimedOut

  /** A step without an entry has not been touched. */
  type Statuses = map<StepId, Status>
  type Decisions = map<GatewayId, bool>

  predicate Is(status: Statuses, s: StepId, st: Status) {
    s in status && status[s] == st
  }

  predicate Terminal(status: Statuses, s: StepId) {
    s in status && status[s] != Running
  }

  function With(status: Statuses, st: Status): set<StepId> {
    set s | s in status && status[s] == st
  }

  /** Marks the given steps as skipped, leaving terminal ones alone. */
  function SkipAll(status: Statuses, ids: set<StepId>): Statuses {
    map s | s in status.Keys + ids :: if Terminal(status, s) || s !in ids then status[s] else Skipped
  }

  function GatewayNeeds(spec: Spec, g: Gateway): set<StepId> {
    set s, r | s in spec.steps && s.id in g.Arms() && r in s.needs :: r
  }

  /** Where a run stands at the head of a round, and again just before it dispatches. */
  datatype State = State(status: Statuses, decided: Decisions)

  predicate CanDecide(spec: Spec, g: Gateway, s: State) {
    g.xor && g.id !in s.decided && forall r :: r in GatewayNeeds(spec, g) ==> Terminal(s.status, r)
  }

  function Decide(spec: Spec, g: Gateway, s: State, gate: GatewayId -> bool): State {
    if CanDecide(spec, g, s)
    then State(SkipAll(s.status, g.Losing(gate(g.id))), s.decided[g.id := gate(g.id)])
    else s
  }

  /** One pass over the gateways, in declaration order; later ones see the skips of earlier ones. */
  function DecideAll(spec: Spec, gs: seq<Gateway>, s: State, gate: GatewayId -> bool): State {
    if gs == [] then s else Decide(spec, gs[|gs| - 1], DecideAll(spec, gs[..|gs| - 1], s, gate), gate)
  }

  /** Closed: no unfinished step still requires a skipped one. */
  predicate SkipClosed(spec: Spec, status: Statuses) {
    forall s :: s in spec.steps && !Terminal(status, s.id) ==> forall r :: r in s.needs ==> !Is(status, r, Skipped)
  }

  /** X contains every unfinished step that requires a member of X. */
  predicate AbsorbsDependents(spec: Spec, status: Statuses, X: set<StepId>) {
    forall s :: s in spec.steps && !Terminal(status, s.id) && s.needs * X != {} ==> s.id in X
  }

  /** `next` is `status` after skipping the least set of dependents of skipped steps. */
  ghost predicate IsCascade(spec: Spec, status: Statuses, next: Statuses) {
    && SkipClosed(spec, next)
    && next == SkipAll(status, With(next, Skipped))
    && With(next, Skipped) <= With(status, Skipped) + StepIds(spec)
    && (forall X: set<StepId> :: With(status, Skipped) <= X && AbsorbsDependents(spec, status, X) ==>
      With(next, Skipped) <= X)
  }

  ghost predicate IsReady(spec: Spec, gate: GatewayId -> bool, before: State, ready: State) {
    var mid := DecideAll(spec, spec.gateways, before, gate);
    ready.decided == mid.decided && IsCascade(spec, mid.status, ready.status)
  }

  /** A step named by an XOR gateway waits for the decision and must be in the chosen arm. */
  predicate Blocked(spec: Spec, id: StepId, decided: Decisions) {
    exists g :: g in spec.gateways && g.xor && id in g.Arms() && (g.id !in decided || id !in g.Chosen(decided[g.id]))
  }

  predicate IsRunnable(spec: Spec, s: Step, st: State) {
    && !Is(st.status, s.id, Succeeded) && !Is(st.status, s.id, Skipped)
    && (forall r :: r in s.needs ==> Is(st.status, r, Succeeded))
    && !Blocked(spec, s.id, st.decided)
  }

  function Runnable(spec: Spec, steps: seq<Step>, st: State): seq<StepId> {
    if steps == [] then [] else
      Runnable(spec, steps[..|steps| - 1], st) +
      if IsRunnable(spec, steps[|steps| - 1], st) then [steps[|steps| - 1].id] else []
  }

  function Pending(spec: Spec, status: Statuses): set<StepId> {
    set s | s in spec.steps && !Terminal(status, s.id) :: s.id
  }

  /** What executing a step comes back with: the action middleware's answers, or an exception. An assess
      step answers Executed or raises. */
  datatype Response = Executed | AlreadyInEffect | Manual | Dead | OtherAnswer | Raised

  function StatusOf(r: Response): Status {
    match r
    case Executed => Succeeded
    case AlreadyInEffect => Succeeded
    case Manual => ManualIntervention
    case Dead => DeadLetter
    case OtherAnswer => Failed
    case Raised => Failed
  }

  /** Everything outside the runner: gateway predicates, step outcomes, termination and the clock, by round, and which
      of
      the concurrent steps of a batch acts next. A round consults each of the first four at most once per gateway or
      step. */
  datatype World = World(
    gate: (nat, GatewayId) -> bool,
    response: (nat, StepId) -> Response,
    terminated: nat -> bool,
    late: nat -> bool,
    schedule: (nat, nat) -> nat)
  {
    function outcome(k: nat, s: StepId): Status { StatusOf(response(k, s)) }
  }

  function Gate(w: World, k: nat): GatewayId -> bool {
    (g: GatewayId) => w.gate(k, g)
  }

  function Finish(w: World, k: nat, status: Statuses, batch: seq<StepId>): Statuses {
    if batch == [] then status
    else
      var last := batch[|batch| - 1];
      Finish(w, k, status, batch[..|batch| - 1])[last := w.outcome(k, last)]
  }

  predicate AllSucceed(w: World, k: nat, batch: seq<StepId>) {
    forall i :: 0 <= i < |batch| ==> w.outcome(k, batch[i]) == Succeeded
  }

  /** One dispatch: the state at the head of its round, the state it was computed from, the batch, and the order in
      which
      its concurrent steps happened to start. */
  datatype Round = Round(before: State, ready: State, batch: seq<StepId>, order: seq<StepId>)

  /** The same steps in some order, each once. */
  ghost predicate IsOrder(order: seq<StepId>, batch: seq<StepId>) {
    Distinct(order) && forall x :: x in order <==> x in batch
  }

  ghost predicate ValidRound(spec: Spec, w: World, k: nat, r: Round) {
    && IsReady(spec, Gate(w, k), r.before, r.ready)
    && r.batch == Runnable(spec, spec.steps, r.ready)
    && r.batch != [] && IsOrder(r.order, r.batch)
  }

  function After(w: World, k: nat, r: Round): State {
    State(Finish(w, k, r.ready.status, r.batch), r.ready.decided)
  }

  /** Round k of a run that starts from `status`: not terminated, in time, and every earlier round succeeded entirely.
      */
  ghost predicate RoundOk(spec: Spec, w: World, status: Statuses, h: seq<Round>, k: nat)
    requires k < |h|
  {
    && ValidRound(spec, w, k, h[k]) && !w.terminated(k) && !w.late(k)
    && h[k].before == HeadState(w, status, h, k)
    && (k < |h| - 1 ==> AllSucceed(w, k, h[k].batch))
  }

  /** The dispatches of one run. */
  ghost predicate ValidHistory(spec: Spec, w: World, status: Statuses, h: seq<Round>) {
    forall k :: 0 <= k < |h| ==> RoundOk(spec, w, status, h, k)
  }

  /** The state at the head of round k. */
  function HeadState(w: World, status: Statuses, h: seq<Round>, k: nat): State
    requires k <= |h|
  {
    if k == 0 then State(status, map[]) else After(w, k - 1, h[k - 1])
  }
}
