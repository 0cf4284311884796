/** One idempotency key: the slot, the executions that compete for it, and the effect they guard. */
module Idempotency {
  import opened Common

  type Token = nat

  datatype Slot = Absent | Running(owner: Token) | Completed | Failed

  /** Where one execution of the action stands. */
  datatype Phase =
    | Claimed      // its claim transaction has committed
    | Holding      // it read the slot back as its own
    | Refused      // it read somebody else's slot and answered "already in effect"
    | Backing      // nothing applied as far as it knows; about to mark the slot failed
    | Applied      // its effect is in; about to audit and mark the slot completed
    | Ended        // answered or crashed

  datatype Event =
    | Claim(p: Token)              // INSERT OR IGNORE, then failed -> running, one transaction
    | ReadBack(p: Token)
    | PreconditionFails(p: Token)
    | EffectApplies(p: Token)
    | EffectRaises(p: Token)       // a raising effect has applied nothing
    | EffectTimesOut(p: Token)     // abandoned, but its write may still land
    | LateWriteLands
    | MarkFailed(p: Token)
    | MarkCompleted(p: Token)
    | MarkLost(p: Token)           // the mark itself raised and was swallowed
    | Crash(p: Token)
    | AdminReset                   // an operator turns a stuck running slot into failed

  /** `effects` counts how often the effect was applied; `inFlight` counts abandoned writes still running. */
  datatype State = State(slot: Slot, phases: map<Token, Phase>, effects: nat, inFlight: nat, timeouts: nat, resets: nat)

  const INITIAL := State(Absent, map[], 0, 0, 0, 0)

  predicate At(s: State, p: Token, ph: Phase) {
    p in s.phases && s.phases[p] == ph
  }

  predicate Enabled(s: State, e: Event) {
    match e
    case Claim(p) => p !in s.phases
    case ReadBack(p) => At(s, p, Claimed)
    case PreconditionFails(p) => At(s, p, Holding)
    case EffectApplies(p) => At(s, p, Holding)
    case EffectRaises(p) => At(s, p, Holding)
    case EffectTimesOut(p) => At(s, p, Holding)
    case LateWriteLands => s.inFlight > 0
    case MarkFailed(p) => At(s, p, Backing)
    case MarkCompleted(p) => At(s, p, Applied)
    case MarkLost(p) => At(s, p, Backing) || At(s, p, Applied)
    case Crash(p) => p in s.phases
    case AdminReset => s.slot.Running?
  }

  function Move(s: State, p: Token, ph: Phase): State {
    s.(phases := s.phases[p := ph])
  }

  function Step(s: State, e: Event): State
    requires Enabled(s, e)
  {
    match e
    case Claim(p) => Move(s.(slot := if s.slot.Absent? || s.slot.Failed? then Running(p) else s.slot), p, Claimed)
    case ReadBack(p) => Move(s, p, if s.slot == Running(p) then Holding else Refused)
    case PreconditionFails(p) => Move(s, p, Backing)
    case EffectApplies(p) => Move(s.(effects := s.effects + 1), p, Applied)
    case EffectRaises(p) => Move(s, p, Backing)
    case EffectTimesOut(p) => Move(s.(inFlight := s.inFlight + 1, timeouts := s.timeouts + 1), p, Backing)
    case LateWriteLands => s.(effects := s.effects + 1, inFlight := s.inFlight - 1)
    case MarkFailed(p) => Move(s.(slot := Failed), p, Ended)
    case MarkCompleted(p) => Move(s.(slot := Completed), p, Ended)
    case MarkLost(p) => Move(s, p, Ended)
    case Crash(p) => Move(s, p, Ended)
    case AdminReset => s.(slot := Failed, resets := s.resets + 1)
  }

  predicate ValidTrace(s: State, trace: seq<Event>)
    decreases trace
  {
    trace == [] || (Enabled(s, trace[0]) && ValidTrace(Step(s, trace[0]), trace[1..]))
  }

  function Run(s: State, trace: seq<Event>): State
    requires ValidTrace(s, trace)
    decreases trace
  {
    if trace == [] then s else Run(Step(s, trace[0]), trace[1..])
  }

  // ---- Permissions to apply the effect are conserved ----

  predicate Holds(s: State, p: Token) {
    At(s, p, Holding) || At(s, p, Backing) || (At(s, p, Claimed) && s.slot == Running(p))
  }

  function Holders(s: State): set<Token> {
    set p | p in s.phases && Holds(s, p)
  }

  function Permissions(s: State): nat {
    |Holders(s)| + if s.slot.Absent? || s.slot.Failed? then 1 else 0
  }

  /** Applied, still landing, or still permitted: all of it is paid for by the first claim, a timeout or a reset. */
  predicate Invariant(s: State) {
    && Spent(s) <= 1 + s.timeouts + s.resets
    && (s.slot == Completed ==> s.effects > 0)
    && (forall p :: p in s.phases && s.phases[p] == Applied ==> s.effects > 0)
    && (s.slot.Running? ==> s.slot.owner in s.phases)
  }

  function Spent(s: State): nat {
    s.effects + s.inFlight + Permissions(s)
  }

  /** A step spends no more than it earns. */
  lemma {:induction false} StepConserves(s: State, e: Event)
    requires Enabled(s, e) && (s.slot.Running? ==> s.slot.owner in s.phases)
    ensures Spent(Step(s, e)) - Spent(s) <= (Step(s, e).timeouts - s.timeouts) + (Step(s, e).resets - s.resets)
  {
    match e
    case Claim(p) => ClaimConserves(s, p);
    case EffectApplies(p) =>
      assert p in Holders(s) && Holders(Step(s, e)) == Holders(s) - {p};
    case MarkFailed(p) =>
      assert p in Holders(s);
      NoNewHolders(s, e);
      assert Holders(Step(s, e)) <= Holders(s) - {p};
      SubsetSize(Holders(Step(s, e)), Holders(s) - {p});
    case _ =>
      NoNewHolders(s, e);
      SubsetSize(Holders(Step(s, e)), Holders(s));
  }

  lemma {:induction false} ClaimConserves(s: State, p: Token)
    requires Enabled(s, Claim(p)) && (s.slot.Running? ==> s.slot.owner in s.phases)
    ensures Permissions(Step(s, Claim(p))) <= Permissions(s)
  {
    var s' := Step(s, Claim(p));
    if s.slot.Absent? || s.slot.Failed? {
      assert Holders(s') == Holders(s) + {p};
    } else {
      assert Holders(s') <= Holders(s);
      SubsetSize(Holders(s'), Holders(s));
    }
  }

  lemma {:induction false} NoNewHolders(s: State, e: Event)
    requires Enabled(s, e) && !e.Claim?
    ensures Holders(Step(s, e)) <= Holders(s)
  {
    var s' := Step(s, e);
    forall p | p in Holders(s') ensures p in Holders(s) {
      assert s'.phases[p] != s.phases[p] ==> Holds(s, p);
    }
  }

  lemma {:induction false} StepKeeps(s: State, e: Event)
    requires Invariant(s) && Enabled(s, e)
    ensures Invariant(Step(s, e))
  {
    StepConserves(s, e);
  }

  lemma {:induction false} RunKeeps(s: State, trace: seq<Event>)
    requires Invariant(s) && ValidTrace(s, trace)
    ensures Invariant(Run(s, trace))
    decreases trace
  {
    if trace != [] {
      StepKeeps(s, trace[0]);
      RunKeeps(Step(s, trace[0]), trace[1..]);
    }
  }

  /** Over every interleaving of executions, crashes, lost marks and retries, the effect is applied at most once plus
      once for each abandoned timeout and each operator reset. */
  lemma {:induction false} EffectsBounded(trace: seq<Event>)
    requires ValidTrace(INITIAL, trace)
    ensures var s := Run(INITIAL, trace); s.effects <= 1 + s.timeouts + s.resets
  {
    assert Holders(INITIAL) == {};
    RunKeeps(INITIAL, trace);
  }

  lemma {:induction false} CountsGrow(s: State, trace: seq<Event>)
    requires ValidTrace(s, trace) && forall i :: 0 <= i < |trace| ==> !trace[i].EffectTimesOut? && !trace[i].AdminReset?
    ensures Run(s, trace).timeouts == s.timeouts && Run(s, trace).resets == s.resets
    decreases trace
  {
    if trace != [] {
      assert forall i :: 0 <= i < |trace[1..]| ==> trace[1..][i] == trace[i + 1];
      CountsGrow(Step(s, trace[0]), trace[1..]);
    }
  }

  /** Without timeouts and operator resets: at most once. */
  lemma {:induction false} AtMostOnce(trace: seq<Event>)
    requires ValidTrace(INITIAL, trace)
    requires forall i :: 0 <= i < |trace| ==> !trace[i].EffectTimesOut? && !trace[i].AdminReset?
    ensures Run(INITIAL, trace).effects <= 1
  {
    EffectsBounded(trace);
    CountsGrow(INITIAL, trace);
  }

  /** A slot marked completed is never a lie: the effect was applied. */
  lemma {:induction false} CompletedMeansApplied(trace: seq<Event>)
    requires ValidTrace(INITIAL, trace) && Run(INITIAL, trace).slot == Completed
    ensures Run(INITIAL, trace).effects >= 1
  {
    assert Holders(INITIAL) == {};
    RunKeeps(INITIAL, trace);
  }

  // ---- The bound is attained ----

  lemma {:induction false} RunSnoc(s: State, trace: seq<Event>, e: Event)
    requires ValidTrace(s, trace) && Enabled(Run(s, trace), e)
    ensures ValidTrace(s, trace + [e]) && Run(s, trace + [e]) == Step(Run(s, trace), e)
    decreases trace
  {
    if trace == [] {
      assert trace + [e] == [e] && [e][1..] == [];
    } else {
      RunSnoc(Step(s, trace[0]), trace[1..], e);
      assert (trace + [e])[1..] == trace[1..] + [e];
    }
  }

  /** Between executions: the key can be claimed, nothing is in flight, and token n is new. */
  predicate AtRest(s: State, n: Token) {
    !s.slot.Running? && !s.slot.Completed? && s.inFlight == 0 && forall p :: p in s.phases ==> p < n
  }

  /** An execution that times out, marks its slot failed and whose write lands after all: one effect, and the key can be
      claimed again. */
  lemma {:induction false} TimeoutCosts(trace: seq<Event>, n: Token) returns (longer: seq<Event>)
    requires ValidTrace(INITIAL, trace) && AtRest(Run(INITIAL, trace), n)
    ensures ValidTrace(INITIAL, longer) && AtRest(Run(INITIAL, longer), n + 1)
    ensures var s, s' := Run(INITIAL, trace), Run(INITIAL, longer);
      s'.effects == s.effects + 1 && s'.timeouts == s.timeouts + 1 && s'.resets == s.resets
  {
    longer := trace;
    RunSnoc(INITIAL, longer, Claim(n));
    longer := longer + [Claim(n)];
    RunSnoc(INITIAL, longer, ReadBack(n));
    longer := longer + [ReadBack(n)];
    RunSnoc(INITIAL, longer, EffectTimesOut(n));
    longer := longer + [EffectTimesOut(n)];
    RunSnoc(INITIAL, longer, MarkFailed(n));
    longer := longer + [MarkFailed(n)];
    RunSnoc(INITIAL, longer, LateWriteLands);
    longer := longer + [LateWriteLands];
  }

  /** An execution whose slot an operator resets after its effect, and whose own mark is lost: the same with a reset. */
  lemma {:induction false} ResetCosts(trace: seq<Event>, n: Token) returns (longer: seq<Event>)
    requires ValidTrace(INITIAL, trace) && AtRest(Run(INITIAL, trace), n)
    ensures ValidTrace(INITIAL, longer) && AtRest(Run(INITIAL, longer), n + 1)
    ensures var s, s' := Run(INITIAL, trace), Run(INITIAL, longer);
      s'.effects == s.effects + 1 && s'.timeouts == s.timeouts && s'.resets == s.resets + 1
  {
    longer := trace;
    RunSnoc(INITIAL, longer, Claim(n));
    longer := longer + [Claim(n)];
    RunSnoc(INITIAL, longer, ReadBack(n));
    longer := longer + [ReadBack(n)];
    RunSnoc(INITIAL, longer, EffectApplies(n));
    longer := longer + [EffectApplies(n)];
    RunSnoc(INITIAL, longer, AdminReset);
    longer := longer + [AdminReset];
    RunSnoc(INITIAL, longer, MarkLost(n));
    longer := longer + [MarkLost(n)];
  }

  lemma {:induction false} AllCosts(t: nat, r: nat) returns (trace: seq<Event>)
    ensures ValidTrace(INITIAL, trace) && AtRest(Run(INITIAL, trace), t + r)
    ensures var s := Run(INITIAL, trace); s.effects == t + r && s.timeouts == t && s.resets == r
    decreases t + r
  {
    if t > 0 {
      var front := AllCosts(t - 1, r);
      trace := TimeoutCosts(front, t - 1 + r);
    } else if r > 0 {
      var front := AllCosts(t, r - 1);
      trace := ResetCosts(front, t + r - 1);
    } else {
      trace := [];
    }
  }

  /** EffectsBounded cannot be improved: for any number of timeouts and resets some interleaving applies the effect once
      for each of them and once more. */
  lemma {:induction false} BoundIsAttained(t: nat, r: nat) returns (trace: seq<Event>)
    ensures ValidTrace(INITIAL, trace)
    ensures var s := Run(INITIAL, trace); s.timeouts == t && s.resets == r && s.effects == 1 + t + r
  {
    trace := AllCosts(t, r);
    RunSnoc(INITIAL, trace, Claim(t + r));
    trace := trace + [Claim(t + r)];
    RunSnoc(INITIAL, trace, ReadBack(t + r));
    trace := trace + [ReadBack(t + r)];
    RunSnoc(INITIAL, trace, EffectApplies(t + r));
    trace := trace + [EffectApplies(t + r)];
  }

  predicate Costs(s: State, trace: seq<Event>, t: nat, r: nat)
    requires ValidTrace(s, trace)
  {
    Run(s, trace).timeouts == t && Run(s, trace).resets == r
  }

  /** At most once is guaranteed exactly when there are neither timeouts nor operator resets. */
  lemma {:induction false} AtMostOnceExactly(t: nat, r: nat)
    ensures t == 0 && r == 0 <==>
      forall trace :: ValidTrace(INITIAL, trace) && Costs(INITIAL, trace, t, r) ==> Run(INITIAL, trace).effects <= 1
  {
    forall trace | ValidTrace(INITIAL, trace)
      ensures Run(INITIAL, trace).effects <= 1 + Run(INITIAL, trace).timeouts + Run(INITIAL, trace).resets {
      EffectsBounded(trace);
    }
    var worst := BoundIsAttained(t, r);
  }

  // ---- The hypotheses are needed ----

  /** A timed-out execution marks its slot failed like any other failure, so the key can be claimed again; when its
      abandoned write lands after all, the effect has been applied twice. */
  lemma {:induction false} TimeoutAllowsSecondEffect() returns (trace: seq<Event>)
    ensures ValidTrace(INITIAL, trace)
    ensures Run(INITIAL, trace).effects == 2 && Run(INITIAL, trace).timeouts == 1 && Run(INITIAL, trace).resets == 0
  {
    trace := BoundIsAttained(1, 0);
  }

  /** "Already in effect" is answered for running slots too: after a crash between claim and effect a replay gets that
      answer although nothing was ever applied. */
  lemma {:induction false} AlreadyInEffectMayBeWrong() returns (trace: seq<Event>)
    ensures ValidTrace(INITIAL, trace)
    ensures At(Run(INITIAL, trace), 1, Refused) && Run(INITIAL, trace).effects == 0
  {
    trace := [Claim(0), Crash(0)];
    Unroll2(INITIAL, Claim(0), Crash(0));
    RunSnoc(INITIAL, trace, Claim(1));
    trace := trace + [Claim(1)];
    RunSnoc(INITIAL, trace, ReadBack(1));
    trace := trace + [ReadBack(1)];
  }

  // ---- One execution, as the middleware runs it ----

  datatype EffectResult = Applies | BusinessRefusal | Raises | TimesOut

  datatype Fallback = RejectIt | ManualIt | DeadLetterIt

  datatype Answer = Executed | AlreadyInEffect | ManualIntervention | DeadLetter | Error

  predicate Claimable(slot: Slot) {
    slot.Absent? || slot.Failed?
  }

  class Middleware {
    var s: State

    constructor ()
      ensures s == INITIAL && Invariant(s)
    {
      assert Holders(INITIAL) == {};
      s := INITIAL;
    }

    /** Steps 4 to 8 for one key, undisturbed by others: claim, read back, preconditions, effect, mark.
        `marks` tells whether the store accepts the final mark; a failing one is swallowed. */
    method ExecuteAction(owner: Token, preconditionsHold: bool, effect: EffectResult, marks: bool, fallback: Fallback)
      returns (answer: Answer, ghost trace: seq<Event>)
      requires Invariant(s) && owner !in s.phases
      modifies this
      ensures Invariant(s)
      ensures ValidTrace(old(s), trace) && s == Run(old(s), trace)
      ensures answer == AlreadyInEffect <==> old(s).slot.Running? || old(s).slot.Completed?
      ensures answer == Executed <==> s.effects == old(s).effects + 1
      ensures answer != Executed ==> s.effects == old(s).effects
      ensures answer == AlreadyInEffect ==> s.slot == old(s).slot
      ensures answer == Executed ==> preconditionsHold && effect == Applies && s.slot == if marks then Completed
        else Running(owner)
      ensures answer !in {Executed, AlreadyInEffect} ==> s.slot == if marks then Failed else Running(owner)
      ensures answer == Executed <==> Claimable(old(s).slot) && preconditionsHold && effect == Applies
      ensures answer == ManualIntervention <==>
        Claimable(old(s).slot) && preconditionsHold &&
          (effect == TimesOut || (effect == Raises && fallback == ManualIt))
      ensures answer == DeadLetter <==>
        Claimable(old(s).slot) && preconditionsHold && effect == Raises && fallback == DeadLetterIt
      ensures s.phases.Keys == old(s).phases.Keys + {owner}
    {
      ghost var s0 := s;
      ClaimTells(s0, owner);
      s := Step(s, Claim(owner));
      s := Step(s, ReadBack(owner));
      if s.phases[owner] == Refused {
        trace := [Claim(owner), ReadBack(owner)];
        RunKeeps(s0, trace);
        return AlreadyInEffect, trace;
      }
      ghost var mine := s;
      var third;
      third, answer := TryEffect(owner, preconditionsHold, effect, fallback);
      s := Step(s, third);
      var fourth := if !marks then MarkLost(owner) else if answer == Executed then MarkCompleted(owner)
        else MarkFailed(owner);
      s := Step(s, fourth);
      HolderFinishes(mine, owner, third, fourth);
      Unroll4(s0, Claim(owner), ReadBack(owner), third, fourth);
      trace := [Claim(owner), ReadBack(owner), third, fourth];
      RunKeeps(s0, trace);
    }
  }

  /** Preconditions and effect of the holder: what happens, and what is answered. A timeout is always handed to a
      human. */
  method TryEffect(o: Token, preconditionsHold: bool, effect: EffectResult, fallback: Fallback)
    returns (event: Event, answer: Answer)
    ensures event in {PreconditionFails(o), EffectApplies(o), EffectRaises(o), EffectTimesOut(o)}
    ensures answer == Executed <==> event == EffectApplies(o)
    ensures answer == Executed <==> preconditionsHold && effect == Applies
    ensures answer == ManualIntervention <==>
      preconditionsHold && (effect == TimesOut || (effect == Raises && fallback == ManualIt))
    ensures answer == DeadLetter <==> preconditionsHold && effect == Raises && fallback == DeadLetterIt
    ensures answer != AlreadyInEffect
  {
    if !preconditionsHold {
      return PreconditionFails(o), Error;
    }
    match effect {
      case Applies => return EffectApplies(o), Executed;
      case BusinessRefusal => return EffectRaises(o), Error;
      case Raises =>
        event := EffectRaises(o);
        answer := match fallback
          case RejectIt => Error
          case ManualIt => ManualIntervention
          case DeadLetterIt => DeadLetter;
      case TimesOut => return EffectTimesOut(o), ManualIntervention;
    }
  }

  /** Claiming and reading back: refused if the slot is running or completed, otherwise the slot is held. */
  lemma {:induction false} ClaimTells(s: State, o: Token)
    requires Invariant(s) && o !in s.phases
    ensures
      var r := Step(Step(s, Claim(o)), ReadBack(o));
      && ValidTrace(s, [Claim(o), ReadBack(o)]) && Run(s, [Claim(o), ReadBack(o)]) == r
      && Enabled(s, Claim(o)) && Enabled(Step(s, Claim(o)), ReadBack(o))
      && r.effects == s.effects && r.phases.Keys == s.phases.Keys + {o}
      && (if s.slot.Running? || s.slot.Completed? then At(r, o, Refused) && r.slot == s.slot
        else At(r, o, Holding) && r.slot == Running(o))
  {
    Unroll2(s, Claim(o), ReadBack(o));
  }

  /** The holder's third and fourth events: what they leave in the slot and in the effects. */
  lemma {:induction false} HolderFinishes(s: State, o: Token, third: Event, fourth: Event)
    requires At(s, o, Holding) && s.slot == Running(o)
    requires third in {PreconditionFails(o), EffectApplies(o), EffectRaises(o), EffectTimesOut(o)}
    requires fourth in {MarkLost(o), if third == EffectApplies(o) then MarkCompleted(o) else MarkFailed(o)}
    ensures
      var r := Step(Step(s, third), fourth);
      && Enabled(s, third) && Enabled(Step(s, third), fourth) && r.phases.Keys == s.phases.Keys
      && r.effects == s.effects + (if third == EffectApplies(o) then 1 else 0)
      && r.slot == match fourth case MarkLost(_) => Running(o) case MarkCompleted(_) => Completed case _ => Failed
  {
  }

  lemma {:induction false} Unroll2(s: State, a: Event, b: Event)
    requires Enabled(s, a) && Enabled(Step(s, a), b)
    ensures ValidTrace(s, [a, b]) && Run(s, [a, b]) == Step(Step(s, a), b)
  {
    var t := Step(Step(s, a), b);
    assert [b][1..] == [];
    assert ValidTrace(t, []) && Run(t, []) == t;
    assert ValidTrace(Step(s, a), [b]) && Run(Step(s, a), [b]) == t;
    assert [a, b][1..] == [b];
  }

  lemma {:induction false} Unroll4(s: State, a: Event, b: Event, c: Event, d: Event)
    requires Enabled(s, a) && Enabled(Step(s, a), b)
    requires var t := Step(Step(s, a), b); Enabled(t, c) && Enabled(Step(t, c), d)
    ensures ValidTrace(s, [a, b, c, d]) && Run(s, [a, b, c, d]) == Step(Step(Step(Step(s, a), b), c), d)
  {
    Unroll2(Step(Step(s, a), b), c, d);
    assert [b, c, d][1..] == [c, d];
    assert [a, b, c, d][1..] == [b, c, d];
    assert ValidTrace(Step(s, a), [b, c, d]);
  }
}
