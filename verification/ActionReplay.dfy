/** Where the scenario runner meets the action middleware: what a replayed action means to its step. */
module ActionReplay {
  import S = Scenario
  import I = Idempotency

  /** The middleware's answers as the runner reads them; an error is raised. */
  function ResponseTo(a: I.Answer): S.Response {
    match a
    case Executed => S.Executed
    case AlreadyInEffect => S.AlreadyInEffect
    case ManualIntervention => S.Manual
    case DeadLetter => S.Dead
    case Error => S.Raised
  }

  /** A step goes on exactly when its action was executed now or is in effect already. */
  lemma {:induction false} StepSucceedsExactly(a: I.Answer)
    ensures S.StatusOf(ResponseTo(a)) == S.Succeeded <==> a == I.Executed || a == I.AlreadyInEffect
    ensures S.StatusOf(ResponseTo(a)) == S.ManualIntervention <==> a == I.ManualIntervention
    ensures S.StatusOf(ResponseTo(a)) == S.DeadLetter <==> a == I.DeadLetter
    ensures S.StatusOf(ResponseTo(a)) == S.Failed <==> a == I.Error
  {
  }

  /** The crash window between an action's effect and its step row: the first execution applies the effect and marks its
      slot, the run dies before the row is written, and the resumed run executes the step again. The step succeeds, and
      the
      effect is not applied a second time, whatever preconditions and effect would now do. */
  method ReplayAfterCrash(first: I.Token, second: I.Token, preconditionsHold: bool, effect: I.EffectResult, marks: bool,
      fallback: I.Fallback)
    returns (status: S.Status, effects: nat)
    requires first != second
    ensures status == S.Succeeded && effects == 1
  {
    var m := new I.Middleware();
    var before, t1 := m.ExecuteAction(first, true, I.Applies, true, fallback);
    var answer, t2 := m.ExecuteAction(second, preconditionsHold, effect, marks, fallback);
    status, effects := S.StatusOf(ResponseTo(answer)), m.s.effects;
  }
}
