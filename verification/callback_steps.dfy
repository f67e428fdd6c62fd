/** What the steps of the callback handler do, for the methods that make them and for those that wait meanwhile. */
module CallbackSteps {
  import opened Collections
  import opened TransitionGuard
  import opened CallbackProtocol
  import opened CallbackInvariant
  import opened CallbackTheorems

  // ----- What one side finds unchanged -----------------------------------------------------------------

  /** On whose behalf a method runs: the driver's, or that of the action thread numbered `t`. */
  datatype Role = AsDriver | AsAction(t: nat)

  predicate Mine(me: Role, e: Event) {
    match e
    case Drive(_) => me.AsDriver?
    case Act(t, _, _, _) => me == AsAction(t)
    case GiveUp(t) => me == AsAction(t)
    case Tick(_) => false
    case Observe => false
  }

  /** The accesses of the others in a batch. */
  function Foreign(batch: seq<Event>, me: Role): seq<Event> {
    if batch == [] then []
    else
      var e := batch[|batch| - 1];
      Foreign(batch[..|batch| - 1], me) + if !Mine(me, e) then [e] else []
  }

  /** What the driver finds unchanged between two of its steps. */
  ghost predicate KeptForDriver(s: State, s': State) {
    && s'.driver == s.driver && s'.m == s.m.(now := s'.m.now, unread := s'.m.unread)
    && s'.q == s.q.(queue := s'.q.queue, inserted := s'.q.inserted, locked := s'.q.locked) && s.q.queue <= s'.q.queue
  }

  /** What an action thread does. */
  ghost predicate KeptForAction(s: State, s': State, t: nat) {
    && |s'.actions| == |s.actions| && (t < |s.actions| ==> s'.actions[t] == s.actions[t])
    && s.m.changes <= s'.m.changes && s.q.inserted <= s'.q.inserted && s.q.answers <= s'.q.answers
    && (s.lock == Some(t) ==> s'.lock == s.lock && s'.q.inserted == s.q.inserted)
  }

  ghost predicate Kept(s: State, s': State, me: Role) {
    if me.AsDriver? then KeptForDriver(s, s') else KeptForAction(s, s', me.t)
  }

  lemma DriverKeeps(s: State, t: nat, i: Input)
    requires Inv(s)
    ensures KeptForAction(s, Step(s, Drive(i)), t)
  {
    StepGrows(s, Drive(i));
    if s.m.stage.Settled? {
      hide MachineAfter, RequestsAfter, DriverNext, MachineInv, Stamped, AnswersInv, InOrder, HookInv, ActionsInv;
      DriverKeepsQueue(s.m, s.q, s.driver, i);
    }
  }

  lemma ActionKeeps(s: State, me: Role, e: Event)
    requires Inv(s) && !Mine(me, e) && (e.Act? || e.GiveUp?)
    ensures Kept(s, Step(s, e), me)
  {
    hide Guard, Truncated, MachineInv, QueueInv, Stamped, AnswersInv, InOrder, HookInv;
    if e.t < |s.actions| { assert s.lock != Some(e.t) ==> s.actions[e.t].AIdle?; }
  }

  lemma OthersKeep(s: State, me: Role, e: Event)
    requires Inv(s) && !Mine(me, e)
    ensures Kept(s, Step(s, e), me)
  {
    match e {
      case Drive(i) => hide Inv, Step; DriverKeeps(s, me.t, i);
      case Act(_, _, _, _) => hide Inv, Step; ActionKeeps(s, me, e);
      case GiveUp(_) => hide Inv, Step; ActionKeeps(s, me, e);
      case Tick(_) =>
      case Observe =>
    }
  }

  lemma SameThreads(s: State, e: Event)
    ensures |Step(s, e).actions| == |s.actions|
  {
    hide MachineAfter, RequestsAfter, DriverNext, ActionNext, Inserting, LockAfter;
  }

  lemma KeptRefl(s: State, me: Role)
    ensures Kept(s, s, me)
  {
  }

  lemma KeptTwice(s: State, s': State, s'': State, me: Role)
    requires Kept(s, s', me) && Kept(s', s'', me)
    ensures Kept(s, s'', me)
  {
  }

  // ----- What the guard says of the states that the callbacks meet ---------------------------------------

  /** A fault can be entered from just these states, and a fatal one from every other. */
  lemma FaultsFrom(code: StateCode)
    ensures Guard(code, Faulted) == Allowed <==>
              || code.Preparing? || code.Activated? || code.MotionEnabling? || code.MotionEnabled?
              || code.MotionDisabling? || code.ClearingFaults?
    ensures Guard(code, FatallyFaulted) == Allowed <==> !code.FatallyFaulted?
  {
  }

  lemma Lifecycles(code: StateCode)
    ensures Guard(Preparing, Prepared) == Guard(Preparing, FatallyFaulted) == Allowed
    ensures Guard(Activating, Activated) == Guard(Activating, FatallyFaulted) == Allowed
    ensures Guard(code, Activating) == Allowed <==> code.Prepared?
    ensures Guard(code, Preparing) == Allowed <==> code.Deactivated?
  {
  }

  // ----- The driver's steps that try a change -------------------------------------------------------------

  /** The step at `d` tries the change `wish` on top of `m0`, and goes on to `yes` or `no`. */
  ghost predicate Tries(m: Machine, q: Requests, d: DriverPc, i: Input, m0: Machine, wish: Option<Wish>,
                        yes: DriverPc, no: DriverPc)
  {
    && MachineAfter(m, d, i) == (if wish.None? then m0 else SetState(m0, wish.value, i.disabled))
    && DriverNext(m, q, d, i) == (if wish.Some? && Guard(m.code, wish.value.to) == Allowed then yes else no)
    && RequestsAfter(m, q, d, i) == q
  }

  /** A change that the driver itself asks for. */
  function Own(to: StateCode, message: string): Wish {
    Wish(to, message, ByDriver)
  }

  lemma ApplyStep(m: Machine, q: Requests, i: Input)
    requires i.callback.OnApplyCommand?
    ensures m.code.MotionDisabling? ==> Tries(m, q, DIdle, i, m, None, DIdle, DIdle)
    ensures m.code.MotionEnabled? ==>
              var fault := if i.outcome.Succeeded? then None else Some(Own(FaultOf(i.outcome), i.message));
              Tries(m, q, DIdle, i, m.(calls := m.calls + [Apply]), fault, DCancel(ThenDone), DIdle)
    ensures !m.code.MotionDisabling? && !m.code.MotionEnabled? ==>
              Tries(m, q, DIdle, i, m, Some(Own(Faulted, NOT_ENABLED)), DCancel(ThenDone), DIdle)
  {
    hide SetState, Guard;
  }

  lemma HookDriverStep(m: Machine, q: Requests, i: Input)
    ensures !HookDue(m) ==> Tries(m, q, DHook, i, m, None, DRead, DRead)
    ensures HookDue(m) ==>
              var fault := if i.outcome.Succeeded? then None else Some(Own(Faulted, i.message));
              Tries(m, q, DHook, i, m.(calls := m.calls + [Enabled(i.outcome.Succeeded?)]), fault, DRead, DRead)
  {
    hide SetState, Guard;
  }

  lemma ReadStep(m: Machine, q: Requests, i: Input)
    ensures var fine := i.outcome.Succeeded? || m.code.ClearingFaults?;
            var fault := if fine then None else Some(Own(FaultOf(i.outcome), i.message));
            Tries(m, q, DRead, i, m, fault, DCancel(ThenDone), DIdle)
  {
    hide SetState, Guard;
  }

  lemma ApplyRequestStep(m: Machine, q: Requests, id: nat, r: Request, i: Input)
    ensures MachineAfter(m, DApply(id, r), i) ==
            if Timely(m, r) then SetState(m, Wish(r.to, r.message, ByRequest(id)), i.disabled) else m
    ensures DriverNext(m, q, DApply(id, r), i) ==
            DAnswer(id, if !Timely(m, r) then Cancelled
                        else if Guard(m.code, r.to) == Allowed then Ok
                        else FailedPrecondition)
    ensures RequestsAfter(m, q, DApply(id, r), i) == q
  {
    hide SetState, Guard;
  }

  lemma ModuleStep(m: Machine, q: Requests, life: Lifecycle, i: Input)
    ensures var end := if i.outcome.Succeeded? then Own(Completed(life), "") else Own(FatallyFaulted, i.message);
            Tries(m, q, DModule(life), i, m, Some(end), AfterModule(life), AfterModule(life))
  {
    hide SetState, Guard;
  }

  lemma BeginSteps(m: Machine, q: Requests, i: Input)
    ensures i.callback.OnActivate? ==>
              Tries(m, q, DIdle, i, m, Some(Own(Activating, "")), DCancel(ThenModule(Activation)), DIdle)
    ensures i.callback.OnDeactivate? ==>
              Tries(m, q, DIdle, i, m, Some(Own(Deactivating, "")), DReject(false), DIdle)
    ensures i.callback.OnPrepare? && NeedsDeactivation(m.code) ==>
              Tries(m, q, DIdle, i, m, Some(Own(Deactivating, "")), DReject(true), DPreparing)
    ensures Tries(m, q, DPreparing, i, m, Some(Own(Preparing, "")), DCancel(ThenModule(Preparation)), DIdle)
  {
    hide SetState, Guard;
  }
}
