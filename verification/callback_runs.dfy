/** Runs of the callback handler: an action that finishes, and what a failing Disabled() leads to. */
module CallbackRuns {
  import opened Collections
  import opened TransitionGuard
  import opened CallbackProtocol
  import opened CallbackInvariant
  import opened CallbackTheorems

  /** One more event. */
  lemma Then(s: State, es: seq<Event>, e: Event) returns (longer: seq<Event>)
    ensures Run(s, longer) == Step(Run(s, es), e)
  {
    hide Step;
    longer := es + [e];
    assert longer[..|es|] == es;
  }

  const DISABLED_FAILS := Input(OnReadStatus, Succeeded, Some("Disabled() gave up."), "")

  /** The driver has nothing to do, requests are welcome and the machine is in the state `code`. */
  ghost predicate AtRest(s: State, code: StateCode) {
    && s.driver.DIdle? && s.m.stage.Settled? && s.m.code == code && s.m.updateTime <= s.m.now
    && !s.q.reject && !s.q.locked && |s.q.answers| == |s.q.removed|
  }

  /** Besides, no action is under way and every request has been answered. */
  ghost predicate Calm(s: State, code: StateCode) {
    && AtRest(s, code) && s.q.queue == [] && |s.q.inserted| == |s.q.answers| && s.lock.None?
    && forall t :: 0 <= t < |s.actions| ==> s.actions[t].AIdle?
  }

  /** The three steps that note the time of a new state and show it. */
  lemma Show(s0: State, es0: seq<Event>) returns (es: seq<Event>)
    requires Run(s0, es0).m.stage.Timing?
    ensures var s := Run(s0, es0); var m := Advance(Advance(Advance(s.m)));
            && Run(s0, es) == s.(m := m) && m.stage.Settled? && m.code == s.m.code && m.changes == s.m.changes
            && m.now == s.m.now == m.updateTime && m.previous == s.m.previous
            && m.unread && m.published == s.m.stage.shown
  {
    hide Run;
    es := Then(s0, es0, Drive(QUIET));
    es := Then(s0, es, Drive(QUIET));
    es := Then(s0, es, Drive(QUIET));
  }

  /** One more change, to the state `to`. */
  ghost predicate Extended(before: seq<Change>, after: seq<Change>, to: StateCode) {
    before <= after && |after| == |before| + 1 && after[|before|].to == to
  }

  // ----- An action that finishes -----------------------------------------------------------------------

  /** A cycle of the realtime thread with one timely request that is allowed, up to the answer. */
  lemma CycleDecides(s0: State, es0: seq<Event>, i: Input) returns (es: seq<Event>)
    requires var s := Run(s0, es0);
             && |s.q.queue| == 1 && AtRest(s, s.q.queue[0].from) && i.callback.OnReadStatus? && i.outcome.Succeeded?
             && s.m.updateTime <= s.q.queue[0].timestamp && Guard(s.m.code, s.q.queue[0].to) == Allowed
    ensures var s, s' := Run(s0, es0), Run(s0, es);
            && s'.driver == DAnswer(|s.q.removed|, Ok) && s'.m.stage.Settled? && s'.m.updateTime == s.m.now
            && s'.m.code == Landing(s.m.code, s.q.queue[0].to, i.disabled.Some?) && s'.m.now == s.m.now
            && s'.lock == s.lock && s'.actions == s.actions && Extended(s.m.changes, s'.m.changes, s'.m.code)
            && s'.q == s.q.(queue := [], removed := s.q.removed + s.q.queue)
  {
    hide Run, Guard, Truncated, Landing;
    var s := Run(s0, es0);
    es := Then(s0, es0, Drive(i));
    es := Then(s0, es, Drive(i));
    var s2 := Run(s0, es);
    assert s2.driver == DApply(|s.q.removed|, s.q.queue[0]) && s2.m == s.m.(previous := s.m.code);
    assert s.q.queue[1..] == [] && s.q.removed + [s.q.queue[0]] == s.q.removed + s.q.queue;
    es := Then(s0, es, Drive(i));
    es := Show(s0, es);
  }

  /** The rest of the cycle. */
  lemma CycleEnds(s0: State, es0: seq<Event>) returns (es: seq<Event>)
    requires var s := Run(s0, es0);
             && s.driver.DAnswer? && s.driver.id == |s.q.answers| && |s.q.removed| == |s.q.answers| + 1
             && s.m.stage.Settled? && s.m.updateTime <= s.m.now && !s.q.reject && !s.q.locked
    ensures var s, s' := Run(s0, es0), Run(s0, es);
            && AtRest(s', s.m.code) && s'.lock == s.lock && s'.actions == s.actions && s'.m.changes == s.m.changes
            && s'.m.now == s.m.now && s'.m.updateTime == s.m.updateTime
            && s'.q == s.q.(answers := s.q.answers + [Answer(s.driver.id, s.driver.status, |s.m.changes|)])
  {
    hide Run, Guard, Truncated;
    es := Then(s0, es0, Drive(QUIET));
    es := Then(s0, es, Drive(QUIET));
    es := Then(s0, es, Drive(QUIET));
  }

  lemma Cycle(s0: State, es0: seq<Event>, i: Input) returns (es: seq<Event>)
    requires var s := Run(s0, es0);
             && |s.q.queue| == 1 && AtRest(s, s.q.queue[0].from) && i.callback.OnReadStatus? && i.outcome.Succeeded?
             && s.m.updateTime <= s.q.queue[0].timestamp && Guard(s.m.code, s.q.queue[0].to) == Allowed
    ensures var s, s' := Run(s0, es0), Run(s0, es);
            && AtRest(s', Landing(s.m.code, s.q.queue[0].to, i.disabled.Some?)) && s'.q.queue == []
            && s'.q.inserted == s.q.inserted && s'.m.now == s.m.now && s'.m.updateTime == s.m.now
            && s'.lock == s.lock && s'.actions == s.actions && Extended(s.m.changes, s'.m.changes, s'.m.code)
            && |s'.q.answers| == |s.q.answers| + 1 && s'.q.answers[|s.q.answers|].status.Ok?
  {
    hide Run, Guard, Landing;
    es := CycleDecides(s0, es0, i);
    es := CycleEnds(s0, es);
  }

  /** An action that gets its lock inserts the request to enter its transitional state. */
  lemma ActionAsks(s0: State, es0: seq<Event>, t: nat, kind: Kind) returns (es: seq<Event>)
    requires var s := Run(s0, es0);
             && AtRest(s, s.m.code) && s.q.queue == [] && s.lock.None? && t < |s.actions| && s.actions[t].AIdle?
             && Guard(s.m.code, Entry(kind)) == Allowed
    ensures var s, s' := Run(s0, es0), Run(s0, es);
            && s'.m == s.m && s'.driver == s.driver && s'.lock == Some(t)
            && s'.actions == s.actions[t := AWaiting(kind, |s.q.inserted|)]
            && s'.q.queue == [Request(s.m.code, Entry(kind), "", s.m.now, None)]
            && s'.q == s.q.(queue := s'.q.queue, inserted := s.q.inserted + s'.q.queue)
  {
    hide Run, Guard, Truncated;
    var s := Run(s0, es0);
    es := Then(s0, es0, Act(t, kind, Succeeded, ""));
    assert Run(s0, es).actions == s.actions[t := ALocked(kind)];
    es := Then(s0, es, Act(t, kind, Succeeded, ""));
    assert Run(s0, es).actions == s.actions[t := AChosen(kind, s.m.code)];
    es := Then(s0, es, Act(t, kind, Succeeded, ""));
    assert Run(s0, es).actions == s.actions[t := AStamped(kind, s.m.code, s.m.now)];
    es := Then(s0, es, Act(t, kind, Succeeded, ""));
  }

  /** Granted, it calls the module and inserts the request to leave that state. */
  lemma ActionCloses(s0: State, es0: seq<Event>, t: nat, kind: Kind, id: nat) returns (es: seq<Event>)
    requires var s := Run(s0, es0);
             && AtRest(s, s.m.code) && s.q.queue == [] && s.lock == Some(t) && t < |s.actions|
             && s.actions[t] == AWaiting(kind, id) && id < |s.q.answers| && s.q.answers[id].status.Ok?
    ensures var s, s' := Run(s0, es0), Run(s0, es);
            && s'.m == s.m && s'.driver == s.driver && s'.lock == Some(t)
            && s'.actions == s.actions[t := AClosed(|s.q.inserted|)]
            && s'.q.queue == [Request(Entry(kind), Exit(kind), "", s.m.now, Some(id))]
            && s'.q == s.q.(queue := s'.q.queue, inserted := s.q.inserted + s'.q.queue)
  {
    hide Run, Guard;
    var s := Run(s0, es0);
    es := Then(s0, es0, Act(t, kind, Succeeded, ""));
    assert Run(s0, es).actions == s.actions[t := ARunning(kind, id)];
    es := Then(s0, es, Act(t, kind, Succeeded, ""));
    assert Run(s0, es).actions == s.actions[t := AClosing(kind, id, Exit(kind), "")];
    es := Then(s0, es, Act(t, kind, Succeeded, ""));
    assert Run(s0, es).actions == s.actions[t := ALeaving(kind, id, Exit(kind), "", s.m.now)];
    es := Then(s0, es, Act(t, kind, Succeeded, ""));
  }

  lemma ActionReturns(s0: State, es0: seq<Event>, t: nat, id: nat) returns (es: seq<Event>)
    requires var s := Run(s0, es0);
             s.lock == Some(t) && t < |s.actions| && s.actions[t] == AClosed(id) && id < |s.q.answers|
    ensures var s := Run(s0, es0); Run(s0, es) == s.(lock := None, actions := s.actions[t := AIdle])
  {
    hide Run;
    es := Then(s0, es0, Act(t, EnableMotion, Succeeded, ""));
  }

  /** An action that is allowed can enter its transitional state, */
  lemma ActionEnters(s0: State, es0: seq<Event>, t: nat, kind: Kind, i: Input) returns (es: seq<Event>)
    requires var s := Run(s0, es0); Calm(s, s.m.code) && t < |s.actions| && Guard(s.m.code, Entry(kind)) == Allowed
    requires i.callback.OnReadStatus? && i.outcome.Succeeded?
    ensures var s, s' := Run(s0, es0), Run(s0, es); var id := |s.q.inserted|;
            && AtRest(s', Landing(s.m.code, Entry(kind), i.disabled.Some?)) && s'.q.queue == [] && s'.lock == Some(t)
            && s'.actions == s.actions[t := AWaiting(kind, id)] && |s'.q.inserted| == |s'.q.answers| == id + 1
            && s'.q.inserted[id].to == Entry(kind) && s'.q.answers[id].status.Ok?
            && Extended(s.m.changes, s'.m.changes, s'.m.code)
  {
    hide Run, Guard, Landing;
    es := ActionAsks(s0, es0, t, kind);
    es := Cycle(s0, es, i);
  }

  /** and leave it again. */
  lemma ActionLeaves(s0: State, es0: seq<Event>, t: nat, kind: Kind, id: nat) returns (es: seq<Event>)
    requires var s := Run(s0, es0);
             && AtRest(s, Entry(kind)) && s.q.queue == [] && s.lock == Some(t) && t < |s.actions|
             && s.actions[t] == AWaiting(kind, id) && |s.q.inserted| == |s.q.answers| == id + 1
             && s.q.answers[id].status.Ok? && forall u :: 0 <= u < |s.actions| && u != t ==> s.actions[u].AIdle?
    ensures var s, s' := Run(s0, es0), Run(s0, es);
            Calm(s', Exit(kind)) && Extended(s.m.changes, s'.m.changes, Exit(kind)) && |s'.actions| == |s.actions|
  {
    var s := Run(s0, es0);
    assert Guard(Entry(kind), Exit(kind)) == Allowed && Landing(Entry(kind), Exit(kind), false) == Exit(kind);
    hide Run, Guard, Landing;
    es := ActionCloses(s0, es0, t, kind, id);
    es := Cycle(s0, es, QUIET);
    es := ActionReturns(s0, es, t, id + 1);
  }

  /** Undisturbed, an action that is allowed can always be completed, with exactly two changes. */
  lemma ActionCanFinish(s0: State, es0: seq<Event>, t: nat, kind: Kind) returns (es: seq<Event>)
    requires var s := Run(s0, es0); Calm(s, s.m.code) && t < |s.actions| && Guard(s.m.code, Entry(kind)) == Allowed
    ensures var s, s' := Run(s0, es0), Run(s0, es);
            && Calm(s', Exit(kind)) && |s'.actions| == |s.actions| && |s'.m.changes| == |s.m.changes| + 2
            && s.m.changes <= s'.m.changes && s'.m.changes[|s.m.changes|].to == Entry(kind)
            && s'.m.changes[|s.m.changes| + 1].to == Exit(kind)
  {
    var s := Run(s0, es0);
    assert Landing(s.m.code, Entry(kind), false) == Entry(kind);
    hide Run, Guard, AtRest, Landing;
    es := ActionEnters(s0, es0, t, kind, QUIET);
    es := ActionLeaves(s0, es, t, kind, |s.q.inserted|);
  }

  /** In two changes from `from`, first to `via` and then to `to`. */
  ghost predicate Did(s: State, s': State, from: StateCode, via: StateCode, to: StateCode) {
    && s.m.code == from && Calm(s', to) && s.m.changes <= s'.m.changes && |s'.m.changes| == |s.m.changes| + 2
    && s'.m.changes[|s.m.changes|].to == via && s'.m.changes[|s.m.changes| + 1].to == to
  }

  /** From Activated motion can be enabled, from MotionEnabled disabled, and from Faulted the faults cleared. */
  lemma EachActionDoesItsWork(s0: State, es0: seq<Event>, t: nat, kind: Kind) returns (es: seq<Event>)
    requires var s := Run(s0, es0);
             && t < |s.actions|
             && Calm(s, match kind
                        case EnableMotion => Activated
                        case DisableMotion => MotionEnabled
                        case ClearFaults => Faulted)
    ensures var s, s' := Run(s0, es0), Run(s0, es);
            match kind
            case EnableMotion => Did(s, s', Activated, MotionEnabling, MotionEnabled)
            case DisableMotion => Did(s, s', MotionEnabled, MotionDisabling, Activated)
            case ClearFaults => Did(s, s', Faulted, ClearingFaults, Activated)
  {
    var s := Run(s0, es0);
    assert Calm(s, s.m.code) && Guard(s.m.code, Entry(kind)) == Allowed;
    hide Run, Calm, Guard;
    es := ActionCanFinish(s0, es0, t, kind);
  }

  // ----- Faults -------------------------------------------------------------------------------------------

  /** A cycle without requests in which ReadStatus() fails, up to the fault. */
  lemma CycleFails(s0: State, es0: seq<Event>, outcome: Outcome) returns (es: seq<Event>)
    requires var s := Run(s0, es0); Calm(s, s.m.code) && !s.m.code.ClearingFaults? && !outcome.Succeeded?
    requires Guard(Run(s0, es0).m.code, if outcome.Aborted? then FatallyFaulted else Faulted) == Allowed
    ensures var s, s' := Run(s0, es0), Run(s0, es);
            && s'.driver == DCancel(ThenDone) && s'.m.stage.Timing? && s'.q == s.q && s'.lock == s.lock
            && s'.actions == s.actions && s'.m.code == if outcome.Aborted? then FatallyFaulted else Faulted
  {
    hide Run, Guard, Truncated;
    es := Then(s0, es0, Drive(QUIET));
    es := Then(s0, es, Drive(QUIET));
    es := Then(s0, es, Drive(QUIET));
    es := Then(s0, es, Drive(Input(OnReadStatus, outcome, None, "")));
  }

  lemma {:induction false} FailingCycle(s0: State, es0: seq<Event>, outcome: Outcome) returns (es: seq<Event>)
    requires var s := Run(s0, es0); Calm(s, s.m.code) && !s.m.code.ClearingFaults? && !outcome.Succeeded?
    requires Guard(Run(s0, es0).m.code, if outcome.Aborted? then FatallyFaulted else Faulted) == Allowed
    ensures Calm(Run(s0, es), if outcome.Aborted? then FatallyFaulted else Faulted)
    ensures |Run(s0, es).actions| == |Run(s0, es0).actions|
  {
    hide Run, Guard, Truncated;
    es := CycleFails(s0, es0, outcome);
    es := Show(s0, es);
    es := Then(s0, es, Drive(QUIET));
  }

  /**
   Whenever a cycle can fault: an ordinary error of ReadStatus() leads to Faulted, from where clearing the faults brings
   the module back to Activated; an aborted one leads to FatallyFaulted, where it stays.
   */
  lemma FaultsCanBeCleared(s0: State, es0: seq<Event>, t: nat) returns (faulted: seq<Event>, cleared: seq<Event>)
    requires var s := Run(s0, es0);
             Calm(s, s.m.code) && t < |s.actions| && !s.m.code.ClearingFaults? && Guard(s.m.code, Faulted) == Allowed
    ensures Calm(Run(s0, faulted), Faulted) && Calm(Run(s0, cleared), Activated)
    ensures Did(Run(s0, faulted), Run(s0, cleared), Faulted, ClearingFaults, Activated)
  {
    hide Run, Guard;
    faulted := FailingCycle(s0, es0, Failed);
    cleared := EachActionDoesItsWork(s0, faulted, t, ClearFaults);
  }

  lemma AbortedStays(s0: State, es0: seq<Event>) returns (aborted: seq<Event>)
    requires var s := Run(s0, es0); Calm(s, s.m.code) && !s.m.code.ClearingFaults? && !s.m.code.FatallyFaulted?
    ensures Calm(Run(s0, aborted), FatallyFaulted)
    ensures forall more :: Run(Run(s0, aborted), more).m.code.FatallyFaulted?
  {
    assert Guard(Run(s0, es0).m.code, FatallyFaulted) == Allowed;
    hide Run, Guard;
    aborted := FailingCycle(s0, es0, Aborted);
    forall more ensures Run(Run(s0, aborted), more).m.code.FatallyFaulted? {
      FatalIsFinal(Run(s0, aborted), more);
    }
  }

  // ----- Getting the module to move ----------------------------------------------------------------------

  /** The steps of a lifecycle callback after its first change: nothing to cancel, then the module, which succeeds. */
  lemma ModuleSucceeds(s0: State, es0: seq<Event>) returns (es: seq<Event>)
    requires var s := Run(s0, es0);
             && s.m.stage.Timing? && s.driver.DCancel? && s.driver.next.ThenModule? && s.q.queue == []
             && !s.m.code.MotionEnabled? && Guard(s.m.code, Completed(s.driver.next.life)) == Allowed
    ensures var s, s' := Run(s0, es0), Run(s0, es);
            && s'.m.stage.Settled? && s'.m.code == Completed(s.driver.next.life) && s'.q == s.q && s'.lock == s.lock
            && s'.actions == s.actions && s'.m.now == s.m.now == s'.m.updateTime
            && s'.m.unread && s'.m.published.code == s'.m.code
            && s'.driver == AfterModule(s.driver.next.life)
  {
    hide Run, Guard, Truncated;
    es := Show(s0, es0);
    es := Then(s0, es, Drive(QUIET));
    es := Then(s0, es, Drive(QUIET));
    es := Show(s0, es);
  }

  lemma Prepares(s0: State, es0: seq<Event>) returns (es: seq<Event>)
    requires Calm(Run(s0, es0), Deactivated)
    ensures Calm(Run(s0, es), Prepared) && |Run(s0, es).actions| == |Run(s0, es0).actions|
    ensures Run(s0, es).m.unread && Run(s0, es).m.published.code.Prepared?
  {
    assert Guard(Deactivated, Preparing) == Guard(Preparing, Prepared) == Allowed;
    hide Run, Guard, Truncated;
    es := Then(s0, es0, Drive(Input(OnPrepare, Succeeded, None, "")));
    es := Then(s0, es, Drive(QUIET));
    es := ModuleSucceeds(s0, es);
  }

  lemma Activates(s0: State, es0: seq<Event>) returns (es: seq<Event>)
    requires Calm(Run(s0, es0), Prepared)
    ensures Calm(Run(s0, es), Activated) && |Run(s0, es).actions| == |Run(s0, es0).actions|
  {
    assert Guard(Prepared, Activating) == Guard(Activating, Activated) == Allowed;
    hide Run, Guard, Truncated;
    es := Then(s0, es0, Drive(Input(OnActivate, Succeeded, None, "")));
    es := ModuleSucceeds(s0, es);
    es := Then(s0, es, Drive(QUIET));
  }

  lemma MotionGetsEnabled() returns (es: seq<Event>)
    ensures Calm(Run(Init(1), es), MotionEnabled) && |Run(Init(1), es).actions| == 1
  {
    es := [];
    assert Calm(Run(Init(1), es), Deactivated);
    assert Guard(Activated, MotionEnabling) == Allowed;
    hide Run, Init, Guard;
    es := Prepares(Init(1), es);
    es := Activates(Init(1), es);
    es := ActionCanFinish(Init(1), es, 0, EnableMotion);
  }

  /** Of two calls of GetHardwareModuleState in a prepared module the second is told that it is deactivated. */
  lemma ReportedOnce() returns (es: seq<Event>)
    ensures var s := Run(Init(1), es); var s' := Step(s, Observe);
            && s.m.code.Prepared? && Reported(s.m).code.Prepared?
            && s'.m.code.Prepared? && Reported(s'.m).code.Deactivated?
  {
    es := [];
    assert Calm(Run(Init(1), es), Deactivated);
    hide Run, Init;
    es := Prepares(Init(1), es);
  }

  // ----- What a failing Disabled() leads to ----------------------------------------------------------------

  /** A request to disable motion is answered OK, and yet the module is in Faulted. */
  lemma GrantedButFaulted() returns (es: seq<Event>)
    ensures var s := Run(Init(1), es);
            && s.q.answers != [] && |s.q.inserted| == |s.q.answers| && s.m.code.Faulted?
            && s.q.answers[|s.q.answers| - 1].status.Ok? && s.q.inserted[|s.q.inserted| - 1].to.MotionDisabling?
  {
    assert Guard(MotionEnabled, MotionDisabling) == Allowed;
    hide Run, Init, Guard;
    es := MotionGetsEnabled();
    es := ActionEnters(Init(1), es, 0, DisableMotion, DISABLED_FAILS);
  }

  /** A deactivation is about to call the module, the call succeeds, and the deactivation is over in Faulted. */
  lemma DeactivatedToFaulted() returns (before: seq<Event>, i: Input)
    ensures Run(Init(1), before).driver == DModule(Deactivation(false)) && i.outcome.Succeeded?
    ensures var s := Step(Run(Init(1), before), Drive(i));
            s.driver.DIdle? && s.m.stage.Settled? && s.m.code.Faulted? && s.q.reject && s.q.queue == []
  {
    i := QUIET;
    before := MotionGetsEnabled();
    before := FailingDeactivation(Init(1), before);
  }

  /** A deactivation up to the call of the module. */
  lemma DeactivationBegins(s0: State, es0: seq<Event>, i: Input) returns (es: seq<Event>)
    requires var s := Run(s0, es0);
             && s.driver.DIdle? && s.m.stage.Settled? && s.q.queue == [] && i.callback.OnDeactivate?
             && Guard(s.m.code, Deactivating) == Allowed
    ensures var s, s' := Run(s0, es0), Run(s0, es);
            && s'.driver == DModule(Deactivation(false)) && s'.m.stage.Settled? && s'.lock == s.lock
            && s'.m.code == Landing(s.m.code, Deactivating, i.disabled.Some?) && s'.actions == s.actions
            && s'.q == s.q.(reject := true)
  {
    hide Run, Guard, Truncated, Landing;
    es := Then(s0, es0, Drive(i));
    es := Show(s0, es);
    es := Then(s0, es, Drive(QUIET));
    es := Then(s0, es, Drive(QUIET));
  }

  lemma FailingDeactivation(s0: State, es0: seq<Event>) returns (es: seq<Event>)
    requires Calm(Run(s0, es0), MotionEnabled)
    ensures Run(s0, es).driver == DModule(Deactivation(false))
    ensures var s := Step(Run(s0, es), Drive(QUIET));
            s.driver.DIdle? && s.m.stage.Settled? && s.m.code.Faulted? && s.q.reject && s.q.queue == []
  {
    assert Guard(MotionEnabled, Deactivating) == Allowed && Guard(Faulted, Deactivated) == Prohibited;
    hide Run, Guard, Truncated;
    es := DeactivationBegins(s0, es0, Input(OnDeactivate, Succeeded, Some("Disabled() gave up."), ""));
  }

  /** A request slips into the queue behind a deactivation, by an action that had looked before. */
  lemma SlipsBehindDeactivation() returns (es: seq<Event>)
    ensures var s := Run(Init(1), es); s.driver.DIdle? && s.m.code.Deactivated? && s.q.reject && |s.q.queue| == 1
  {
    es := [];
    assert Calm(Run(Init(1), es), Deactivated) && |Run(Init(1), es).actions| == 1;
    es := Prepares(Init(1), es);
    es := Activates(Init(1), es);
    es := LateInsertion(Init(1), es);
  }

  lemma Deactivates(s0: State, es0: seq<Event>) returns (es: seq<Event>)
    requires var s := Run(s0, es0); s.driver.DIdle? && s.m.stage.Settled? && s.m.code.Activated? && s.q.queue == []
    ensures var s, s' := Run(s0, es0), Run(s0, es);
            && s'.driver.DIdle? && s'.m.stage.Settled? && s'.m.code.Deactivated? && s'.q == s.q.(reject := true)
            && s'.lock == s.lock && s'.actions == s.actions
  {
    assert Guard(Activated, Deactivating) == Allowed && Guard(Deactivating, Deactivated) == Allowed;
    hide Run, Guard, Truncated;
    es := DeactivationBegins(s0, es0, Input(OnDeactivate, Succeeded, None, ""));
    es := Then(s0, es, Drive(QUIET));
    es := Show(s0, es);
  }

  lemma LateInsertion(s0: State, es0: seq<Event>) returns (es: seq<Event>)
    requires Calm(Run(s0, es0), Activated) && |Run(s0, es0).actions| == 1
    ensures var s := Run(s0, es); s.driver.DIdle? && s.m.code.Deactivated? && s.q.reject && |s.q.queue| == 1
  {
    hide Run;
    es := ActionLooks(s0, es0);
    es := Deactivates(s0, es);
    es := Then(s0, es, Act(0, EnableMotion, Succeeded, ""));
  }

  lemma ActionLooks(s0: State, es0: seq<Event>) returns (es: seq<Event>)
    requires Calm(Run(s0, es0), Activated) && |Run(s0, es0).actions| == 1
    ensures var s, s' := Run(s0, es0), Run(s0, es);
            && s'.m == s.m && s'.driver == s.driver && s'.q == s.q.(locked := true)
            && |s'.actions| == 1 && s'.actions[0] == AStamped(EnableMotion, Activated, s.m.now)
  {
    assert Guard(Activated, MotionEnabling) == Allowed;
    hide Run, Guard;
    es := Then(s0, es0, Act(0, EnableMotion, Succeeded, ""));
    es := Then(s0, es, Act(0, EnableMotion, Succeeded, ""));
    es := Then(s0, es, Act(0, EnableMotion, Succeeded, ""));
  }
}
