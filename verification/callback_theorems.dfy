/** What holds of every run of the callback handler. */
module CallbackTheorems {
  import opened Collections
  import opened TransitionGuard
  import opened CallbackProtocol
  import opened CallbackInvariant

  /** The states a machine has been through. */
  function States(changes: seq<Change>): (states: seq<StateCode>)
    ensures |states| == |changes| + 1
  {
    [Deactivated] + seq(|changes|, k requires 0 <= k < |changes| => changes[k].to)
  }

  /** How many changes have been published. */
  function Published(m: Machine): int {
    if m.stage.Settled? then |m.changes| else |m.changes| - 1
  }

  /** A history is a path of the guard that ends where the last change led. */
  lemma HistoryIsPath(changes: seq<Change>, inserted: seq<Request>)
    requires History(changes, inserted)
    ensures Path(States(changes)) && States(changes)[|changes|] == Origin(changes, |changes|)
    ensures changes != [] ==> States(changes)[|changes| - 1] == changes[|changes| - 1].from
  {
    hide Guard;
    var states := States(changes);
    forall i | 0 < i < |states| ensures Guard(states[i - 1], states[i]) == Allowed {
      assert Lawful(changes, inserted, i - 1);
    }
    if changes != [] { assert Lawful(changes, inserted, |changes| - 1); }
  }

  /**
   Every run goes from Deactivated along edges that the guard allows. Outside SetStateDirectly the code, the state in
   shared memory and the published state agree; inside it they show the new state or still the one before, shared
   memory never later than the published buffer.
   */
  lemma LegalRuns(threads: nat, es: seq<Event>)
    ensures var m := Run(Init(threads), es).m; var states, n := States(m.changes), |m.changes|;
            && Path(states) && states[n] == m.code && (m.stage.Settled? ==> m.shared == m.published)
            && 0 <= Published(m) && m.published.code == states[Published(m)]
            && m.shared.code == states[if m.stage.Timing? || m.stage.Sharing? then n - 1 else n]
  {
    RunsKeepInv(threads, es);
    var s := Run(Init(threads), es);
    assert MachineInv(s.m, s.q.inserted);
    hide Inv, Run, Init, Path, History, Origin, States;
    HistoryIsPath(s.m.changes, s.q.inserted);
  }

  lemma FatalStep(s: State, e: Event)
    requires s.m.code.FatallyFaulted?
    ensures var m := Step(s, e).m;
            && m.code == s.m.code && m.changes == s.m.changes && m.calls == s.m.calls
            && (s.m.stage.Settled? ==> m.stage.Settled? && m.shared == s.m.shared && m.published == s.m.published)
  {
    hide Landing, Truncated;
    if e.Drive? && s.m.stage.Settled? {
      var m0, wanted := Prelude(s.m, s.driver, e.i), Wanted(s.m, s.driver, e.i);
      assert m0 == s.m.(previous := m0.previous);
      if wanted.Some? { Refused(m0, wanted.value, e.i.disabled); }
    }
  }

  /** Nothing happens to a fatally faulted module any more, in any state and whatever follows. */
  lemma {:induction false} FatalIsFinal(s: State, es: seq<Event>)
    requires s.m.code.FatallyFaulted?
    ensures var m := Run(s, es).m;
            && m.code == s.m.code && m.changes == s.m.changes && m.calls == s.m.calls
            && (s.m.stage.Settled? ==> m.stage.Settled? && m.shared == s.m.shared && m.published == s.m.published)
  {
    if es != [] {
      hide Step;
      FatalIsFinal(s, es[..|es| - 1]);
      FatalStep(Run(s, es[..|es| - 1]), es[|es| - 1]);
    }
  }

  ghost predicate Alternating(hooks: seq<bool>) {
    forall k :: 0 <= k < |hooks| ==> hooks[k] == (k % 2 == 0)
  }

  lemma {:induction false} TraceAlternates(changes: seq<Change>, inserted: seq<Request>)
    requires History(changes, inserted)
    ensures Alternating(Trace(changes))
    ensures |Trace(changes)| % 2 == (if Origin(changes, |changes|).MotionEnabled? then 1 else 0)
    decreases |changes|
  {
    if changes != [] {
      var n := |changes| - 1;
      var before := changes[..n];
      forall k | 0 <= k < n ensures Lawful(before, inserted, k) { assert Lawful(changes, inserted, k); }
      TraceAlternates(before, inserted);
      assert Lawful(changes, inserted, n);
    }
  }

  /**
   Enabled() and Disabled() are called in turn, one Enabled() for each change to MotionEnabled (but one that
   is still due in this cycle) and one Disabled() for each change from it; ApplyCommand() is called only after
   an Enabled() that succeeded and before the Disabled() that follows.
   */
  lemma HookPairing(threads: nat, es: seq<Event>)
    ensures var s := Run(Init(threads), es);
            && Alternating(Hooks(s.m.calls)) && Proper(s.m.calls)
            && Hooks(s.m.calls) + (if Pending(s.m, s.driver) then [true] else []) == Trace(s.m.changes)
  {
    RunsKeepInv(threads, es);
    hide Run, Init, Hooks, Trace, Proper;
    var s := Run(Init(threads), es);
    TraceAlternates(s.m.changes, s.q.inserted);
    forall k | 0 <= k < |Hooks(s.m.calls)| ensures Hooks(s.m.calls)[k] == Trace(s.m.changes)[k] {
    }
  }

  /**
   Requests leave the queue in the order in which they came, each is answered once, and the answer is Ok
   exactly when the request has changed the state, to its target or to Faulted after a failing Disabled().
   */
  lemma RequestConservation(threads: nat, es: seq<Event>, id: nat)
    ensures var s := Run(Init(threads), es);
            && s.q.inserted == s.q.removed + s.q.queue && |s.q.queue| <= MAX_PENDING_REQUESTS
            && |s.q.answers| == Answered(s.q, s.driver)
            && (id < |s.q.answers| ==>
                  && s.q.answers[id].id == id
                  && (s.q.answers[id].status.Ok? <==> exists k :: ChangedBy(s.m.changes, k, id)))
  {
    RunsKeepInv(threads, es);
    hide Run, Init;
    var s := Run(Init(threads), es);
    if id < |s.q.answers| {
      assert OkForChange(s.m.changes, s.q.answers, id);
      if s.q.answers[id].status.Ok? { assert ChangedBy(s.m.changes, s.q.answers[id].at - 1, id); }
      forall k | ChangedBy(s.m.changes, k, id) ensures s.q.answers[id].status.Ok? {
        assert ChangeForOk(s.m.changes, s.q.answers, s.driver, k);
      }
    }
  }

  ghost predicate ChangedBy(changes: seq<Change>, k: int, id: nat) {
    0 <= k < |changes| && changes[k].source == ByRequest(id)
  }

  /** A request changes the state at most once, from the state it names, as it wants, and before it is outdated. */
  lemma ChangeByRequest(threads: nat, es: seq<Event>, id: nat, k: nat)
    requires ChangedBy(Run(Init(threads), es).m.changes, k, id)
    ensures var s := Run(Init(threads), es);
            && id < |s.q.inserted| && s.m.changes[k].from == s.q.inserted[id].from
            && Landed(s.m.changes[k], s.q.inserted[id].to)
            && s.q.inserted[id].timestamp <= s.m.changes[k].time
            && (k > 0 ==> s.m.changes[k - 1].time <= s.q.inserted[id].timestamp)
            && (forall j :: ChangedBy(s.m.changes, j, id) ==> j == k)
  {
    RunsKeepInv(threads, es);
    hide Run, Init;
    var s := Run(Init(threads), es);
    assert Lawful(s.m.changes, s.q.inserted, k);
    forall j | ChangedBy(s.m.changes, j, id) ensures j == k {
    }
  }

  /**
   The change that closes an action is always the very next one after the change with which that action entered
   its transitional state: an action that anything has come between is never completed.
   */
  lemma ClosingFollowsEntry(threads: nat, es: seq<Event>, id: nat, k: nat)
    requires ChangedBy(Run(Init(threads), es).m.changes, k, id) && id < |Run(Init(threads), es).q.inserted|
    requires Run(Init(threads), es).q.inserted[id].closes.Some?
    ensures var s := Run(Init(threads), es);
            var entry := s.q.inserted[id].closes.value;
            && ChangedBy(s.m.changes, k - 1, entry) && entry < |s.q.inserted|
            && s.m.changes[k - 1].to == s.q.inserted[entry].to == s.q.inserted[id].from
            && Transitional(s.q.inserted[id].from)
  {
    RunsKeepInv(threads, es);
    hide Run, Init, Guard;
    var s := Run(Init(threads), es);
    var changes, q := s.m.changes, s.q;
    assert Closes(q, id);
    var entry := q.inserted[id].closes.value;
    assert OkForChange(changes, q.answers, entry);
    var j := q.answers[entry].at - 1;
    assert changes[j].source == ByRequest(entry) && j < k;
    assert Lawful(changes, q.inserted, k) && Lawful(changes, q.inserted, k - 1);
  }

  /**
   Faults and deactivations win over an ongoing action: once any other change has followed the one with which an
   action entered its state, or that one has landed elsewhere, no continuation applies its closing request.
   */
  lemma FaultsWin(threads: nat, es: seq<Event>, later: seq<Event>, entry: nat, k: nat, id: nat)
    requires ChangedBy(Run(Init(threads), es).m.changes, k, entry)
    requires var changes := Run(Init(threads), es).m.changes;
             (k + 1 < |changes| && changes[k + 1].source != ByRequest(id)) || !Transitional(changes[k].to)
    requires var q := Run(Init(threads), es + later).q; id < |q.inserted| && q.inserted[id].closes == Some(entry)
    ensures forall j :: !ChangedBy(Run(Init(threads), es + later).m.changes, j, id)
  {
    HistoryGrows(threads, es, later);
    hide Run, Init, Guard;
    var changes, changes' := Run(Init(threads), es).m.changes, Run(Init(threads), es + later).m.changes;
    assert changes'[..|changes|] == changes;
    assert ChangedBy(changes', k, entry);
    ChangeByRequest(threads, es + later, entry, k);
    forall j ensures !ChangedBy(changes', j, id) {
      if ChangedBy(changes', j, id) { ClosingFollowsEntry(threads, es + later, id, j); }
    }
  }

  lemma {:induction false} HistoryGrows(threads: nat, es: seq<Event>, later: seq<Event>)
    ensures Run(Init(threads), es).m.changes <= Run(Init(threads), es + later).m.changes
    decreases |later|
  {
    if later == [] {
      assert es + later == es;
    } else {
      var n := |later| - 1;
      HistoryGrows(threads, es, later[..n]);
      assert (es + later)[..|es + later| - 1] == es + later[..n];
      hide Init;
      StepGrows(Run(Init(threads), es + later[..n]), later[n]);
    }
  }

  lemma StepGrows(s: State, e: Event)
    ensures s.m.changes <= Step(s, e).m.changes
  {
    if e.Drive? && s.m.stage.Settled? {
      hide Changes, MachineAfter;
      ChangeMade(s.m, s.driver, e.i);
    }
  }

  // ----- What other threads are told --------------------------------------------------------------------

  /** How many changes had been published when GetHardwareModuleState was last called. */
  ghost function Seen(s: State, es: seq<Event>): int {
    if es == [] then 0 else if es[|es| - 1].Observe? then Published(Run(s, es).m) else Seen(s, es[..|es| - 1])
  }

  /**
   GetHardwareModuleState has a state to report exactly when one has been published since it was last called, and it is
   then the one published last; otherwise it returns a default one.
   */
  lemma {:induction false} ReportedExactlyWhen(threads: nat, es: seq<Event>)
    ensures var m := Run(Init(threads), es).m;
            && Seen(Init(threads), es) <= Published(m)
            && (m.unread <==> Seen(Init(threads), es) < Published(m))
  {
    if es != [] {
      var before, e := Run(Init(threads), es[..|es| - 1]), es[|es| - 1];
      ReportedExactlyWhen(threads, es[..|es| - 1]);
      hide Init;
      if e.Drive? && before.m.stage.Settled? {
        hide Changes, MachineAfter;
        ChangeMade(before.m, before.driver, e.i);
        UnreadAfter(before.m, before.driver, e.i);
      }
    }
  }

  lemma UnreadAfter(m: Machine, d: DriverPc, i: Input)
    requires m.stage.Settled?
    ensures var m' := MachineAfter(m, d, i); m'.unread == m.unread && m'.stage.Settled? == !Changes(m, d, i)
  {
    hide Guard, Landing, Truncated;
    var m0 := Prelude(m, d, i);
    assert m0.unread == m.unread && m0.code == m.code && m0.stage == m.stage;
  }

  // ----- No request gets past a closed door ---------------------------------------------------------------

  /** The driver is not on its way to accepting requests again. */
  predicate Closing(d: DriverPc) {
    !d.DAccept? && d != DModule(Activation) && !((d.DCancel? || d.DDrop?) && d.next == ThenModule(Activation))
  }

  ghost predicate NoActivation(es: seq<Event>) {
    forall e :: e in es && e.Drive? ==> !e.i.callback.OnActivate?
  }

  /** Requests are rejected, and no action is past its look at that. */
  ghost predicate Sealed(s: State) {
    s.q.reject && Closing(s.driver) && forall t :: 0 <= t < |s.actions| ==> !InsideLock(s.actions[t])
  }

  lemma StepKeepsSealed(s: State, e: Event)
    requires Sealed(s) && !(e.Drive? && e.i.callback.OnActivate?)
    ensures Sealed(Step(s, e)) && Step(s, e).q.inserted == s.q.inserted
  {
    hide Guard, Truncated, MachineAfter, Changes, Timely;
    match e {
      case Drive(i) => if s.m.stage.Settled? { DriverStaysClosing(s.m, s.q, s.driver, i); }
      case Act(t, _, _, _) =>
      case GiveUp(t) =>
      case Tick(_) =>
      case Observe =>
    }
  }

  lemma DriverStaysClosing(m: Machine, q: Requests, d: DriverPc, i: Input)
    requires Closing(d) && !i.callback.OnActivate? && q.reject
    ensures Closing(DriverNext(m, q, d, i))
    ensures RequestsAfter(m, q, d, i).reject && RequestsAfter(m, q, d, i).inserted == q.inserted
  {
    hide Changes, Timely;
    match d {
      case DCancel(next) =>
      case DDrop(next) =>
      case DModule(life) =>
      case DIdle =>
      case _ =>
    }
  }

  /**
   Once requests are rejected with no action past its look at that, none is made until the module is activated again. A
   Shutdown gets there by its lock; a deactivation does not take it, so that one request can still slip in behind it.
   */
  lemma {:induction false} NothingSlipsIn(s: State, es: seq<Event>)
    requires Sealed(s) && NoActivation(es)
    ensures Sealed(Run(s, es)) && Run(s, es).q.inserted == s.q.inserted
    decreases |es|
  {
    hide Sealed, Step;
    if es != [] {
      assert es[|es| - 1] in es;
      NothingSlipsIn(s, es[..|es| - 1]);
      StepKeepsSealed(Run(s, es[..|es| - 1]), es[|es| - 1]);
    }
  }

  /** How far the driver is from taking a request out of a full queue, if all goes well. */
  function StepsToRoom(d: DriverPc): nat {
    match d
    case DPop => 0
    case DDrop(_) => 0
    case DCancel(_) => 1
    case DIdle => 1
    case DRead => 2
    case DHook => 3
    case DAnswer(_, _) => 4
    case DApply(_, _) => 5
    case DReject(_) => 2
    case DPreparing => 2
    case DModule(_) => 3
    case DAccept => 2
  }

  function StepsToSettle(stage: Stage): nat {
    match stage
    case Settled => 0
    case Publishing(_) => 1
    case Sharing(_) => 2
    case Timing(_) => 3
  }

  lemma NearerToRoom(s: State)
    requires s.q.reject && Closing(s.driver) && s.q.queue != []
    ensures var s' := Step(s, Drive(QUIET));
            && s'.q.reject && Closing(s'.driver) && s'.actions == s.actions && s'.q.inserted == s.q.inserted
            && (|| |s'.q.queue| == |s.q.queue| - 1
                || (&& s'.q.queue == s.q.queue
                    && (|| StepsToRoom(s'.driver) < StepsToRoom(s.driver)
                        || (&& s'.driver == s.driver
                            && StepsToSettle(s'.m.stage) < StepsToSettle(s.m.stage)))))
  {
    hide Guard, Truncated, MachineAfter, Changes, Timely;
    if s.m.stage.Settled? {
      DriverStaysClosing(s.m, s.q, s.driver, QUIET);
      if s.driver.DRead? { assert !Changes(s.m, s.driver, QUIET) by { NothingWanted(s.m); } }
    }
  }

  lemma NothingWanted(m: Machine)
    ensures !Changes(m, DRead, QUIET)
  {
  }

  /** Left to itself, the driver takes a request out of a full queue. */
  lemma {:induction false} MakesRoom(s: State) returns (es: seq<Event>)
    requires s.q.reject && Closing(s.driver)
    ensures NoActivation(es)
    ensures var s' := Run(s, es); HasRoom(s'.q) && s'.actions == s.actions && s'.q.inserted == s.q.inserted
    decreases |s.q.queue|, StepsToRoom(s.driver), StepsToSettle(s.m.stage)
  {
    if HasRoom(s.q) {
      es := [];
    } else {
      NearerToRoom(s);
      hide Step, Closing, StepsToRoom, StepsToSettle;
      es := MakesRoom(Step(s, Drive(QUIET)));
      RunThen(s, Drive(QUIET), es);
      es := [Drive(QUIET)] + es;
    }
  }

  lemma {:induction false} RunThen(s: State, e: Event, es: seq<Event>)
    ensures Run(s, [e] + es) == Run(Step(s, e), es)
    decreases |es|
  {
    hide Step;
    var all := [e] + es;
    if es == [] {
      assert all[..|all| - 1] == [];
    } else {
      assert all[..|all| - 1] == [e] + es[..|es| - 1];
      RunThen(s, e, es[..|es| - 1]);
    }
  }

  /**
   Exactly when a request can still slip in behind a closed door: an action is past its look at the door, between taking
   the buffer lock and inserting.
   */
  lemma SlipsInExactlyWhen(s: State)
    requires s.q.reject && Closing(s.driver)
    ensures (forall t :: 0 <= t < |s.actions| ==> !InsideLock(s.actions[t])) <==>
            forall es :: NoActivation(es) ==> Run(s, es).q.inserted == s.q.inserted
  {
    hide Run;
    if t: nat :| t < |s.actions| && InsideLock(s.actions[t]) {
      var es := LateInsertion(s, t);
    } else {
      forall es | NoActivation(es) ensures Run(s, es).q.inserted == s.q.inserted { NothingSlipsIn(s, es); }
    }
  }

  lemma LateInsertion(s: State, t: nat) returns (es: seq<Event>)
    requires s.q.reject && Closing(s.driver) && t < |s.actions| && InsideLock(s.actions[t])
    ensures NoActivation(es) && |Run(s, es).q.inserted| == |s.q.inserted| + 1
  {
    var e := Act(t, EnableMotion, Succeeded, "");
    var before := MakesRoom(s);
    es := before + [e];
    assert es[..|before|] == before;
    assert Run(s, es) == Step(Run(s, before), e);
  }

  /** Shutdown seals the handler as soon as it holds the lock. */
  lemma ShutdownSeals(threads: nat, es: seq<Event>)
    ensures var s := Run(Init(threads), es); Unlocking(s.driver) ==> Sealed(s)
  {
    RunsKeepInv(threads, es);
  }
}
