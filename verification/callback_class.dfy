/** HardwareModuleRuntime::CallbackHandler with its fields, each callback among the steps of the other threads. */
module CallbackClass {
  import opened Collections
  import opened TransitionGuard
  import opened CallbackProtocol
  import opened CallbackInvariant
  import opened CallbackTheorems
  import opened CallbackSteps

  /** The state in which OnDeactivate ends. */
  ghost function Deactivates(from: StateCode, outcome: Outcome, failed: bool): StateCode {
    if Guard(from, Deactivating) != Allowed then from
    else if !outcome.Succeeded? then FatallyFaulted
    else if from.MotionEnabled? && failed then Faulted
    else Deactivated
  }

  /** A text is shown whole if it is shorter than the field, and otherwise as far as the field allows. */
  predicate Fits(shown: string, text: string) {
    shown <= text && |shown| == if |text| < 256 then |text| else 255
  }

  /** What is shown with a state that was wanted is the text given for it. */
  predicate ShownText(shown: string, text: string, wanted: bool) {
    wanted ==> Fits(shown, text)
  }

  lemma TruncatedFits(text: string)
    ensures Fits(Truncated(text), text)
  {
  }

  /** What an action sees of the buffer lock and of reject_new_requests_. */
  datatype Look = Busy | Shut | Open

  /** How the wait for an answer ends. */
  datatype Waited = Granted | Denied | GaveUp

  /** Where a module's result leads an action. */
  function Target(kind: Kind, outcome: Outcome): StateCode {
    if outcome.Succeeded? then Exit(kind) else FaultOf(outcome)
  }

  function Stamp(pc: ActionPc, now: nat): ActionPc
    requires pc.AChosen? || pc.AClosing?
  {
    if pc.AChosen? then AStamped(pc.kind, pc.from, now) else ALeaving(pc.kind, pc.entry, pc.to, pc.message, now)
  }

  /** The place of an action whose request has the number `id`. */
  function Sent(pc: ActionPc, id: nat): ActionPc {
    if pc.AChosen? || pc.AStamped? then AWaiting(pc.kind, id) else AClosed(id)
  }

  /** The last request is the one that an action at `pc` has made. */
  ghost predicate Follows(pc: ActionPc, inserted: seq<Request>)
    requires pc.AChosen? || pc.AClosing?
  {
    && inserted != []
    && (var r := inserted[|inserted| - 1];
        if pc.AChosen? then r.from == pc.from && r.to == Entry(pc.kind) && r.closes.None?
        else r.from == Entry(pc.kind) && r.to == pc.to && r.closes == Some(pc.entry))
  }

  lemma Inserts(pc: ActionPc)
    requires InsideLock(pc)
    ensures NextRequest(pc).Some? && (pc.AStamped? || pc.ALeaving?)
  {
  }

  lemma SentRequest(pc: ActionPc, time: nat, earlier: seq<Request>)
    requires pc.AChosen? || pc.AClosing?
    ensures var stamped := Stamp(pc, time); var r := NextRequest(stamped);
            && InsideLock(stamped) && r.Some? && Follows(pc, earlier + [r.value])
            && Sent(stamped, |earlier|) == Sent(pc, |earlier|)
  {
  }

  /**
   How an action ends: waiting for a lock; with its entry prohibited by the guard; with requests rejected or the
   queue full; with its request denied or not answered in time; after its entry but before its end; or at its end.
   */
  datatype ActionEnd = Blocked | Prohibited | Rejected | Refused | Unanswered | Interrupted | Finished

  /** The change numbered `k`, made by a request, enters the transitional state of the action or Faulted instead. */
  ghost predicate Enters(changes: seq<Change>, k: nat, kind: Kind) {
    k < |changes| && changes[k].source.ByRequest? && Landed(changes[k], Entry(kind))
  }

  ghost predicate HasEntered(changes: seq<Change>, n: nat, kind: Kind) {
    exists k: nat :: n <= k && Enters(changes, k, kind)
  }

  /** The change numbered `k` leaves the transitional state for `to`, right after the one that entered it. */
  ghost predicate Passes(changes: seq<Change>, k: nat, kind: Kind, to: StateCode) {
    && 0 < k < |changes| && changes[k - 1].to == changes[k].from == Entry(kind) && changes[k].to == to
    && changes[k].source.ByRequest? && changes[k - 1].source.ByRequest?
  }

  /** Since the change numbered `n`, an action has led through its transitional state directly to `to`. */
  ghost predicate WentThrough(changes: seq<Change>, n: nat, kind: Kind, to: StateCode) {
    exists k: nat :: n < k && Passes(changes, k, kind, to)
  }

  /** A request to enter, made since there were `n`, has been answered other than with Ok and has changed nothing. */
  ghost predicate WasDenied(inserted: seq<Request>, answers: seq<Answer>, changes: seq<Change>, n: nat, kind: Kind) {
    exists id: nat ::
      && n <= id < |inserted| && id < |answers| && inserted[id].to == Entry(kind) && !answers[id].status.Ok?
      && forall k :: !ChangedBy(changes, k, id)
  }

  /** A request to enter, made since there were `n`, has not been answered. */
  ghost predicate WasLeft(inserted: seq<Request>, answers: seq<Answer>, n: nat, kind: Kind) {
    exists id: nat {:trigger inserted[id]} :: n <= id < |inserted| && |answers| <= id && inserted[id].to == Entry(kind)
  }

  /** The closing request, made since there were `n`, has not been answered with Ok. */
  ghost predicate DidNotClose(inserted: seq<Request>, answers: seq<Answer>, n: nat, kind: Kind) {
    exists id: nat {:trigger inserted[id]} ::
      && n <= id < |inserted| && inserted[id].from == Entry(kind) && inserted[id].closes.Some?
      && (id < |answers| ==> !answers[id].status.Ok?)
  }

  lemma EntryStays(changes: seq<Change>, later: seq<Change>, n: nat, kind: Kind)
    requires HasEntered(changes, n, kind) && changes <= later
    ensures HasEntered(later, n, kind)
  {
    var k: nat :| n <= k && Enters(changes, k, kind);
    assert Enters(later, k, kind);
  }

  class CallbackHandler {
    var code: StateCode
    var previous: StateCode
    /** The state in shared memory, and the one in the buffer for other threads with its mark for new contents. */
    var shared: ModuleState
    var published: ModuleState
    var unread: bool
    /** What of a new state is still to be shown. */
    var stage: Stage
    var now: nat
    var updateTime: nat
    var queue: seq<Request>
    var reject: bool
    /** Whether non_rt_buffer_lock_ is held. */
    var locked: bool
    /** The values of the promises, by request. */
    var answers: seq<Answer>
    /** How far the driver and the action threads are, and who holds action_lock_. */
    var driver: DriverPc
    var lock: Option<nat>
    var actions: seq<ActionPc>
    /** The histories. */
    var changes: seq<Change>
    var calls: seq<Call>
    var inserted: seq<Request>
    var removed: seq<Request>
    /** What the other threads will do, one batch between two steps of the caller. */
    var schedule: seq<seq<Event>>
    ghost var log: seq<Event>

    function M(): Machine
      reads `code, `previous, `shared, `published, `unread, `stage, `now, `updateTime, `changes, `calls
    {
      Machine(code, previous, shared, published, unread, stage, now, updateTime, changes, calls)
    }

    function Q(): Requests
      reads `queue, `reject, `locked, `inserted, `removed, `answers
    {
      Requests(queue, reject, locked, inserted, removed, answers)
    }

    function Snapshot(): State
      reads this
    {
      State(M(), Q(), driver, lock, actions)
    }

    /** The fields are what the protocol makes of the steps logged so far. */
    ghost predicate Valid()
      reads this
    {
      Snapshot() == Run(Init(|actions|), log)
    }

    /** The step `e`, and nothing else, has happened since the method began. */
    twostate predicate Took(e: Event)
      reads this
    {
      Valid() && log == old(log) + [e] && Snapshot() == Step(old(Snapshot()), e)
    }

    constructor (threads: nat, schedule: seq<seq<Event>>)
      ensures Valid() && log == [] && this.schedule == schedule && driver.DIdle? && stage.Settled? && code.Deactivated?
      ensures |actions| == threads && forall t :: 0 <= t < threads ==> actions[t].AIdle?
    {
      code, previous, shared, published := Deactivated, Deactivated, DEFAULT_STATE, DEFAULT_STATE;
      unread, stage, now, updateTime, queue, reject, locked, answers := false, Settled, 0, 0, [], false, false, [];
      driver, lock, actions := DIdle, None, seq(threads, _ => AIdle);
      changes, calls, inserted, removed := [], [], [], [];
      this.schedule := schedule;
      log := [];
    }

    ghost method Record(before: State, e: Event)
      requires before == Run(Init(|actions|), log) && Snapshot() == Step(before, e)
      modifies `log
      ensures Valid() && log == old(log) + [e]
    {
      hide Step, Init;
      log := log + [e];
      assert log[..|log| - 1] == old(log);
    }

    /** Record for a step of the driver. */
    ghost method RecordDrive(before: State, i: Input)
      requires before == Run(Init(|actions|), log) && lock == before.lock && actions == before.actions
      requires before.m.stage.Settled? && M() == MachineAfter(before.m, before.driver, i)
      requires Q() == RequestsAfter(before.m, before.q, before.driver, i)
      requires driver == DriverNext(before.m, before.q, before.driver, i)
      modifies `log
      ensures Valid() && log == old(log) + [Drive(i)] && Snapshot() == Step(before, Drive(i))
    {
      hide Run, Init, MachineAfter, RequestsAfter, DriverNext;
      Record(before, Drive(i));
    }

    /** Record for a step of the action thread `t`. */
    ghost method RecordAct(before: State, t: nat, kind: Kind, outcome: Outcome, message: string)
      requires before == Run(Init(|actions|), log) && t < |before.actions| && M() == before.m && driver == before.driver
      requires Q() == Inserting(before.q, before.actions[t])
      requires var pc := ActionNext(before.m, before.q, before.lock.None?, before.actions[t], kind, outcome, message);
               actions == before.actions[t := pc] && lock == LockAfter(before.lock, t, before.actions[t], pc)
      modifies `log
      ensures Valid() && log == old(log) + [Act(t, kind, outcome, message)]
      ensures Snapshot() == Step(before, Act(t, kind, outcome, message))
    {
      hide Run, Init, Inserting, ActionNext, LockAfter;
      Record(before, Act(t, kind, outcome, message));
    }

    lemma Holds()
      requires Valid()
      ensures Inv(Snapshot())
    {
      RunsKeepInv(|actions|, log);
    }

    lemma MachineParts()
      ensures M().code == code && M().previous == previous && M().calls == calls && M().stage == stage && M().now == now
      ensures M().updateTime == updateTime && M().changes == changes
    {
    }

    /** A step by another thread. */
    method Other(e: Event)
      requires Valid()
      modifies this
      ensures Took(e) && schedule == old(schedule) && |actions| == old(|actions|)
    {
      hide Run, Init, Step;
      SameThreads(Snapshot(), e);
      Become(Step(Snapshot(), e));
      Record(old(Snapshot()), e);
    }

    /** Sets the fields to `s`. */
    method Become(s: State)
      modifies this
      ensures Snapshot() == s && schedule == old(schedule) && log == old(log)
    {
      hide M, Q;
      BecomeMachine(s.m);
      BecomeRequests(s.q);
      driver, lock, actions := s.driver, s.lock, s.actions;
    }

    method BecomeMachine(m: Machine)
      modifies `code, `previous, `shared, `published, `unread, `stage, `now, `updateTime, `changes, `calls
      ensures M() == m
    {
      code, previous, shared, published := m.code, m.previous, m.shared, m.published;
      unread, stage, now, updateTime, changes, calls := m.unread, m.stage, m.now, m.updateTime, m.changes, m.calls;
    }

    method BecomeRequests(q: Requests)
      modifies `queue, `reject, `locked, `inserted, `removed, `answers
      ensures Q() == q
    {
      queue, reject, locked := q.queue, q.reject, q.locked;
      inserted, removed, answers := q.inserted, q.removed, q.answers;
    }

    /** Lets the others run between two steps. */
    method Yield(me: Role)
      requires Valid()
      modifies this
      ensures Valid() && old(log) <= log && Kept(old(Snapshot()), Snapshot(), me) && |actions| == old(|actions|)
      ensures if old(schedule) == [] then Snapshot() == old(Snapshot()) && schedule == []
              else schedule == old(schedule)[1..] && log == old(log) + Foreign(old(schedule)[0], me)
    {
      hide Run, Init, Step, Inv, Kept, Snapshot;
      KeptRefl(Snapshot(), me);
      if schedule == [] { return; }
      var batch := schedule[0];
      Reschedule(schedule[1..]);
      for k := 0 to |batch|
        invariant Valid() && old(log) <= log && schedule == old(schedule)[1..] && |actions| == old(|actions|)
        invariant Kept(old(Snapshot()), Snapshot(), me) && log == old(log) + Foreign(batch[..k], me)
      {
        assert batch[..k + 1][..k] == batch[..k];
        if !Mine(me, batch[k]) {
          Holds();
          OthersKeep(Snapshot(), me, batch[k]);
          ghost var before := Snapshot();
          Other(batch[k]);
          KeptTwice(old(Snapshot()), before, Snapshot(), me);
        }
      }
      assert batch[..|batch|] == batch;
    }

    method Reschedule(rest: seq<seq<Event>>)
      requires Valid()
      modifies `schedule
      ensures Valid() && Snapshot() == old(Snapshot()) && schedule == rest
    {
      schedule := rest;
    }

    /** Lets the action threads run between two steps of the driver. */
    method YieldD()
      requires Valid()
      modifies this
      ensures Valid() && old(log) <= log && |actions| == old(|actions|) && driver == old(driver) && stage == old(stage)
      ensures code == old(code) && previous == old(previous) && shared == old(shared) && published == old(published)
      ensures updateTime == old(updateTime) && changes == old(changes) && calls == old(calls)
      ensures removed == old(removed) && answers == old(answers) && reject == old(reject) && old(queue) <= queue
      ensures if old(schedule) == [] then schedule == [] && queue == old(queue) && locked == old(locked)
              else schedule == old(schedule)[1..]
    {
      hide Run, Init, Step, Inv;
      Yield(AsDriver);
    }

    /** A call to the module that the model keeps track of. */
    method LogCall(c: Call)
      modifies `calls
      ensures M() == old(M()).(calls := old(calls) + [c]) && calls == old(calls) + [c]
    {
      calls := calls + [c];
    }

    // ----- SetStateDirectly --------------------------------------------------------------------------

    /**
     SetStateDirectly up to the store of the code: the change is made exactly if the guard allows it, to the target or,
     when Disabled() fails on the way out of MotionEnabled, to Faulted. What it shows comes with ShowState.
     */
    method SetStateDirectly(state: StateCode, message: string, source: Source, disabled: Option<string>)
      returns (changed: bool)
      modifies `code, `stage, `changes, `calls
      ensures M() == SetState(old(M()), Wish(state, message, source), disabled)
      ensures changed == (Guard(old(code), state) == Allowed)
      ensures code == if changed then Landing(old(code), state, disabled.Some?) else old(code)
      ensures |changes| == |old(changes)| + (if changed then 1 else 0)
      ensures changed ==> stage.Timing? && stage.shown.code == code
      ensures changed ==> ShownText(stage.shown.message, message, code == state)
      ensures !changed ==> changes == old(changes) && calls == old(calls) && stage == old(stage)
    {
      TruncatedFits(message);
      hide Guard, Truncated;
      if Guard(code, state) != Allowed { return false; }
      var target, text, hook := state, message, None;
      if code.MotionEnabled? {
        hook, calls := Some(disabled.None?), calls + [Disabled(disabled.None?)];
        if disabled.Some? && !state.InitFailed? && !state.FatallyFaulted? && !state.Faulted? {
          target, text := Faulted, "Disabled() failed: " + disabled.value;
        }
      }
      changes := changes + [Change(code, target, source, now, hook)];
      code, stage := target, Timing(ModuleState(target, Truncated(text)));
      return true;
    }

    method StampUpdate(i: Input)
      requires Valid() && stage.Timing?
      modifies `updateTime, `stage, `log
      ensures Valid() && old(log) < log && Took(Drive(i)) && stage == Sharing(old(stage).shown) && updateTime == now
    {
      hide Run, Init, MachineAfter, RequestsAfter, DriverNext;
      updateTime, stage := now, Sharing(stage.shown);
      Record(old(Snapshot()), Drive(i));
    }

    method ShareState(i: Input)
      requires Valid() && stage.Sharing?
      modifies `shared, `stage, `log
      ensures Valid() && old(log) < log && Took(Drive(i)) && stage == Publishing(old(stage).shown)
      ensures shared == old(stage).shown
    {
      hide Run, Init, MachineAfter, RequestsAfter, DriverNext;
      shared, stage := stage.shown, Publishing(stage.shown);
      Record(old(Snapshot()), Drive(i));
    }

    method PublishState(i: Input)
      requires Valid() && stage.Publishing?
      modifies `published, `unread, `stage, `log
      ensures Valid() && old(log) < log && Took(Drive(i)) && stage.Settled? && published == old(stage).shown && unread
    {
      hide Run, Init, MachineAfter, RequestsAfter, DriverNext;
      published, unread, stage := stage.shown, true, Settled;
      Record(old(Snapshot()), Drive(i));
    }

    /** The rest of SetStateDirectly after a change: its time, shared memory, then the buffer for other threads. */
    method ShowState(i: Input)
      requires Valid()
      modifies this
      ensures Valid() && old(log) <= log && |actions| == old(|actions|) && driver == old(driver) && stage.Settled?
      ensures code == old(code) && previous == old(previous) && changes == old(changes) && calls == old(calls)
      ensures removed == old(removed) && answers == old(answers) && reject == old(reject) && old(queue) <= queue
      ensures shared == published == (if old(stage).Settled? then old(shared) else old(stage).shown)
      ensures shared.code == code && LastTime(changes) <= updateTime <= now
      ensures old(schedule) == [] ==> schedule == [] && locked == old(locked)
    {
      hide Run, Init, Step, Inv, Took, Valid, Snapshot;
      if stage.Timing? {
        YieldD();
        StampUpdate(i);
      }
      ShowStamped(i);
    }

    method ShowStamped(i: Input)
      requires Valid() && !stage.Timing?
      modifies this
      ensures Valid() && old(log) <= log && |actions| == old(|actions|) && driver == old(driver) && stage.Settled?
      ensures code == old(code) && previous == old(previous) && changes == old(changes) && calls == old(calls)
      ensures removed == old(removed) && answers == old(answers) && reject == old(reject) && old(queue) <= queue
      ensures shared == published == (if old(stage).Settled? then old(shared) else old(stage).shown)
      ensures shared.code == code && LastTime(changes) <= updateTime <= now
      ensures old(schedule) == [] ==> schedule == [] && locked == old(locked)
    {
      hide Run, Init, Step, Inv, Took, Valid, Snapshot;
      if stage.Sharing? {
        YieldD();
        ShareState(i);
        YieldD();
      }
      if stage.Publishing? {
        PublishState(i);
      }
      Agreement();
    }

    /** Outside SetStateDirectly all that is shown agrees, and the time of the update is not before the last change. */
    lemma Agreement()
      requires Valid() && stage.Settled?
      ensures shared == published && shared.code == code && LastTime(changes) <= updateTime <= now
    {
      Holds();
    }

    // ----- OnReadStatus --------------------------------------------------------------------------------

    method BeginReadStatus()
      requires Valid() && driver.DIdle? && stage.Settled?
      modifies `previous, `driver, `log
      ensures Valid() && old(log) < log && Took(Drive(QUIET))
      ensures driver.DPop? && previous == code
    {
      hide Run, Init;
      previous, driver := code, DPop;
      Record(old(Snapshot()), Drive(QUIET));
    }

    method PopRequest(i: Input) returns (found: bool)
      requires Valid() && driver.DPop? && stage.Settled?
      modifies `queue, `removed, `driver, `log
      ensures Valid() && old(log) < log && Took(Drive(i)) && found == (old(queue) != [])
      ensures if found then driver == DApply(|old(removed)|, old(queue)[0]) && queue == old(queue)[1..]
              else driver == DHook && queue == old(queue) && removed == old(removed)
    {
      hide Run, Init, M;
      MachineParts();
      found := queue != [];
      if found {
        driver := DApply(|removed|, queue[0]);
        queue, removed := queue[1..], removed + [queue[0]];
      } else {
        driver := DHook;
      }
      Record(old(Snapshot()), Drive(i));
    }

    method ApplyRequest(i: Input)
      requires Valid() && driver.DApply? && stage.Settled?
      modifies `code, `stage, `changes, `calls, `driver, `log
      ensures Valid() && old(log) < log && Took(Drive(i)) && driver.DAnswer? && driver.id == old(driver).id
      ensures driver.status.Ok? ==> old(code) == old(driver).request.from && |changes| == |old(changes)| + 1
      ensures !driver.status.Ok? ==> code == old(code) && changes == old(changes)
    {
      hide Run, Init, Step, Truncated, SetState, Guard, Landing, MachineAfter, DriverNext, RequestsAfter, M, Q;
      MachineParts();
      var id, r := driver.id, driver.request;
      ApplyRequestStep(M(), Q(), id, r, i);
      var status := Cancelled;
      if r.timestamp >= updateTime && r.from == code {
        var changed := SetStateDirectly(r.to, r.message, ByRequest(id), i.disabled);
        status := if changed then Ok else FailedPrecondition;
      }
      driver := DAnswer(id, status);
      RecordDrive(old(Snapshot()), i);
    }

    method AnswerRequest(i: Input)
      requires Valid() && driver.DAnswer? && stage.Settled?
      modifies `answers, `driver, `log
      ensures Valid() && old(log) < log && Took(Drive(i)) && driver.DHook?
      ensures answers == old(answers) + [Answer(old(driver).id, old(driver).status, |changes|)]
    {
      hide Run, Init, M;
      MachineParts();
      answers, driver := answers + [Answer(driver.id, driver.status, |changes|)], DHook;
      Record(old(Snapshot()), Drive(i));
    }

    /** Calls Enabled() in the cycle in which motion has been enabled; a failure is a fault. */
    method CheckAndTriggerEnabledHook(i: Input)
      requires Valid() && driver.DHook? && stage.Settled?
      modifies `code, `stage, `changes, `calls, `driver, `log
      ensures Valid() && old(log) < log && Took(Drive(i)) && driver.DRead?
      ensures code != old(code) ==> old(code).MotionEnabled? && code.Faulted? && !i.outcome.Succeeded?
    {
      hide Run, Init, Step, Truncated, SetState, Guard, MachineAfter, DriverNext, RequestsAfter, M, Q;
      MachineParts();
      HookDriverStep(M(), Q(), i);
      if previous.MotionEnabling? && code.MotionEnabled? {
        LogCall(Enabled(i.outcome.Succeeded?));
        if !i.outcome.Succeeded? {
          var _ := SetStateDirectly(Faulted, i.message, ByDriver, i.disabled);
        }
      }
      driver := DRead;
      RecordDrive(old(Snapshot()), i);
    }

    /** Calls the module's ReadStatus(); a failure is a fault, except while faults are being cleared. */
    method ReadModule(i: Input) returns (faulted: bool)
      requires Valid() && driver.DRead? && stage.Settled?
      modifies `code, `stage, `changes, `calls, `driver, `log
      ensures Valid() && old(log) < log && Took(Drive(i)) && driver == if faulted then DCancel(ThenDone) else DIdle
      ensures var fault := if i.outcome.Aborted? then FatallyFaulted else Faulted;
              && faulted == (!i.outcome.Succeeded? && !old(code).ClearingFaults? && Guard(old(code), fault) == Allowed)
              && code == (if faulted then fault else old(code)) && (!faulted ==> stage.Settled?)
      ensures faulted ==> stage.Timing? && Fits(stage.shown.message, i.message)
    {
      hide Run, Init, Step, Truncated, SetState, Guard, MachineAfter, DriverNext, RequestsAfter, M, Q;
      MachineParts();
      ReadStep(M(), Q(), i);
      faulted := false;
      if !i.outcome.Succeeded? && !code.ClearingFaults? {
        faulted := SetStateDirectly(FaultOf(i.outcome), i.message, ByDriver, i.disabled);
      }
      driver := if faulted then DCancel(ThenDone) else DIdle;
      RecordDrive(old(Snapshot()), i);
    }

    // ----- CancelPendingRequests --------------------------------------------------------------------------

    method CancelFront(i: Input) returns (found: bool)
      requires Valid() && driver.DCancel? && stage.Settled?
      modifies `answers, `locked, `driver, `log
      ensures Valid() && old(log) < log && Took(Drive(i)) && found == (queue != [])
      ensures found ==> driver == DDrop(old(driver).next)
                        && answers == old(answers) + [Answer(|removed|, Cancelled, |changes|)]
      ensures !found ==> driver == Resume(old(driver).next) && answers == old(answers)
      ensures !found && old(driver).next.ThenUnlock? ==> !locked
    {
      hide Run, Init, M;
      MachineParts();
      found := queue != [];
      if found {
        answers, driver := answers + [Answer(|removed|, Cancelled, |changes|)], DDrop(driver.next);
      } else {
        if driver.next.ThenUnlock? { locked := false; }
        driver := Resume(driver.next);
      }
      Record(old(Snapshot()), Drive(i));
    }

    method DropFront(i: Input)
      requires Valid() && driver.DDrop? && queue != [] && stage.Settled?
      modifies `queue, `removed, `driver, `log
      ensures Valid() && old(log) < log && Took(Drive(i)) && driver == DCancel(old(driver).next)
      ensures queue == old(queue)[1..]
    {
      hide Run, Init, M;
      MachineParts();
      queue, removed, driver := queue[1..], removed + [queue[0]], DCancel(driver.next);
      Record(old(Snapshot()), Drive(i));
    }

    /** One round of CancelPendingRequests: cancels the oldest request, if there is one. */
    method CancelNext(i: Input) returns (found: bool)
      requires Valid() && driver.DCancel? && stage.Settled?
      modifies this
      ensures Valid() && old(log) <= log && |actions| == old(|actions|) && stage.Settled?
      ensures |schedule| <= |old(schedule)| && (|schedule| == |old(schedule)| && found ==> |queue| < |old(queue)|)
      ensures driver == if found then old(driver) else Resume(old(driver).next)
      ensures !found ==> queue == [] && answers == old(answers) && (old(driver).next.ThenUnlock? ==> !locked)
      ensures found ==> |answers| == |old(answers)| + 1 && old(answers) <= answers
                        && answers[|old(answers)|].status.Cancelled?
      ensures code == old(code) && changes == old(changes) && calls == old(calls) && reject == old(reject)
      ensures shared == old(shared) && published == old(published)
    {
      hide Run, Init, Step, Inv, Took, Valid, Snapshot;
      YieldD();
      found := CancelFront(i);
      if found {
        YieldD();
        DropFront(i);
      }
    }

    /** Answers everything in the queue with Cancelled, and what comes in meanwhile. */
    method CancelPendingRequests(i: Input)
      requires Valid() && driver.DCancel? && stage.Settled?
      modifies this
      ensures Valid() && old(log) <= log && |actions| == old(|actions|) && driver == Resume(old(driver).next)
      ensures queue == [] && |answers| == |inserted| && old(answers) <= answers && stage.Settled?
      ensures forall k :: |old(answers)| <= k < |answers| ==> answers[k].status.Cancelled?
      ensures code == old(code) && changes == old(changes) && calls == old(calls) && reject == old(reject)
      ensures shared == old(shared) && published == old(published)
      ensures old(driver).next.ThenUnlock? ==> !locked
    {
      hide Run, Init, Step, Inv, Took, Valid, Snapshot;
      var found := true;
      while found
        invariant Valid() && old(log) <= log && |actions| == old(|actions|) && stage.Settled?
        invariant driver == if found then old(driver) else Resume(old(driver).next)
        invariant old(answers) <= answers && (!found ==> queue == [] && (old(driver).next.ThenUnlock? ==> !locked))
        invariant forall k :: |old(answers)| <= k < |answers| ==> answers[k].status.Cancelled?
        invariant code == old(code) && changes == old(changes) && calls == old(calls) && reject == old(reject)
        invariant shared == old(shared) && published == old(published)
        decreases |schedule|, |queue|, found
      {
        found := CancelNext(i);
      }
      AllAnswered();
    }

    /** An idle driver has answered whatever it has removed. */
    lemma AllAnswered()
      requires Valid() && queue == [] && !driver.DApply? && !driver.DAnswer? && !driver.DDrop?
      ensures |answers| == |inserted|
    {
      Holds();
    }

    /**
     One realtime cycle: answers the oldest request, calls Enabled() if motion has just been enabled, and reads the
     status. A failing ReadStatus() leaves the module Faulted, or FatallyFaulted if it was aborted, unless faults are
     being cleared or cannot be entered. Then its text is shown, and every request made so far has been answered.
     */
    method OnReadStatus(i: Input, hook: Input, read: Input) returns (faulted: bool)
      requires Valid() && driver.DIdle? && stage.Settled?
      modifies this
      ensures Valid() && old(log) < log && |actions| == old(|actions|) && driver.DIdle? && stage.Settled?
      ensures old(answers) <= answers && (old(queue) != [] ==> |old(answers)| < |answers|)
      ensures read.outcome.Failed? ==> code.ClearingFaults? || code.Faulted? || Guard(code, Faulted) != Allowed
      ensures read.outcome.Aborted? ==> code.ClearingFaults? || code.FatallyFaulted?
      ensures faulted ==>
                && code == (if read.outcome.Aborted? then FatallyFaulted else Faulted) && !read.outcome.Succeeded?
                && queue == [] && |answers| == |inserted|
                && shared == published && shared.code == code && Fits(shared.message, read.message)
      ensures read.outcome.Succeeded? ==> !faulted
    {
      FatalAlwaysAllowed();
      hide Run, Init, Step, Inv, Took, Valid, Snapshot, Guard, Fits;
      BeginReadStatus();
      ProcessNextPendingRequest(i);
      YieldD();
      CheckAndTriggerEnabledHook(hook);
      ShowState(hook);
      YieldD();
      faulted := ReadModule(read);
      if faulted {
        ShowState(read);
        CancelPendingRequests(i);
      }
    }

    lemma FatalAlwaysAllowed()
      ensures forall c: StateCode :: Guard(c, FatallyFaulted) == Allowed || c.FatallyFaulted?
    {
    }

    /** Decides on the oldest request, if there is one, and answers it. */
    method ProcessNextPendingRequest(i: Input)
      requires Valid() && driver.DPop? && stage.Settled?
      modifies this
      ensures Valid() && old(log) < log && |actions| == old(|actions|) && driver.DHook? && stage.Settled?
      ensures old(answers) <= answers && (old(queue) != [] ==> |old(answers)| < |answers|)
      ensures |changes| <= |old(changes)| + 1 && (changes == old(changes) ==> code == old(code))
      ensures |changes| != |old(changes)| ==> |answers| > 0 && answers[|answers| - 1].status.Ok?
    {
      hide Run, Init, Step, Inv, Took, Valid, Snapshot;
      YieldD();
      var found := PopRequest(i);
      if found {
        YieldD();
        ApplyRequest(i);
        ShowState(i);
        YieldD();
        AnswerRequest(i);
      }
    }

    // ----- OnApplyCommand -----------------------------------------------------------------------------------

    method PassCommand(i: Input) returns (faulted: bool)
      requires Valid() && driver.DIdle? && i.callback.OnApplyCommand? && stage.Settled? && code.MotionEnabled?
      modifies `code, `stage, `changes, `calls, `driver, `log
      ensures Valid() && old(log) < log && Took(Drive(i)) && faulted == !i.outcome.Succeeded?
      ensures driver == (if faulted then DCancel(ThenDone) else DIdle) && (!faulted ==> stage.Settled?)
      ensures code == if !faulted then old(code) else if i.outcome.Aborted? then FatallyFaulted else Faulted
      ensures faulted ==> stage.Timing? && Fits(stage.shown.message, i.message)
    {
      hide Run, Init, Step, Truncated, SetState, Guard, MachineAfter, DriverNext, RequestsAfter, M, Q;
      MachineParts();
      ApplyStep(M(), Q(), i);
      LogCall(Apply);
      FaultsFrom(code);
      faulted := false;
      if !i.outcome.Succeeded? {
        faulted := SetStateDirectly(FaultOf(i.outcome), i.message, ByDriver, i.disabled);
      }
      driver := if faulted then DCancel(ThenDone) else DIdle;
      RecordDrive(old(Snapshot()), i);
    }

    method RefuseCommand(i: Input) returns (faulted: bool)
      requires Valid() && driver.DIdle? && i.callback.OnApplyCommand? && stage.Settled? && !code.MotionEnabled?
      modifies `code, `stage, `changes, `calls, `driver, `log
      ensures Valid() && old(log) < log && Took(Drive(i))
      ensures faulted == (!old(code).MotionDisabling? && Guard(old(code), Faulted) == Allowed)
      ensures driver == (if faulted then DCancel(ThenDone) else DIdle) && (!faulted ==> stage.Settled?)
      ensures code == if faulted then Faulted else old(code)
      ensures faulted ==> stage.Timing? && Fits(stage.shown.message, NOT_ENABLED)
    {
      hide Run, Init, Step, Truncated, SetState, Guard, MachineAfter, DriverNext, RequestsAfter, M, Q;
      MachineParts();
      ApplyStep(M(), Q(), i);
      faulted := false;
      if !code.MotionDisabling? {
        faulted := SetStateDirectly(Faulted, NOT_ENABLED, ByDriver, i.disabled);
      }
      driver := if faulted then DCancel(ThenDone) else DIdle;
      RecordDrive(old(Snapshot()), i);
    }

    /**
     Passes the command on if motion is enabled, in which case the last hook was a successful Enabled(), and faults
     if it is not, unless it is being disabled. On a fault every request made so far has been answered.
     */
    method OnApplyCommand(outcome: Outcome, disabled: Option<string>, message: string) returns (called: bool)
      requires Valid() && driver.DIdle? && stage.Settled?
      modifies this
      ensures Valid() && old(log) < log && |actions| == old(|actions|) && driver.DIdle? && stage.Settled?
      ensures called == old(code).MotionEnabled? && (called ==> LastHook(old(calls)) == Some(Enabled(true)))
      ensures code == if called then (match outcome
                                      case Succeeded => MotionEnabled
                                      case Failed => Faulted
                                      case Aborted => FatallyFaulted)
                      else if !old(code).MotionDisabling? && Guard(old(code), Faulted) == Allowed then Faulted
                      else old(code)
      ensures code != old(code) ==>
                && queue == [] && |answers| == |inserted| && shared == published && shared.code == code
                && Fits(shared.message, if called then message else "PUBLIC: 'ApplyCommand' called while not enabled.")
    {
      hide Run, Init, Step, Inv, Took, Valid, Snapshot, Guard, Fits;
      HooksUpToDate();
      var i := Input(Callback.OnApplyCommand, outcome, disabled, message);
      called := code.MotionEnabled?;
      var faulted;
      if called {
        faulted := PassCommand(i);
      } else {
        faulted := RefuseCommand(i);
      }
      if faulted {
        ShowState(i);
        CancelPendingRequests(i);
      }
    }

    lemma HooksUpToDate()
      requires Valid() && driver.DIdle?
      ensures code.MotionEnabled? ==> LastHook(calls) == Some(Enabled(true))
    {
      Holds();
    }

    // ----- The lifecycle callbacks ----------------------------------------------------------------------------

    /** The first step of OnDeactivate, also when OnPrepare calls it. */
    method BeginDeactivate(i: Input) returns (changed: bool)
      requires Valid() && driver.DIdle? && stage.Settled?
      requires i.callback.OnDeactivate? || (i.callback.OnPrepare? && NeedsDeactivation(code))
      modifies `code, `stage, `changes, `calls, `driver, `log
      ensures Valid() && old(log) < log && Took(Drive(i)) && changed == (Guard(old(code), Deactivating) == Allowed)
      ensures code == if changed then Landing(old(code), Deactivating, i.disabled.Some?) else old(code)
      ensures changed ==> driver == DReject(i.callback.OnPrepare?)
      ensures !changed ==> driver == (if i.callback.OnPrepare? then DPreparing else DIdle) && stage.Settled?
      ensures !changed ==> changes == old(changes) && calls == old(calls)
    {
      hide Run, Init, Step, Truncated, SetState, Guard, Landing, MachineAfter, DriverNext, RequestsAfter, M, Q;
      MachineParts();
      BeginSteps(M(), Q(), i);
      changed := SetStateDirectly(Deactivating, "", ByDriver, i.disabled);
      driver := if changed then DReject(i.callback.OnPrepare?) else if i.callback.OnPrepare? then DPreparing else DIdle;
      RecordDrive(old(Snapshot()), i);
    }

    method RejectRequests(i: Input)
      requires Valid() && driver.DReject? && stage.Settled?
      modifies `reject, `driver, `log
      ensures Valid() && old(log) < log && Took(Drive(i)) && reject
      ensures driver == DCancel(ThenModule(Deactivation(old(driver).thenPrepare)))
    {
      hide Run, Init, M;
      MachineParts();
      reject, driver := true, DCancel(ThenModule(Deactivation(driver.thenPrepare)));
      Record(old(Snapshot()), Drive(i));
    }

    /** The module's own Prepare(), Activate() or Deactivate(), and the state it leads to. */
    method CallModule(i: Input)
      requires Valid() && driver.DModule? && stage.Settled?
      modifies `code, `stage, `changes, `calls, `driver, `log
      ensures Valid() && old(log) < log && Took(Drive(i)) && driver == AfterModule(old(driver).life)
      ensures var to := if i.outcome.Succeeded? then Completed(old(driver).life) else FatallyFaulted;
              code == if Guard(old(code), to) == Allowed then Landing(old(code), to, i.disabled.Some?) else old(code)
    {
      hide Run, Init, Step, Truncated, SetState, Guard, Landing, MachineAfter, DriverNext, RequestsAfter, M, Q;
      MachineParts();
      ModuleStep(M(), Q(), driver.life, i);
      if i.outcome.Succeeded? {
        var _ := SetStateDirectly(Completed(driver.life), "", ByDriver, i.disabled);
      } else {
        var _ := SetStateDirectly(FatallyFaulted, i.message, ByDriver, i.disabled);
      }
      driver := AfterModule(driver.life);
      RecordDrive(old(Snapshot()), i);
    }

    /** The rest of OnDeactivate after the change. */
    method FinishDeactivate(i: Input)
      requires Valid() && driver.DReject? && (code.Deactivating? || code.Faulted?)
      modifies this
      ensures Valid() && old(log) < log && |actions| == old(|actions|) && reject && stage.Settled?
      ensures driver == if old(driver).thenPrepare then DPreparing else DIdle
      ensures code == if !i.outcome.Succeeded? then FatallyFaulted
                      else if old(code).Deactivating? then Deactivated
                      else Faulted
    {
      hide Run, Init, Step, Inv, Took, Valid, Snapshot;
      ShowState(i);
      YieldD();
      RejectRequests(i);
      CancelPendingRequests(i);
      YieldD();
      CallModule(i);
      ShowState(i);
    }

    /**
     Deactivates the module, cancelling all requests. A Disabled() that fails on the way out of MotionEnabled
     leaves the module Faulted even though its Deactivate() succeeds.
     */
    method OnDeactivate(outcome: Outcome, disabled: Option<string>, message: string)
      requires Valid() && driver.DIdle? && stage.Settled?
      modifies this
      ensures Valid() && old(log) < log && |actions| == old(|actions|) && driver.DIdle? && stage.Settled?
      ensures code == Deactivates(old(code), outcome, disabled.Some?)
      ensures if Guard(old(code), Deactivating) == Allowed then reject
              else changes == old(changes) && reject == old(reject)
    {
      hide Run, Init, Step, Inv, Took, Valid, Snapshot, Guard;
      var i := Input(Callback.OnDeactivate, outcome, disabled, message);
      var changed := BeginDeactivate(i);
      if changed { FinishDeactivate(i); }
    }

    method SkipDeactivation(i: Input)
      requires Valid() && driver.DIdle? && i.callback.OnPrepare? && !NeedsDeactivation(code) && stage.Settled?
      modifies `driver, `log
      ensures Valid() && old(log) < log && Took(Drive(i)) && driver.DPreparing?
    {
      hide Run, Init;
      driver := DPreparing;
      Record(old(Snapshot()), Drive(i));
    }

    method BeginPrepare(i: Input) returns (changed: bool)
      requires Valid() && driver.DPreparing? && stage.Settled?
      modifies `code, `stage, `changes, `calls, `driver, `log
      ensures Valid() && old(log) < log && Took(Drive(i)) && changed == old(code).Deactivated?
      ensures code == (if changed then Preparing else old(code)) && (!changed ==> stage.Settled?)
      ensures driver == if changed then DCancel(ThenModule(Preparation)) else DIdle
    {
      hide Run, Init, Step, Truncated, SetState, Guard, MachineAfter, DriverNext, RequestsAfter, M, Q;
      MachineParts();
      BeginSteps(M(), Q(), i);
      Lifecycles(code);
      changed := SetStateDirectly(Preparing, "", ByDriver, i.disabled);
      driver := if changed then DCancel(ThenModule(Preparation)) else DIdle;
      RecordDrive(old(Snapshot()), i);
    }

    /** Whatever can be deactivated is, except a module that is prepared already. */
    lemma WhatNeedsDeactivation(c: StateCode)
      ensures !NeedsDeactivation(c) && !c.Prepared? ==> Guard(c, Deactivating) != Allowed
      ensures NeedsDeactivation(c) ==> !c.Prepared?
    {
    }

    /** Prepares the module, which must be or become deactivated for that. */
    method OnPrepare(deactivate: Outcome, disabled: Option<string>, prepare: Outcome, message: string)
      requires Valid() && driver.DIdle? && stage.Settled?
      modifies this
      ensures Valid() && old(log) < log && |actions| == old(|actions|) && driver.DIdle? && stage.Settled?
      ensures var reached := if old(code).Prepared? then Prepared
                             else Deactivates(old(code), deactivate, disabled.Some?);
              code == if !reached.Deactivated? then reached else if prepare.Succeeded? then Prepared else FatallyFaulted
    {
      WhatNeedsDeactivation(code);
      hide Run, Init, Step, Inv, Took, Valid, Snapshot, Guard;
      var i := Input(Callback.OnPrepare, deactivate, disabled, message);
      if NeedsDeactivation(code) {
        var changed := BeginDeactivate(i);
        if changed { FinishDeactivate(i); }
      } else {
        SkipDeactivation(i);
      }
      FinishPrepare(Input(Callback.OnPrepare, prepare, None, message));
    }

    /** The rest of a preparation or activation whose transitional state has been entered. */
    method CompleteLifecycle(i: Input)
      requires Valid() && driver.DCancel? && driver.next.ThenModule?
      requires if driver.next.life.Preparation? then code.Preparing?
               else driver.next.life.Activation? && code.Activating?
      modifies this
      ensures Valid() && old(log) < log && |actions| == old(|actions|) && stage.Settled?
      ensures driver == AfterModule(old(driver).next.life)
      ensures code == if i.outcome.Succeeded? then Completed(old(driver).next.life) else FatallyFaulted
    {
      hide Run, Init, Step, Inv, Took, Valid, Snapshot, Guard;
      ShowState(i);
      CancelPendingRequests(i);
      YieldD();
      Lifecycles(code);
      CallModule(i);
      ShowState(i);
    }

    /** The rest of OnPrepare after the deactivation. */
    method FinishPrepare(i: Input)
      requires Valid() && driver.DPreparing? && stage.Settled?
      modifies this
      ensures Valid() && old(log) < log && |actions| == old(|actions|) && driver.DIdle? && stage.Settled?
      ensures code == if !old(code).Deactivated? then old(code)
                      else if i.outcome.Succeeded? then Prepared
                      else FatallyFaulted
    {
      hide Run, Init, Step, Inv, Took, Valid, Snapshot, Guard;
      YieldD();
      var changed := BeginPrepare(i);
      if changed {
        CompleteLifecycle(i);
      }
    }

    method BeginActivate(i: Input) returns (changed: bool)
      requires Valid() && driver.DIdle? && i.callback.OnActivate? && stage.Settled?
      modifies `code, `stage, `changes, `calls, `driver, `log
      ensures Valid() && old(log) < log && Took(Drive(i)) && changed == old(code).Prepared?
      ensures code == (if changed then Activating else old(code)) && (!changed ==> stage.Settled?)
      ensures driver == if changed then DCancel(ThenModule(Activation)) else DIdle
    {
      hide Run, Init, Step, Truncated, SetState, Guard, MachineAfter, DriverNext, RequestsAfter, M, Q;
      MachineParts();
      BeginSteps(M(), Q(), i);
      Lifecycles(code);
      changed := SetStateDirectly(Activating, "", ByDriver, i.disabled);
      driver := if changed then DCancel(ThenModule(Activation)) else DIdle;
      RecordDrive(old(Snapshot()), i);
    }

    method AcceptRequests(i: Input)
      requires Valid() && driver.DAccept? && stage.Settled?
      modifies `reject, `driver, `log
      ensures Valid() && old(log) < log && Took(Drive(i)) && !reject && driver.DIdle?
    {
      hide Run, Init, M;
      MachineParts();
      reject, driver := false, DIdle;
      Record(old(Snapshot()), Drive(i));
    }

    /** Activates a prepared module and lets requests in again, even when the activation has failed. */
    method OnActivate(outcome: Outcome, message: string)
      requires Valid() && driver.DIdle? && stage.Settled?
      modifies this
      ensures Valid() && old(log) < log && |actions| == old(|actions|) && driver.DIdle? && stage.Settled?
      ensures if old(code).Prepared? then !reject && code == if outcome.Succeeded? then Activated else FatallyFaulted
              else code == old(code) && reject == old(reject)
    {
      hide Run, Init, Step, Inv, Took, Valid, Snapshot, Guard;
      var i := Input(Callback.OnActivate, outcome, None, message);
      var changed := BeginActivate(i);
      if changed {
        CompleteLifecycle(i);
        YieldD();
        AcceptRequests(i);
      }
    }

    /** Takes the lock and rejects requests, unless an action has the lock. */
    method TryBeginShutdown(i: Input) returns (got: bool)
      requires Valid() && driver.DIdle? && i.callback.Shutdown? && stage.Settled?
      modifies `reject, `locked, `driver, `log
      ensures Valid() && old(log) < log && Took(Drive(i)) && got == !old(locked)
      ensures if got then reject && driver == DCancel(ThenUnlock)
              else reject == old(reject) && locked && driver == DIdle
    {
      hide Run, Init, M;
      MachineParts();
      got := !locked;
      if got { reject, locked, driver := true, true, DCancel(ThenUnlock); }
      Record(old(Snapshot()), Drive(i));
    }

    /** Rejects further requests and cancels those there are, once it gets the lock; then no request can come in. */
    method Shutdown() returns (done: bool)
      requires Valid() && driver.DIdle? && stage.Settled?
      modifies this
      ensures Valid() && old(log) < log && |actions| == old(|actions|) && driver.DIdle? && stage.Settled?
      ensures code == old(code)
      ensures done ==> reject && queue == [] && |answers| == |inserted| && Sealed(Snapshot())
      ensures !done ==> schedule == [] && locked && reject == old(reject)
    {
      hide Run, Init, Step, Inv, Took, Valid, Snapshot, Sealed;
      var i := Input(Callback.Shutdown, Succeeded, None, "");
      done := TryBeginShutdown(i);
      while !done
        invariant Valid() && old(log) < log && |actions| == old(|actions|) && stage.Settled? && code == old(code)
        invariant if done then reject && driver == DCancel(ThenUnlock)
                  else driver.DIdle? && locked && reject == old(reject)
        decreases |schedule|, !done
      {
        if schedule == [] { return; }
        YieldD();
        done := TryBeginShutdown(i);
      }
      CancelPendingRequests(i);
      SealedWhenUnlocked();
    }

    /** With requests rejected and the lock free, no action is about to insert one. */
    lemma SealedWhenUnlocked()
      requires Valid() && driver.DIdle? && reject && !locked
      ensures Sealed(Snapshot())
    {
      Holds();
    }

    /** The state for other threads: the one published last, or a default one if that has been reported before. */
    method GetHardwareModuleState() returns (state: ModuleState)
      requires Valid()
      modifies `unread, `log
      ensures Valid() && Took(Event.Observe) && !unread && state == Reported(old(M()))
      ensures old(unread) ==> 0 <= Published(M()) && state.code == States(changes)[Published(M())]
      ensures old(unread) && stage.Settled? ==> state == shared && state.code == code
    {
      hide Run, Init;
      LastShown();
      state := if unread then published else DEFAULT_STATE;
      unread := false;
      Record(old(Snapshot()), Event.Observe);
    }

    lemma LastShown()
      requires Valid()
      ensures 0 <= Published(M()) <= |changes| && published.code == States(changes)[Published(M())]
      ensures stage.Settled? ==> shared == published && shared.code == code
    {
      LegalRuns(|actions|, log);
      hide Run, Init;
    }

    // ----- The actions ------------------------------------------------------------------------------------------

    /** Lets the driver and the other actions run between two steps of the action thread `t`. */
    method YieldA(t: nat)
      requires Valid() && t < |actions|
      modifies this
      ensures Valid() && old(log) <= log && |actions| == old(|actions|) && actions[t] == old(actions)[t]
      ensures old(changes) <= changes && old(inserted) <= inserted && old(answers) <= answers
      ensures old(lock) == Some(t) ==> lock == old(lock) && inserted == old(inserted)
      ensures if old(schedule) == []
              then && schedule == [] && code == old(code) && lock == old(lock) && locked == old(locked)
                   && reject == old(reject) && queue == old(queue) && answers == old(answers)
                   && inserted == old(inserted)
              else schedule == old(schedule)[1..]
    {
      hide Run, Init, Step, Inv;
      Yield(AsAction(t));
    }

    method TryLockAction(t: nat, kind: Kind) returns (got: bool)
      requires Valid() && t < |actions| && actions[t].AIdle?
      modifies `lock, `actions, `log
      ensures Valid() && old(log) < log && Took(Act(t, kind, Succeeded, "")) && got == old(lock).None?
      ensures |actions| == old(|actions|) && actions[t] == if got then ALocked(kind) else AIdle
      ensures lock == if got then Some(t) else old(lock)
    {
      hide Run, Init, Step, Guard, Truncated, M, Q;
      got := lock.None?;
      if got { lock, actions := Some(t), actions[t := ALocked(kind)]; }
      assert got || actions[t := AIdle] == actions;
      RecordAct(old(Snapshot()), t, kind, Succeeded, "");
    }

    method LoadCode(t: nat) returns (allowed: bool)
      requires Valid() && t < |actions| && actions[t].ALocked?
      modifies `lock, `actions, `log
      ensures Valid() && old(log) < log && Took(Act(t, EnableMotion, Succeeded, ""))
      ensures |actions| == old(|actions|)
      ensures actions[t] == if allowed then AChosen(old(actions)[t].kind, code) else AIdle
      ensures allowed == (Guard(code, Entry(old(actions)[t].kind)) == Allowed)
      ensures lock == if allowed then Some(t) else None
    {
      hide Run, Init, Step, Guard, Truncated, M, Q;
      MachineParts();
      allowed := Guard(code, Entry(actions[t].kind)) == Allowed;
      lock := if allowed then Some(t) else None;
      actions := actions[t := if allowed then AChosen(actions[t].kind, code) else AIdle];
      RecordAct(old(Snapshot()), t, EnableMotion, Succeeded, "");
    }

    lemma RequestParts()
      ensures Q().queue == queue && Q().reject == reject && Q().locked == locked
      ensures Q().inserted == inserted && Q().answers == answers
    {
    }

    method SetLocked(held: bool)
      modifies `locked
      ensures Q() == old(Q()).(locked := held) && locked == held
    {
      locked := held;
    }

    /** Takes the buffer lock, unless it is held, and looks whether requests are rejected; if not, notes the time. */
    method LookForReject(t: nat) returns (look: Look)
      requires Valid() && t < |actions| && lock == Some(t) && (actions[t].AChosen? || actions[t].AClosing?)
      modifies `locked, `lock, `actions, `log
      ensures Valid() && old(log) < log && Took(Act(t, EnableMotion, Succeeded, "")) && |actions| == old(|actions|)
      ensures look == (if old(locked) then Busy else if reject then Shut else Open) && (look.Busy? ==> locked)
      ensures actions[t] == match look
                            case Busy => old(actions)[t]
                            case Shut => AIdle
                            case Open => Stamp(old(actions)[t], now)
      ensures lock == if look.Shut? then None else Some(t)
    {
      hide Run, Init, Step, Guard, Truncated, M, Q;
      MachineParts();
      RequestParts();
      var pc := actions[t];
      if locked {
        look := Busy;
        SetLocked(true);
        assert actions[t := pc] == actions;
      } else if reject {
        look, lock, actions := Shut, None, actions[t := AIdle];
      } else {
        look, actions := Open, actions[t := Stamp(pc, now)];
        SetLocked(true);
      }
      RecordAct(old(Snapshot()), t, EnableMotion, Succeeded, "");
    }

    method Push(r: Request)
      modifies `queue, `locked, `inserted
      ensures Q() == old(Q()).(locked := false, queue := old(queue) + [r], inserted := old(inserted) + [r])
      ensures inserted == old(inserted) + [r]
    {
      queue, locked, inserted := queue + [r], false, inserted + [r];
    }

    /** Inserts the request and lets the buffer lock go; a full queue ends the action. */
    method InsertRequest(t: nat) returns (accepted: bool)
      requires Valid() && t < |actions| && InsideLock(actions[t]) && lock == Some(t)
      modifies `queue, `locked, `inserted, `lock, `actions, `log
      ensures Valid() && old(log) < log && Took(Act(t, EnableMotion, Succeeded, "")) && |actions| == old(|actions|)
      ensures accepted == (|old(queue)| < MAX_PENDING_REQUESTS) && lock == (if accepted then Some(t) else None)
      ensures actions[t] == if accepted then Sent(old(actions)[t], |old(inserted)|) else AIdle
      ensures inserted == old(inserted) + if accepted then [NextRequest(old(actions)[t]).value] else []
      ensures !accepted ==> queue == old(queue)
    {
      hide Run, Init, Step, Guard, Truncated, M, Q, NextRequest;
      RequestParts();
      var pc := actions[t];
      Inserts(pc);
      accepted := |queue| < MAX_PENDING_REQUESTS;
      if accepted {
        actions := actions[t := Sent(pc, |inserted|)];
        Push(NextRequest(pc).value);
      } else {
        lock, actions := None, actions[t := AIdle];
        SetLocked(false);
      }
      RecordAct(old(Snapshot()), t, EnableMotion, Succeeded, "");
    }

    /** Looks whether the request has been answered. */
    method TryGetAnswer(t: nat) returns (answered: bool, ok: bool)
      requires Valid() && t < |actions| && (actions[t].AWaiting? || actions[t].AClosed?) && lock == Some(t)
      modifies `lock, `actions, `log
      ensures Valid() && old(log) < log && Took(Act(t, EnableMotion, Succeeded, "")) && |actions| == old(|actions|)
      ensures answered == (old(actions)[t].id < |answers|)
      ensures ok == (answered && answers[old(actions)[t].id].status.Ok?)
      ensures actions[t] == if !answered then old(actions)[t]
                else if ok && old(actions)[t].AWaiting? then ARunning(old(actions)[t].kind, old(actions)[t].id)
                else AIdle
      ensures lock == if actions[t].AIdle? then None else Some(t)
    {
      hide Run, Init, Step, Guard, Truncated, M, Q;
      RequestParts();
      var pc := actions[t];
      answered := pc.id < |answers|;
      ok := answered && answers[pc.id].status.Ok?;
      if answered {
        var next := if ok && pc.AWaiting? then ARunning(pc.kind, pc.id) else AIdle;
        lock, actions := if next.AIdle? then None else Some(t), actions[t := next];
      }
      assert answered || actions[t := pc] == actions;
      RecordAct(old(Snapshot()), t, EnableMotion, Succeeded, "");
    }

    method Abandon(t: nat)
      requires Valid() && t < |actions| && (actions[t].AWaiting? || actions[t].AClosed?)
      modifies `lock, `actions, `log
      ensures Valid() && old(log) < log && Took(Event.GiveUp(t)) && |actions| == old(|actions|) && actions[t].AIdle?
    {
      hide Run, Init, M, Q;
      lock, actions := None, actions[t := AIdle];
      Record(old(Snapshot()), Event.GiveUp(t));
    }

    method RunModule(t: nat, outcome: Outcome, message: string)
      requires Valid() && t < |actions| && actions[t].ARunning? && lock == Some(t)
      modifies `actions, `log
      ensures Valid() && old(log) < log && Took(Act(t, EnableMotion, outcome, message)) && |actions| == old(|actions|)
      ensures actions[t].AClosing? && actions[t].kind == old(actions)[t].kind
      ensures actions[t].entry == old(actions)[t].entry && actions[t].to == Target(old(actions)[t].kind, outcome)
    {
      hide Run, Init, Step, Guard, Truncated, M, Q;
      var pc := actions[t];
      var text := if outcome.Succeeded? then "" else message;
      actions := actions[t := AClosing(pc.kind, pc.entry, Target(pc.kind, outcome), text)];
      RecordAct(old(Snapshot()), t, EnableMotion, outcome, message);
    }

    /** Waits for the answer to the request until it is there or the others have nothing more to do. */
    method AwaitAnswer(t: nat) returns (end: Waited)
      requires Valid() && t < |actions| && lock == Some(t) && (actions[t].AWaiting? || actions[t].AClosed?)
      modifies this
      ensures Valid() && old(log) < log && |actions| == old(|actions|) && inserted == old(inserted)
      ensures old(changes) <= changes
      ensures var id := old(actions)[t].id;
              && (end.Granted? ==> id < |answers| && answers[id].status.Ok?)
              && (end.Denied? ==> id < |answers| && !answers[id].status.Ok?)
      ensures end.Granted? && old(actions)[t].AWaiting? ==>
                actions[t] == ARunning(old(actions)[t].kind, old(actions)[t].id) && lock == Some(t)
      ensures !(end.Granted? && old(actions)[t].AWaiting?) ==> actions[t].AIdle?
      ensures end.GaveUp? ==> schedule == [] && old(actions)[t].id >= |answers|
      ensures old(schedule) == [] ==> schedule == [] && answers == old(answers)
    {
      hide Run, Init, Step, Inv, Took, Valid, Snapshot;
      while true
        invariant Valid() && old(log) <= log && |actions| == old(|actions|) && inserted == old(inserted)
        invariant old(changes) <= changes && actions[t] == old(actions)[t] && lock == Some(t)
        invariant old(schedule) == [] ==> schedule == [] && answers == old(answers)
        decreases |schedule|
      {
        var answered, ok := TryGetAnswer(t);
        if answered { return if ok then Granted else Denied; }
        if schedule == [] {
          Abandon(t);
          return GaveUp;
        }
        YieldA(t);
      }
    }

    /** Looks until the buffer lock is free, and inserts the request if requests are not rejected. */
    method SendRequest(t: nat) returns (sent: bool, blocked: bool)
      requires Valid() && t < |actions| && lock == Some(t) && (actions[t].AChosen? || actions[t].AClosing?)
      modifies this
      ensures Valid() && old(log) < log && |actions| == old(|actions|) && old(changes) <= changes && !(sent && blocked)
      ensures sent ==> lock == Some(t) && |inserted| == |old(inserted)| + 1 && Follows(old(actions)[t], inserted)
                       && actions[t] == Sent(old(actions)[t], |old(inserted)|)
      ensures blocked ==> actions[t] == old(actions)[t] && lock == Some(t) && schedule == [] && locked
      ensures !sent && !blocked ==> actions[t].AIdle? && (reject || |queue| == MAX_PENDING_REQUESTS)
      ensures old(schedule) == [] ==>
                && schedule == [] && answers == old(answers) && blocked == old(locked)
                && (!blocked ==> sent == (!old(reject) && |old(queue)| < MAX_PENDING_REQUESTS))
    {
      hide Run, Init, Step, Inv, Took, Valid, Snapshot;
      var look := LookForReject(t);
      while look.Busy?
        invariant Valid() && old(log) < log && |actions| == old(|actions|) && old(changes) <= changes
        invariant inserted == old(inserted) && lock == (if look.Shut? then None else Some(t))
        invariant look == (if look.Busy? then Busy else if reject then Shut else Open) && (look.Busy? ==> locked)
        invariant old(schedule) == [] ==>
                    && schedule == [] && answers == old(answers) && queue == old(queue) && reject == old(reject)
                    && look.Busy? == old(locked)
        invariant actions[t] == match look
                                case Busy => old(actions)[t]
                                case Shut => AIdle
                                case Open => Stamp(old(actions)[t], now)
        decreases |schedule|, look.Busy?
      {
        if schedule == [] { return false, true; }
        YieldA(t);
        look := LookForReject(t);
      }
      if look.Shut? { return false, false; }
      sent := FinishSend(t, old(actions)[t], now);
      blocked := false;
    }

    method FinishSend(t: nat, ghost pc: ActionPc, ghost time: nat) returns (sent: bool)
      requires Valid() && t < |actions| && lock == Some(t) && (pc.AChosen? || pc.AClosing?)
               && actions[t] == Stamp(pc, time)
      modifies this
      ensures Valid() && old(log) < log && |actions| == old(|actions|) && old(changes) <= changes
      ensures sent ==> lock == Some(t) && |inserted| == |old(inserted)| + 1 && Follows(pc, inserted)
                       && actions[t] == Sent(pc, |old(inserted)|)
      ensures !sent ==> actions[t].AIdle? && |queue| == MAX_PENDING_REQUESTS
      ensures old(schedule) == [] ==>
                schedule == [] && answers == old(answers) && sent == (|old(queue)| < MAX_PENDING_REQUESTS)
    {
      hide Run, Init, Step, Inv, Took, Valid, Snapshot, NextRequest;
      YieldA(t);
      RoomIsBounded();
      SentRequest(pc, time, inserted);
      sent := InsertRequest(t);
    }

    lemma RoomIsBounded()
      requires Valid()
      ensures |queue| <= MAX_PENDING_REQUESTS
    {
      Holds();
    }

    /** The changes made so far come from requests made so far. */
    lemma ChangesAreOfRequests()
      requires Valid()
      ensures forall k :: 0 <= k < |changes| && changes[k].source.ByRequest? ==> changes[k].source.id < |inserted|
    {
      Holds();
    }

    /** A request that was not granted has changed nothing. */
    lemma DeniedChangesNothing(id: nat)
      requires Valid() && id < |answers| && !answers[id].status.Ok?
      ensures forall k :: !ChangedBy(changes, k, id)
    {
      RequestConservation(|actions|, log, id);
    }

    /** A granted request of an action has made a change since `before`. */
    lemma EnteredBecause(id: nat, kind: Kind, earlier: nat, before: seq<Change>)
      requires Valid() && earlier <= id < |inserted| && id < |answers| && answers[id].status.Ok?
      requires inserted[id].to == Entry(kind) && before <= changes
      requires forall k :: 0 <= k < |before| && before[k].source.ByRequest? ==> before[k].source.id < earlier
      ensures HasEntered(changes, |before|, kind)
    {
      RequestConservation(|actions|, log, id);
      var k :| ChangedBy(changes, k, id);
      ChangeByRequest(|actions|, log, id, k);
      hide Run, Init;
      assert forall j :: 0 <= j < |before| ==> before[j] == changes[j];
      assert Enters(changes, k, kind);
    }

    /** A closing request that was granted has gone through with nothing in between. */
    lemma WentThroughBecause(id: nat, kind: Kind, to: StateCode, earlier: nat, before: seq<Change>)
      requires Valid() && id < |inserted| && id < |answers| && answers[id].status.Ok?
      requires inserted[id].from == Entry(kind) && inserted[id].to == to
      requires inserted[id].closes.Some? && earlier <= inserted[id].closes.value && before <= changes
      requires forall k :: 0 <= k < |before| && before[k].source.ByRequest? ==> before[k].source.id < earlier
      ensures WentThrough(changes, |before|, kind, to)
    {
      RequestConservation(|actions|, log, id);
      var k :| ChangedBy(changes, k, id);
      ChangeByRequest(|actions|, log, id, k);
      ClosingFollowsEntry(|actions|, log, id, k);
      Holds();
      hide Run, Init;
      assert Lawful(changes, inserted, k);
      assert ChangedBy(changes, k - 1, inserted[id].closes.value);
      assert forall j :: 0 <= j < |before| ==> before[j] == changes[j];
      assert Passes(changes, k, kind, to);
    }

    /**
     OnEnableMotion, OnDisableMotion or OnClearFaults. If it finishes, the machine has gone from the transitional state
     straight on to the state that the module's answer calls for; if it is interrupted, it has entered that state or, by
     a failing Disabled(), Faulted, and could not leave it; if it is denied, its request has changed nothing. It waits
     for a lock or an answer as long as anybody else has something to do.
     */
    method OnAction(t: nat, kind: Kind, outcome: Outcome, message: string) returns (end: ActionEnd)
      requires Valid() && t < |actions| && actions[t].AIdle?
      modifies this
      ensures Valid() && old(log) < log && |actions| == old(|actions|) && old(changes) <= changes
      ensures !end.Blocked? ==> actions[t].AIdle?
      ensures end.Blocked? ==>
                schedule == [] && if actions[t].AIdle? then lock.Some? && lock != Some(t) else lock == Some(t) && locked
      ensures end.Prohibited? ==> Guard(code, Entry(kind)) != Allowed
      ensures end.Rejected? ==> reject || |queue| == MAX_PENDING_REQUESTS
      ensures end.Refused? ==> WasDenied(inserted, answers, changes, |old(inserted)|, kind)
      ensures end.Unanswered? ==> schedule == [] && WasLeft(inserted, answers, |old(inserted)|, kind)
      ensures end.Interrupted? ==>
                && HasEntered(changes, |old(changes)|, kind)
                && (|| reject || |queue| == MAX_PENDING_REQUESTS
                    || DidNotClose(inserted, answers, |old(inserted)|, kind))
      ensures end.Finished? ==>
                WentThrough(changes, |old(changes)|, kind,
                            match outcome
                            case Succeeded => if kind.EnableMotion? then MotionEnabled else Activated
                            case Failed => Faulted
                            case Aborted => FatallyFaulted)
      ensures old(schedule) == [] ==>
                end == if old(lock).Some? then Blocked
                       else if Guard(old(code), Entry(kind)) != Allowed then ActionEnd.Prohibited
                       else if old(locked) then Blocked
                       else if old(reject) || |old(queue)| >= MAX_PENDING_REQUESTS then Rejected
                       else Unanswered
    {
      hide Run, Init, Step, Inv, Took, Valid, Snapshot, Guard, WentThrough, HasEntered, WasDenied, WasLeft, DidNotClose;
      ChangesAreOfRequests();
      NotAnsweredYet();
      var got := LockAction(t, kind);
      if !got { return Blocked; }
      YieldA(t);
      var go := LoadCode(t);
      if !go { return ActionEnd.Prohibited; }
      YieldA(t);
      end := Enter(t, outcome, message, |old(inserted)|, old(changes));
    }

    /** Takes action_lock_, waiting for it as long as the others have something to do. */
    method LockAction(t: nat, kind: Kind) returns (got: bool)
      requires Valid() && t < |actions| && actions[t].AIdle?
      modifies this
      ensures Valid() && old(log) < log && |actions| == old(|actions|)
      ensures old(changes) <= changes && old(inserted) <= inserted
      ensures actions[t] == if got then ALocked(kind) else AIdle
      ensures if got then lock == Some(t) else schedule == [] && lock.Some? && lock != Some(t)
      ensures old(schedule) == [] ==>
                && schedule == [] && code == old(code) && locked == old(locked) && reject == old(reject)
                && queue == old(queue) && answers == old(answers) && inserted == old(inserted)
                && got == old(lock).None?
    {
      hide Run, Init, Step, Inv, Took, Valid, Snapshot;
      got := TryLockAction(t, kind);
      while !got
        invariant Valid() && old(log) < log && |actions| == old(|actions|)
        invariant old(changes) <= changes && old(inserted) <= inserted
        invariant actions[t] == (if got then ALocked(kind) else AIdle) && (if got then lock == Some(t) else lock.Some?)
        invariant old(schedule) == [] ==>
                    && schedule == [] && code == old(code) && locked == old(locked) && reject == old(reject)
                    && queue == old(queue) && answers == old(answers) && inserted == old(inserted)
                    && got == old(lock).None?
        decreases |schedule|, !got
      {
        if schedule == [] {
          ForeignLock(t);
          return;
        }
        YieldA(t);
        got := TryLockAction(t, kind);
      }
    }

    /** A thread with no action under way does not hold the lock. */
    lemma ForeignLock(t: nat)
      requires Valid() && t < |actions|
      ensures actions[t].AIdle? ==> lock != Some(t)
    {
      Holds();
    }

    /** There are no more answers than requests. */
    lemma NotAnsweredYet()
      requires Valid()
      ensures |answers| <= |inserted|
    {
      Holds();
    }

    /** An action whose entry is allowed. */
    method Enter(t: nat, outcome: Outcome, message: string, ghost earlier: nat, ghost before: seq<Change>)
      returns (end: ActionEnd)
      requires Valid() && t < |actions| && actions[t].AChosen? && lock == Some(t) && earlier <= |inserted|
      requires before <= changes
      requires forall k :: 0 <= k < |before| && before[k].source.ByRequest? ==> before[k].source.id < earlier
      modifies this
      ensures Valid() && old(log) < log && |actions| == old(|actions|) && before <= changes
      ensures (!end.Blocked? ==> actions[t].AIdle?) && !end.Prohibited?
      ensures end.Blocked? ==> schedule == [] && !actions[t].AIdle? && lock == Some(t) && locked
      ensures end.Rejected? ==> reject || |queue| == MAX_PENDING_REQUESTS
      ensures end.Refused? ==> WasDenied(inserted, answers, changes, earlier, old(actions)[t].kind)
      ensures end.Unanswered? ==> schedule == [] && WasLeft(inserted, answers, earlier, old(actions)[t].kind)
      ensures end.Interrupted? ==>
                && HasEntered(changes, |before|, old(actions)[t].kind)
                && (|| reject || |queue| == MAX_PENDING_REQUESTS
                    || DidNotClose(inserted, answers, earlier, old(actions)[t].kind))
      ensures end.Finished? ==>
                WentThrough(changes, |before|, old(actions)[t].kind, Target(old(actions)[t].kind, outcome))
      ensures old(schedule) == [] && |old(answers)| <= |old(inserted)| ==>
                end == if old(locked) then Blocked
                       else if old(reject) || |old(queue)| >= MAX_PENDING_REQUESTS then Rejected
                       else Unanswered
    {
      hide Run, Init, Step, Inv, Took, Valid, Snapshot, Guard, WentThrough, HasEntered, DidNotClose;
      var kind, id := actions[t].kind, |inserted|;
      var sent, blocked := SendRequest(t);
      if blocked { return Blocked; }
      if !sent { return Rejected; }
      var waited := AwaitAnswer(t);
      match waited {
        case GaveUp =>
          assert WasLeft(inserted, answers, earlier, kind) by { assert inserted[id].to == Entry(kind); }
          return Unanswered;
        case Denied =>
          DeniedChangesNothing(id);
          return Refused;
        case Granted =>
          EnteredBecause(id, kind, earlier, before);
          end := Leave(t, outcome, message, earlier, before);
      }
    }

    /** An action that has entered its transitional state. */
    method Leave(t: nat, outcome: Outcome, message: string, ghost earlier: nat, ghost before: seq<Change>)
      returns (end: ActionEnd)
      requires Valid() && t < |actions| && actions[t].ARunning? && lock == Some(t) && earlier <= actions[t].entry
      requires earlier <= |inserted|
      requires before <= changes && HasEntered(changes, |before|, actions[t].kind)
      requires forall k :: 0 <= k < |before| && before[k].source.ByRequest? ==> before[k].source.id < earlier
      modifies this
      ensures Valid() && old(log) < log && |actions| == old(|actions|) && before <= changes
      ensures end.Blocked? || ((end.Interrupted? || end.Finished?) && actions[t].AIdle?)
      ensures end.Blocked? ==> schedule == [] && !actions[t].AIdle? && lock == Some(t) && locked
      ensures end.Interrupted? ==>
                || reject || |queue| == MAX_PENDING_REQUESTS
                || DidNotClose(inserted, answers, earlier, old(actions)[t].kind)
      ensures HasEntered(changes, |before|, old(actions)[t].kind)
      ensures end.Finished? ==>
                WentThrough(changes, |before|, old(actions)[t].kind, Target(old(actions)[t].kind, outcome))
    {
      hide Run, Init, Step, Inv, Took, Valid, Snapshot, Guard, WentThrough, HasEntered;
      var kind := actions[t].kind;
      RunModule(t, outcome, message);
      YieldA(t);
      var id := |inserted|;
      var sent, blocked := SendRequest(t);
      EntryStays(old(changes), changes, |before|, kind);
      if blocked { return Blocked; }
      if !sent { return Interrupted; }
      ghost var earlierChanges := changes;
      var waited := AwaitAnswer(t);
      EntryStays(earlierChanges, changes, |before|, kind);
      if !waited.Granted? {
        assert DidNotClose(inserted, answers, earlier, kind) by { assert inserted[id].from == Entry(kind); }
        return Interrupted;
      }
      WentThroughBecause(id, kind, Target(kind, outcome), earlier, before);
      return Finished;
    }
  }
}
