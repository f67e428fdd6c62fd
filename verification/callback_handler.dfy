/**
 HardwareModuleRuntime::CallbackHandler (icon/hal/hardware_module_runtime.cc) as a state machine.

 One driver at a time calls the realtime callbacks, the lifecycle callbacks and SetStateDirectly; any number of
 action threads call OnEnableMotion, OnDisableMotion and OnClearFaults beside it, and may give up waiting for
 an answer at any time.
 */
module CallbackProtocol {
  import opened Collections
  import opened TransitionGuard

  const MAX_PENDING_REQUESTS: nat := 10
  const MAX_FAULT_REASON_LENGTH: nat := 256

  // ----- Data ----------------------------------------------------------------------------------------

  datatype ModuleState = ModuleState(code: StateCode, message: string)

  /** Who asked for a state change: the request with this number, or the driver itself. */
  datatype Source = ByRequest(id: nat) | ByDriver

  /** A change of state: `hook` is the outcome of Disabled(), if that was called. */
  datatype Change = Change(from: StateCode, to: StateCode, source: Source, time: nat, hook: Option<bool>)

  /** A call to the module's hooks, with its outcome, or to its ApplyCommand. */
  datatype Call = Enabled(ok: bool) | Disabled(ok: bool) | Apply

  /**
   How far SetStateDirectly is after the store of a new code: the time of the update comes next, then the state in
   shared memory, then the one in the published buffer.
   */
  datatype Stage = Settled | Timing(shown: ModuleState) | Sharing(shown: ModuleState) | Publishing(shown: ModuleState)

  datatype Machine = Machine(code: StateCode, previous: StateCode, shared: ModuleState, published: ModuleState,
                             unread: bool, stage: Stage, now: nat, updateTime: nat, changes: seq<Change>,
                             calls: seq<Call>)

  /** `closes` is the number of the request with which the same action entered its transitional state. */
  datatype Request = Request(from: StateCode, to: StateCode, message: string, timestamp: nat, closes: Option<nat>)

  datatype Status = Ok | FailedPrecondition | Cancelled

  /** The answer to the request `id`, given when there had been `at` changes. */
  datatype Answer = Answer(id: nat, status: Status, at: nat)

  /** `locked` says that an action or Shutdown holds non_rt_buffer_lock_. */
  datatype Requests = Requests(queue: seq<Request>, reject: bool, locked: bool, inserted: seq<Request>,
                               removed: seq<Request>, answers: seq<Answer>)

  datatype Kind = EnableMotion | DisableMotion | ClearFaults

  datatype Outcome = Succeeded | Failed | Aborted

  datatype ActionPc =
    | AIdle
    | ALocked(kind: Kind)                                  // holds action_lock_, about to load the code
    | AChosen(kind: Kind, from: StateCode)                 // about to see whether requests are rejected
    | AStamped(kind: Kind, from: StateCode, stamp: nat)    // they are not; about to insert its request
    | AWaiting(kind: Kind, id: nat)
    | ARunning(kind: Kind, entry: nat)                     // in the module
    | AClosing(kind: Kind, entry: nat, to: StateCode, message: string)
    | ALeaving(kind: Kind, entry: nat, to: StateCode, message: string, stamp: nat)
    | AClosed(id: nat)                                     // waiting for the closing request

  datatype Callback = OnReadStatus | OnApplyCommand | OnPrepare | OnActivate | OnDeactivate | Shutdown | InitFailure

  datatype Lifecycle = Preparation | Activation | Deactivation(thenPrepare: bool)

  datatype After = ThenDone | ThenUnlock | ThenModule(life: Lifecycle)

  datatype DriverPc =
    | DIdle
    | DPop                                                 // OnReadStatus: about to pop a request
    | DApply(id: nat, request: Request)
    | DAnswer(id: nat, status: Status)
    | DHook                                                // about to check for the Enabled hook
    | DRead                                                // about to call the module's ReadStatus
    | DCancel(next: After)                                 // CancelPendingRequests: about to answer the front
    | DDrop(next: After)                                   // about to drop it
    | DReject(thenPrepare: bool)                           // OnDeactivate: about to reject new requests
    | DModule(life: Lifecycle)                             // about to call the module
    | DPreparing                                           // OnPrepare: about to set Preparing
    | DAccept                                              // OnActivate: about to accept requests again

  /** What the environment decides at a driver step; `disabled` is the error Disabled() would give, if any. */
  datatype Input = Input(callback: Callback, outcome: Outcome, disabled: Option<string>, message: string)

  /** A cycle in which all goes well. */
  const QUIET := Input(OnReadStatus, Succeeded, None, "")

  datatype State = State(m: Machine, q: Requests, driver: DriverPc, lock: Option<nat>, actions: seq<ActionPc>)

  datatype Event =
    | Drive(i: Input)
    | Act(t: nat, kind: Kind, outcome: Outcome, message: string)
    | GiveUp(t: nat)
    | Tick(d: nat)
    | Observe                                              // GetHardwareModuleState

  const DEFAULT_STATE := ModuleState(Deactivated, "")

  function Init(threads: nat): State {
    State(Machine(Deactivated, Deactivated, DEFAULT_STATE, DEFAULT_STATE, false, Settled, 0, 0, [], []),
          Requests([], false, false, [], [], []), DIdle, None, seq(threads, _ => AIdle))
  }

  /** What GetHardwareModuleState returns. */
  function Reported(m: Machine): ModuleState {
    if m.unread then m.published else DEFAULT_STATE
  }

  // ----- Setting the state ---------------------------------------------------------------------------

  function Truncated(message: string): string {
    if |message| < MAX_FAULT_REASON_LENGTH then message else message[..MAX_FAULT_REASON_LENGTH - 1]
  }

  datatype Wish = Wish(to: StateCode, message: string, source: Source)

  /** Where a wanted change ends: a failing Disabled() turns an orderly one into a fault. */
  function Landing(from: StateCode, to: StateCode, failed: bool): StateCode {
    if from.MotionEnabled? && failed && !to.InitFailed? && !to.FatallyFaulted? && !to.Faulted? then Faulted else to
  }

  /** SetStateDirectly up to the store of the code, from when on the action threads see the new state. */
  function SetState(m: Machine, wish: Wish, disabled: Option<string>): Machine {
    if Guard(m.code, wish.to) != Allowed then m
    else
      var to := Landing(m.code, wish.to, disabled.Some?);
      var message := if to == wish.to || disabled.None? then wish.message else "Disabled() failed: " + disabled.value;
      var shown := ModuleState(to, Truncated(message));
      var hook := if m.code.MotionEnabled? then Some(disabled.None?) else None;
      m.(code := to, stage := Timing(shown),
         changes := m.changes + [Change(m.code, to, wish.source, m.now, hook)],
         calls := if m.code.MotionEnabled? then m.calls + [Disabled(disabled.None?)] else m.calls)
  }

  /** The rest of SetStateDirectly, a step at a time. */
  function Advance(m: Machine): Machine {
    match m.stage
    case Settled => m
    case Timing(shown) => m.(updateTime := m.now, stage := Sharing(shown))
    case Sharing(shown) => m.(shared := shown, stage := Publishing(shown))
    case Publishing(shown) => m.(published := shown, unread := true, stage := Settled)
  }

  // ----- The driver ----------------------------------------------------------------------------------

  function FaultOf(outcome: Outcome): StateCode {
    if outcome.Aborted? then FatallyFaulted else Faulted
  }

  predicate NeedsDeactivation(code: StateCode) {
    code.Activated? || code.MotionEnabled? || code.MotionEnabling? || code.MotionDisabling? || code.Faulted?
    || code.ClearingFaults? || code.Preparing?
  }

  /** The request in hand is applied only if it is as new as the state and made in it. */
  predicate Timely(m: Machine, r: Request) {
    r.timestamp >= m.updateTime && r.from == m.code
  }

  predicate HookDue(m: Machine) {
    m.previous.MotionEnabling? && m.code.MotionEnabled?
  }

  const NOT_ENABLED := "PUBLIC: 'ApplyCommand' called while not enabled."

  /** The state change that the driver's next step tries to make, if any. */
  function Wanted(m: Machine, d: DriverPc, i: Input): Option<Wish> {
    match d
    case DIdle =>
      (match i.callback
       case OnReadStatus => None
       case OnApplyCommand =>
         if m.code.MotionDisabling? then None
         else if !m.code.MotionEnabled?
         then Some(Wish(Faulted, NOT_ENABLED, ByDriver))
         else if i.outcome.Succeeded? then None
         else Some(Wish(FaultOf(i.outcome), i.message, ByDriver))
       case OnPrepare => if NeedsDeactivation(m.code) then Some(Wish(Deactivating, "", ByDriver)) else None
       case OnActivate => Some(Wish(Activating, "", ByDriver))
       case OnDeactivate => Some(Wish(Deactivating, "", ByDriver))
       case Shutdown => None
       case InitFailure => Some(Wish(InitFailed, i.message, ByDriver)))
    case DApply(id, r) => if Timely(m, r) then Some(Wish(r.to, r.message, ByRequest(id))) else None
    case DHook => if HookDue(m) && !i.outcome.Succeeded? then Some(Wish(Faulted, i.message, ByDriver)) else None
    case DRead =>
      if !i.outcome.Succeeded? && !m.code.ClearingFaults? then Some(Wish(FaultOf(i.outcome), i.message, ByDriver))
      else None
    case DModule(life) =>
      if !i.outcome.Succeeded? then Some(Wish(FatallyFaulted, i.message, ByDriver))
      else Some(Wish(Completed(life), "", ByDriver))
    case DPreparing => Some(Wish(Preparing, "", ByDriver))
    case _ => None
  }

  function Completed(life: Lifecycle): StateCode {
    match life
    case Preparation => Prepared
    case Activation => Activated
    case Deactivation(_) => Deactivated
  }

  /** What the step does to the machine before that change. */
  function Prelude(m: Machine, d: DriverPc, i: Input): Machine {
    match d
    case DIdle =>
      if i.callback.OnReadStatus? then m.(previous := m.code)
      else if i.callback.OnApplyCommand? && m.code.MotionEnabled? then m.(calls := m.calls + [Apply])
      else m
    case DHook => if HookDue(m) then m.(calls := m.calls + [Enabled(i.outcome.Succeeded?)]) else m
    case _ => m
  }

  function MachineAfter(m: Machine, d: DriverPc, i: Input): Machine {
    var wanted := Wanted(m, d, i);
    if wanted.None? then Prelude(m, d, i) else SetState(Prelude(m, d, i), wanted.value, i.disabled)
  }

  /** SetStateDirectly's return value in this step. */
  predicate Changes(m: Machine, d: DriverPc, i: Input) {
    Wanted(m, d, i).Some? && Guard(m.code, Wanted(m, d, i).value.to) == Allowed
  }

  /** Where the driver goes on after cancelling. */
  function Resume(next: After): DriverPc {
    if next.ThenModule? then DModule(next.life) else DIdle
  }

  /** The driver's place after the module's own lifecycle function. */
  function AfterModule(life: Lifecycle): DriverPc {
    match life
    case Preparation => DIdle
    case Activation => DAccept
    case Deactivation(thenPrepare) => if thenPrepare then DPreparing else DIdle
  }

  function DriverNext(m: Machine, q: Requests, d: DriverPc, i: Input): DriverPc {
    var changes := Changes(m, d, i);
    match d
    case DIdle =>
      (match i.callback
       case OnReadStatus => DPop
       case OnApplyCommand => if changes then DCancel(ThenDone) else DIdle
       case OnPrepare => if changes then DReject(true) else DPreparing
       case OnActivate => if changes then DCancel(ThenModule(Activation)) else DIdle
       case OnDeactivate => if changes then DReject(false) else DIdle
       case Shutdown => if q.locked then DIdle else DCancel(ThenUnlock)
       case InitFailure => DIdle)
    case DPop => if q.queue == [] then DHook else DApply(|q.removed|, q.queue[0])
    case DApply(id, r) => DAnswer(id, if changes then Ok else if Timely(m, r) then FailedPrecondition else Cancelled)
    case DAnswer(_, _) => DHook
    case DHook => DRead
    case DRead => if changes then DCancel(ThenDone) else DIdle
    case DCancel(next) => if q.queue == [] then Resume(next) else DDrop(next)
    case DDrop(next) => DCancel(next)
    case DReject(thenPrepare) => DCancel(ThenModule(Deactivation(thenPrepare)))
    case DModule(life) => AfterModule(life)
    case DPreparing => if changes then DCancel(ThenModule(Preparation)) else DIdle
    case DAccept => DIdle
  }

  function RequestsAfter(m: Machine, q: Requests, d: DriverPc, i: Input): Requests {
    match d
    case DIdle => if i.callback.Shutdown? && !q.locked then q.(reject := true, locked := true) else q
    case DPop => if q.queue == [] then q else q.(queue := q.queue[1..], removed := q.removed + [q.queue[0]])
    case DAnswer(id, status) => q.(answers := q.answers + [Answer(id, status, |m.changes|)])
    case DCancel(next) =>
      if q.queue != [] then q.(answers := q.answers + [Answer(|q.removed|, Cancelled, |m.changes|)])
      else if next.ThenUnlock? then q.(locked := false)
      else q
    case DDrop(_) => if q.queue == [] then q else q.(queue := q.queue[1..], removed := q.removed + [q.queue[0]])
    case DReject(_) => q.(reject := true)
    case DAccept => q.(reject := false)
    case _ => q
  }

  // ----- The actions ---------------------------------------------------------------------------------

  function Entry(kind: Kind): StateCode {
    match kind
    case EnableMotion => MotionEnabling
    case DisableMotion => MotionDisabling
    case ClearFaults => ClearingFaults
  }

  function Exit(kind: Kind): StateCode {
    if kind.EnableMotion? then MotionEnabled else Activated
  }

  predicate HasRoom(q: Requests) {
    |q.queue| < MAX_PENDING_REQUESTS
  }

  /** The request that an action inserts next. */
  function NextRequest(pc: ActionPc): Option<Request> {
    match pc
    case AStamped(kind, from, stamp) => Some(Request(from, Entry(kind), "", stamp, None))
    case ALeaving(kind, entry, to, message, stamp) =>
      Some(Request(Entry(kind), to, Truncated(message), stamp, Some(entry)))
    case _ => None
  }

  function ActionNext(m: Machine, q: Requests, free: bool, pc: ActionPc, kind: Kind, outcome: Outcome,
                      message: string): ActionPc
  {
    match pc
    case AIdle => if free then ALocked(kind) else AIdle
    case ALocked(kind) => if Guard(m.code, Entry(kind)) == Allowed then AChosen(kind, m.code) else AIdle
    case AChosen(kind, from) => if q.locked then pc else if q.reject then AIdle else AStamped(kind, from, m.now)
    case AStamped(kind, _, _) => if HasRoom(q) then AWaiting(kind, |q.inserted|) else AIdle
    case AWaiting(kind, id) =>
      if id >= |q.answers| then pc else if q.answers[id].status.Ok? then ARunning(kind, id) else AIdle
    case ARunning(kind, entry) =>
      if outcome.Succeeded? then AClosing(kind, entry, Exit(kind), "")
      else AClosing(kind, entry, FaultOf(outcome), message)
    case AClosing(kind, entry, to, message) =>
      if q.locked then pc else if q.reject then AIdle else ALeaving(kind, entry, to, message, m.now)
    case ALeaving(_, _, _, _, _) => if HasRoom(q) then AClosed(|q.inserted|) else AIdle
    case AClosed(id) => if id >= |q.answers| then pc else AIdle
  }

  /** What the step of an action does to the requests: it takes the lock, or inserts its request and lets it go. */
  function Inserting(q: Requests, pc: ActionPc): Requests {
    if pc.AChosen? || pc.AClosing? then (if q.reject then q else q.(locked := true))
    else if NextRequest(pc).None? then q
    else if HasRoom(q) then
      q.(locked := false, queue := q.queue + [NextRequest(pc).value], inserted := q.inserted + [NextRequest(pc).value])
    else q.(locked := false)
  }

  /** action_lock_ is held by the thread that is not idle. */
  function LockAfter(lock: Option<nat>, t: nat, before: ActionPc, after: ActionPc): Option<nat> {
    if before == after then lock else if after.AIdle? then None else Some(t)
  }

  // ----- Runs ----------------------------------------------------------------------------------------

  function ActionAfter(s: State, t: nat, pc: ActionPc, q: Requests): State
    requires t < |s.actions|
  {
    s.(q := q, actions := s.actions[t := pc], lock := LockAfter(s.lock, t, s.actions[t], pc))
  }

  function Step(s: State, e: Event): State {
    match e
    case Drive(i) =>
      if !s.m.stage.Settled? then s.(m := Advance(s.m))
      else
        s.(m := MachineAfter(s.m, s.driver, i), q := RequestsAfter(s.m, s.q, s.driver, i),
           driver := DriverNext(s.m, s.q, s.driver, i))
    case Act(t, kind, outcome, message) =>
      if t >= |s.actions| then s
      else
        var pc := s.actions[t];
        ActionAfter(s, t, ActionNext(s.m, s.q, s.lock.None?, pc, kind, outcome, message), Inserting(s.q, pc))
    case GiveUp(t) =>
      if t < |s.actions| && (s.actions[t].AWaiting? || s.actions[t].AClosed?) then ActionAfter(s, t, AIdle, s.q) else s
    case Tick(d) => s.(m := s.m.(now := s.m.now + d))
    case Observe => s.(m := s.m.(unread := false))
  }

  ghost function Run(s: State, es: seq<Event>): State {
    if es == [] then s else Step(Run(s, es[..|es| - 1]), es[|es| - 1])
  }
}
