/** The states of a hardware module and the guard on its transitions (icon/hal/hardware_module_util.cc). */
module TransitionGuard {

  datatype StateCode =
    | Deactivated | Deactivating | Activated | Activating | MotionEnabled | MotionEnabling | MotionDisabling
    | Faulted | ClearingFaults | InitFailed | FatallyFaulted | Preparing | Prepared

  datatype Verdict = NoOp | Allowed | Prohibited

  function Guard(from: StateCode, to: StateCode): Verdict {
    if from == to then NoOp
    else if to.FatallyFaulted? then Allowed
    else match from
      case Preparing => if to.Prepared? || to.Faulted? then Allowed else Prohibited
      case Prepared => if to.Activating? || to.Deactivating? then Allowed else Prohibited
      case Deactivating => if to.Deactivated? then Allowed else Prohibited
      case Deactivated =>
        if to.Deactivating? then NoOp else if to.Preparing? || to.InitFailed? then Allowed else Prohibited
      case Activating => if to.Activated? then Allowed else Prohibited
      case Activated =>
        if to.MotionDisabling? || to.ClearingFaults? then NoOp
        else if to.MotionEnabling? || to.Deactivating? || to.Faulted? then Allowed
        else Prohibited
      case MotionEnabling => if to.Deactivating? || to.MotionEnabled? || to.Faulted? then Allowed else Prohibited
      case MotionEnabled =>
        if to.MotionEnabling? || to.ClearingFaults? then NoOp
        else if to.MotionDisabling? || to.Faulted? || to.Deactivating? then Allowed
        else Prohibited
      case MotionDisabling => if to.Faulted? || to.Activated? || to.Deactivating? then Allowed else Prohibited
      case Faulted => if to.ClearingFaults? || to.Deactivating? then Allowed else Prohibited
      case ClearingFaults => if to.Deactivating? || to.Faulted? || to.Activated? then Allowed else Prohibited
      case InitFailed => Prohibited
      case FatallyFaulted => Prohibited
  }

  /** The states from which a state can be entered. */
  function Predecessors(to: StateCode): set<StateCode> {
    match to
    case Deactivated => {Deactivating}
    case Deactivating => {Prepared, Activated, MotionEnabling, MotionEnabled, MotionDisabling, Faulted, ClearingFaults}
    case Preparing => {Deactivated}
    case Prepared => {Preparing}
    case Activating => {Prepared}
    case Activated => {Activating, MotionDisabling, ClearingFaults}
    case MotionEnabling => {Activated}
    case MotionEnabled => {MotionEnabling}
    case MotionDisabling => {MotionEnabled}
    case ClearingFaults => {Faulted}
    case Faulted => {Preparing, Activated, MotionEnabling, MotionEnabled, MotionDisabling, ClearingFaults}
    case InitFailed => {Deactivated}
    case FatallyFaulted =>
      {Deactivated, Deactivating, Preparing, Prepared, Activating, Activated, MotionEnabling, MotionEnabled,
       MotionDisabling, ClearingFaults, Faulted, InitFailed}
  }

  /** The table, read by where it leads: what is allowed, and what is passed over because its goal is reached. */
  lemma AllowedExactlyWhen(from: StateCode, to: StateCode)
    ensures Guard(from, to) == Allowed <==> from in Predecessors(to)
    ensures Guard(from, to) == NoOp <==>
            || from == to
            || (to.Deactivating? && from.Deactivated?) || (to.MotionEnabling? && from.MotionEnabled?)
            || (to.MotionDisabling? && from.Activated?)
            || (to.ClearingFaults? && (from.Activated? || from.MotionEnabled?))
  {
  }

  /** A sequence of states in which each step is one the guard allows. */
  ghost predicate Path(states: seq<StateCode>) {
    forall i {:trigger states[i]} :: 0 < i < |states| ==> Guard(states[i - 1], states[i]) == Allowed
  }

  /** Nothing leads out of FatallyFaulted, and only FatallyFaulted lies beyond InitFailed. */
  lemma {:induction false} DeadEnds(states: seq<StateCode>, i: nat, j: nat)
    requires Path(states) && i < j < |states|
    ensures !states[i].FatallyFaulted?
    ensures states[i].InitFailed? ==> j == i + 1 && states[j].FatallyFaulted?
    decreases j - i
  {
    assert Guard(states[i], states[i + 1]) == Allowed by { assert states[i + 1] == states[i + 1]; }
    if i + 1 < j && states[i].InitFailed? { DeadEnds(states, i + 1, j); }
  }

  predicate Leads(states: seq<StateCode>, from: StateCode, to: StateCode) {
    states != [] && states[0] == from && states[|states| - 1] == to
  }

  /** A way back to Deactivated, where a module can be prepared anew. */
  function WayBack(from: StateCode): seq<StateCode> {
    match from
    case Deactivated => [Deactivated]
    case Deactivating => [Deactivating, Deactivated]
    case Preparing => [Preparing, Prepared, Deactivating, Deactivated]
    case Activating => [Activating, Activated, Deactivating, Deactivated]
    case _ => [from, Deactivating, Deactivated]
  }

  /** Exactly when a module can get back to Deactivated: it has neither failed to initialise nor faulted fatally. */
  lemma {:induction false} ReturnsExactlyWhen(from: StateCode)
    ensures (exists states :: Path(states) && Leads(states, from, Deactivated)) <==>
            !from.InitFailed? && !from.FatallyFaulted?
  {
    if from.InitFailed? || from.FatallyFaulted? {
      forall states | Path(states) ensures !Leads(states, from, Deactivated) {
        if Leads(states, from, Deactivated) && |states| > 1 { DeadEnds(states, 0, |states| - 1); }
      }
    } else {
      assert Path(WayBack(from)) && Leads(WayBack(from), from, Deactivated);
    }
  }

  /** A fault is left for Activated only through ClearingFaults, unless the module goes all the way round. */
  lemma {:induction false} RepairedOnlyByClearing(states: seq<StateCode>, i: nat)
    requires Path(states) && i < |states| && states != [] && states[0].Faulted? && states[i].Activated?
    requires forall j :: 0 <= j < i ==> !states[j].Deactivated?
    ensures i >= 2 && states[1].ClearingFaults?
  {
    assert Guard(states[0], states[1]) == Allowed;
    if states[1].FatallyFaulted? {
      DeadEnds(states, 1, i);
    } else if states[1].Deactivating? {
      assert Guard(states[1], states[2]) == Allowed;
      DeadEnds(states, 2, i);
    }
  }

  /** Motion is enabled only from MotionEnabling, itself entered only from Activated. */
  lemma {:induction false} EnabledStepwise(states: seq<StateCode>, i: nat)
    requires Path(states) && |states| > 0 && states[0].Deactivated? && i < |states| && states[i].MotionEnabled?
    ensures i >= 2 && states[i - 1].MotionEnabling? && states[i - 2].Activated?
  {
    assert Guard(states[i - 1], states[i]) == Allowed;
    assert i - 1 > 0 ==> Guard(states[i - 2], states[i - 1]) == Allowed by { assert states[i - 1] == states[i - 1]; }
  }
}
