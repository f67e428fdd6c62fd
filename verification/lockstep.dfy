/**
 util/thread/lockstep.cc as a protocol: one step per atomic access to the state word or to one of the
 two futexes. A futex appears as its token; waiting is either taking the token or giving up.

 Any number of threads call StartOperationA/B, EndOperationA/B, Cancel and Reset. An EndOperation of a thread that has
 not started the operation makes the same accesses from other positions, so that the two can be told apart. A thread
 that does this or cancels from inside an operation appears as another thread, since neither depends on who calls it.
 */
module LockstepProtocol {

  datatype Op = A | B

  datatype Word = BFinished | ARunning | AFinished | BRunning | Cancelled

  datatype Pc =
    | Idle
    | StartAWait | StartASwap | StartARepost
    | InA | EndALoad | EndAStore | EndAPost
    | StartBWait | StartBSwap | StartBRepost
    | InB | EndBPost
    | CancelPostA | CancelPostB
    | ResetWaitA | ResetWaitB | ResetStore | ResetPost
    | StrayLoad | StrayStore   // EndOperationA of a thread that does not run operation A

  /**
   `started` lists the operations started since the last Reset, `refused` says whether a Start, or the End of an
   operation that the caller runs, ever returned FailedPrecondition, and `stamp` is the shared timestamp that
   operation A publishes.
   */
  datatype State = State(word: Word, aPosted: bool, bPosted: bool, pcs: seq<Pc>,
                         started: seq<Op>, refused: bool, stamp: int)

  datatype Event =
    | CallStartA(t: nat) | TakeB(t: nat) | TimeoutA(t: nat) | SwapA(t: nat) | RepostB(t: nat)
    | LoadEndA(t: nat) | ReloadEndA(t: nat) | StoreEndA(t: nat) | PostEndA(t: nat)
    | CallStartB(t: nat) | TakeA(t: nat) | TimeoutB(t: nat) | SwapB(t: nat) | RepostA(t: nat)
    | SwapEndB(t: nat) | PostEndB(t: nat)
    | CancelStore(t: nat) | CancelA(t: nat) | CancelB(t: nat)
    | ResetLoad(t: nat) | ResetTakeA(t: nat) | ResetTimeoutA(t: nat) | ResetTakeB(t: nat) | ResetTimeoutB(t: nat)
    | StoreReset(t: nat) | PostReset(t: nat)
    | StrayLoadA(t: nat) | StrayReloadA(t: nat) | StrayStoreA(t: nat) | StraySwapB(t: nat)
    | Publish(t: nat, stamp: int)

  function Init(threads: nat): State {
    State(BFinished, false, true, seq(threads, _ => Idle), [], false, 0)
  }

  predicate At(s: State, t: nat, pc: Pc) {
    t < |s.pcs| && s.pcs[t] == pc
  }

  /** The position from which a thread makes an access. */
  function From(e: Event): Pc {
    match e
    case CallStartA(_) => Idle
    case TakeB(_) => StartAWait
    case TimeoutA(_) => StartAWait
    case SwapA(_) => StartASwap
    case RepostB(_) => StartARepost
    case Publish(_, _) => InA
    case LoadEndA(_) => InA
    case ReloadEndA(_) => EndALoad
    case StoreEndA(_) => EndAStore
    case PostEndA(_) => EndAPost
    case CallStartB(_) => Idle
    case TakeA(_) => StartBWait
    case TimeoutB(_) => StartBWait
    case SwapB(_) => StartBSwap
    case RepostA(_) => StartBRepost
    case SwapEndB(_) => InB
    case PostEndB(_) => EndBPost
    case CancelStore(_) => Idle
    case CancelA(_) => CancelPostA
    case CancelB(_) => CancelPostB
    case ResetLoad(_) => Idle
    case ResetTakeA(_) => ResetWaitA
    case ResetTimeoutA(_) => ResetWaitA
    case ResetTakeB(_) => ResetWaitB
    case ResetTimeoutB(_) => ResetWaitB
    case StoreReset(_) => ResetStore
    case PostReset(_) => ResetPost
    case StrayLoadA(_) => Idle
    case StrayReloadA(_) => StrayLoad
    case StrayStoreA(_) => StrayStore
    case StraySwapB(_) => Idle
  }

  /** The position after the access; Idle means that the call has returned. */
  function To(word: Word, e: Event): Pc {
    match e
    case CallStartA(_) => StartAWait
    case TakeB(_) => StartASwap
    case SwapA(_) => if word == BFinished then InA else if word == Cancelled then StartARepost else Idle
    case Publish(_, _) => InA
    case LoadEndA(_) => if word == Cancelled then Idle else EndALoad
    case ReloadEndA(_) => if word == ARunning then EndAStore else Idle
    case StoreEndA(_) => EndAPost
    case CallStartB(_) => StartBWait
    case TakeA(_) => StartBSwap
    case SwapB(_) => if word == AFinished then InB else if word == Cancelled then StartBRepost else Idle
    case SwapEndB(_) => if word == BRunning then EndBPost else Idle
    case CancelStore(_) => CancelPostA
    case CancelA(_) => CancelPostB
    case ResetLoad(_) => if word == Cancelled then ResetWaitA else Idle
    case ResetTakeA(_) => ResetWaitB
    case ResetTakeB(_) => ResetStore
    case StoreReset(_) => ResetPost
    case StrayLoadA(_) => if word == Cancelled then Idle else StrayLoad
    case StrayReloadA(_) => if word == ARunning then StrayStore else Idle
    case StrayStoreA(_) => EndAPost
    case StraySwapB(_) => if word == BRunning then EndBPost else Idle
    case _ => Idle
  }

  /** A wait ends with its token only while the token is there. */
  predicate Ready(s: State, e: Event) {
    && (e.TakeA? || e.ResetTakeA? ==> s.aPosted)
    && (e.TakeB? || e.ResetTakeB? ==> s.bPosted)
  }

  function WordAfter(word: Word, e: Event): Word {
    match e
    case SwapA(_) => if word == BFinished then ARunning else word
    case StoreEndA(_) => AFinished
    case SwapB(_) => if word == AFinished then BRunning else word
    case SwapEndB(_) => if word == BRunning then BFinished else word
    case CancelStore(_) => Cancelled
    case StoreReset(_) => BFinished
    case StrayStoreA(_) => AFinished
    case StraySwapB(_) => if word == BRunning then BFinished else word
    case _ => word
  }

  function StartedAfter(s: State, e: Event): seq<Op> {
    if e.SwapA? && s.word == BFinished then s.started + [A]
    else if e.SwapB? && s.word == AFinished then s.started + [B]
    else if e.StoreReset? then []
    else s.started
  }

  predicate APostedAfter(aPosted: bool, e: Event) {
    if e.PostEndA? || e.RepostA? || e.CancelA? then true else if e.TakeA? || e.ResetTakeA? then false else aPosted
  }

  predicate BPostedAfter(bPosted: bool, e: Event) {
    if e.PostEndB? || e.RepostB? || e.CancelB? || e.PostReset? then true
    else if e.TakeB? || e.ResetTakeB? then false else bPosted
  }

  /** The accesses that answer FailedPrecondition to a caller of Start, or of an End that matches its Start. */
  predicate Refused(word: Word, e: Event) {
    || (e.SwapA? && word != BFinished && word != Cancelled)
    || (e.ReloadEndA? && word != ARunning)
    || (e.SwapB? && word != AFinished && word != Cancelled)
    || (e.SwapEndB? && word != BRunning && word != Cancelled)
  }

  predicate Enabled(s: State, e: Event) {
    At(s, e.t, From(e)) && Ready(s, e)
  }

  /** One atomic access; an access its thread is not about to make changes nothing. */
  function Step(s: State, e: Event): State {
    if !Enabled(s, e) then s else
      State(WordAfter(s.word, e), APostedAfter(s.aPosted, e), BPostedAfter(s.bPosted, e),
            s.pcs[e.t := To(s.word, e)], StartedAfter(s, e), s.refused || Refused(s.word, e),
            if e.Publish? then e.stamp else s.stamp)
  }

  function Run(s: State, es: seq<Event>): State {
    if es == [] then s else Step(Run(s, es[..|es| - 1]), es[|es| - 1])
  }

  lemma RunPlus(s: State, es: seq<Event>, e: Event)
    ensures Run(s, es + [e]) == Step(Run(s, es), e)
  {
    assert (es + [e])[..|es|] == es;
  }

  /** A run can be cut at any point. */
  lemma {:induction false} RunOnwards(s: State, earlier: seq<Event>, later: seq<Event>)
    requires earlier <= later
    ensures Run(s, later) == Run(Run(s, earlier), later[|earlier|..])
    decreases |later|
  {
    var rest := later[|earlier|..];
    if earlier != later {
      assert later[..|later| - 1][|earlier|..] == rest[..|rest| - 1];
      RunOnwards(s, earlier, later[..|later| - 1]);
    }
  }

  lemma RunAppend(s: State, a: seq<Event>, b: seq<Event>)
    ensures Run(s, a + b) == Run(Run(s, a), b)
  {
    RunOnwards(s, a, a + b);
    assert (a + b)[|a|..] == b;
  }

  lemma RunThen(s: State, e: Event, es: seq<Event>)
    ensures Run(s, [e] + es) == Run(Step(s, e), es)
  {
    RunAppend(s, [e], es);
    RunPlus(s, [], e);
    assert [] + [e] == [e];
  }

  // ----- Mutual exclusion and alternation ------------------------------------------------------

  predicate ActiveA(pc: Pc) { pc.InA? || pc.EndALoad? || pc.EndAStore? }

  predicate Active(pc: Pc) { ActiveA(pc) || pc.InB? }

  predicate Resetting(pc: Pc) { pc.ResetWaitA? || pc.ResetWaitB? || pc.ResetStore? }

  ghost predicate AnyActive(s: State) {
    exists i :: 0 <= i < |s.pcs| && Active(s.pcs[i])
  }

  ghost predicate AtMostOneOp(s: State) {
    forall i, j :: 0 <= i < |s.pcs| && 0 <= j < |s.pcs| && Active(s.pcs[i]) && Active(s.pcs[j]) ==> i == j
  }

  ghost predicate Alternates(ops: seq<Op>) {
    forall k :: 0 <= k < |ops| ==> ops[k] == if k % 2 == 0 then A else B
  }

  /** What the header asks of a caller of Reset: one at a time, and no operation held. */
  ghost predicate ResetAllowed(s: State) {
    s.word == Cancelled ==>
      && !AnyActive(s)
      && forall i :: 0 <= i < |s.pcs| ==> !Resetting(s.pcs[i]) && !s.pcs[i].ResetPost?
  }

  /** An EndOperation without its Start finds somebody else's operation running, and ends that. */
  predicate Strikes(s: State, e: Event) {
    Enabled(s, e) && ((e.StrayReloadA? && s.word == ARunning) || (e.StraySwapB? && s.word == BRunning))
  }

  ghost predicate Disciplined(s: State, es: seq<Event>) {
    es == [] ||
    (var before, e := es[..|es| - 1], es[|es| - 1];
     Disciplined(s, before) && (e.ResetLoad? ==> ResetAllowed(Run(s, before))) && !Strikes(Run(s, before), e))
  }

  /** What one thread's position says about the shared fields. */
  predicate ThreadOk(s: State, pc: Pc) {
    && (ActiveA(pc) ==> (s.word == ARunning || s.word == Cancelled) && |s.started| % 2 == 1)
    && (pc.InB? ==> (s.word == BRunning || s.word == Cancelled) && |s.started| % 2 == 0)
    && (Resetting(pc) ==> s.word == Cancelled)
    && !pc.StrayStore?
  }

  /** What two different threads can never do at the same time. */
  predicate Compatible(p: Pc, q: Pc) {
    !(Active(p) && Active(q)) && !(Resetting(p) && Active(q)) && !(Resetting(p) && Resetting(q))
  }

  ghost predicate Inv(s: State) {
    && Alternates(s.started)
    && (s.word == BFinished || s.word == BRunning ==> |s.started| % 2 == 0)
    && (s.word == AFinished || s.word == ARunning ==> |s.started| % 2 == 1)
    && (forall i :: 0 <= i < |s.pcs| ==> ThreadOk(s, s.pcs[i]))
    && (forall i, j :: 0 <= i < |s.pcs| && 0 <= j < |s.pcs| && i != j ==> Compatible(s.pcs[i], s.pcs[j]))
  }

  /** A thread that moves without touching the state word, and does not become active or a resetter. */
  lemma QuietMove(s: State, t: nat, pc: Pc, s': State)
    requires Inv(s) && t < |s.pcs|
    requires s'.pcs == s.pcs[t := pc] && s'.word == s.word && s'.started == s.started
    requires Active(pc) ==> Active(s.pcs[t]) && ActiveA(pc) == ActiveA(s.pcs[t])
    requires (Resetting(pc) ==> Resetting(s.pcs[t])) && !pc.StrayStore?
    ensures Inv(s')
  {
    forall i | 0 <= i < |s'.pcs| ensures ThreadOk(s', s'.pcs[i]) { assert ThreadOk(s, s.pcs[i]); }
    forall i, j | 0 <= i < |s'.pcs| && 0 <= j < |s'.pcs| && i != j ensures Compatible(s'.pcs[i], s'.pcs[j]) {
      assert Compatible(s.pcs[i], s.pcs[j]);
    }
  }

  lemma NobodyActive(s: State)
    requires Inv(s) && (s.word == BFinished || s.word == AFinished)
    ensures forall i :: 0 <= i < |s.pcs| ==> !Active(s.pcs[i]) && !Resetting(s.pcs[i])
  {
    forall i | 0 <= i < |s.pcs| ensures !Active(s.pcs[i]) && !Resetting(s.pcs[i]) {
      assert ThreadOk(s, s.pcs[i]);
    }
  }

  lemma StartKeepsInv(s: State, t: nat, op: Op, s': State)
    requires Inv(s) && t < |s.pcs| && s.word == (if op.A? then BFinished else AFinished)
    requires s'.pcs == s.pcs[t := if op.A? then InA else InB]
    requires s'.word == (if op.A? then ARunning else BRunning) && s'.started == s.started + [op]
    ensures Inv(s')
  {
    NobodyActive(s);
  }

  lemma EndKeepsInv(s: State, t: nat, s': State)
    requires Inv(s) && t < |s.pcs| && (s.pcs[t].EndAStore? || (s.pcs[t].InB? && s.word == BRunning))
    requires s'.pcs == s.pcs[t := if s.pcs[t].InB? then EndBPost else EndAPost] && s'.started == s.started
    requires s'.word == if s.pcs[t].InB? then BFinished else AFinished
    ensures Inv(s')
  {
    assert ThreadOk(s, s.pcs[t]);
    forall i | 0 <= i < |s.pcs| && i != t ensures ThreadOk(s', s'.pcs[i]) {
      assert Compatible(s.pcs[t], s.pcs[i]) && Compatible(s.pcs[i], s.pcs[t]);
    }
  }

  lemma CancelKeepsInv(s: State, t: nat, s': State)
    requires Inv(s) && At(s, t, Idle) && s' == Step(s, CancelStore(t))
    ensures Inv(s')
  {
    forall i | 0 <= i < |s.pcs| ensures ThreadOk(s', s'.pcs[i]) { assert ThreadOk(s, s.pcs[i]); }
  }

  lemma ResetKeepsInv(s: State, t: nat, s': State)
    requires Inv(s) && At(s, t, ResetStore) && s' == Step(s, StoreReset(t))
    ensures Inv(s')
  {
    forall i | 0 <= i < |s.pcs| && i != t ensures ThreadOk(s', s'.pcs[i]) {
      assert Compatible(s.pcs[t], s.pcs[i]);
    }
  }

  lemma BeginResetKeepsInv(s: State, t: nat, s': State)
    requires Inv(s) && At(s, t, Idle) && s.word == Cancelled && ResetAllowed(s) && s' == Step(s, ResetLoad(t))
    ensures Inv(s')
  {
    assert forall i :: 0 <= i < |s.pcs| ==> !Active(s.pcs[i]);
  }

  /** The accesses that start or end an operation, cancel or reset. */
  predicate Decides(word: Word, e: Event) {
    || (e.SwapA? && word == BFinished) || (e.SwapB? && word == AFinished)
    || e.StoreEndA? || (e.SwapEndB? && word == BRunning)
    || e.CancelStore? || (e.ResetLoad? && word == Cancelled) || e.StoreReset?
  }

  lemma OtherAccesses(s: State, e: Event)
    requires Enabled(s, e) && !Decides(s.word, e) && !Strikes(s, e) && !e.StrayStoreA?
    ensures WordAfter(s.word, e) == s.word && StartedAfter(s, e) == s.started
    ensures var pc, pc' := s.pcs[e.t], To(s.word, e);
            && (Active(pc') ==> Active(pc) && ActiveA(pc') == ActiveA(pc))
            && (Resetting(pc') ==> Resetting(pc)) && !pc'.StrayStore?
  {
  }

  lemma DecisionKeepsInv(s: State, e: Event)
    requires Inv(s) && Enabled(s, e) && Decides(s.word, e) && (e.ResetLoad? ==> ResetAllowed(s))
    ensures Inv(Step(s, e))
  {
    hide Inv, ResetAllowed;
    var t, s' := e.t, Step(s, e);
    match e {
      case SwapA(_) => StartKeepsInv(s, t, A, s');
      case SwapB(_) => StartKeepsInv(s, t, B, s');
      case StoreEndA(_) => EndKeepsInv(s, t, s');
      case SwapEndB(_) => EndKeepsInv(s, t, s');
      case CancelStore(_) => CancelKeepsInv(s, t, s');
      case ResetLoad(_) => BeginResetKeepsInv(s, t, s');
      case StoreReset(_) => ResetKeepsInv(s, t, s');
    }
  }

  lemma StepKeepsInv(s: State, e: Event)
    requires Inv(s)
    requires (e.ResetLoad? ==> ResetAllowed(s)) && !Strikes(s, e)
    ensures Inv(Step(s, e))
  {
    if !Enabled(s, e) { return; }
    assert ThreadOk(s, s.pcs[e.t]);
    if Decides(s.word, e) {
      DecisionKeepsInv(s, e);
    } else {
      OtherAccesses(s, e);
      hide Inv, ResetAllowed, Decides, Strikes, To, WordAfter, StartedAfter, Active, ActiveA, Resetting;
      QuietMove(s, e.t, To(s.word, e), Step(s, e));
    }
  }

  lemma {:induction false} DisciplinedRunsKeepInv(s: State, es: seq<Event>)
    requires Inv(s) && Disciplined(s, es)
    ensures Inv(Run(s, es))
    decreases |es|
  {
    if es != [] {
      var before, e := es[..|es| - 1], es[|es| - 1];
      DisciplinedRunsKeepInv(s, before);
      StepKeepsInv(Run(s, before), e);
    }
  }

  lemma InvMeansExclusive(s: State)
    requires Inv(s)
    ensures AtMostOneOp(s)
  {
    forall i, j | 0 <= i < |s.pcs| && 0 <= j < |s.pcs| && Active(s.pcs[i]) && Active(s.pcs[j]) ensures i == j {
      assert i != j ==> Compatible(s.pcs[i], s.pcs[j]);
    }
  }

  /** Mutual exclusion and strict alternation from A, for any number of threads, Cancel anywhere. */
  lemma {:induction false} OperationsAlternate(threads: nat, es: seq<Event>)
    requires Disciplined(Init(threads), es)
    ensures AtMostOneOp(Run(Init(threads), es)) && Alternates(Run(Init(threads), es).started)
  {
    DisciplinedRunsKeepInv(Init(threads), es);
    InvMeansExclusive(Run(Init(threads), es));
  }

  /** While an operation is active nobody else publishes: operation B reads a timestamp that stands still. */
  lemma StampIsStable(threads: nat, es: seq<Event>, t: nat, e: Event)
    requires Disciplined(Init(threads), es)
    requires var s := Run(Init(threads), es);
             t < |s.pcs| && Active(s.pcs[t]) && !(e.Publish? && e.t == t && s.pcs[t].InA?)
    ensures Step(Run(Init(threads), es), e).stamp == Run(Init(threads), es).stamp
  {
    OperationsAlternate(threads, es);
  }

  predicate ResetFree(es: seq<Event>) {
    forall e :: e in es ==> !e.StoreReset?
  }

  lemma {:induction false} StartedGrows(s: State, earlier: seq<Event>, later: seq<Event>)
    requires earlier <= later && ResetFree(later[|earlier|..])
    ensures Run(s, earlier).started <= Run(s, later).started
    decreases |later|
  {
    if earlier == later { return; }
    var before, e := later[..|later| - 1], later[|later| - 1];
    assert later[|earlier|..] == before[|earlier|..] + [e];
    assert e in later[|earlier|..];
    StartedGrows(s, earlier, before);
  }

  lemma {:induction false} DisciplinedBefore(s: State, earlier: seq<Event>, later: seq<Event>)
    requires earlier <= later && Disciplined(s, later)
    ensures Disciplined(s, earlier)
    decreases |later|
  {
    if earlier != later { DisciplinedBefore(s, earlier, later[..|later| - 1]); }
  }

  /** Between two starts of operation A in one era, operation B has started. */
  lemma {:induction false} UpdateRanBetween(threads: nat, earlier: seq<Event>, later: seq<Event>, t: nat)
    requires earlier <= later && Disciplined(Init(threads), later) && ResetFree(later[|earlier|..])
    requires At(Run(Init(threads), earlier), t, InA) && At(Run(Init(threads), later), t, InA)
    requires |Run(Init(threads), earlier).started| < |Run(Init(threads), later).started|
    ensures var n := |Run(Init(threads), earlier).started|;
            |Run(Init(threads), later).started| >= n + 2 && Run(Init(threads), later).started[n] == B
  {
    hide Run, Disciplined, ResetFree;
    DisciplinedBefore(Init(threads), earlier, later);
    DisciplinedRunsKeepInv(Init(threads), earlier);
    DisciplinedRunsKeepInv(Init(threads), later);
    StartedGrows(Init(threads), earlier, later);
    assert ThreadOk(Run(Init(threads), earlier), InA) && ThreadOk(Run(Init(threads), later), InA);
  }
}
