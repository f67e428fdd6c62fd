/** Reset of the lockstep: when it is safe, what a timed-out one leaves behind, and runs that show both. */
module LockstepReset {
  import opened LockstepProtocol
  import opened LockstepCancel

  // ----- Runs of two threads --------------------------------------------------------------------------

  /** What matters of a lockstep with two threads. */
  datatype View = View(word: Word, aPosted: bool, bPosted: bool, first: Pc, second: Pc)

  ghost predicate Shows(s: State, v: View) {
    && s.word == v.word && s.aPosted == v.aPosted && s.bPosted == v.bPosted
    && |s.pcs| == 2 && s.pcs[0] == v.first && s.pcs[1] == v.second
  }

  predicate Possible(v: View, e: Event) {
    && e.t < 2 && (if e.t == 0 then v.first else v.second) == From(e)
    && (e.TakeA? || e.ResetTakeA? ==> v.aPosted)
    && (e.TakeB? || e.ResetTakeB? ==> v.bPosted)
  }

  function After(v: View, e: Event): View {
    View(WordAfter(v.word, e), APostedAfter(v.aPosted, e), BPostedAfter(v.bPosted, e),
         if e.t == 0 then To(v.word, e) else v.first, if e.t == 1 then To(v.word, e) else v.second)
  }

  predicate ClearOf(pc: Pc) {
    !Active(pc) && !Resetting(pc) && pc != ResetPost
  }

  /** Extends a run of two threads by one access, keeping to the discipline if `tame`. */
  lemma Extend(es: seq<Event>, v: View, e: Event, tame: bool) returns (more: seq<Event>)
    requires Shows(Run(Init(2), es), v) && Possible(v, e)
    requires tame ==> Disciplined(Init(2), es)
    requires tame && e.ResetLoad? ==> ClearOf(v.first) && ClearOf(v.second)
    requires tame ==> !e.StrayReloadA? && !e.StraySwapB?
    ensures Shows(Run(Init(2), more), After(v, e)) && more == es + [e]
    ensures tame ==> Disciplined(Init(2), more)
  {
    hide Step, Possible, After, Init;
    more := es + [e];
    ShowsAfter(Run(Init(2), es), v, e);
    RunPlus(Init(2), es, e);
    assert more[..|es|] == es;
  }

  lemma ShowsAfter(s: State, v: View, e: Event)
    requires Shows(s, v) && Possible(v, e)
    ensures Shows(Step(s, e), After(v, e))
  {
    hide WordAfter, APostedAfter, BPostedAfter, To, From, StartedAfter, Refused;
  }

  lemma Extend3(es: seq<Event>, v: View, e1: Event, e2: Event, e3: Event, v': View, tame: bool)
    returns (more: seq<Event>)
    requires Shows(Run(Init(2), es), v)
    requires Possible(v, e1) && Possible(After(v, e1), e2) && Possible(After(After(v, e1), e2), e3)
    requires v' == After(After(After(v, e1), e2), e3)
    requires tame ==> Disciplined(Init(2), es) && !e2.ResetLoad? && !e3.ResetLoad?
    requires tame ==> forall e :: e in {e1, e2, e3} ==> !e.StrayReloadA? && !e.StraySwapB?
    requires tame && e1.ResetLoad? ==> ClearOf(v.first) && ClearOf(v.second)
    ensures Shows(Run(Init(2), more), v') && more == es + [e1] + [e2] + [e3]
    ensures tame ==> Disciplined(Init(2), more)
  {
    hide Possible, After, Shows, Run, Disciplined, Init;
    more := Extend(es, v, e1, tame);
    more := Extend(more, After(v, e1), e2, tame);
    more := Extend(more, After(After(v, e1), e2), e3, tame);
  }

  function Put(v: View, t: nat, pc: Pc): View {
    if t == 0 then v.(first := pc) else v.(second := pc)
  }

  function PcOf(v: View, t: nat): Pc {
    if t == 0 then v.first else v.second
  }

  lemma StartA(es: seq<Event>, v: View, t: nat, tame: bool) returns (more: seq<Event>)
    requires Shows(Run(Init(2), es), v) && (tame ==> Disciplined(Init(2), es))
    requires t < 2 && v.word == BFinished && v.bPosted && PcOf(v, t) == Idle
    ensures Shows(Run(Init(2), more), Put(v.(word := ARunning, bPosted := false), t, InA))
    ensures tame ==> Disciplined(Init(2), more)
  {
    hide Shows, Run, Disciplined, Init;
    var v' := Put(v.(word := ARunning, bPosted := false), t, InA);
    more := Extend3(es, v, CallStartA(t), TakeB(t), SwapA(t), v', tame);
  }

  lemma EndA(es: seq<Event>, v: View, t: nat) returns (more: seq<Event>)
    requires Shows(Run(Init(2), es), v) && Disciplined(Init(2), es)
    requires t < 2 && v.word == ARunning && PcOf(v, t) == InA
    ensures Shows(Run(Init(2), more), Put(v.(word := AFinished, aPosted := true), t, Idle))
    ensures Disciplined(Init(2), more)
  {
    hide Shows, Run, Disciplined, Init;
    more := Extend3(es, v, LoadEndA(t), ReloadEndA(t), StoreEndA(t), Put(v.(word := AFinished), t, EndAPost), true);
    more := Extend(more, Put(v.(word := AFinished), t, EndAPost), PostEndA(t), true);
  }

  lemma StartB(es: seq<Event>, v: View, t: nat) returns (more: seq<Event>)
    requires Shows(Run(Init(2), es), v) && Disciplined(Init(2), es)
    requires t < 2 && v.word == AFinished && v.aPosted && PcOf(v, t) == Idle
    ensures Shows(Run(Init(2), more), Put(v.(word := BRunning, aPosted := false), t, InB))
    ensures Disciplined(Init(2), more) && more == es + [CallStartB(t)] + [TakeA(t)] + [SwapB(t)]
  {
    hide Shows, Run, Disciplined, Init;
    var v' := Put(v.(word := BRunning, aPosted := false), t, InB);
    more := Extend3(es, v, CallStartB(t), TakeA(t), SwapB(t), v', true);
  }

  lemma Cancel(es: seq<Event>, v: View, t: nat) returns (more: seq<Event>)
    requires Shows(Run(Init(2), es), v) && Disciplined(Init(2), es) && t < 2 && PcOf(v, t) == Idle
    ensures Shows(Run(Init(2), more), v.(word := Cancelled, aPosted := true, bPosted := true))
    ensures Disciplined(Init(2), more)
  {
    hide Shows, Run, Disciplined, Init;
    var v' := v.(word := Cancelled, aPosted := true, bPosted := true);
    more := Extend3(es, v, CancelStore(t), CancelA(t), CancelB(t), v', true);
  }

  lemma Start() returns (es: seq<Event>, v: View)
    ensures es == [] && Disciplined(Init(2), es) && Shows(Run(Init(2), es), v)
    ensures v == View(BFinished, false, true, Idle, Idle)
  {
    es, v := [], View(BFinished, false, true, Idle, Idle);
  }

  /**
   A Reset whose second wait runs out keeps the first futex: everyone is idle, the lockstep is still
   cancelled, and yet a_finished_ is empty, so a StartOperationB waits instead of returning Aborted.
   */
  lemma {:induction false} TimedOutResetStrandsB() returns (es: seq<Event>)
    ensures Disciplined(Init(2), es)
    ensures Shows(Run(Init(2), es), View(Cancelled, false, true, Idle, Idle))
    ensures forall more :: Quiet(more) ==> !Run(Run(Init(2), es), more).aPosted
  {
    es := TimedOutReset();
    var s := Run(Init(2), es);
    assert NobodyPaysA(s);
    forall more | Quiet(more) ensures !Run(s, more).aPosted { RunKeepsStranded(s, more); }
  }

  lemma StarterTakesB(es: seq<Event>) returns (more: seq<Event>)
    requires Disciplined(Init(2), es) && Shows(Run(Init(2), es), View(Cancelled, true, true, Idle, Idle))
    ensures Disciplined(Init(2), more) && Shows(Run(Init(2), more), View(Cancelled, true, false, StartASwap, Idle))
  {
    hide Shows, Run, Disciplined, Init;
    more := Extend(es, View(Cancelled, true, true, Idle, Idle), CallStartA(0), true);
    more := Extend(more, View(Cancelled, true, true, StartAWait, Idle), TakeB(0), true);
  }

  lemma {:induction false} TimedOutReset() returns (es: seq<Event>)
    ensures Disciplined(Init(2), es) && Shows(Run(Init(2), es), View(Cancelled, false, true, Idle, Idle))
  {
    hide Shows, Run, Disciplined, Init;
    var v;
    es, v := Start();
    es := Cancel(es, v, 1);
    es := StarterTakesB(es);
    es := Extend3(es, View(Cancelled, true, false, StartASwap, Idle), ResetLoad(1), ResetTakeA(1), ResetTimeoutB(1),
                  View(Cancelled, false, false, StartASwap, Idle), true);
    es := Extend(es, View(Cancelled, false, false, StartASwap, Idle), SwapA(0), true);
    es := Extend(es, View(Cancelled, false, false, StartARepost, Idle), RepostB(0), true);
  }

  // ----- A Reset that times out ------------------------------------------------------------------------

  /** No continuation without another Cancel or the end of a Reset fills a_finished_ again. */
  predicate Quiet(es: seq<Event>) {
    forall e :: e in es ==> !e.CancelStore? && !e.StoreReset?
  }

  ghost predicate NobodyPaysA(s: State) {
    s.word == Cancelled && !EndAInFlight(s) && !s.aPosted && forall i :: 0 <= i < |s.pcs| ==> !PaysA(s.pcs[i])
  }

  lemma NoPaymentArises(s: State, e: Event)
    requires s.word == Cancelled && Ready(s, e) && !s.aPosted && !PaysA(From(e))
    requires !e.CancelStore? && !e.StoreReset? && !AboutToStore(From(e))
    ensures WordAfter(s.word, e) == Cancelled && !APostedAfter(s.aPosted, e)
    ensures !PaysA(To(s.word, e)) && !AboutToStore(To(s.word, e))
  {
  }

  lemma StepKeepsStranded(s: State, e: Event)
    requires NobodyPaysA(s) && !e.CancelStore? && !e.StoreReset?
    ensures NobodyPaysA(Step(s, e))
  {
    hide From, To, WordAfter, APostedAfter, BPostedAfter, StartedAfter, PaysA, AboutToStore;
    if !Enabled(s, e) { return; }
    NoPaymentArises(s, e);
    var s' := Step(s, e);
    forall i | 0 <= i < |s'.pcs| ensures !PaysA(s'.pcs[i]) && !AboutToStore(s'.pcs[i]) {
      assert i != e.t ==> s'.pcs[i] == s.pcs[i];
    }
  }

  lemma {:induction false} RunKeepsStranded(s: State, es: seq<Event>)
    requires NobodyPaysA(s) && Quiet(es)
    ensures NobodyPaysA(Run(s, es))
    decreases |es|
  {
    hide NobodyPaysA, Step;
    if es != [] {
      assert es[|es| - 1] in es;
      RunKeepsStranded(s, es[..|es| - 1]);
      StepKeepsStranded(Run(s, es[..|es| - 1]), es[|es| - 1]);
    }
  }

  /** A thread that owes a_finished_ can post it. */
  lemma PayerPosts(s: State, i: nat) returns (es: seq<Event>)
    requires s.word == Cancelled && i < |s.pcs| && PaysA(s.pcs[i])
    ensures Quiet(es) && Run(s, es).aPosted
  {
    hide Run, Step;
    var e := Payment(s.pcs[i], i);
    OnePayment(s, i);
    NoAccess(s);
    RunPlus(s, [], e);
    es := [] + [e];
    if !Run(s, es).aPosted {
      OnePayment(Run(s, es), i);
      RunPlus(s, es, RepostA(i));
      es := es + [RepostA(i)];
    }
  }

  lemma StoreThenPost(s: State, i: nat)
    requires i < |s.pcs| && AboutToStore(s.pcs[i])
    ensures var e := if s.pcs[i].EndAStore? then StoreEndA(i) else StrayStoreA(i);
            Step(Step(s, e), PostEndA(i)).aPosted
  {
    var e := if s.pcs[i].EndAStore? then StoreEndA(i) else StrayStoreA(i);
    assert Step(s, e).pcs == s.pcs[i := EndAPost];
  }

  /** An EndOperationA that is about to store will post a_finished_ after that. */
  lemma StorerPosts(s: State, i: nat) returns (es: seq<Event>)
    requires i < |s.pcs| && AboutToStore(s.pcs[i])
    ensures Quiet(es) && Run(s, es).aPosted
  {
    hide Run, Step, AboutToStore;
    var e := if s.pcs[i].EndAStore? then StoreEndA(i) else StrayStoreA(i);
    StoreThenPost(s, i);
    NoAccess(s);
    RunPlus(s, [], e);
    RunPlus(s, [] + [e], PostEndA(i));
    es := [] + [e] + [PostEndA(i)];
  }

  /**
   Exactly when a Reset that gives up its second wait strands operation B: a_finished_ is empty and nobody else is
   going to post it. Then in every continuation without another Cancel or the end of a Reset no StartOperationB gets
   its token, although the lockstep is cancelled: all it can do is time out.
   */
  lemma StrandsExactlyWhen(s: State, t: nat)
    requires s.word == Cancelled && At(s, t, ResetWaitB)
    ensures (!s.aPosted && forall i :: 0 <= i < |s.pcs| ==> !PaysA(s.pcs[i]) && !AboutToStore(s.pcs[i])) <==>
            forall es :: Quiet(es) ==> !Run(Step(s, ResetTimeoutB(t)), es).aPosted
  {
    var s' := Step(s, ResetTimeoutB(t));
    assert s' == s.(pcs := s.pcs[t := Idle]);
    hide Run, Step;
    if s.aPosted {
      NoAccess(s');
      assert Quiet([]);
    } else if i: nat :| i < |s.pcs| && PaysA(s.pcs[i]) {
      assert s'.pcs[i] == s.pcs[i];
      var es := PayerPosts(s', i);
    } else if i: nat :| i < |s.pcs| && AboutToStore(s.pcs[i]) {
      assert s'.pcs[i] == s.pcs[i];
      var es := StorerPosts(s', i);
    } else {
      forall es | Quiet(es) ensures !Run(s', es).aPosted { RunKeepsStranded(s', es); }
    }
  }

  // ----- When a Reset is safe --------------------------------------------------------------------------

  lemma {:induction false} TameWithoutReset(s: State, es: seq<Event>)
    requires forall e :: e in es ==> !e.ResetLoad? && !e.StrayReloadA? && !e.StraySwapB?
    ensures Disciplined(s, es)
    decreases |es|
  {
    if es != [] {
      assert es[|es| - 1] in es;
      TameWithoutReset(s, es[..|es| - 1]);
    }
  }

  lemma StartsRightAfterReset(s: State, t: nat)
    requires At(s, t, ResetStore)
    ensures var s' := Step(s, StoreReset(t));
            Step(Step(Step(Step(s', PostReset(t)), CallStartA(t)), TakeB(t)), SwapA(t)).pcs == s'.pcs[t := InA]
  {
  }

  lemma {:induction false} ResetDuringOperation(s: State, t: nat) returns (es: seq<Event>)
    requires At(s, t, ResetStore)
    ensures var s' := Step(s, StoreReset(t)); Run(s', es).pcs == s'.pcs[t := InA]
    ensures forall e :: e in es ==> !e.ResetLoad? && !e.StrayReloadA? && !e.StraySwapB?
  {
    hide Step;
    var s' := Step(s, StoreReset(t));
    NoAccess(s');
    RunPlus(s', [], PostReset(t));
    RunPlus(s', [] + [PostReset(t)], CallStartA(t));
    RunPlus(s', [] + [PostReset(t)] + [CallStartA(t)], TakeB(t));
    RunPlus(s', [] + [PostReset(t)] + [CallStartA(t)] + [TakeB(t)], SwapA(t));
    es := [] + [PostReset(t)] + [CallStartA(t)] + [TakeB(t)] + [SwapA(t)];
    StartsRightAfterReset(s, t);
  }

  /** After the store of an EndOperationA without its Start, its caller can go on to operation B at once. */
  lemma StoreLetsInB(s: State, i: nat)
    requires At(s, i, StrayStore)
    ensures Step(Step(Step(Step(Step(s, StrayStoreA(i)), PostEndA(i)), CallStartB(i)), TakeA(i)), SwapB(i)).pcs
            == s.pcs[i := InB]
  {
    var s' := Step(Step(s, StrayStoreA(i)), PostEndA(i));
    assert s'.pcs == s.pcs[i := Idle] && s'.word == AFinished && s'.aPosted;
    StartsB(s', i);
  }

  lemma StartsB(s: State, i: nat)
    requires At(s, i, Idle) && s.word == AFinished && s.aPosted
    ensures Step(Step(Step(s, CallStartB(i)), TakeA(i)), SwapB(i)).pcs == s.pcs[i := InB]
  {
  }

  lemma {:induction false} StoreThenB(s: State, i: nat) returns (es: seq<Event>)
    requires At(s, i, StrayStore)
    ensures Run(s, es).pcs == s.pcs[i := InB]
    ensures forall e :: e in es ==> !e.ResetLoad? && !e.StrayReloadA? && !e.StraySwapB?
  {
    hide Step;
    NoAccess(s);
    RunPlus(s, [], StrayStoreA(i));
    RunPlus(s, [] + [StrayStoreA(i)], PostEndA(i));
    RunPlus(s, [] + [StrayStoreA(i)] + [PostEndA(i)], CallStartB(i));
    RunPlus(s, [] + [StrayStoreA(i)] + [PostEndA(i)] + [CallStartB(i)], TakeA(i));
    RunPlus(s, [] + [StrayStoreA(i)] + [PostEndA(i)] + [CallStartB(i)] + [TakeA(i)], SwapB(i));
    es := [] + [StrayStoreA(i)] + [PostEndA(i)] + [CallStartB(i)] + [TakeA(i)] + [SwapB(i)];
    StoreLetsInB(s, i);
  }

  /** Nobody runs an operation, and nobody is about to end one that is not its own. */
  ghost predicate AllClear(s: State) {
    forall i :: 0 <= i < |s.pcs| ==> !Active(s.pcs[i]) && !s.pcs[i].StrayStore?
  }

  /** With nobody in an operation or in another Reset, the store of Reset is a fresh start, whatever came before. */
  lemma FreshAfterReset(s: State, t: nat)
    requires At(s, t, ResetStore) && AllClear(s) && forall i :: 0 <= i < |s.pcs| && i != t ==> !Resetting(s.pcs[i])
    ensures Inv(Step(s, StoreReset(t)))
  {
    var s' := Step(s, StoreReset(t));
    forall i | 0 <= i < |s'.pcs| ensures !Active(s'.pcs[i]) && !Resetting(s'.pcs[i]) && !s'.pcs[i].StrayStore? {
      assert i != t ==> s'.pcs[i] == s.pcs[i] && !Active(s.pcs[i]);
    }
  }

  lemma TwoAtOnce(s: State, i: nat, j: nat)
    requires i < |s.pcs| && j < |s.pcs| && i != j && Active(s.pcs[i]) && Active(s.pcs[j])
    ensures !AtMostOneOp(s)
  {
  }

  /** A Reset during an operation, or just before such a store, can lead to two operations at once. */
  lemma OverlapAfterReset(s: State, t: nat) returns (es: seq<Event>)
    requires At(s, t, ResetStore) && !AllClear(s)
    ensures var s' := Step(s, StoreReset(t)); Disciplined(s', es) && !AtMostOneOp(Run(s', es))
  {
    var s' := Step(s, StoreReset(t));
    var i :| 0 <= i < |s.pcs| && (Active(s.pcs[i]) || s.pcs[i].StrayStore?);
    assert s'.pcs[i] == s.pcs[i];
    hide Run, Step, Disciplined, AtMostOneOp;
    es := ResetDuringOperation(s, t);
    if s.pcs[i].StrayStore? {
      var more := StoreThenB(Run(s', es), i);
      RunAppend(s', es, more);
      es := es + more;
    }
    TwoAtOnce(Run(s', es), i, t);
    TameWithoutReset(s', es);
  }

  /**
   Exactly when the store of Reset keeps operations exclusive from then on: none is still held, and no EndOperationA
   is about to store.
   */
  lemma {:induction false} ResetSafeExactlyWhenIdle(s: State, t: nat)
    requires At(s, t, ResetStore) && forall i :: 0 <= i < |s.pcs| && i != t ==> !Resetting(s.pcs[i])
    ensures AllClear(s) <==>
            forall es :: Disciplined(Step(s, StoreReset(t)), es) ==> AtMostOneOp(Run(Step(s, StoreReset(t)), es))
  {
    hide Inv, Run, Step, Disciplined, AtMostOneOp;
    var s' := Step(s, StoreReset(t));
    if !AllClear(s) {
      var es := OverlapAfterReset(s, t);
    } else {
      FreshAfterReset(s, t);
      ExclusiveFrom(s');
    }
  }

  lemma ExclusiveFrom(s: State)
    requires Inv(s)
    ensures forall es :: Disciplined(s, es) ==> AtMostOneOp(Run(s, es))
  {
    hide Inv, Run, Disciplined, AtMostOneOp;
    forall es | Disciplined(s, es) ensures AtMostOneOp(Run(s, es)) {
      DisciplinedRunsKeepInv(s, es);
      InvMeansExclusive(Run(s, es));
    }
  }

  // ----- Cancel during EndOperationA ---------------------------------------------------------------------

  /** A Cancel comes in between the two loads of an EndOperationA, which is then refused although it has its Start. */
  lemma {:induction false} EndRefusedByCancel() returns (es: seq<Event>)
    ensures Disciplined(Init(2), es) && Shows(Run(Init(2), es), View(Cancelled, true, true, EndALoad, Idle))
    ensures Refused(Run(Init(2), es).word, ReloadEndA(0))
  {
    hide Run, Disciplined, Init;
    var v;
    es, v := Start();
    es := StartA(es, v, 0, true);
    es := Extend(es, View(ARunning, false, false, InA, Idle), LoadEndA(0), true);
    es := Cancel(es, View(ARunning, false, false, EndALoad, Idle), 1);
  }

  lemma {:induction false} CancelDuringEndA() returns (es: seq<Event>)
    ensures Disciplined(Init(2), es) && Shows(Run(Init(2), es), View(Cancelled, true, true, EndAStore, Idle))
  {
    hide Shows, Run, Disciplined, Init;
    var v;
    es, v := Start();
    es := StartA(es, v, 0, true);
    es := Extend(es, View(ARunning, false, false, InA, Idle), LoadEndA(0), true);
    es := Extend(es, View(ARunning, false, false, EndALoad, Idle), ReloadEndA(0), true);
    es := Cancel(es, View(ARunning, false, false, EndAStore, Idle), 1);
  }

  /**
   A Cancel that is overwritten: it has been stored and has posted both futexes, and then an EndOperationA stores, and a
   StartOperationB starts as if nobody had cancelled.
   */
  lemma {:induction false} CancelOverwritten() returns (es: seq<Event>, later: seq<Event>)
    ensures Disciplined(Init(2), later) && Shows(Run(Init(2), es), View(Cancelled, true, true, EndAStore, Idle))
    ensures later == es + [StoreEndA(0)] + [PostEndA(0)] + [CallStartB(1)] + [TakeA(1)] + [SwapB(1)]
    ensures Shows(Run(Init(2), later), View(BRunning, false, true, Idle, InB))
  {
    hide Shows, Run, Disciplined, Init;
    es := CancelDuringEndA();
    later := Extend(es, View(Cancelled, true, true, EndAStore, Idle), StoreEndA(0), true);
    later := Extend(later, View(AFinished, true, true, EndAPost, Idle), PostEndA(0), true);
    later := StartB(later, View(AFinished, true, true, Idle, Idle), 1);
  }

  /** A tick hands over to the control update, which is still running when the tick gives up. */
  lemma {:induction false} TickTimesOutDuringUpdate() returns (es: seq<Event>)
    ensures Disciplined(Init(2), es) && Shows(Run(Init(2), es), View(BRunning, false, false, Idle, InB))
  {
    hide Shows, Run, Disciplined, Init;
    var v;
    es, v := Start();
    es := StartA(es, v, 0, true);
    es := EndA(es, View(ARunning, false, false, InA, Idle), 0);
    es := StartB(es, View(AFinished, true, false, Idle, Idle), 1);
    es := Extend(es, View(BRunning, false, false, Idle, InB), CallStartA(0), true);
    es := Extend(es, View(BRunning, false, false, StartAWait, InB), TimeoutA(0), true);
  }

  lemma {:induction false} ClockReset() returns (es: seq<Event>)
    ensures Shows(Run(Init(2), es), View(ARunning, false, false, InA, InB))
  {
    hide Shows, Run, Disciplined, Init;
    es := TickTimesOutDuringUpdate();
    es := Cancel(es, View(BRunning, false, false, Idle, InB), 0);
    es := Extend3(es, View(Cancelled, true, true, Idle, InB), ResetLoad(0), ResetTakeA(0), ResetTakeB(0),
                  View(Cancelled, false, false, ResetStore, InB), false);
    es := Extend(es, View(Cancelled, false, false, ResetStore, InB), StoreReset(0), false);
    es := Extend(es, View(BFinished, false, false, ResetPost, InB), PostReset(0), false);
    es := StartA(es, View(BFinished, false, true, Idle, InB), 0, false);
  }

  /**
   What RealtimeClock::Reset does after such a tick, Cancel, Reset and StartOperationA, lets both
   operations run at once: the clock does not keep the rule that Reset needs all operations ended.
   */
  lemma {:induction false} ClockResetOverlapsUpdate() returns (es: seq<Event>)
    ensures Shows(Run(Init(2), es), View(ARunning, false, false, InA, InB)) && !AtMostOneOp(Run(Init(2), es))
  {
    es := ClockReset();
    assert Active(Run(Init(2), es).pcs[0]) && Active(Run(Init(2), es).pcs[1]);
  }
}
