/** EndOperationA and EndOperationB of a thread that has not started the operation. */
module LockstepStray {
  import opened LockstepProtocol
  import opened LockstepCancel
  import opened LockstepReset

  /** While the word says that an operation runs, some thread is in it. */
  ghost predicate SomeoneRuns(s: State) {
    && (s.word == ARunning ==> exists i :: 0 <= i < |s.pcs| && ActiveA(s.pcs[i]))
    && (s.word == BRunning ==> exists i :: 0 <= i < |s.pcs| && s.pcs[i].InB?)
  }

  lemma RunnerStays(word: Word, e: Event)
    ensures WordAfter(word, e) == ARunning ==> if word == ARunning then ActiveA(From(e)) ==> ActiveA(To(word, e))
                                               else ActiveA(To(word, e))
    ensures WordAfter(word, e) == BRunning ==> if word == BRunning then From(e).InB? ==> To(word, e).InB?
                                               else To(word, e).InB?
  {
  }

  lemma StepKeepsRunner(s: State, e: Event)
    requires SomeoneRuns(s)
    ensures SomeoneRuns(Step(s, e))
  {
    hide From, To, WordAfter, APostedAfter, BPostedAfter, StartedAfter, ActiveA;
    if !Enabled(s, e) { return; }
    RunnerStays(s.word, e);
    var s' := Step(s, e);
    assert s'.pcs[e.t] == To(s.word, e);
    assert forall i :: 0 <= i < |s.pcs| && i != e.t ==> s'.pcs[i] == s.pcs[i];
  }

  lemma {:induction false} RunsKeepRunner(threads: nat, es: seq<Event>)
    ensures SomeoneRuns(Run(Init(threads), es))
  {
    if es != [] {
      hide SomeoneRuns, Step;
      RunsKeepRunner(threads, es[..|es| - 1]);
      StepKeepsRunner(Run(Init(threads), es[..|es| - 1]), es[|es| - 1]);
    }
  }

  /**
   Exactly when an EndOperationA without its Start does no harm: its second load does not find operation A running.
   Otherwise it ends the operation of another thread, which then overlaps with operation B.
   */
  lemma {:induction false} StrayEndASafeExactlyWhen(threads: nat, es: seq<Event>, t: nat)
    requires Disciplined(Init(threads), es) && At(Run(Init(threads), es), t, StrayLoad)
    ensures var s := Run(Init(threads), es); var s' := Step(s, StrayReloadA(t));
            s.word != ARunning <==> forall more :: Disciplined(s', more) ==> AtMostOneOp(Run(s', more))
  {
    var s := Run(Init(threads), es);
    var s' := Step(s, StrayReloadA(t));
    RunsKeepRunner(threads, es);
    if s.word == ARunning {
      var i :| 0 <= i < |s.pcs| && ActiveA(s.pcs[i]);
      assert s'.pcs == s.pcs[t := StrayStore];
      hide Run, Disciplined, AtMostOneOp;
      var more := StoreThenB(s', t);
      TwoAtOnce(Run(s', more), i, t);
      TameWithoutReset(s', more);
    } else {
      DisciplinedRunsKeepInv(Init(threads), es);
      hide Run, Disciplined, AtMostOneOp, Inv;
      StepKeepsInv(s, StrayReloadA(t));
      ExclusiveFrom(s');
    }
  }

  lemma SwapLetsInA(s: State, t: nat)
    requires At(s, t, EndBPost) && s.word == BFinished
    ensures Step(Step(Step(Step(s, PostEndB(t)), CallStartA(t)), TakeB(t)), SwapA(t)).pcs == s.pcs[t := InA]
  {
  }

  lemma {:induction false} PostThenA(s: State, t: nat) returns (es: seq<Event>)
    requires At(s, t, EndBPost) && s.word == BFinished
    ensures Run(s, es).pcs == s.pcs[t := InA]
    ensures forall e :: e in es ==> !e.ResetLoad? && !e.StrayReloadA? && !e.StraySwapB?
  {
    hide Step;
    NoAccess(s);
    RunPlus(s, [], PostEndB(t));
    RunPlus(s, [] + [PostEndB(t)], CallStartA(t));
    RunPlus(s, [] + [PostEndB(t)] + [CallStartA(t)], TakeB(t));
    RunPlus(s, [] + [PostEndB(t)] + [CallStartA(t)] + [TakeB(t)], SwapA(t));
    es := [] + [PostEndB(t)] + [CallStartA(t)] + [TakeB(t)] + [SwapA(t)];
    SwapLetsInA(s, t);
  }

  /** The same for an EndOperationB without its Start, whose only access is a compare-exchange. */
  lemma {:induction false} StrayEndBSafeExactlyWhen(threads: nat, es: seq<Event>, t: nat)
    requires Disciplined(Init(threads), es) && At(Run(Init(threads), es), t, Idle)
    ensures var s := Run(Init(threads), es); var s' := Step(s, StraySwapB(t));
            s.word != BRunning <==> forall more :: Disciplined(s', more) ==> AtMostOneOp(Run(s', more))
  {
    var s := Run(Init(threads), es);
    var s' := Step(s, StraySwapB(t));
    RunsKeepRunner(threads, es);
    if s.word == BRunning {
      var i :| 0 <= i < |s.pcs| && s.pcs[i].InB?;
      assert s'.pcs == s.pcs[t := EndBPost] && s'.word == BFinished;
      hide Run, Disciplined, AtMostOneOp;
      var more := PostThenA(s', t);
      TwoAtOnce(Run(s', more), i, t);
      TameWithoutReset(s', more);
    } else {
      DisciplinedRunsKeepInv(Init(threads), es);
      hide Run, Disciplined, AtMostOneOp, Inv;
      StepKeepsInv(s, StraySwapB(t));
      ExclusiveFrom(s');
    }
  }

  /** A thread that runs nothing ends operation A of another with OK, and goes on to operation B beside it. */
  lemma {:induction false} StrayEndOverlaps() returns (es: seq<Event>)
    ensures Shows(Run(Init(2), es), View(BRunning, false, false, InA, InB)) && !AtMostOneOp(Run(Init(2), es))
  {
    es := StrayEnd();
    TwoAtOnce(Run(Init(2), es), 0, 1);
  }

  lemma {:induction false} StrayEnd() returns (es: seq<Event>)
    ensures Shows(Run(Init(2), es), View(BRunning, false, false, InA, InB))
  {
    hide Shows, Run, Disciplined, Init;
    var v;
    es, v := Start();
    es := StartA(es, v, 0, false);
    es := Extend3(es, View(ARunning, false, false, InA, Idle), StrayLoadA(1), StrayReloadA(1), StrayStoreA(1),
                  View(AFinished, false, false, InA, EndAPost), false);
    es := Extend(es, View(AFinished, false, false, InA, EndAPost), PostEndA(1), false);
    es := Extend3(es, View(AFinished, true, false, InA, Idle), CallStartB(1), TakeA(1), SwapB(1),
                  View(BRunning, false, false, InA, InB), false);
  }
}
