/** Cancel of the lockstep: when a cancellation sticks, and that everybody gets to know of it. */
module LockstepCancel {
  import opened LockstepProtocol

  // ----- Cancel is sticky --------------------------------------------------------------------------

  /** An EndOperationA that has passed both its checks and is about to store. */
  predicate AboutToStore(pc: Pc) {
    pc.EndAStore? || pc.StrayStore?
  }

  ghost predicate EndAInFlight(s: State) {
    exists i :: 0 <= i < |s.pcs| && AboutToStore(s.pcs[i])
  }

  /** A thread that is going to post a_finished_ in the rest of its call, as long as the word is cancelled. */
  predicate PaysA(pc: Pc) {
    pc.CancelPostA? || pc.StartBSwap? || pc.StartBRepost? || pc.EndAPost?
  }

  predicate PaysB(pc: Pc) {
    pc.CancelPostA? || pc.CancelPostB? || pc.StartASwap? || pc.StartARepost? || pc.EndBPost? || pc.ResetPost?
  }

  /** A Reset under way keeps what it has taken; it never posts a_finished_. */
  predicate ResetHasA(pc: Pc) {
    pc.ResetWaitB? || pc.ResetStore?
  }

  predicate ResetHasB(pc: Pc) {
    pc.ResetStore?
  }

  predicate AccountsForA(pc: Pc) { PaysA(pc) || ResetHasA(pc) }

  predicate AccountsForB(pc: Pc) { PaysB(pc) || ResetHasB(pc) }

  ghost predicate CoveredA(posted: bool, pcs: seq<Pc>) {
    posted || exists i :: 0 <= i < |pcs| && AccountsForA(pcs[i])
  }

  ghost predicate CoveredB(posted: bool, pcs: seq<Pc>) {
    posted || exists i :: 0 <= i < |pcs| && AccountsForB(pcs[i])
  }

  /** Each futex is posted, or owed by someone who will post it, or held by a Reset under way. */
  ghost predicate Covered(s: State) {
    CoveredA(s.aPosted, s.pcs) && CoveredB(s.bPosted, s.pcs)
  }

  /** No Reset completes, and none gives up holding the first futex. */
  predicate NoResetEnds(es: seq<Event>) {
    forall e :: e in es ==> !e.StoreReset? && !e.ResetTimeoutB?
  }

  /** Nothing but the store of a Reset takes the word away from a cancellation, and nothing has started. */
  ghost predicate Stands(s: State, started: seq<Op>) {
    s.word == Cancelled && !EndAInFlight(s) && s.started == started
  }

  ghost predicate Sticks(s: State, started: seq<Op>) {
    Stands(s, started) && Covered(s)
  }

  /** What an access during a cancellation does at the place where it is made. */
  lemma AccessWhileCancelled(s: State, e: Event)
    requires s.word == Cancelled && !e.StoreReset? && !AboutToStore(From(e))
    ensures WordAfter(s.word, e) == Cancelled && !AboutToStore(To(s.word, e)) && StartedAfter(s, e) == s.started
    ensures Active(To(s.word, e)) ==> Active(From(e))
  {
  }

  lemma DebtsAreKept(s: State, e: Event)
    requires s.word == Cancelled && Ready(s, e) && !e.StoreReset? && !AboutToStore(From(e)) && !e.ResetTimeoutB?
    ensures s.aPosted || AccountsForA(From(e)) ==> APostedAfter(s.aPosted, e) || AccountsForA(To(s.word, e))
    ensures s.bPosted || AccountsForB(From(e)) ==> BPostedAfter(s.bPosted, e) || AccountsForB(To(s.word, e))
  {
  }

  lemma StepKeepsStanding(s: State, e: Event, started: seq<Op>)
    requires Stands(s, started) && !e.StoreReset?
    ensures Stands(Step(s, e), started) && |Step(s, e).pcs| == |s.pcs|
    ensures forall i :: 0 <= i < |s.pcs| && Active(Step(s, e).pcs[i]) ==> Active(s.pcs[i])
  {
    hide From, To, WordAfter, APostedAfter, BPostedAfter, StartedAfter, Active, AboutToStore;
    if !Enabled(s, e) { return; }
    AccessWhileCancelled(s, e);
    var s', t := Step(s, e), e.t;
    forall i | 0 <= i < |s'.pcs| ensures !AboutToStore(s'.pcs[i]) { assert i != t ==> s'.pcs[i] == s.pcs[i]; }
  }

  /** Whoever accounts for a futex stays where it is, or is the one that moves. */
  lemma StaysCovered(pcs: seq<Pc>, t: nat, pc: Pc, posted: bool, posted': bool)
    requires t < |pcs|
    ensures CoveredA(posted, pcs) && (posted || AccountsForA(pcs[t]) ==> posted' || AccountsForA(pc)) ==>
              CoveredA(posted', pcs[t := pc])
    ensures CoveredB(posted, pcs) && (posted || AccountsForB(pcs[t]) ==> posted' || AccountsForB(pc)) ==>
              CoveredB(posted', pcs[t := pc])
  {
    hide AccountsForA, AccountsForB;
    assert pcs[t := pc][t] == pc;
    assert forall i :: 0 <= i < |pcs| && i != t ==> pcs[t := pc][i] == pcs[i];
  }

  lemma StepKeepsCovered(s: State, e: Event, started: seq<Op>)
    requires Sticks(s, started) && !e.StoreReset? && !e.ResetTimeoutB?
    ensures Covered(Step(s, e))
  {
    hide CoveredA, CoveredB;
    if !Enabled(s, e) { return; }
    assert !AboutToStore(s.pcs[e.t]);
    DebtsAreKept(s, e);
    hide From, To, WordAfter, APostedAfter, BPostedAfter, StartedAfter, AccountsForA, AccountsForB, AboutToStore;
    hide EndAInFlight, Refused, Ready;
    StaysCovered(s.pcs, e.t, To(s.word, e), s.aPosted, APostedAfter(s.aPosted, e));
    StaysCovered(s.pcs, e.t, To(s.word, e), s.bPosted, BPostedAfter(s.bPosted, e));
  }

  lemma {:induction false} RunKeepsStanding(s: State, es: seq<Event>, started: seq<Op>)
    requires Stands(s, started) && ResetFree(es)
    ensures Stands(Run(s, es), started) && |Run(s, es).pcs| == |s.pcs|
    ensures forall i :: 0 <= i < |s.pcs| && Active(Run(s, es).pcs[i]) ==> Active(s.pcs[i])
    decreases |es|
  {
    hide Stands, Step, Active;
    if es != [] {
      RunKeepsStanding(s, es[..|es| - 1], started);
      assert es[|es| - 1] in es;
      StepKeepsStanding(Run(s, es[..|es| - 1]), es[|es| - 1], started);
    }
  }

  lemma {:induction false} RunKeepsSticking(s: State, es: seq<Event>, started: seq<Op>)
    requires Sticks(s, started) && NoResetEnds(es)
    ensures Sticks(Run(s, es), started) && |Run(s, es).pcs| == |s.pcs|
    ensures forall i :: 0 <= i < |s.pcs| && Active(Run(s, es).pcs[i]) ==> Active(s.pcs[i])
    decreases |es|
  {
    hide Stands, Covered, Step, Active;
    RunKeepsStanding(s, es, started);
    if es != [] {
      RunKeepsSticking(s, es[..|es| - 1], started);
      assert es[|es| - 1] in es;
      StepKeepsCovered(Run(s, es[..|es| - 1]), es[|es| - 1], started);
    }
  }

  lemma CancelSticksAtOnce(s: State, t: nat)
    requires At(s, t, Idle) && !EndAInFlight(s)
    ensures Sticks(Step(s, CancelStore(t)), s.started)
    ensures Step(s, CancelStore(t)).pcs == s.pcs[t := CancelPostA]
  {
    var s' := Step(s, CancelStore(t));
    assert AccountsForA(s'.pcs[t]) && AccountsForB(s'.pcs[t]);
    assert forall i :: 0 <= i < |s'.pcs| && i != t ==> s'.pcs[i] == s.pcs[i];
  }

  /**
   After a Cancel that no EndOperationA is about to overwrite, nothing starts until a Reset stores, and no futex is lost
   unless a Reset gives up with one in hand.
   */
  lemma {:induction false} CancelIsSticky(s: State, t: nat, es: seq<Event>)
    requires At(s, t, Idle) && !EndAInFlight(s) && ResetFree(es)
    ensures var s' := Run(Step(s, CancelStore(t)), es);
            && s'.word == Cancelled && s'.started == s.started && |s'.pcs| == |s.pcs|
            && (NoResetEnds(es) ==> Covered(s'))
            && forall i :: 0 <= i < |s.pcs| && Active(s'.pcs[i]) ==> Active(s.pcs[i])
  {
    hide Run, Step, Covered, NoResetEnds;
    CancelSticksAtOnce(s, t);
    RunKeepsStanding(Step(s, CancelStore(t)), es, s.started);
    if NoResetEnds(es) { RunKeepsSticking(Step(s, CancelStore(t)), es, s.started); }
  }

  /** An EndOperationA that is past its checks overwrites the cancellation. */
  lemma StoreOverwrites(s: State, t: nat, i: nat)
    requires At(s, t, Idle) && i < |s.pcs| && AboutToStore(s.pcs[i])
    ensures var e := if s.pcs[i].EndAStore? then StoreEndA(i) else StrayStoreA(i);
            Run(Step(s, CancelStore(t)), [e]).word == AFinished
  {
    var e := if s.pcs[i].EndAStore? then StoreEndA(i) else StrayStoreA(i);
    RunThen(Step(s, CancelStore(t)), e, []);
    assert [e] + [] == [e];
  }

  /**
   Exactly when the cancellation lasts until a Reset stores: no EndOperationA stands between its check and its store.
   */
  lemma {:induction false} CancelSticksExactlyWhen(s: State, t: nat)
    requires At(s, t, Idle)
    ensures !EndAInFlight(s) <==>
            forall es :: ResetFree(es) ==> Run(Step(s, CancelStore(t)), es).word == Cancelled
  {
    hide Run, Step;
    var s' := Step(s, CancelStore(t));
    if EndAInFlight(s) {
      var i :| 0 <= i < |s.pcs| && AboutToStore(s.pcs[i]);
      StoreOverwrites(s, t, i);
      assert ResetFree([StoreEndA(i)]) && ResetFree([StrayStoreA(i)]);
    } else {
      forall es | ResetFree(es) ensures Run(s', es).word == Cancelled {
        CancelIsSticky(s, t, es);
      }
    }
  }

  // ----- Nobody is left waiting ------------------------------------------------------------------------

  predicate Pays(pc: Pc) { PaysA(pc) || PaysB(pc) }

  /** The next access of a thread that owes a post, and where it takes the thread. */
  function Payment(pc: Pc, t: nat): Event {
    match pc
    case CancelPostA => CancelA(t)
    case CancelPostB => CancelB(t)
    case StartASwap => SwapA(t)
    case StartARepost => RepostB(t)
    case StartBSwap => SwapB(t)
    case StartBRepost => RepostA(t)
    case EndAPost => PostEndA(t)
    case EndBPost => PostEndB(t)
    case _ => PostReset(t)
  }

  function Paid(pc: Pc): Pc {
    match pc
    case CancelPostA => CancelPostB
    case StartASwap => StartARepost
    case StartBSwap => StartBRepost
    case _ => Idle
  }

  predicate IsPayment(e: Event) {
    || e.CancelA? || e.CancelB? || e.SwapA? || e.RepostB? || e.SwapB? || e.RepostA? || e.PostEndA? || e.PostEndB?
    || e.PostReset?
  }

  /** A payment, or the token taken by a start that has waited for it; no wait is given up. */
  predicate IsDue(e: Event) {
    IsPayment(e) || e.TakeA? || e.TakeB?
  }

  lemma OnePayment(s: State, t: nat)
    requires s.word == Cancelled && t < |s.pcs| && Pays(s.pcs[t])
    ensures var s' := Step(s, Payment(s.pcs[t], t));
            && s'.word == Cancelled && s'.pcs == s.pcs[t := Paid(s.pcs[t])]
            && (PaysA(s.pcs[t]) ==> s'.aPosted || PaysA(Paid(s.pcs[t])))
  {
    var e := Payment(s.pcs[t], t);
    assert Enabled(s, e) && WordAfter(s.word, e) == Cancelled && To(s.word, e) == Paid(s.pcs[t]);
  }

  /** A thread that owes a post gets to the end of its call in one or two accesses. */
  lemma Settle(s: State, es: seq<Event>, t: nat) returns (more: seq<Event>)
    requires Run(s, es).word == Cancelled && t < |Run(s, es).pcs|
    requires (forall e :: e in es ==> IsPayment(e)) && NoResetEnds(es)
    ensures (forall e :: e in more ==> IsPayment(e)) && NoResetEnds(more) && Run(s, more).word == Cancelled
    ensures var pcs := Run(s, es).pcs; Run(s, more).pcs == pcs[t := if Pays(pcs[t]) then Idle else pcs[t]]
  {
    hide Run, Step;
    var pcs := Run(s, es).pcs;
    more := es;
    if Pays(pcs[t]) {
      OnePayment(Run(s, more), t);
      RunPlus(s, more, Payment(pcs[t], t));
      more := more + [Payment(pcs[t], t)];
      if Paid(pcs[t]) != Idle {
        OnePayment(Run(s, more), t);
        RunPlus(s, more, Payment(Paid(pcs[t]), t));
        more := more + [Payment(Paid(pcs[t]), t)];
        assert pcs[t := Paid(pcs[t])][t := Idle] == pcs[t := Idle];
      }
    } else {
      assert pcs[t := pcs[t]] == pcs;
    }
  }

  ghost predicate NoReset(s: State) {
    forall i :: 0 <= i < |s.pcs| ==> !Resetting(s.pcs[i])
  }

  /** Once all debts are paid and no Reset is under way, both futexes are posted. */
  lemma NothingOwed(s: State, started: seq<Op>)
    requires Sticks(s, started) && NoReset(s) && forall i :: 0 <= i < |s.pcs| ==> !Pays(s.pcs[i])
    ensures s.aPosted && s.bPosted
  {
  }

  /** From every sticking state with no Reset under way, accesses that are already due post both futexes. */
  lemma DebtsGetPaid(s: State, started: seq<Op>) returns (es: seq<Event>)
    requires Sticks(s, started) && NoReset(s)
    ensures (forall e :: e in es ==> IsPayment(e)) && NoResetEnds(es)
    ensures var s' := Run(s, es);
            && Sticks(s', started) && s'.aPosted && s'.bPosted && |s'.pcs| == |s.pcs|
            && forall i :: 0 <= i < |s.pcs| ==> s'.pcs[i] == if Pays(s.pcs[i]) then Idle else s.pcs[i]
  {
    assert s.word == Cancelled;
    hide Run, Step, Sticks, Pays;
    es := [];
    assert Run(s, es) == s by { NoAccess(s); }
    for k := 0 to |s.pcs|
      invariant (forall e :: e in es ==> IsPayment(e)) && NoResetEnds(es)
      invariant Run(s, es).word == Cancelled && |Run(s, es).pcs| == |s.pcs|
      invariant forall i :: 0 <= i < |s.pcs| ==> Run(s, es).pcs[i] == if i < k && Pays(s.pcs[i]) then Idle else s.pcs[i]
    {
      es := Settle(s, es, k);
    }
    RunKeepsSticking(s, es, started);
    PayersAndStarters();
    NothingOwed(Run(s, es), started);
  }

  predicate Starting(pc: Pc) {
    pc.StartAWait? || pc.StartASwap? || pc.StartARepost? || pc.StartBWait? || pc.StartBSwap? || pc.StartBRepost?
  }

  /** A start that finds its token during a cancellation takes it, sees the word and puts it back. */
  lemma StartAborts(s: State, t: nat)
    requires s.word == Cancelled && t < |s.pcs| && (s.pcs[t].StartAWait? || s.pcs[t].StartBWait?)
    requires if s.pcs[t].StartAWait? then s.bPosted else s.aPosted
    ensures var e := if s.pcs[t].StartAWait? then TakeB(t) else TakeA(t); var s' := Step(s, e);
            && s'.word == Cancelled && s'.pcs == s.pcs[t := if e.TakeB? then StartASwap else StartBSwap]
            && Pays(s'.pcs[t])
  {
  }

  /**
   From every sticking state with no Reset under way, accesses that are already due bring every call of a start to its
   end. Nothing has started, no wait was given up and none was refused, so each has returned Aborted. Both futexes are
   then posted.
   */
  lemma EveryStartReturns(s: State, started: seq<Op>) returns (es: seq<Event>)
    requires Sticks(s, started) && NoReset(s)
    ensures forall e :: e in es ==> IsDue(e)
    ensures var s' := Run(s, es);
            && Sticks(s', started) && s'.aPosted && s'.bPosted && |s'.pcs| == |s.pcs| && s'.refused == s.refused
            && (forall i :: 0 <= i < |s.pcs| ==> !Starting(s'.pcs[i]) && (Active(s'.pcs[i]) ==> Active(s.pcs[i])))
  {
    assert Stands(s, started);
    hide Run, Step, Sticks, Stands, Pays;
    es := DebtsGetPaid(s, started);
    PayersAndStarters();
    for k := 0 to |s.pcs|
      invariant (forall e :: e in es ==> IsDue(e)) && NoResetEnds(es)
      invariant var s' := Run(s, es);
                && Sticks(s', started) && NoReset(s') && s'.aPosted && s'.bPosted && |s'.pcs| == |s.pcs|
                && forall i :: 0 <= i < |s.pcs| ==> !Pays(s'.pcs[i]) && (i < k ==> !Starting(s'.pcs[i]))
    {
      es := StarterReturns(s, es, k, started);
    }
    RunKeepsSticking(s, es, started);
    DueIsNeverRefused(s, es, started);
  }

  /** An access that is due during a cancellation is answered otherwise than with FailedPrecondition. */
  lemma {:induction false} DueIsNeverRefused(s: State, es: seq<Event>, started: seq<Op>)
    requires Stands(s, started) && forall e :: e in es ==> IsDue(e)
    ensures Run(s, es).refused == s.refused
    decreases |es|
  {
    hide Stands;
    if es != [] {
      var before := es[..|es| - 1];
      assert es[|es| - 1] in es;
      DueIsNeverRefused(s, before, started);
      RunKeepsStanding(s, before, started);
      assert Run(s, before).word == Cancelled by { Standing(Run(s, before), started); }
    }
  }

  lemma Standing(s: State, started: seq<Op>)
    requires Stands(s, started)
    ensures s.word == Cancelled
  {
  }

  lemma PayersAndStarters()
    ensures !Pays(Idle) && !Starting(Idle)
    ensures forall pc :: Starting(pc) && !Pays(pc) ==> pc.StartAWait? || pc.StartBWait?
    ensures forall pc :: Pays(pc) ==> !Resetting(pc)
  {
  }

  lemma StarterReturns(s: State, es: seq<Event>, t: nat, started: seq<Op>) returns (more: seq<Event>)
    requires (forall e :: e in es ==> IsDue(e)) && NoResetEnds(es) && t < |Run(s, es).pcs|
    requires var s' := Run(s, es);
             && Sticks(s', started) && NoReset(s') && s'.aPosted && s'.bPosted
             && forall i :: 0 <= i < |s'.pcs| ==> !Pays(s'.pcs[i])
    ensures (forall e :: e in more ==> IsDue(e)) && NoResetEnds(more)
    ensures var s', s'' := Run(s, es), Run(s, more);
            && Sticks(s'', started) && s''.aPosted && s''.bPosted
            && s''.pcs == s'.pcs[t := if Starting(s'.pcs[t]) then Idle else s'.pcs[t]]
  {
    var s' := Run(s, es);
    assert s'.word == Cancelled;
    hide Run, Step, Sticks, Pays;
    PayersAndStarters();
    more := es;
    if Starting(s'.pcs[t]) {
      StartAborts(s', t);
      var e := if s'.pcs[t].StartAWait? then TakeB(t) else TakeA(t);
      NoAccess(Step(s', e));
      var rest := Settle(Step(s', e), [], t);
      var all := [e] + rest;
      RunThen(s', e, rest);
      RunAppend(s, es, all);
      more := es + all;
      assert s'.pcs[t := Step(s', e).pcs[t]][t := Idle] == s'.pcs[t := Idle];
      assert NoResetEnds(all);
      RunKeepsSticking(s', all, started);
      NothingOwed(Run(s, more), started);
    } else {
      assert s'.pcs[t := s'.pcs[t]] == s'.pcs;
    }
  }

  lemma NoAccess(s: State)
    ensures Run(s, []) == s
  {
  }
}
