/**
 Runs of the lockstep in which nobody cancels and nobody ends another's operation: a single token moves between the two
 futexes, the starters and the operations, so no matching call is ever refused and either operation can always be
 reached.
 */
module LockstepTokens {
  import opened LockstepProtocol

  predicate Holds(pc: Pc) {
    pc.StartASwap? || ActiveA(pc) || pc.EndAPost? || pc.StartBSwap? || pc.InB? || pc.EndBPost?
  }

  /** The positions that do not exist in such runs. */
  predicate AfterCancel(pc: Pc) {
    pc.StartARepost? || pc.StartBRepost? || pc.CancelPostA? || pc.CancelPostB? || Resetting(pc) || pc.ResetPost?
    || pc.StrayStore?
  }

  function Count(b: bool): nat { if b then 1 else 0 }

  function Holders(pcs: seq<Pc>): nat {
    if pcs == [] then 0 else Holders(pcs[..|pcs| - 1]) + Count(Holds(pcs[|pcs| - 1]))
  }

  /** Posted futexes, starters holding a token, and operations running or ending. */
  function Tokens(s: State): nat {
    Count(s.aPosted) + Count(s.bPosted) + Holders(s.pcs)
  }

  /** The state word that goes with the place the token is in. */
  predicate Agrees(word: Word, pc: Pc) {
    && (pc.StartASwap? || pc.EndBPost? ==> word == BFinished)
    && (ActiveA(pc) ==> word == ARunning)
    && (pc.StartBSwap? || pc.EndAPost? ==> word == AFinished)
    && (pc.InB? ==> word == BRunning)
    && !AfterCancel(pc)
  }

  ghost predicate OneToken(s: State) {
    && Tokens(s) == 1
    && s.word != Cancelled
    && !s.refused
    && (s.aPosted ==> s.word == AFinished)
    && (s.bPosted ==> s.word == BFinished)
    && (forall i :: 0 <= i < |s.pcs| ==> Agrees(s.word, s.pcs[i]))
  }

  predicate CancelFree(es: seq<Event>) {
    forall e :: e in es ==> !e.CancelStore?
  }

  /** No EndOperation without its Start finds somebody else's operation running. */
  ghost predicate Matched(s: State, es: seq<Event>) {
    es == [] || (Matched(s, es[..|es| - 1]) && !Strikes(Run(s, es[..|es| - 1]), es[|es| - 1]))
  }

  ghost predicate Undisturbed(threads: nat, es: seq<Event>) {
    CancelFree(es) && Matched(Init(threads), es)
  }

  lemma {:induction false} HoldersAfterMove(pcs: seq<Pc>, t: nat, pc: Pc)
    requires t < |pcs|
    ensures Holders(pcs[t := pc]) + Count(Holds(pcs[t])) == Holders(pcs) + Count(Holds(pc))
    decreases |pcs|
  {
    var n := |pcs| - 1;
    var moved := pcs[t := pc];
    if t == n {
      assert moved[..n] == pcs[..n];
    } else {
      assert moved[..n] == pcs[..n][t := pc];
      HoldersAfterMove(pcs[..n], t, pc);
    }
  }

  lemma {:induction false} HolderIsCounted(pcs: seq<Pc>, i: nat)
    requires i < |pcs| && Holds(pcs[i])
    ensures Holders(pcs) >= 1
  {
    HoldersAfterMove(pcs, i, Idle);
  }

  /** With one token in all, a holder is the only one and both futexes are empty. */
  lemma HolderIsAlone(s: State, t: nat)
    requires Tokens(s) == 1 && t < |s.pcs| && Holds(s.pcs[t])
    ensures !s.aPosted && !s.bPosted
    ensures forall i :: 0 <= i < |s.pcs| && i != t ==> !Holds(s.pcs[i])
  {
    HolderIsCounted(s.pcs, t);
    forall i | 0 <= i < |s.pcs| && i != t ensures !Holds(s.pcs[i]) {
      if Holds(s.pcs[i]) {
        HoldersAfterMove(s.pcs, t, Idle);
        HolderIsCounted(s.pcs[t := Idle], i);
      }
    }
  }

  lemma NobodyHolds(s: State)
    requires Tokens(s) == 1 && (s.aPosted || s.bPosted)
    ensures !(s.aPosted && s.bPosted)
    ensures forall i :: 0 <= i < |s.pcs| ==> !Holds(s.pcs[i])
  {
    forall i | 0 <= i < |s.pcs| ensures !Holds(s.pcs[i]) {
      if Holds(s.pcs[i]) { HolderIsCounted(s.pcs, i); }
    }
  }

  /** What one access does at the place it is made: it moves a token or leaves all tokens alone. */
  lemma AccessMovesToken(s: State, e: Event)
    requires Ready(s, e) && !e.CancelStore? && s.word != Cancelled && Agrees(s.word, From(e))
    requires !(e.StrayReloadA? && s.word == ARunning) && !(e.StraySwapB? && s.word == BRunning)
    requires Holds(From(e)) ==> !s.aPosted && !s.bPosted
    requires (s.aPosted ==> s.word == AFinished) && (s.bPosted ==> s.word == BFinished)
    ensures Agrees(WordAfter(s.word, e), To(s.word, e)) && !Refused(s.word, e)
    ensures WordAfter(s.word, e) != Cancelled
    ensures Count(APostedAfter(s.aPosted, e)) + Count(BPostedAfter(s.bPosted, e)) + Count(Holds(To(s.word, e)))
            == Count(s.aPosted) + Count(s.bPosted) + Count(Holds(From(e)))
  {
  }

  lemma AccessKeepsOthers(s: State, e: Event, pc: Pc)
    requires Agrees(s.word, pc) && Agrees(s.word, From(e)) && !e.CancelStore? && (Holds(From(e)) ==> !Holds(pc))
    requires !(e.StraySwapB? && s.word == BRunning)
    ensures Agrees(WordAfter(s.word, e), pc)
  {
  }

  lemma StepKeepsOneToken(s: State, e: Event)
    requires OneToken(s) && !e.CancelStore? && !Strikes(s, e)
    ensures OneToken(Step(s, e))
  {
    hide From, To, WordAfter, APostedAfter, BPostedAfter, Refused, Agrees, Holders, Holds, AfterCancel;
    hide ActiveA, StartedAfter;
    if !Enabled(s, e) { return; }
    var s', t := Step(s, e), e.t;
    assert Agrees(s.word, s.pcs[t]);
    HoldersAfterMove(s.pcs, t, To(s.word, e));
    if Holds(From(e)) { HolderIsAlone(s, t); }
    AccessMovesToken(s, e);
    forall i | 0 <= i < |s.pcs| && i != t ensures Agrees(s'.word, s'.pcs[i]) {
      assert Agrees(s.word, s.pcs[i]);
      AccessKeepsOthers(s, e, s.pcs[i]);
    }
    PostedAgrees(s, e);
  }

  lemma PostedAgrees(s: State, e: Event)
    requires OneToken(s) && !e.CancelStore? && Enabled(s, e) && !Strikes(s, e)
    ensures APostedAfter(s.aPosted, e) ==> WordAfter(s.word, e) == AFinished
    ensures BPostedAfter(s.bPosted, e) ==> WordAfter(s.word, e) == BFinished
  {
    assert Agrees(s.word, s.pcs[e.t]);
    if Holds(From(e)) { HolderIsAlone(s, e.t); }
  }

  lemma {:induction false} InitHasOneToken(threads: nat)
    ensures OneToken(Init(threads))
  {
    NoHoldersAtFirst(threads);
  }

  lemma {:induction false} NoHoldersAtFirst(threads: nat)
    ensures Holders(seq(threads, _ => Idle)) == 0
  {
    if threads > 0 {
      var pcs: seq<Pc> := seq(threads, _ => Idle);
      assert pcs[..threads - 1] == seq(threads - 1, _ => Idle);
      NoHoldersAtFirst(threads - 1);
    }
  }

  lemma {:induction false} CancelFreeRunsKeepOneToken(s: State, es: seq<Event>)
    requires OneToken(s) && CancelFree(es) && Matched(s, es)
    ensures OneToken(Run(s, es))
    decreases |es|
  {
    if es != [] {
      CancelFreeRunsKeepOneToken(s, es[..|es| - 1]);
      assert es[|es| - 1] in es;
      StepKeepsOneToken(Run(s, es[..|es| - 1]), es[|es| - 1]);
    }
  }

  /** Token conservation: undisturbed there is always exactly one token, and no matching call is refused. */
  lemma {:induction false} TokenConserved(threads: nat, es: seq<Event>)
    requires Undisturbed(threads, es)
    ensures Tokens(Run(Init(threads), es)) == 1 && !Run(Init(threads), es).refused
  {
    InitHasOneToken(threads);
    CancelFreeRunsKeepOneToken(Init(threads), es);
  }

  // ----- Either side can always proceed ----------------------------------------------------------

  predicate Stray(e: Event) {
    e.StrayLoadA? || e.StrayReloadA? || e.StrayStoreA? || e.StraySwapB?
  }

  /** Accesses of Start, matching End and Reset only. */
  predicate Regular(es: seq<Event>) {
    CancelFree(es) && forall e :: e in es ==> !Stray(e)
  }

  /** How many accesses the token is away from the futex that lets operation A start. */
  function Distance(s: State, pc: Pc): nat {
    if s.bPosted then 0 else if s.aPosted then 5 else
    match pc
    case EndBPost => 1
    case InB => 2
    case StartBSwap => 3
    case EndAPost => 6
    case EndAStore => 7
    case EndALoad => 8
    case InA => 9
    case StartASwap => 10
    case _ => 0
  }

  /** The access a token holder makes next. */
  function NextAccess(pc: Pc, t: nat): Event {
    match pc
    case EndBPost => PostEndB(t)
    case InB => SwapEndB(t)
    case StartBSwap => SwapB(t)
    case EndAPost => PostEndA(t)
    case EndAStore => StoreEndA(t)
    case EndALoad => ReloadEndA(t)
    case InA => LoadEndA(t)
    case _ => SwapA(t)
  }

  lemma {:induction false} SomeoneHolds(pcs: seq<Pc>) returns (t: nat)
    requires Holders(pcs) >= 1
    ensures t < |pcs| && Holds(pcs[t])
  {
    t := |pcs| - 1;
    if !Holds(pcs[t]) { t := SomeoneHolds(pcs[..t]); }
  }

  lemma HolderAdvances(s: State, t: nat)
    requires OneToken(s) && t < |s.pcs| && Holds(s.pcs[t])
    ensures var e := NextAccess(s.pcs[t], t);
            && Enabled(s, e) && !e.CancelStore? && !Stray(e)
            && (var pc := To(s.word, e); Holds(pc) || APostedAfter(false, e) || BPostedAfter(false, e))
            && Distance(Step(s, e), To(s.word, e)) < Distance(s, s.pcs[t])
  {
    HolderIsAlone(s, t);
    assert Agrees(s.word, s.pcs[t]);
  }

  lemma TakesTokenA(s: State, u: nat)
    requires OneToken(s) && s.aPosted && At(s, u, Idle)
    ensures var s2 := Step(Step(s, CallStartB(u)), TakeA(u));
            OneToken(s2) && At(s2, u, StartBSwap) && !s2.aPosted && !s2.bPosted && |s2.pcs| == |s.pcs|
  {
    StepKeepsOneToken(s, CallStartB(u));
    StepKeepsOneToken(Step(s, CallStartB(u)), TakeA(u));
    NobodyHolds(s);
  }

  lemma RegularPlus(e: Event, es: seq<Event>)
    requires Regular(es) && !e.CancelStore? && !Stray(e)
    ensures Regular([e] + es)
  {
  }

  /** One access of the holder brings the token nearer, and leaves alone who waits for it. */
  lemma TokenNearer(s: State, u: nat, t: nat)
    requires OneToken(s) && !s.aPosted && !s.bPosted && t < |s.pcs| && Holds(s.pcs[t])
    requires u < |s.pcs| && (s.pcs[u] == Idle || Holds(s.pcs[u]))
    ensures var e := NextAccess(s.pcs[t], t); var s' := Step(s, e);
            && OneToken(s') && !e.CancelStore? && !Stray(e)
            && |s'.pcs| == |s.pcs| && (s'.pcs[u] == Idle || Holds(s'.pcs[u]))
            && (s'.aPosted || s'.bPosted || Holds(s'.pcs[t])) && Distance(s', s'.pcs[t]) < Distance(s, s.pcs[t])
  {
    var e := NextAccess(s.pcs[t], t);
    HolderAdvances(s, t);
    HolderIsAlone(s, t);
    StepKeepsOneToken(s, e);
    hide OneToken, WordAfter, StartedAfter, Distance;
    assert Step(s, e).pcs == s.pcs[t := To(s.word, e)];
  }

  /** Two accesses before a run. */
  lemma TwoBefore(s: State, e1: Event, e2: Event, es: seq<Event>)
    requires Regular(es) && !e1.CancelStore? && !Stray(e1) && !e2.CancelStore? && !Stray(e2)
    ensures Regular([e1] + ([e2] + es)) && Run(s, [e1] + ([e2] + es)) == Run(Step(Step(s, e1), e2), es)
  {
    hide Run, Step, Regular;
    RunThen(Step(s, e1), e2, es);
    RunThen(s, e1, [e2] + es);
    RegularPlus(e2, es);
    RegularPlus(e1, [e2] + es);
  }

  /** Letting the holder `t` go on, and `u` run operation B if need be, brings the token to operation A. */
  lemma {:induction false} TokenComesRound(s: State, u: nat, t: nat) returns (es: seq<Event>)
    requires OneToken(s) && u < |s.pcs| && (s.pcs[u] == Idle || Holds(s.pcs[u]))
    requires s.aPosted || s.bPosted || (t < |s.pcs| && Holds(s.pcs[t]))
    ensures Regular(es) && OneToken(Run(s, es))
    ensures Run(s, es).bPosted && At(Run(s, es), u, Idle)
    decreases Distance(s, if t < |s.pcs| then s.pcs[t] else Idle)
  {
    if s.bPosted {
      NobodyHolds(s);
      es := [];
      assert Regular(es);
    } else if s.aPosted {
      NobodyHolds(s);
      TakesTokenA(s, u);
      hide OneToken, Step, Run, Regular;
      es := TokenComesRound(Step(Step(s, CallStartB(u)), TakeA(u)), u, u);
      TwoBefore(s, CallStartB(u), TakeA(u), es);
      es := [CallStartB(u)] + ([TakeA(u)] + es);
    } else {
      hide OneToken, Step, Run, Regular;
      var e := NextAccess(s.pcs[t], t);
      TokenNearer(s, u, t);
      es := TokenComesRound(Step(s, e), u, t);
      RunThen(s, e, es);
      RegularPlus(e, es);
      es := [e] + es;
    }
  }

  lemma WhoHolds(s: State) returns (t: nat)
    requires OneToken(s)
    ensures s.aPosted || s.bPosted || (t < |s.pcs| && Holds(s.pcs[t]))
  {
    t := 0;
    if !s.aPosted && !s.bPosted { t := SomeoneHolds(s.pcs); }
  }

  /** From every state of an undisturbed run, every idle thread can still get to run operation A. */
  lemma {:induction false} AnyoneCanStartA(threads: nat, es: seq<Event>, u: nat) returns (more: seq<Event>)
    requires Undisturbed(threads, es) && At(Run(Init(threads), es), u, Idle)
    ensures Regular(more) && At(Run(Run(Init(threads), es), more), u, InA)
  {
    hide Run, Step, OneToken;
    var s := Run(Init(threads), es);
    InitHasOneToken(threads);
    CancelFreeRunsKeepOneToken(Init(threads), es);
    var t := WhoHolds(s);
    more := TokenComesRound(s, u, t);
    TakesTurn(Run(s, more), u);
    RunPlus(s, more, CallStartA(u));
    RunPlus(s, more + [CallStartA(u)], TakeB(u));
    RunPlus(s, more + [CallStartA(u)] + [TakeB(u)], SwapA(u));
    more := more + [CallStartA(u)] + [TakeB(u)] + [SwapA(u)];
  }

  lemma TakesTurn(s: State, u: nat)
    requires OneToken(s) && s.bPosted && At(s, u, Idle)
    ensures At(Step(Step(Step(s, CallStartA(u)), TakeB(u)), SwapA(u)), u, InA)
  {
  }
}
