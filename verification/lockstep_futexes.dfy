/**
 The lockstep on its two futexes: every wait and every post of util/thread/lockstep.cc is a call of
 icon/interprocess/binary_futex.cc, whose accesses and system calls are those of FutexProtocol.
 */
module LockstepFutexes {
  import opened L = LockstepProtocol
  import F = FutexProtocol
  import LockstepTokens
  import LockstepCancel

  datatype Futex = FutexA | FutexB   // a_finished_ and b_finished_

  /** The lockstep with its futexes as tokens, and the futexes themselves. */
  datatype System = System(l: State, a: F.State, b: F.State)

  /** An access to the state word or the timestamp, or one of a call on a futex. */
  datatype Access = Plain(e: Event) | On(x: Futex, f: F.Event)

  function Init(threads: nat): System {
    System(L.Init(threads), F.Init(threads, false), F.Init(threads, true))
  }

  function Get(s: System, x: Futex): F.State {
    if x.FutexA? then s.a else s.b
  }

  function Put(s: System, x: Futex, f: F.State): System {
    if x.FutexA? then s.(a := f) else s.(b := f)
  }

  predicate Posted(l: State, x: Futex) {
    if x.FutexA? then l.aPosted else l.bPosted
  }

  predicate WaitsFor(pc: Pc, x: Futex) {
    if x.FutexA? then pc.StartBWait? || pc.ResetWaitA? else pc.StartAWait? || pc.ResetWaitB?
  }

  predicate PostsTo(pc: Pc, x: Futex) {
    if x.FutexA? then pc.EndAPost? || pc.StartBRepost? || pc.CancelPostA?
    else pc.EndBPost? || pc.StartARepost? || pc.CancelPostB? || pc.ResetPost?
  }

  /** The token taken, the wait given up and the post, as accesses of the lockstep. */
  function TakeFrom(pc: Pc, t: nat): Event {
    match pc
    case StartBWait => TakeA(t)
    case ResetWaitA => ResetTakeA(t)
    case StartAWait => TakeB(t)
    case _ => ResetTakeB(t)
  }

  function GiveUpFrom(pc: Pc, t: nat): Event {
    match pc
    case StartBWait => TimeoutB(t)
    case ResetWaitA => ResetTimeoutA(t)
    case StartAWait => TimeoutA(t)
    case _ => ResetTimeoutB(t)
  }

  function PostFrom(pc: Pc, t: nat): Event {
    match pc
    case EndAPost => PostEndA(t)
    case StartBRepost => RepostA(t)
    case CancelPostA => CancelA(t)
    case EndBPost => PostEndB(t)
    case StartARepost => RepostB(t)
    case CancelPostB => CancelB(t)
    case _ => PostReset(t)
  }

  /** The accesses that are made through a futex. */
  predicate ThroughFutex(e: Event) {
    || WaitsFor(From(e), FutexA) || WaitsFor(From(e), FutexB) || PostsTo(From(e), FutexA) || PostsTo(From(e), FutexB)
  }

  predicate FutexIdle(s: System, t: nat) {
    F.At(s.a, t, F.Idle) && F.At(s.b, t, F.Idle)
  }

  /** Whether a thread that is where it is in the lockstep may make an access of a futex call. */
  predicate Allowed(s: System, x: Futex, f: F.Event) {
    f.t < |s.l.pcs| &&
    match f
    case CallWait(t) => WaitsFor(s.l.pcs[t], x) && FutexIdle(s, t)
    case TryTake(t) => WaitsFor(s.l.pcs[t], x)
    case Sleep(t) => WaitsFor(s.l.pcs[t], x)
    case Interrupt(t) => WaitsFor(s.l.pcs[t], x)
    case Expire(t) => WaitsFor(s.l.pcs[t], x)
    case SyscallError(t) => WaitsFor(s.l.pcs[t], x)
    case Post(t) => PostsTo(s.l.pcs[t], x) && FutexIdle(s, t)
    case WakeOne(_, _) => true
    case _ => false
  }

  /** What an access of a futex call is for the lockstep: nothing, until the call has its result. */
  function Shows(s: System, x: Futex, f: F.Event): seq<Event>
    requires f.t < |s.l.pcs|
  {
    var pc := s.l.pcs[f.t];
    match f
    case TryTake(t) => if F.At(Get(s, x), t, F.WaitTry) && Get(s, x).word == F.Posted then [TakeFrom(pc, t)] else []
    case Expire(t) => if F.At(Get(s, x), t, F.Asleep) then [GiveUpFrom(pc, t)] else []
    case SyscallError(t) =>
      if F.At(Get(s, x), t, F.Asleep) || F.At(Get(s, x), t, F.WaitSyscall) then [GiveUpFrom(pc, t)] else []
    case Post(t) => [PostFrom(pc, t)]
    case _ => []
  }

  function Possible(s: System, e: Access): bool {
    match e
    case Plain(e) => !ThroughFutex(e) && FutexIdle(s, e.t)
    case On(x, f) => Allowed(s, x, f)
  }

  /** The accesses of the lockstep and of the futex `x` that one access amounts to. */
  function ToLockstep(s: System, e: Access): seq<Event> {
    if !Possible(s, e) then [] else
      match e
      case Plain(e) => [e]
      case On(x, f) => Shows(s, x, f)
  }

  function ToFutex(s: System, e: Access, x: Futex): seq<F.Event> {
    if Possible(s, e) && e.On? && e.x == x then [e.f] else []
  }

  function Step(s: System, e: Access): System {
    if !Possible(s, e) then s else
      match e
      case Plain(e) => s.(l := L.Step(s.l, e))
      case On(x, f) =>
        var shown := Shows(s, x, f);
        Put(s, x, F.Step(Get(s, x), f)).(l := if shown == [] then s.l else L.Step(s.l, shown[0]))
  }

  ghost function Run(s: System, es: seq<Access>): System {
    if es == [] then s else Step(Run(s, es[..|es| - 1]), es[|es| - 1])
  }

  ghost function LockstepRun(s: System, es: seq<Access>): seq<Event> {
    if es == [] then []
    else LockstepRun(s, es[..|es| - 1]) + ToLockstep(Run(s, es[..|es| - 1]), es[|es| - 1])
  }

  ghost function FutexRun(s: System, es: seq<Access>, x: Futex): seq<F.Event> {
    if es == [] then []
    else FutexRun(s, es[..|es| - 1], x) + ToFutex(Run(s, es[..|es| - 1]), es[|es| - 1], x)
  }

  // ----- Every run is one of the lockstep and one of each futex ---------------------------------------------

  lemma LockstepPlus(s: State, es: seq<Event>, more: seq<Event>)
    requires |more| <= 1
    ensures L.Run(s, es + more) == if more == [] then L.Run(s, es) else L.Step(L.Run(s, es), more[0])
  {
    hide L.Step;
    if more == [] { assert es + more == es; } else { assert (es + more)[..|es|] == es; }
  }

  lemma FutexPlus(s: F.State, es: seq<F.Event>, more: seq<F.Event>)
    requires |more| <= 1
    ensures F.Run(s, es + more) == if more == [] then F.Run(s, es) else F.Step(F.Run(s, es), more[0])
  {
    hide F.Step;
    if more == [] { assert es + more == es; } else { assert (es + more)[..|es|] == es; }
  }

  lemma StepProjects(s: System, e: Access)
    ensures var es := ToLockstep(s, e); |es| <= 1 && Step(s, e).l == if es == [] then s.l else L.Step(s.l, es[0])
    ensures forall x :: var fs := ToFutex(s, e, x);
                        |fs| <= 1 && Get(Step(s, e), x) == if fs == [] then Get(s, x) else F.Step(Get(s, x), fs[0])
  {
    hide L.Step, F.Step, Allowed, ThroughFutex, TakeFrom, GiveUpFrom, PostFrom;
  }

  /** Every run of the system is a run of the lockstep and a run of each futex. */
  lemma {:induction false} RunsProject(threads: nat, es: seq<Access>)
    ensures var s := Run(Init(threads), es);
            && s.l == L.Run(L.Init(threads), LockstepRun(Init(threads), es))
            && s.a == F.Run(F.Init(threads, false), FutexRun(Init(threads), es, FutexA))
            && s.b == F.Run(F.Init(threads, true), FutexRun(Init(threads), es, FutexB))
  {
    if es != [] {
      var before, s, e := es[..|es| - 1], Run(Init(threads), es[..|es| - 1]), es[|es| - 1];
      RunsProject(threads, before);
      StepProjects(s, e);
      hide Step, ToLockstep, ToFutex, L.Run, F.Run, L.Step, F.Step, L.Init, F.Init;
      LockstepPlus(L.Init(threads), LockstepRun(Init(threads), before), ToLockstep(s, e));
      FutexPlus(F.Init(threads, false), FutexRun(Init(threads), before, FutexA), ToFutex(s, e, FutexA));
      FutexPlus(F.Init(threads, true), FutexRun(Init(threads), before, FutexB), ToFutex(s, e, FutexB));
      assert Get(Run(Init(threads), es), FutexA) == Run(Init(threads), es).a;
      assert Get(Run(Init(threads), es), FutexB) == Run(Init(threads), es).b;
    }
  }

  // ----- The tokens are those of the futexes ----------------------------------------------------------------

  predicate InWait(pc: F.Pc) {
    pc.WaitTry? || pc.WaitSyscall? || pc.Asleep?
  }

  /** The token of the lockstep is the one in the futex, and who is in a wait of the futex is in one of the lockstep. */
  ghost predicate Linked(l: State, f: F.State, x: Futex) {
    && |f.pcs| == |l.pcs| && f.word != F.Closed && (Posted(l, x) <==> f.word == F.Posted)
    && forall t :: 0 <= t < |f.pcs| ==> !f.pcs[t].CloseWake? && (InWait(f.pcs[t]) ==> WaitsFor(l.pcs[t], x))
  }

  ghost predicate Coupled(s: System) {
    Linked(s.l, s.a, FutexA) && Linked(s.l, s.b, FutexB)
  }

  function Other(x: Futex): Futex {
    if x.FutexA? then FutexB else FutexA
  }

  /** Only `t` has moved, and what the futex `x` shows has become `posted`. */
  predicate Moved(l: State, l': State, t: nat, x: Futex, posted: bool) {
    && t < |l.pcs| == |l'.pcs| && l'.pcs == l.pcs[t := l'.pcs[t]]
    && Posted(l', x) == posted && Posted(l', Other(x)) == Posted(l, Other(x))
  }

  lemma TakeMoves(l: State, x: Futex, t: nat)
    requires t < |l.pcs| && WaitsFor(l.pcs[t], x) && Posted(l, x)
    ensures Moved(l, L.Step(l, TakeFrom(l.pcs[t], t)), t, x, false)
  {
  }

  lemma GiveUpMoves(l: State, x: Futex, t: nat)
    requires t < |l.pcs| && WaitsFor(l.pcs[t], x)
    ensures Moved(l, L.Step(l, GiveUpFrom(l.pcs[t], t)), t, x, Posted(l, x))
  {
  }

  lemma PostMoves(l: State, x: Futex, t: nat)
    requires t < |l.pcs| && PostsTo(l.pcs[t], x)
    ensures Moved(l, L.Step(l, PostFrom(l.pcs[t], t)), t, x, true)
  {
  }

  lemma LeavesFutexes(e: Event, posted: bool)
    requires !ThroughFutex(e)
    ensures APostedAfter(posted, e) == BPostedAfter(posted, e) == posted
  {
  }

  lemma PlainMoves(l: State, e: Event, x: Futex)
    requires !ThroughFutex(e) && e.t < |l.pcs|
    ensures Moved(l, L.Step(l, e), e.t, x, Posted(l, x))
  {
    LeavesFutexes(e, l.aPosted);
    LeavesFutexes(e, l.bPosted);
    hide ThroughFutex, APostedAfter, BPostedAfter, From, To, WordAfter, StartedAfter, Refused, Enabled;
    assert l.pcs == l.pcs[e.t := l.pcs[e.t]];
  }

  lemma OneFutex(pc: Pc, x: Futex)
    requires WaitsFor(pc, x) || PostsTo(pc, x)
    ensures !WaitsFor(pc, Other(x))
  {
  }

  /** A thread that is in no wait of the futex may move in the lockstep. */
  lemma LinkedAfterMove(l: State, l': State, f: F.State, t: nat, y: Futex)
    requires Linked(l, f, y) && t < |l.pcs| == |l'.pcs| && l'.pcs == l.pcs[t := l'.pcs[t]] && !InWait(f.pcs[t])
    requires Posted(l', y) == Posted(l, y)
    ensures Linked(l', f, y)
  {
  }

  /** One thread moves in the futex, and perhaps in the lockstep with the result. */
  lemma LinkedAfterBoth(l: State, l': State, f: F.State, f': F.State, t: nat, x: Futex)
    requires Linked(l, f, x) && t < |l.pcs| == |l'.pcs| && l'.pcs == l.pcs[t := l'.pcs[t]]
    requires |f'.pcs| == |f.pcs| && f'.pcs == f.pcs[t := f'.pcs[t]]
    requires f'.word != F.Closed && (Posted(l', x) <==> f'.word == F.Posted)
    requires !f'.pcs[t].CloseWake? && (InWait(f'.pcs[t]) ==> WaitsFor(l'.pcs[t], x))
    ensures Linked(l', f', x)
  {
  }

  lemma WakeKeepsLinked(l: State, f: F.State, t: nat, w: nat, x: Futex)
    requires Linked(l, f, x)
    ensures Linked(l, F.Step(f, F.WakeOne(t, w)), x)
  {
  }

  /** The accesses of a wait that has no result yet. */
  lemma WaitKeepsLinked(s: System, x: Futex, f: F.Event)
    requires Coupled(s) && Allowed(s, x, f) && Shows(s, x, f) == [] && !f.WakeOne?
    ensures Linked(s.l, F.Step(Get(s, x), f), x)
  {
    hide Posted, WaitsFor, TakeFrom, GiveUpFrom, PostFrom;
    var g := Get(s, x);
    var g' := F.Step(g, f);
    assert s.l.pcs == s.l.pcs[f.t := s.l.pcs[f.t]] && g.pcs == g.pcs[f.t := g.pcs[f.t]];
    assert g'.pcs == g.pcs[f.t := g'.pcs[f.t]] && g'.word == g.word;
    LinkedAfterBoth(s.l, s.l, g, g', f.t, x);
  }

  /** The access of a futex call that has its result. */
  lemma ResultKeepsLinked(s: System, x: Futex, f: F.Event)
    requires Coupled(s) && Allowed(s, x, f) && Shows(s, x, f) != []
    ensures var l' := L.Step(s.l, Shows(s, x, f)[0]);
            Linked(l', F.Step(Get(s, x), f), x) && Linked(l', Get(s, Other(x)), Other(x))
  {
    var t, g := f.t, Get(s, x);
    var g', l' := F.Step(g, f), L.Step(s.l, Shows(s, x, f)[0]);
    match f {
      case TryTake(_) => TakeMoves(s.l, x, t);
      case Expire(_) => GiveUpMoves(s.l, x, t);
      case SyscallError(_) => GiveUpMoves(s.l, x, t);
      case Post(_) => PostMoves(s.l, x, t);
    }
    hide L.Step, WaitsFor, PostsTo, TakeFrom, GiveUpFrom, PostFrom;
    assert g'.pcs == g.pcs[t := g'.pcs[t]];
    LinkedAfterBoth(s.l, l', g, g', t, x);
    OneFutex(s.l.pcs[t], x);
    LinkedAfterMove(s.l, l', Get(s, Other(x)), t, Other(x));
  }

  lemma PlainKeepsCoupled(s: System, e: Event)
    requires Coupled(s) && Possible(s, Plain(e))
    ensures Coupled(s.(l := L.Step(s.l, e)))
  {
    PlainMoves(s.l, e, FutexA);
    hide L.Step, ThroughFutex, Posted, WaitsFor;
    LinkedAfterMove(s.l, L.Step(s.l, e), s.a, e.t, FutexA);
    LinkedAfterMove(s.l, L.Step(s.l, e), s.b, e.t, FutexB);
  }

  lemma OnKeepsCoupled(s: System, x: Futex, f: F.Event)
    requires Coupled(s) && Allowed(s, x, f)
    ensures Coupled(Step(s, On(x, f)))
  {
    assert f.t < |s.l.pcs|;
    hide L.Step, F.Step, Linked, Allowed, TakeFrom, GiveUpFrom, PostFrom;
    if f.WakeOne? { WakeKeepsLinked(s.l, Get(s, x), f.t, f.w, x); }
    else if Shows(s, x, f) == [] { WaitKeepsLinked(s, x, f); }
    else { ResultKeepsLinked(s, x, f); }
  }

  lemma StepKeepsCoupled(s: System, e: Access)
    requires Coupled(s)
    ensures Coupled(Step(s, e))
  {
    hide Coupled, L.Step, F.Step, Allowed, ThroughFutex, FutexIdle;
    if Possible(s, e) {
      match e {
        case Plain(p) => PlainKeepsCoupled(s, p);
        case On(x, f) => OnKeepsCoupled(s, x, f);
      }
    }
  }

  lemma {:induction false} RunsKeepCoupled(threads: nat, es: seq<Access>)
    ensures Coupled(Run(Init(threads), es))
  {
    if es != [] {
      hide Coupled, Step;
      RunsKeepCoupled(threads, es[..|es| - 1]);
      StepKeepsCoupled(Run(Init(threads), es[..|es| - 1]), es[|es| - 1]);
    }
  }

  /** A wait of the futex ends exactly when the wait of the lockstep does. */
  lemma WaitsEndTogether(s: System, x: Futex, f: F.Event)
    requires Coupled(s) && Allowed(s, x, f) && !f.WakeOne? && InWait(Get(s, x).pcs[f.t])
    ensures InWait(Get(Step(s, On(x, f)), x).pcs[f.t]) <==> WaitsFor(Step(s, On(x, f)).l.pcs[f.t], x)
  {
    var t := f.t;
    OneFutex(s.l.pcs[t], x);
    if Shows(s, x, f) != [] && f.TryTake? { TakeEnds(s.l, x, t); }
    if Shows(s, x, f) != [] && !f.TryTake? { GiveUpEnds(s.l, x, t); }
    hide L.Step, TakeFrom, GiveUpFrom, PostFrom, WaitsFor, PostsTo;
  }

  lemma TakeEnds(l: State, x: Futex, t: nat)
    requires t < |l.pcs| && WaitsFor(l.pcs[t], x) && Posted(l, x)
    ensures var l' := L.Step(l, TakeFrom(l.pcs[t], t)); |l'.pcs| == |l.pcs| && !WaitsFor(l'.pcs[t], x)
  {
  }

  lemma GiveUpEnds(l: State, x: Futex, t: nat)
    requires t < |l.pcs| && WaitsFor(l.pcs[t], x)
    ensures var l' := L.Step(l, GiveUpFrom(l.pcs[t], t)); |l'.pcs| == |l.pcs| && !WaitsFor(l'.pcs[t], x)
  {
  }

  // ----- Every run of the lockstep is one on the futexes ----------------------------------------------------

  ghost predicate AllFutexIdle(s: System) {
    |s.a.pcs| == |s.b.pcs| == |s.l.pcs| && forall t: nat :: t < |s.l.pcs| ==> FutexIdle(s, t)
  }

  predicate GivesUp(e: Event) {
    e.TimeoutA? || e.TimeoutB? || e.ResetTimeoutA? || e.ResetTimeoutB?
  }

  /** No wait is given up while the token is there: the futex looks before it sleeps. */
  ghost predicate Punctual(l: State, e: Event) {
    GivesUp(e) && L.At(l, e.t, From(e)) ==> forall x :: WaitsFor(From(e), x) ==> !Posted(l, x)
  }

  ghost predicate AllPunctual(l: State, es: seq<Event>) {
    es == [] || (AllPunctual(l, es[..|es| - 1]) && Punctual(L.Run(l, es[..|es| - 1]), es[|es| - 1]))
  }

  lemma RunPlusOne(s: System, es: seq<Access>, e: Access)
    ensures Run(s, es + [e]) == Step(Run(s, es), e)
  {
    hide Step;
    assert (es + [e])[..|es|] == es;
  }

  lemma {:induction false} RunJoin(s: System, es: seq<Access>, more: seq<Access>)
    ensures Run(s, es + more) == Run(Run(s, es), more)
  {
    hide Step;
    if more == [] {
      assert es + more == es;
    } else {
      RunJoin(s, es, more[..|more| - 1]);
      assert (es + more)[..|es + more| - 1] == es + more[..|more| - 1];
    }
  }

  lemma RunTwo(s: System, e1: Access, e2: Access)
    ensures Run(s, [e1, e2]) == Step(Step(s, e1), e2)
  {
    hide Step;
    RunPlusOne(s, [], e1);
    RunPlusOne(s, [e1], e2);
    assert [e1, e2] == [e1] + [e2];
  }

  /** What an access through a futex is: the end of a wait with the token or without, or a post. */
  lemma ThroughWhichFutex(e: Event) returns (x: Futex)
    requires ThroughFutex(e)
    ensures if PostsTo(From(e), x) then e == PostFrom(From(e), e.t)
            else WaitsFor(From(e), x) && e == if GivesUp(e) then GiveUpFrom(From(e), e.t) else TakeFrom(From(e), e.t)
    ensures WaitsFor(From(e), x) && !GivesUp(e) ==> forall l :: Ready(l, e) ==> Posted(l, x)
  {
    x := if WaitsFor(From(e), FutexA) || PostsTo(From(e), FutexA) then FutexA else FutexB;
  }

  /** The system after the futex calls of one access of the lockstep. */
  ghost predicate Settled(s: System, s': System, e: Event) {
    s'.l == L.Step(s.l, e) && AllFutexIdle(s')
  }

  /** A wait that finds the token. */
  lemma TakesAtOnce(s: System, x: Futex, t: nat)
    requires AllFutexIdle(s) && Linked(s.l, Get(s, x), x) && t < |s.l.pcs|
    requires WaitsFor(s.l.pcs[t], x) && Posted(s.l, x)
    ensures var s' := Step(Step(s, On(x, F.CallWait(t))), On(x, F.TryTake(t)));
            Settled(s, s', TakeFrom(s.l.pcs[t], t))
  {
    TakeMoves(s.l, x, t);
    hide L.Step, TakeFrom, GiveUpFrom, PostFrom, WaitsFor, PostsTo;
    assert FutexIdle(s, t);
    var s' := Step(Step(s, On(x, F.CallWait(t))), On(x, F.TryTake(t)));
    assert Get(s', x).pcs == Get(s, x).pcs;
    StaysIdle(s, s', x);
  }

  lemma StaysIdle(s: System, s': System, x: Futex)
    requires AllFutexIdle(s) && |s'.l.pcs| == |s.l.pcs|
    requires Get(s', x).pcs == Get(s, x).pcs && Get(s', Other(x)) == Get(s, Other(x))
    ensures AllFutexIdle(s')
  {
    forall t: nat | t < |s'.l.pcs| ensures FutexIdle(s', t) { assert FutexIdle(s, t); }
  }

  /** A wait that finds none, sleeps and runs out of time. */
  lemma SleepsAndGivesUp(s: System, x: Futex, t: nat)
    requires AllFutexIdle(s) && Linked(s.l, Get(s, x), x) && t < |s.l.pcs|
    requires WaitsFor(s.l.pcs[t], x) && !Posted(s.l, x)
    ensures var asleep := Step(Step(Step(s, On(x, F.CallWait(t))), On(x, F.TryTake(t))), On(x, F.Sleep(t)));
            Settled(s, Step(asleep, On(x, F.Expire(t))), GiveUpFrom(s.l.pcs[t], t))
  {
    GiveUpMoves(s.l, x, t);
    hide L.Step, TakeFrom, GiveUpFrom, PostFrom, WaitsFor, PostsTo;
    assert FutexIdle(s, t);
    var looked := Step(Step(s, On(x, F.CallWait(t))), On(x, F.TryTake(t)));
    var f := Get(s, x);
    assert looked == Put(s, x, F.Goto(f, t, F.WaitSyscall));
    var asleep := Step(looked, On(x, F.Sleep(t)));
    assert asleep == Put(s, x, F.Goto(f, t, F.Asleep));
    var s' := Step(asleep, On(x, F.Expire(t)));
    assert Get(s', x).pcs == f.pcs;
    StaysIdle(s, s', x);
  }

  /** A post with nobody asleep. */
  lemma PostsAtOnce(s: System, x: Futex, t: nat)
    requires AllFutexIdle(s) && Linked(s.l, Get(s, x), x) && t < |s.l.pcs| && PostsTo(s.l.pcs[t], x)
    ensures var s' := Step(Step(s, On(x, F.Post(t))), On(x, F.WakeOne(t, t)));
            Settled(s, s', PostFrom(s.l.pcs[t], t))
  {
    PostMoves(s.l, x, t);
    hide L.Step, TakeFrom, GiveUpFrom, PostFrom, WaitsFor, PostsTo;
    assert FutexIdle(s, t);
    forall u: nat | u < |s.l.pcs| ensures Get(s, x).pcs[u] == F.Idle { assert FutexIdle(s, u); }
    var s' := Step(Step(s, On(x, F.Post(t))), On(x, F.WakeOne(t, t)));
    assert Get(s', x).pcs == Get(s, x).pcs;
    StaysIdle(s, s', x);
  }

  /** One access of the lockstep, made through the futexes from a state in which nobody is in a futex call. */
  lemma Realise(s: System, e: Event) returns (es: seq<Access>)
    requires Coupled(s) && AllFutexIdle(s) && Punctual(s.l, e)
    ensures Settled(s, Run(s, es), e)
  {
    es := [];
    if !Enabled(s.l, e) { return; }
    var t := e.t;
    hide L.Step, Linked, TakeFrom, GiveUpFrom, PostFrom, From, WaitsFor, PostsTo;
    if !ThroughFutex(e) {
      es := [Plain(e)];
      assert FutexIdle(s, t);
      PlainMoves(s.l, e, FutexA);
      RunPlusOne(s, [], Plain(e));
      StaysIdle(s, Step(s, Plain(e)), FutexA);
      return;
    }
    var x := ThroughWhichFutex(e);
    hide Step, AllFutexIdle, Settled;
    if PostsTo(From(e), x) {
      PostsAtOnce(s, x, t);
      es := [On(x, F.Post(t)), On(x, F.WakeOne(t, t))];
      RunTwo(s, es[0], es[1]);
    } else if GivesUp(e) {
      SleepsAndGivesUp(s, x, t);
      var look := [On(x, F.CallWait(t)), On(x, F.TryTake(t))];
      RunTwo(s, look[0], look[1]);
      RunPlusOne(s, look, On(x, F.Sleep(t)));
      RunPlusOne(s, look + [On(x, F.Sleep(t))], On(x, F.Expire(t)));
      es := look + [On(x, F.Sleep(t))] + [On(x, F.Expire(t))];
    } else {
      TakesAtOnce(s, x, t);
      es := [On(x, F.CallWait(t)), On(x, F.TryTake(t))];
      RunTwo(s, es[0], es[1]);
    }
  }

  /**
   Every run of the lockstep in which no wait is given up with its token there is one of the system, at whose end nobody
   is in a futex call.
   */
  lemma {:induction false} EveryRunRealised(threads: nat, es: seq<Event>) returns (all: seq<Access>)
    requires AllPunctual(L.Init(threads), es)
    ensures var s := Run(Init(threads), all); s.l == L.Run(L.Init(threads), es) && AllFutexIdle(s)
    decreases |es|
  {
    if es == [] {
      all := [];
    } else {
      hide Step, L.Step, Punctual, AllFutexIdle, Init, L.Init;
      var before := EveryRunRealised(threads, es[..|es| - 1]);
      RunsKeepCoupled(threads, before);
      var more := Realise(Run(Init(threads), before), es[|es| - 1]);
      RunJoin(Init(threads), before, more);
      all := before + more;
    }
  }

  /** Exclusion and alternation hold of the lockstep on its futexes, and no wakeup is lost at either. */
  lemma OrderlyOnFutexes(threads: nat, es: seq<Access>)
    requires Disciplined(L.Init(threads), LockstepRun(Init(threads), es))
    ensures var s := Run(Init(threads), es);
            AtMostOneOp(s.l) && Alternates(s.l.started) && F.NoLostPost(s.a) && F.NoLostPost(s.b)
  {
    hide Run, L.Run, F.Run, Disciplined, AtMostOneOp, Alternates, F.NoLostPost;
    RunsProject(threads, es);
    OperationsAlternate(threads, LockstepRun(Init(threads), es));
    F.NoLostWakeup(threads, false, FutexRun(Init(threads), es, FutexA));
    F.NoLostWakeup(threads, true, FutexRun(Init(threads), es, FutexB));
  }

  // ----- Nobody sleeps for nothing ---------------------------------------------------------------------------

  /** A thread with nothing to do until somebody calls or wakes it: idle, inside an operation, or asleep in a wait. */
  predicate Rests(s: System, t: nat)
    requires t < |s.l.pcs|
  {
    var pc := s.l.pcs[t];
    if WaitsFor(pc, FutexA) then F.At(s.a, t, F.Asleep) && F.At(s.b, t, F.Idle)
    else if WaitsFor(pc, FutexB) then F.At(s.b, t, F.Asleep) && F.At(s.a, t, F.Idle)
    else FutexIdle(s, t) && (pc.Idle? || pc.InA? || pc.InB?)
  }

  ghost predicate AllRest(s: System) {
    forall t :: 0 <= t < |s.l.pcs| ==> Rests(s, t)
  }

  /** So everybody can come to rest with any threads inside operations, and the others idle. */
  lemma RestReached(threads: nat, es: seq<Event>) returns (all: seq<Access>)
    requires AllPunctual(L.Init(threads), es)
    requires forall pc :: pc in L.Run(L.Init(threads), es).pcs ==> pc.Idle? || pc.InA? || pc.InB?
    ensures var s := Run(Init(threads), all); s.l == L.Run(L.Init(threads), es) && AllRest(s)
  {
    hide Run, L.Run, Init, L.Init;
    all := EveryRunRealised(threads, es);
    var s := Run(Init(threads), all);
    forall t | 0 <= t < |s.l.pcs| ensures Rests(s, t) { assert s.l.pcs[t] in s.l.pcs && FutexIdle(s, t); }
  }

  ghost predicate NobodyWaitsFor(l: State, x: Futex) {
    forall t :: 0 <= t < |l.pcs| ==> !WaitsFor(l.pcs[t], x)
  }

  /** Whoever waits at rest waits for a token that is not there. */
  lemma NoSleeperOnToken(threads: nat, es: seq<Access>, x: Futex)
    requires AllRest(Run(Init(threads), es)) && Posted(Run(Init(threads), es).l, x)
    ensures NobodyWaitsFor(Run(Init(threads), es).l, x)
  {
    var s := Run(Init(threads), es);
    RunsProject(threads, es);
    RunsKeepCoupled(threads, es);
    hide Run, L.Run, F.Run;
    F.NoLostWakeup(threads, x.FutexB?, FutexRun(Init(threads), es, x));
    var f := Get(s, x);
    assert Linked(s.l, f, x) && F.NoLostPost(f);
    forall t | 0 <= t < |s.l.pcs| ensures f.pcs[t].Idle? || f.pcs[t].Asleep? { assert Rests(s, t); }
    if t: nat :| t < |s.l.pcs| && WaitsFor(s.l.pcs[t], x) {
      assert Rests(s, t);
      assert f.pcs[t] == F.Asleep;
    }
  }

  /**
   Undisturbed, once everybody rests and no operation is running, exactly one operation has its turn, and nobody sleeps
   waiting to start it.
   */
  lemma NobodySleepsThroughItsTurn(threads: nat, es: seq<Access>)
    requires LockstepTokens.Undisturbed(threads, LockstepRun(Init(threads), es)) && AllRest(Run(Init(threads), es))
    ensures var l := Run(Init(threads), es).l;
            || AnyActive(l)
            || (l.aPosted && !l.bPosted && NobodyWaitsFor(l, FutexA))
            || (l.bPosted && !l.aPosted && NobodyWaitsFor(l, FutexB))
  {
    var s := Run(Init(threads), es);
    RunsProject(threads, es);
    hide Run, L.Run, F.Run;
    LockstepTokens.TokenConserved(threads, LockstepRun(Init(threads), es));
    if s.l.aPosted || s.l.bPosted {
      LockstepTokens.NobodyHolds(s.l);
      NoSleeperOnToken(threads, es, if s.l.aPosted then FutexA else FutexB);
    } else {
      var t := LockstepTokens.SomeoneHolds(s.l.pcs);
      assert Rests(s, t);
      assert Active(s.l.pcs[t]);
    }
  }

  /** While a cancellation sticks and no Reset is under way, once everybody rests nobody waits at all. */
  lemma NobodySleepsThroughACancel(threads: nat, es: seq<Access>)
    requires var s := Run(Init(threads), es);
             LockstepCancel.Sticks(s.l, s.l.started) && LockstepCancel.NoReset(s.l) && AllRest(s)
    ensures var l := Run(Init(threads), es).l; NobodyWaitsFor(l, FutexA) && NobodyWaitsFor(l, FutexB)
  {
    hide Run;
    var s := Run(Init(threads), es);
    forall t | 0 <= t < |s.l.pcs| ensures !LockstepCancel.Pays(s.l.pcs[t]) { assert Rests(s, t); }
    LockstepCancel.NothingOwed(s.l, s.l.started);
    NoSleeperOnToken(threads, es, FutexA);
    NoSleeperOnToken(threads, es, FutexB);
  }
}
