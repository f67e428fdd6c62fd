/**
 The future and promise of platform/common/buffers/rt_promise.h on a shared context, in runs without
 Reset. Any number of promise handles, future handles and cancelling threads make single atomic
 accesses; the one-element queue appears as its contents, changed where the ring publishes its size.
 */
module PromiseProtocol {
  import opened Collections

  /** The context. A lock is true while it is free; `stored` and `taken` list the values set and got. */
  datatype Shared<T> = Shared(promiseAttached: bool, futureAttached: bool, cancelled: bool,
                              writeLock: bool, readLock: bool, cancelLock: bool, hasValue: bool,
                              slot: Option<T>, stored: seq<T>, taken: seq<T>)

  datatype PromisePc<T> =
    | PDetached
    | PIdle(reusable: bool)
    | PCheck(reusable: bool, value: T)     // holds the write lock, about to load the cancelled flag
    | PPrepare(reusable: bool, value: T)   // about to look for room
    | PInsert(reusable: bool, value: T)    // has room, about to publish the value
    | PPost(reusable: bool)                // about to post has_value_
    | PUnlock(reusable: bool, done: bool)
    | PDetach

  datatype FuturePc =
    | FDetached
    | FIdle(reusable: bool)
    | FCheck(reusable: bool)               // Get: holds the read lock, about to load the cancelled flag
    | FEmpty(reusable: bool)               // Get: about to look for a value
    | FDrop(reusable: bool)                // Get: has seen one, about to take it
    | FDrain(reusable: bool)               // Get: about to reset has_value_
    | FUnlock(reusable: bool, done: bool)
    | FDetach
    | FPeek(reusable: bool)                // Peek: about to read the value
    | FLook(reusable: bool)                // WaitUntil: not cancelled, about to look for a value
    | FWait(reusable: bool)                // WaitUntil: blocked on has_value_
    | FWoken(reusable: bool)               // WaitUntil: about to load the cancelled flag

  datatype CancelPc = CIdle | CStore | CUnlock | CPost

  datatype State<T> = State(shared: Shared<T>, promises: seq<PromisePc<T>>, futures: seq<FuturePc>,
                            cancels: seq<CancelPc>)

  /** What a handle's owner asks for; `Go` is the next access of the call in progress. */
  datatype PromiseAct<T> = AttachP(reusable: bool) | Set(value: T) | DetachP | GoP

  datatype FutureAct = AttachF(reusable: bool) | Get | Peek | Wait | GiveUp | DetachF | GoF

  datatype Event<T> = ByPromise(i: nat, p: PromiseAct<T>) | ByFuture(i: nat, f: FutureAct) | ByCancel(i: nat)

  ghost function Init<T>(promises: nat, futures: nat, cancels: nat): State<T> {
    State(Shared(false, false, false, true, true, true, false, None, [], []),
          seq(promises, _ => PDetached), seq(futures, _ => FDetached), seq(cancels, _ => CIdle))
  }

  ghost function PromiseNext<T>(c: Shared<T>, pc: PromisePc<T>, act: PromiseAct<T>): PromisePc<T> {
    match act
    case AttachP(reusable) => if pc.PDetached? && !c.promiseAttached then PIdle(reusable) else pc
    case Set(value) => if pc.PIdle? && c.writeLock then PCheck(pc.reusable, value) else pc
    case DetachP => if pc.PIdle? then PDetach else pc
    case GoP =>
      match pc
      case PDetached => pc
      case PIdle(_) => pc
      case PCheck(reusable, value) => if c.cancelled then PUnlock(reusable, false) else PPrepare(reusable, value)
      case PPrepare(reusable, value) => if c.slot.Some? then PUnlock(reusable, false) else PInsert(reusable, value)
      case PInsert(reusable, _) => PPost(reusable)
      case PPost(reusable) => PUnlock(reusable, true)
      case PUnlock(reusable, done) => if done && !reusable then PDetach else PIdle(reusable)
      case PDetach => PDetached
  }

  ghost function PromiseEffect<T>(c: Shared<T>, pc: PromisePc<T>, act: PromiseAct<T>): Shared<T> {
    match act
    case AttachP(_) => if pc.PDetached? then c.(promiseAttached := true) else c
    case Set(_) => if pc.PIdle? then c.(writeLock := false) else c
    case DetachP => c
    case GoP =>
      match pc
      case PInsert(_, value) => c.(slot := Some(value), stored := c.stored + [value])
      case PPost(_) => c.(hasValue := true)
      case PUnlock(_, _) => c.(writeLock := true)
      case PDetach => c.(promiseAttached := false)
      case _ => c
  }

  ghost function FutureNext<T>(c: Shared<T>, pc: FuturePc, act: FutureAct): FuturePc {
    match act
    case AttachF(reusable) => if pc.FDetached? && !c.futureAttached then FIdle(reusable) else pc
    case Get => if pc.FIdle? && c.readLock then FCheck(pc.reusable) else pc
    case Peek => if pc.FIdle? && !c.cancelled then FPeek(pc.reusable) else pc
    case Wait => if pc.FIdle? && !c.cancelled then FLook(pc.reusable) else pc
    case GiveUp => if pc.FWait? then FIdle(pc.reusable) else pc
    case DetachF => if pc.FIdle? then FDetach else pc
    case GoF =>
      match pc
      case FDetached => pc
      case FIdle(_) => pc
      case FCheck(reusable) => if c.cancelled then FUnlock(reusable, false) else FEmpty(reusable)
      case FEmpty(reusable) => if c.slot.None? then FUnlock(reusable, false) else FDrop(reusable)
      case FDrop(reusable) => FDrain(reusable)
      case FDrain(reusable) => FUnlock(reusable, true)
      case FUnlock(reusable, done) => if done && !reusable then FDetach else FIdle(reusable)
      case FDetach => FDetached
      case FPeek(reusable) => FIdle(reusable)
      case FLook(reusable) => if c.slot.Some? then FIdle(reusable) else FWait(reusable)
      case FWait(reusable) => if c.hasValue then FWoken(reusable) else pc
      case FWoken(reusable) => FIdle(reusable)
  }

  ghost function FutureEffect<T>(c: Shared<T>, pc: FuturePc, act: FutureAct): Shared<T> {
    match act
    case AttachF(_) => if pc.FDetached? then c.(futureAttached := true) else c
    case Get => if pc.FIdle? then c.(readLock := false) else c
    case Peek => c
    case Wait => c
    case GiveUp => c
    case DetachF => c
    case GoF =>
      match pc
      case FDrop(_) => if c.slot.Some? then c.(slot := None, taken := c.taken + [c.slot.value]) else c
      case FDrain(_) => c.(hasValue := false)
      case FUnlock(_, _) => c.(readLock := true)
      case FDetach => c.(futureAttached := false)
      case FWait(_) => c.(hasValue := false)
      case _ => c
  }

  function CancelNext<T>(c: Shared<T>, pc: CancelPc): CancelPc {
    match pc
    case CIdle => if c.cancelLock then CStore else CIdle
    case CStore => CUnlock
    case CUnlock => CPost
    case CPost => CIdle
  }

  ghost function CancelEffect<T>(c: Shared<T>, pc: CancelPc): Shared<T> {
    match pc
    case CIdle => c.(cancelLock := false)
    case CStore => c.(cancelled := true)
    case CUnlock => c.(cancelLock := true)
    case CPost => c.(hasValue := true)
  }

  /** Some Set has published its value but not yet posted has_value_. */
  ghost predicate Posting<T>(s: State<T>) {
    exists i :: 0 <= i < |s.promises| && s.promises[i].PPost?
  }

  /** Some Cancel has set the flag but not yet posted has_value_. */
  predicate Cancelling<T>(s: State<T>) {
    CUnlock in s.cancels || CPost in s.cancels
  }

  ghost function Step<T>(s: State<T>, e: Event<T>): State<T> {
    match e
    case ByPromise(i, act) =>
      if i >= |s.promises| then s else
        s.(shared := PromiseEffect(s.shared, s.promises[i], act),
           promises := s.promises[i := PromiseNext(s.shared, s.promises[i], act)])
    case ByFuture(i, act) =>
      if i >= |s.futures| then s else
        s.(shared := FutureEffect(s.shared, s.futures[i], act),
           futures := s.futures[i := FutureNext(s.shared, s.futures[i], act)])
    case ByCancel(i) =>
      if i >= |s.cancels| then s else
        s.(shared := CancelEffect(s.shared, s.cancels[i]),
           cancels := s.cancels[i := CancelNext(s.shared, s.cancels[i])])
  }

  ghost function Run<T>(s: State<T>, es: seq<Event<T>>): State<T> {
    if es == [] then s else Step(Run(s, es[..|es| - 1]), es[|es| - 1])
  }

  // ----- Invariant -----------------------------------------------------------------------------------

  predicate AttachedP<T>(pc: PromisePc<T>) { !pc.PDetached? }

  predicate AttachedF(pc: FuturePc) { !pc.FDetached? }

  predicate Writing<T>(pc: PromisePc<T>) { pc.PCheck? || pc.PPrepare? || pc.PInsert? || pc.PPost? || pc.PUnlock? }

  predicate Reading(pc: FuturePc) { pc.FCheck? || pc.FEmpty? || pc.FDrop? || pc.FDrain? || pc.FUnlock? }

  /** What was stored is what was taken, in order, and then what is in the slot. */
  ghost predicate Transferred<T>(c: Shared<T>) {
    c.stored == c.taken + if c.slot.Some? then [c.slot.value] else []
  }

  /**
   A blocked future with something to hear of has its post, or one that is still to come from the
   promise at `p` or from a Cancel.
   */
  ghost predicate Notified<T>(c: Shared<T>, p: PromisePc<T>, f: FuturePc, cancelling: bool) {
    && (f.FWait? && (c.slot.Some? || c.cancelled) ==> c.hasValue || p.PPost? || cancelling)
    && (f.FLook? && c.cancelled ==> c.hasValue || cancelling)
  }

  /** The invariant for one promise handle and one future handle. */
  ghost predicate PairInv<T>(c: Shared<T>, p: PromisePc<T>, f: FuturePc, cancelling: bool) {
    && (AttachedP(p) ==> c.promiseAttached) && (AttachedF(f) ==> c.futureAttached)
    && (cancelling ==> c.cancelled)
    && Writing(p) == !c.writeLock && Reading(f) == !c.readLock
    && Transferred(c) && (p.PInsert? ==> c.slot.None?) && (f.FDrop? ==> c.slot.Some?)
    && Notified(c, p, f, cancelling)
  }

  lemma PromiseKeepsPair<T>(c: Shared<T>, p: PromisePc<T>, f: FuturePc, cancelling: bool, act: PromiseAct<T>)
    requires PairInv(c, p, f, cancelling)
    ensures PairInv(PromiseEffect(c, p, act), PromiseNext(c, p, act), f, cancelling)
  {
  }

  lemma FutureKeepsPair<T>(c: Shared<T>, p: PromisePc<T>, f: FuturePc, cancelling: bool, act: FutureAct)
    requires PairInv(c, p, f, cancelling)
    ensures PairInv(FutureEffect(c, f, act), p, FutureNext(c, f, act), cancelling)
  {
  }

  lemma CancelKeepsPair<T>(c: Shared<T>, p: PromisePc<T>, f: FuturePc, cancelling: bool, pc: CancelPc, after: bool)
    requires PairInv(c, p, f, cancelling)
    requires pc.CUnlock? || pc.CPost? ==> cancelling
    requires pc.CStore? || pc.CUnlock? ==> after
    requires pc.CIdle? ==> after == cancelling
    ensures PairInv(CancelEffect(c, pc), p, f, after)
  {
  }

  // ----- Any number of handles -------------------------------------------------------------------------

  ghost function PAt<T>(s: State<T>, i: nat): PromisePc<T> {
    if i < |s.promises| then s.promises[i] else PDetached
  }

  ghost function FAt<T>(s: State<T>, i: nat): FuturePc {
    if i < |s.futures| then s.futures[i] else FDetached
  }

  /** All handles but the promise `p` and the future `f` are detached, and that pair keeps its invariant. */
  ghost predicate Inv<T>(s: State<T>, p: nat, f: nat) {
    && (forall i :: 0 <= i < |s.promises| && i != p ==> s.promises[i].PDetached?)
    && (forall i :: 0 <= i < |s.futures| && i != f ==> s.futures[i].FDetached?)
    && PairInv(s.shared, PAt(s, p), FAt(s, f), Cancelling(s))
  }

  lemma PromiseKeepsInv<T>(s: State<T>, p: nat, f: nat, i: nat, act: PromiseAct<T>) returns (p': nat)
    requires Inv(s, p, f)
    ensures Inv(Step(s, ByPromise(i, act)), p', f)
  {
    hide PairInv;
    p' := p;
    if i >= |s.promises| { return; }
    if i == p || (act.AttachP? && !s.shared.promiseAttached) {
      NobodyAttached(s, p, f);
      PromiseKeepsPair(s.shared, s.promises[i], FAt(s, f), Cancelling(s), act);
      p' := i;
    } else {
      assert s.promises[i := PDetached] == s.promises;
    }
  }

  lemma NobodyAttached<T>(s: State<T>, p: nat, f: nat)
    requires Inv(s, p, f)
    ensures !s.shared.promiseAttached ==> PAt(s, p).PDetached?
    ensures !s.shared.futureAttached ==> FAt(s, f).FDetached?
  {
  }

  lemma FutureKeepsInv<T>(s: State<T>, p: nat, f: nat, i: nat, act: FutureAct) returns (f': nat)
    requires Inv(s, p, f)
    ensures Inv(Step(s, ByFuture(i, act)), p, f')
  {
    hide PairInv;
    f' := f;
    if i >= |s.futures| { return; }
    assert Posting(s) <==> PAt(s, p).PPost?;
    if i == f || (act.AttachF? && !s.shared.futureAttached) {
      NobodyAttached(s, p, f);
      FutureKeepsPair(s.shared, PAt(s, p), s.futures[i], Cancelling(s), act);
      f' := i;
    } else {
      assert s.futures[i := FDetached] == s.futures;
    }
  }

  lemma CancelKeepsInv<T>(s: State<T>, p: nat, f: nat, i: nat)
    requires Inv(s, p, f)
    ensures Inv(Step(s, ByCancel(i)), p, f)
  {
    hide PairInv;
    if i >= |s.cancels| { return; }
    var s', pc := Step(s, ByCancel(i)), s.cancels[i];
    assert s'.cancels[i] == CancelNext(s.shared, pc);
    forall x | x in s.cancels && x != pc ensures x in s'.cancels {
      var k :| 0 <= k < |s.cancels| && s.cancels[k] == x;
      assert s'.cancels[k] == x;
    }
    CancelKeepsPair(s.shared, PAt(s, p), FAt(s, f), Cancelling(s), pc, Cancelling(s'));
  }

  lemma StepKeepsInv<T>(s: State<T>, p: nat, f: nat, e: Event<T>) returns (p': nat, f': nat)
    requires Inv(s, p, f)
    ensures Inv(Step(s, e), p', f')
  {
    hide Inv, Step;
    p', f' := p, f;
    match e {
      case ByPromise(i, act) => p' := PromiseKeepsInv(s, p, f, i, act);
      case ByFuture(i, act) => f' := FutureKeepsInv(s, p, f, i, act);
      case ByCancel(i) => CancelKeepsInv(s, p, f, i);
    }
  }

  lemma {:induction false} RunKeepsInv<T>(s: State<T>, p0: nat, f0: nat, es: seq<Event<T>>) returns (p: nat, f: nat)
    requires Inv(s, p0, f0)
    ensures Inv(Run(s, es), p, f)
    decreases |es|
  {
    hide Inv, Step;
    p, f := p0, f0;
    if es != [] {
      p, f := RunKeepsInv(s, p0, f0, es[..|es| - 1]);
      p, f := StepKeepsInv(Run(s, es[..|es| - 1]), p, f, es[|es| - 1]);
    }
  }

  lemma RunsKeepInv<T>(promises: nat, futures: nat, cancels: nat, es: seq<Event<T>>) returns (p: nat, f: nat)
    ensures Inv(Run(Init(promises, futures, cancels), es), p, f)
  {
    assert Inv(Init<T>(promises, futures, cancels), 0, 0);
    p, f := RunKeepsInv(Init(promises, futures, cancels), 0, 0, es);
  }

  // ----- Theorems ------------------------------------------------------------------------------------------

  /** The values got are the values set, in order and without the last when that is still in the slot. */
  lemma ExactlyOnce<T>(promises: nat, futures: nat, cancels: nat, es: seq<Event<T>>)
    ensures var c := Run(Init(promises, futures, cancels), es).shared;
            c.taken <= c.stored && |c.taken| <= |c.stored| <= |c.taken| + 1
            && c.slot == if |c.stored| == |c.taken| then None else Some(c.stored[|c.taken|])
  {
    var p, f := RunsKeepInv(promises, futures, cancels, es);
  }

  /** At most one promise handle and one future handle are attached at a time. */
  lemma OneHandleEach<T>(promises: nat, futures: nat, cancels: nat, es: seq<Event<T>>, i: nat, j: nat)
    ensures var s := Run(Init(promises, futures, cancels), es);
            && (i < |s.promises| && j < |s.promises| && AttachedP(s.promises[i]) && AttachedP(s.promises[j]) ==> i == j)
            && (i < |s.futures| && j < |s.futures| && AttachedF(s.futures[i]) && AttachedF(s.futures[j]) ==> i == j)
  {
    var p, f := RunsKeepInv(promises, futures, cancels, es);
  }

  /** A Set or Get is never turned away by its try-lock, which only Reset could be holding. */
  lemma TryLocksSucceed<T>(promises: nat, futures: nat, cancels: nat, es: seq<Event<T>>, i: nat)
    ensures var s := Run(Init(promises, futures, cancels), es);
            && (i < |s.promises| && s.promises[i].PIdle? ==> s.shared.writeLock)
            && (i < |s.futures| && s.futures[i].FIdle? ==> s.shared.readLock)
  {
    var p, f := RunsKeepInv(promises, futures, cancels, es);
  }

  /**
   A blocked WaitUntil with a value to fetch or a cancellation to report finds has_value_ posted, or a
   Set or a Cancel is about to post it.
   */
  lemma NoMissedNotification<T>(promises: nat, futures: nat, cancels: nat, es: seq<Event<T>>, i: nat)
    ensures var s := Run(Init(promises, futures, cancels), es);
            i < |s.futures| && s.futures[i].FWait? && (s.shared.slot.Some? || s.shared.cancelled) ==>
              s.shared.hasValue || Posting(s) || Cancelling(s)
  {
    var p, f := RunsKeepInv(promises, futures, cancels, es);
  }

  // ----- Cancellation ----------------------------------------------------------------------------------------

  ghost predicate PastCheckP<T>(pc: PromisePc<T>) { pc.PPrepare? || pc.PInsert? }

  ghost predicate PastCheckF(pc: FuturePc) { pc.FEmpty? || pc.FDrop? }

  /** The context is cancelled and no Set is past its check of that. */
  ghost predicate NoMoreSets<T>(s: State<T>) {
    s.shared.cancelled && forall i :: 0 <= i < |s.promises| ==> !PastCheckP(s.promises[i])
  }

  ghost predicate NoMoreGets<T>(s: State<T>) {
    s.shared.cancelled && forall i :: 0 <= i < |s.futures| ==> !PastCheckF(s.futures[i])
  }

  lemma CancelledPromise<T>(c: Shared<T>, p: PromisePc<T>, act: PromiseAct<T>)
    requires c.cancelled
    ensures var c' := PromiseEffect(c, p, act);
            c'.cancelled && c'.taken == c.taken && (!PastCheckP(p) ==> c'.stored == c.stored)
  {
    if act.GoP? {
      match p {
        case PInsert(_, _) =>
        case PPost(_) =>
        case PUnlock(_, _) =>
        case PDetach =>
        case _ => assert PromiseEffect(c, p, act) == c;
      }
    }
  }

  lemma CancelledPromisePc<T>(c: Shared<T>, p: PromisePc<T>, act: PromiseAct<T>)
    requires c.cancelled && !PastCheckP(p)
    ensures !PastCheckP(PromiseNext(c, p, act))
  {
  }

  lemma CancelledFuture<T>(c: Shared<T>, f: FuturePc, act: FutureAct)
    requires c.cancelled
    ensures var c' := FutureEffect(c, f, act);
            c'.cancelled && c'.stored == c.stored && (!PastCheckF(f) ==> c'.taken == c.taken)
  {
    if act.GoF? {
      match f {
        case FDrop(_) =>
        case FDrain(_) =>
        case FUnlock(_, _) =>
        case FDetach =>
        case FWait(_) =>
        case _ => assert FutureEffect(c, f, act) == c;
      }
    }
  }

  lemma CancelledFuturePc<T>(c: Shared<T>, f: FuturePc, act: FutureAct)
    requires c.cancelled && !PastCheckF(f)
    ensures !PastCheckF(FutureNext(c, f, act))
  {
  }

  lemma CancelledCancel<T>(c: Shared<T>, pc: CancelPc)
    requires c.cancelled
    ensures var c' := CancelEffect(c, pc); c'.cancelled && c'.stored == c.stored && c'.taken == c.taken
  {
    match pc {
      case CIdle =>
      case CStore =>
      case CUnlock =>
      case CPost =>
    }
  }

  lemma CancelledStep<T>(s: State<T>, e: Event<T>)
    requires s.shared.cancelled
    ensures var s' := Step(s, e);
            s'.shared.cancelled
            && (NoMoreSets(s) ==> NoMoreSets(s') && s'.shared.stored == s.shared.stored)
            && (NoMoreGets(s) ==> NoMoreGets(s') && s'.shared.taken == s.shared.taken)
  {
    hide PastCheckP, PastCheckF, PromiseEffect, PromiseNext, FutureEffect, FutureNext, CancelNext, CancelEffect;
    match e {
      case ByPromise(i, act) =>
        if i < |s.promises| {
          CancelledPromise(s.shared, s.promises[i], act);
          if !PastCheckP(s.promises[i]) { CancelledPromisePc(s.shared, s.promises[i], act); }
        }
      case ByFuture(i, act) =>
        if i < |s.futures| {
          CancelledFuture(s.shared, s.futures[i], act);
          if !PastCheckF(s.futures[i]) { CancelledFuturePc(s.shared, s.futures[i], act); }
        }
      case ByCancel(i) =>
        if i < |s.cancels| { CancelledCancel(s.shared, s.cancels[i]); }
    }
  }

  /**
   Once cancelled, a context stays so, and when the Sets (Gets) that were past their check are over, nothing
   is set (got) any more: no Set or Get that begins after a Cancel succeeds.
   */
  lemma {:induction false} CancelStopsTransfer<T>(s: State<T>, es: seq<Event<T>>)
    requires s.shared.cancelled
    ensures Run(s, es).shared.cancelled
    ensures NoMoreSets(s) ==> NoMoreSets(Run(s, es)) && Run(s, es).shared.stored == s.shared.stored
    ensures NoMoreGets(s) ==> NoMoreGets(Run(s, es)) && Run(s, es).shared.taken == s.shared.taken
    decreases |es|
  {
    if es != [] {
      hide Step, NoMoreSets, NoMoreGets;
      CancelStopsTransfer(s, es[..|es| - 1]);
      CancelledStep(Run(s, es[..|es| - 1]), es[|es| - 1]);
    }
  }

  /** No Set or Get begun after a Cancel succeeds: with the handle idle then, its side never moves again. */
  lemma BegunAfterCancelFails<T>(promises: nat, futures: nat, cancels: nat, es: seq<Event<T>>, i: nat,
                                 later: seq<Event<T>>)
    requires Run(Init(promises, futures, cancels), es).shared.cancelled
    ensures var s := Run(Init(promises, futures, cancels), es);
            && (i < |s.promises| && s.promises[i].PIdle? ==> Run(s, later).shared.stored == s.shared.stored)
            && (i < |s.futures| && s.futures[i].FIdle? ==> Run(s, later).shared.taken == s.shared.taken)
  {
    var s := Run(Init(promises, futures, cancels), es);
    hide Run, Init;
    var p, f := RunsKeepInv(promises, futures, cancels, es);
    CancelStopsTransfer(s, later);
  }

  // ----- When a WaitUntil can be trusted -----------------------------------------------------------------

  /** No post is there or about to come that announces neither a value nor a cancellation. */
  ghost predicate Clean<T>(s: State<T>) {
    s.shared.cancelled || s.shared.slot.Some? || (!s.shared.hasValue && !Posting(s))
  }

  predicate Waiting(f: FuturePc) {
    f.FIdle? || f.FLook? || f.FWait? || f.FWoken?
  }

  /** The future `i` begins no other call. */
  ghost predicate OneCall<T>(es: seq<Event<T>>, i: nat) {
    forall e :: e in es && e.ByFuture? && e.i == i ==> e.f.GoF? || e.f.GiveUp?
  }

  /** The WaitUntil of the future `i`, if woken and not cancelled, has a value to report. */
  predicate WokenForAValue<T>(s: State<T>, i: nat) {
    i < |s.futures| && s.futures[i].FWoken? ==> s.shared.cancelled || s.shared.slot.Some?
  }

  /** What a WaitUntil of the future `i` relies on from its beginning to its end. */
  ghost predicate Trusted<T>(s: State<T>, i: nat) {
    i < |s.futures| && Waiting(s.futures[i]) && Clean(s) && WokenForAValue(s, i)
  }

  lemma PromiseKeepsTrust<T>(s: State<T>, i: nat, j: nat, act: PromiseAct<T>)
    requires Trusted(s, i)
    ensures Trusted(Step(s, ByPromise(j, act)), i)
  {
    if j >= |s.promises| { return; }
    var s', pc := Step(s, ByPromise(j, act)), s.promises[j];
    PromisePosts(s.shared, pc, act);
    hide PromiseEffect, PromiseNext;
    assert forall k :: 0 <= k < |s'.promises| && k != j ==> s'.promises[k] == s.promises[k];
  }

  /** A promise posts only from PPost, gets there only with a value, and takes nothing back. */
  lemma PromisePosts<T>(c: Shared<T>, pc: PromisePc<T>, act: PromiseAct<T>)
    ensures var c' := PromiseEffect(c, pc, act);
            && c'.cancelled == c.cancelled && (c.slot.Some? ==> c'.slot.Some?)
            && (c'.hasValue ==> c.hasValue || pc.PPost?)
            && (PromiseNext(c, pc, act).PPost? ==> pc.PPost? || c'.slot.Some?)
  {
    if act.GoP? { match pc { case PInsert(_, _) => case PPost(_) => case PUnlock(_, _) => case PDetach => case _ => } }
  }

  lemma CancelKeepsTrust<T>(s: State<T>, p: nat, f: nat, i: nat, j: nat)
    requires Trusted(s, i) && Inv(s, p, f)
    ensures Trusted(Step(s, ByCancel(j)), i)
  {
    if j < |s.cancels| && s.cancels[j].CPost? { assert CPost in s.cancels; }
  }

  /** While the future `i` is attached, another one does nothing. */
  lemma OtherFuturesIdle<T>(s: State<T>, p: nat, f: nat, i: nat, j: nat, act: FutureAct)
    requires Inv(s, p, f) && i < |s.futures| && AttachedF(s.futures[i]) && i != j
    ensures Step(s, ByFuture(j, act)) == s
  {
    if j < |s.futures| {
      assert s.futures[j].FDetached? && s.shared.futureAttached;
      assert s.futures[j := FDetached] == s.futures;
    }
  }

  lemma OwnStepKeepsTrust<T>(s: State<T>, i: nat, act: FutureAct)
    requires Trusted(s, i) && (act.GoF? || act.GiveUp? || act.Wait?)
    ensures Trusted(Step(s, ByFuture(i, act)), i)
  {
    var s' := Step(s, ByFuture(i, act));
    assert s'.promises == s.promises;
    assert Posting(s') == Posting(s);
  }

  lemma StepKeepsTrust<T>(s: State<T>, p: nat, f: nat, i: nat, e: Event<T>)
    requires Trusted(s, i) && Inv(s, p, f)
    requires e.ByFuture? && e.i == i ==> e.f.GoF? || e.f.GiveUp? || e.f.Wait?
    ensures Trusted(Step(s, e), i)
  {
    hide Step;
    match e {
      case ByPromise(j, act) => PromiseKeepsTrust(s, i, j, act);
      case ByCancel(j) => CancelKeepsTrust(s, p, f, i, j);
      case ByFuture(j, act) =>
        if j == i { OwnStepKeepsTrust(s, i, act); } else { OtherFuturesIdle(s, p, f, i, j, act); }
    }
  }

  lemma RunPlus<T>(s: State<T>, es: seq<Event<T>>, e: Event<T>)
    ensures Run(s, es + [e]) == Step(Run(s, es), e)
  {
    assert (es + [e])[..|es|] == es;
  }

  /** What a WaitUntil relies on lasts as long as the call. */
  lemma {:induction false} TrustLasts<T>(s: State<T>, p0: nat, f0: nat, i: nat, es: seq<Event<T>>)
    requires Inv(s, p0, f0) && Trusted(s, i) && OneCall(es, i)
    ensures Trusted(Run(s, es), i)
    decreases |es|
  {
    if es != [] {
      hide Inv, Step, Trusted;
      var rest, e := es[..|es| - 1], es[|es| - 1];
      assert e in es && OneCall(rest, i);
      TrustLasts(s, p0, f0, i, rest);
      var p, f := RunKeepsInv(s, p0, f0, rest);
      StepKeepsTrust(Run(s, rest), p, f, i, e);
    }
  }

  /** A WaitUntil that has found no value takes a post without looking again. */
  lemma TakesStalePost<T>(s: State<T>, i: nat)
    requires i < |s.futures| && s.futures[i].FLook? && s.shared.hasValue && s.shared.slot.None? && !s.shared.cancelled
    ensures !WokenForAValue(Step(Step(s, ByFuture(i, GoF)), ByFuture(i, GoF)), i)
  {
  }

  /** A post that a Set still owes comes, with the value gone. */
  lemma PostArrives<T>(s: State<T>, i: nat, p: nat)
    requires i < |s.futures| && s.futures[i].FLook? && s.shared.slot.None? && !s.shared.cancelled
    requires p < |s.promises| && s.promises[p].PPost?
    ensures var s' := Step(s, ByPromise(p, GoP));
            && s'.futures == s.futures && s'.shared.hasValue && s'.shared.slot.None? && !s'.shared.cancelled
  {
  }

  /** A WaitUntil that begins with a stale post can be woken with nothing there. */
  lemma StaleWake<T>(s: State<T>, i: nat) returns (es: seq<Event<T>>)
    requires i < |s.futures| && s.futures[i].FLook? && !Clean(s)
    ensures OneCall(es, i) && !WokenForAValue(Run(s, es), i)
  {
    es := [];
    assert Run(s, es) == s;
    if !s.shared.hasValue {
      var p: nat :| p < |s.promises| && s.promises[p].PPost?;
      PostArrives(s, i, p);
      RunPlus(s, es, ByPromise(p, GoP));
      es := es + [ByPromise(p, GoP)];
    }
    TakesStalePost(Run(s, es), i);
    hide Run, Step;
    RunPlus(s, es, ByFuture(i, GoF));
    RunPlus(s, es + [ByFuture(i, GoF)], ByFuture(i, GoF));
    es := es + [ByFuture(i, GoF)] + [ByFuture(i, GoF)];
  }

  /** The first step of WaitUntil. */
  lemma WaitBegins<T>(s: State<T>, i: nat)
    requires i < |s.futures| && s.futures[i].FIdle?
    ensures var s' := Step(s, ByFuture(i, Wait)); Clean(s') == Clean(s) && (!Clean(s) ==> s'.futures[i].FLook?)
  {
    assert Step(s, ByFuture(i, Wait)).promises == s.promises;
  }

  /**
   Exactly when a WaitUntil can be trusted: in every continuation of that one call, being woken without a cancellation
   means that there is a value, if and only if it begins with no stale post there or about to come.
   */
  lemma WaitTrustedExactlyWhen<T(!new)>(promises: nat, futures: nat, cancels: nat, es: seq<Event<T>>, i: nat)
    requires var s := Run(Init<T>(promises, futures, cancels), es); i < |s.futures| && s.futures[i].FIdle?
    ensures var s := Run(Init<T>(promises, futures, cancels), es);
            Clean(s) <==> forall more :: OneCall(more, i) ==> WokenForAValue(Run(Step(s, ByFuture(i, Wait)), more), i)
  {
    var s := Run(Init<T>(promises, futures, cancels), es);
    hide Run, Init;
    var s' := Step(s, ByFuture(i, Wait));
    WaitBegins(s, i);
    if Clean(s) {
      var p, f := RunsKeepInv(promises, futures, cancels, es);
      OwnStepKeepsTrust(s, i, Wait);
      p, f := StepKeepsInv(s, p, f, ByFuture(i, Wait));
      forall more | OneCall(more, i) ensures WokenForAValue(Run(s', more), i) { TrustLasts(s', p, f, i, more); }
    } else {
      var more := StaleWake(s', i);
    }
  }

  // ----- A post that announces nothing -------------------------------------------------------------------------

  /** What the run `es` of one promise and one future leads to. */
  ghost predicate Shows<T>(es: seq<Event<T>>, c: Shared<T>, p: PromisePc<T>, f: FuturePc) {
    Run(Init(1, 1, 0), es) == State(c, [p], [f], [])
  }

  lemma PromiseMoves<T>(es: seq<Event<T>>, c: Shared<T>, p: PromisePc<T>, f: FuturePc, act: PromiseAct<T>)
    returns (es': seq<Event<T>>)
    requires Shows(es, c, p, f)
    ensures Shows(es', PromiseEffect(c, p, act), PromiseNext(c, p, act), f)
  {
    hide PromiseEffect, PromiseNext;
    es' := es + [ByPromise(0, act)];
    assert es'[..|es|] == es;
  }

  lemma FutureMoves<T>(es: seq<Event<T>>, c: Shared<T>, p: PromisePc<T>, f: FuturePc, act: FutureAct)
    returns (es': seq<Event<T>>)
    requires Shows(es, c, p, f)
    ensures Shows(es', FutureEffect(c, f, act), p, FutureNext(c, f, act))
  {
    hide FutureEffect, FutureNext;
    es' := es + [ByFuture(0, act)];
    assert es'[..|es|] == es;
    assert [p][0] == p;
  }

  /** A Set that has published its value and not yet posted. */
  lemma SetUpToPost<T>(value: T) returns (es: seq<Event<T>>)
    ensures Shows(es, Shared(true, true, false, false, true, true, false, Some(value), [value], []),
                  PPost(true), FIdle(true))
  {
    hide Shows;
    var c0: Shared<T> := Shared(false, false, false, true, true, true, false, None, [], []);
    assert Shows<T>([], c0, PDetached, FDetached) by { ShowsInit<T>(); }
    es := PromiseMoves([], c0, PDetached, FDetached, AttachP(true));
    var c1 := c0.(promiseAttached := true);
    es := FutureMoves(es, c1, PIdle(true), FDetached, AttachF(true));
    var c2 := c1.(futureAttached := true);
    es := PromiseMoves(es, c2, PIdle(true), FIdle(true), Set(value));
    var c3 := c2.(writeLock := false);
    es := PromiseMoves(es, c3, PCheck(true, value), FIdle(true), GoP);
    es := PromiseMoves(es, c3, PPrepare(true, value), FIdle(true), GoP);
    es := PromiseMoves(es, c3, PInsert(true, value), FIdle(true), GoP);
    assert c3.stored + [value] == [value];
  }

  lemma ShowsInit<T>()
    ensures Shows<T>([], Shared(false, false, false, true, true, true, false, None, [], []), PDetached, FDetached)
  {
    assert seq(1, _ => PromisePc<T>.PDetached) == [PDetached];
    assert seq(1, _ => FDetached) == [FDetached];
  }

  lemma ShowsMeans<T>(es: seq<Event<T>>, c: Shared<T>, p: PromisePc<T>, f: FuturePc)
    requires Shows(es, c, p, f)
    ensures var s := Run(Init(1, 1, 0), es); s.shared == c && s.futures == [f]
  {
  }

  /** A Get that takes that value and resets has_value_ before the Set posts it. */
  lemma GetBeforePost<T>(value: T) returns (es: seq<Event<T>>)
    ensures Shows(es, Shared(true, true, false, false, true, true, false, None, [value], [value]),
                  PPost(true), FIdle(true))
  {
    hide Shows;
    es := SetUpToPost(value);
    var c: Shared<T> := Shared(true, true, false, false, true, true, false, Some(value), [value], []);
    es := FutureMoves(es, c, PPost(true), FIdle(true), Get);
    var c1 := c.(readLock := false);
    es := FutureMoves(es, c1, PPost(true), FCheck(true), GoF);
    es := FutureMoves(es, c1, PPost(true), FEmpty(true), GoF);
    es := FutureMoves(es, c1, PPost(true), FDrop(true), GoF);
    assert c1.taken + [value] == [value];
    var c2 := c1.(slot := None, taken := [value]);
    es := FutureMoves(es, c2, PPost(true), FDrain(true), GoF);
    es := FutureMoves(es, c2, PPost(true), FUnlock(true, true), GoF);
  }

  /**
   WaitUntil may report a value where there is none: it is woken, not cancelled, by the post of a Set
   whose value a Get has already taken.
   */
  lemma StalePostWakes<T>(value: T) returns (es: seq<Event<T>>)
    ensures var s := Run(Init(1, 1, 0), es);
            s.futures == [FWoken(true)] && !s.shared.cancelled && s.shared.slot.None?
  {
    hide Shows;
    es := GetBeforePost(value);
    var c: Shared<T> := Shared(true, true, false, false, true, true, false, None, [value], [value]);
    es := PromiseMoves(es, c, PPost(true), FIdle(true), GoP);
    var c1 := c.(hasValue := true);
    es := FutureMoves(es, c1, PUnlock(true, true), FIdle(true), Wait);
    es := FutureMoves(es, c1, PUnlock(true, true), FLook(true), GoF);
    es := FutureMoves(es, c1, PUnlock(true, true), FWait(true), GoF);
    ShowsMeans(es, c1.(hasValue := false), PUnlock(true, true), FWoken(true));
  }
}
