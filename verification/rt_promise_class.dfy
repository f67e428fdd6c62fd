/** FuturePromiseContext and the calls of its handles, one atomic access at a time, among any other calls. */
module PromiseClass {
  import opened Collections
  import opened PromiseProtocol

  datatype Status = Ok | Cancelled | ResourceExhausted | FailedPrecondition | Unavailable | DeadlineExceeded

  datatype Result<T> = Value(value: T) | Failed(status: Status)

  /** The handle, or the cancelling thread, on whose behalf a call is made. */
  datatype Role = P(i: nat) | F(i: nat) | C(i: nat)

  predicate Mine<T>(me: Role, e: Event<T>) {
    match e
    case ByPromise(i, _) => me == P(i)
    case ByFuture(i, _) => me == F(i)
    case ByCancel(i) => me == C(i)
  }

  /** The accesses of the others in a batch. */
  function Foreign<T>(batch: seq<Event<T>>, me: Role): seq<Event<T>> {
    if batch == [] then []
    else
      var e := batch[|batch| - 1];
      Foreign(batch[..|batch| - 1], me) + if !Mine(me, e) then [e] else []
  }

  /** What a call finds unchanged between two of its accesses. */
  ghost predicate Kept<T>(s: State<T>, s': State<T>, me: Role) {
    && |s'.promises| == |s.promises| && |s'.futures| == |s.futures| && |s'.cancels| == |s.cancels|
    && (s.shared.cancelled ==> s'.shared.cancelled)
    && match me
       case P(i) =>
         i < |s.promises| ==>
           && s'.promises[i] == s.promises[i]
           && (AttachedP(s.promises[i]) ==> KeptByPromise(s.shared, s'.shared))
       case F(i) =>
         i < |s.futures| ==>
           && s'.futures[i] == s.futures[i] && (Trusted(s, i) ==> Trusted(s', i))
           && (AttachedF(s.futures[i]) ==> KeptByFuture(s.shared, s'.shared))
       case C(i) => i < |s.cancels| ==> s'.cancels[i] == s.cancels[i]
  }

  ghost predicate KeptByPromise<T>(c: Shared<T>, c': Shared<T>) {
    c'.stored == c.stored && c'.writeLock == c.writeLock && (c.slot.None? ==> c'.slot.None?)
  }

  ghost predicate KeptByFuture<T>(c: Shared<T>, c': Shared<T>) {
    c'.taken == c.taken && c'.readLock == c.readLock && (c.slot.Some? ==> c'.slot == c.slot)
  }

  lemma FutureLeavesPromise<T>(c: Shared<T>, f: FuturePc, act: FutureAct)
    ensures var c' := FutureEffect(c, f, act); KeptByPromise(c, c') && c'.cancelled == c.cancelled
  {
    if act.GoF? {
      match f { case FDrop(_) => case FDrain(_) => case FUnlock(_, _) => case FDetach => case FWait(_) => case _ => }
    }
  }

  lemma PromiseLeavesFuture<T>(c: Shared<T>, p: PromisePc<T>, act: PromiseAct<T>)
    requires p.PInsert? ==> c.slot.None?
    ensures var c' := PromiseEffect(c, p, act); KeptByFuture(c, c') && c'.cancelled == c.cancelled
  {
    if act.GoP? { match p { case PInsert(_, _) => case PPost(_) => case PUnlock(_, _) => case PDetach => case _ => } }
  }

  lemma CancelLeaves<T>(c: Shared<T>, pc: CancelPc)
    ensures var c' := CancelEffect(c, pc); KeptByPromise(c, c') && KeptByFuture(c, c') && (c.cancelled ==> c'.cancelled)
  {
    match pc { case CIdle => case CStore => case CUnlock => case CPost => }
  }

  /** A detached handle changes nothing while another one is attached. */
  lemma DetachedStutters<T>(s: State<T>, p: nat, f: nat, me: Role, e: Event<T>)
    requires Inv(s, p, f) && !Mine(me, e)
    ensures e.ByPromise? && me.P? && me.i < |s.promises| && AttachedP(s.promises[me.i]) ==>
              Step(s, e).shared == s.shared
    ensures e.ByFuture? && me.F? && me.i < |s.futures| && AttachedF(s.futures[me.i]) ==> Step(s, e).shared == s.shared
  {
  }

  lemma InsertFindsRoom<T>(s: State<T>, p: nat, f: nat, i: nat)
    requires Inv(s, p, f) && i < |s.promises|
    ensures s.promises[i].PInsert? ==> s.shared.slot.None?
  {
  }

  lemma OthersKeep<T>(s: State<T>, p: nat, f: nat, me: Role, e: Event<T>)
    requires Inv(s, p, f) && !Mine(me, e)
    ensures Kept(s, Step(s, e), me)
  {
    DetachedStutters(s, p, f, me, e);
    if me.F? && Trusted(s, me.i) { StepKeepsTrust(s, p, f, me.i, e); }
    hide Trusted;
    match e {
      case ByPromise(i, act) => if i < |s.promises| { InsertFindsRoom(s, p, f, i); LeavesCancelled(s, e); }
      case ByFuture(i, act) => LeavesCancelled(s, e);
      case ByCancel(i) => LeavesCancelled(s, e);
    }
  }

  /** The per-access facts, at the state. */
  lemma LeavesCancelled<T>(s: State<T>, e: Event<T>)
    requires e.ByPromise? && e.i < |s.promises| && s.promises[e.i].PInsert? ==> s.shared.slot.None?
    ensures s.shared.cancelled ==> Step(s, e).shared.cancelled
    ensures e.ByPromise? ==> KeptByFuture(s.shared, Step(s, e).shared)
    ensures e.ByFuture? ==> KeptByPromise(s.shared, Step(s, e).shared)
    ensures e.ByCancel? ==> KeptByFuture(s.shared, Step(s, e).shared) && KeptByPromise(s.shared, Step(s, e).shared)
  {
    hide PromiseEffect, FutureEffect, CancelEffect, PromiseNext, FutureNext, CancelNext;
    match e {
      case ByPromise(i, act) => if i < |s.promises| { PromiseLeavesFuture(s.shared, s.promises[i], act); }
      case ByFuture(i, act) => if i < |s.futures| { FutureLeavesPromise(s.shared, s.futures[i], act); }
      case ByCancel(i) => if i < |s.cancels| { CancelLeaves(s.shared, s.cancels[i]); }
    }
  }

  lemma StutterP<T>(s: State<T>, i: nat, act: PromiseAct<T>)
    requires i < |s.promises|
    requires !(act.AttachP? && s.promises[i].PDetached?) && !((act.Set? || act.DetachP?) && s.promises[i].PIdle?)
    requires act.GoP? ==> s.promises[i].PDetached? || s.promises[i].PIdle?
    ensures Step(s, ByPromise(i, act)) == s
  {
    assert PromiseNext(s.shared, s.promises[i], act) == s.promises[i];
    assert PromiseEffect(s.shared, s.promises[i], act) == s.shared;
    assert s.promises[i := s.promises[i]] == s.promises;
  }

  lemma StutterF<T>(s: State<T>, i: nat, act: FutureAct)
    requires i < |s.futures|
    requires !(act.AttachF? && s.futures[i].FDetached?) && !(act.GiveUp? && s.futures[i].FWait?)
    requires !((act.Get? || act.Peek? || act.Wait? || act.DetachF?) && s.futures[i].FIdle?)
    requires act.GoF? ==> s.futures[i].FDetached? || s.futures[i].FIdle?
    ensures Step(s, ByFuture(i, act)) == s
  {
    assert FutureNext(s.shared, s.futures[i], act) == s.futures[i];
    assert FutureEffect(s.shared, s.futures[i], act) == s.shared;
    assert s.futures[i := s.futures[i]] == s.futures;
  }

  /** Some Set or Cancel is about to post has_value_. */
  ghost predicate PostComing<T>(promises: seq<PromisePc<T>>, cancels: seq<CancelPc>) {
    (exists i :: 0 <= i < |promises| && promises[i].PPost?) || CUnlock in cancels || CPost in cancels
  }

  /** The canceller `me` is about to try the lock, which is free or not. */
  ghost predicate AtCancelLock<T>(s: State<T>, me: nat, free: bool) {
    me < |s.cancels| && s.cancels[me].CIdle? && s.shared.cancelLock == free
  }

  /** The WaitUntil of `me` is about to find a value, or has taken a post and is about to find no cancellation. */
  ghost predicate AboutToSucceed<T>(s: State<T>, me: nat) {
    && me < |s.futures|
    && (|| (s.futures[me].FLook? && s.shared.slot.Some?)
        || (s.futures[me].FWoken? && !s.shared.cancelled))
  }

  class FuturePromiseContext<T> {
    var promiseAttached: bool
    var futureAttached: bool
    var cancelled: bool
    var writeLock: bool
    var readLock: bool
    var cancelLock: bool
    var hasValue: bool
    var slot: Option<T>
    /** How far each handle and each cancelling thread is. */
    var promises: seq<PromisePc<T>>
    var futures: seq<FuturePc>
    var cancels: seq<CancelPc>
    /** What the others will do, one batch between two accesses of the caller. */
    var schedule: seq<seq<Event<T>>>
    ghost var stored: seq<T>
    ghost var taken: seq<T>
    ghost var log: seq<Event<T>>

    ghost function Snapshot(): State<T>
      reads this
    {
      State(Shared(promiseAttached, futureAttached, cancelled, writeLock, readLock, cancelLock,
                   hasValue, slot, stored, taken),
            promises, futures, cancels)
    }

    /** The fields are what the protocol makes of the accesses logged so far. */
    ghost predicate Valid()
      reads this
    {
      Snapshot() == Run(Init(|promises|, |futures|, |cancels|), log)
    }

    /** The access `e`, and nothing else, has happened since the method began. */
    twostate predicate Took(e: Event<T>)
      reads this
    {
      Valid() && log == old(log) + [e] && Snapshot() == Step(old(Snapshot()), e)
    }

    /** The state in which the last access was made. */
    ghost function Before(): State<T>
      requires log != []
      reads this
    {
      Run(Init(|promises|, |futures|, |cancels|), log[..|log| - 1])
    }

    constructor (promiseHandles: nat, futureHandles: nat, cancellers: nat, schedule: seq<seq<Event<T>>>)
      ensures Valid() && log == [] && this.schedule == schedule && slot.None? && !cancelled
      ensures |promises| == promiseHandles && |futures| == futureHandles && |cancels| == cancellers
      ensures forall i :: 0 <= i < promiseHandles ==> promises[i].PDetached?
      ensures forall i :: 0 <= i < futureHandles ==> futures[i].FDetached?
    {
      promiseAttached, futureAttached, cancelled := false, false, false;
      writeLock, readLock, cancelLock, hasValue, slot := true, true, true, false, None;
      promises, futures := seq(promiseHandles, _ => PDetached), seq(futureHandles, _ => FDetached);
      cancels, this.schedule := seq(cancellers, _ => CIdle), schedule;
      stored, taken, log := [], [], [];
    }

    ghost method Record(before: State<T>, e: Event<T>)
      requires before == Run(Init(|promises|, |futures|, |cancels|), log) && Snapshot() == Step(before, e)
      modifies this`log
      ensures Valid() && log == old(log) + [e]
    {
      hide Step, Init;
      log := log + [e];
      assert log[..|log| - 1] == old(log);
    }

    // ----- Single accesses -------------------------------------------------------------------------------

    /** The try-lock of Set. */
    method WriteTryLock(i: nat, value: T) returns (free: bool)
      requires Valid() && i < |promises| && promises[i].PIdle?
      modifies `writeLock, `promises, `log
      ensures Valid() && old(log) <= log && Took(ByPromise(i, PromiseProtocol.Set(value)))
      ensures free == old(writeLock) && !writeLock
      ensures promises == old(promises)[i := if free then PCheck(old(promises)[i].reusable, value)
                                             else old(promises)[i]]
    {
      hide Run, Init;
      free := writeLock;
      if free { writeLock, promises := false, promises[i := PCheck(promises[i].reusable, value)]; }
      assert free || promises[i := promises[i]] == promises;
      Record(old(Snapshot()), ByPromise(i, PromiseProtocol.Set(value)));
    }

    /** Set loads is_cancelled_. */
    method CheckBeforeSet(i: nat) returns (stop: bool)
      requires Valid() && i < |promises| && promises[i].PCheck?
      modifies `promises, `log
      ensures Valid() && old(log) <= log && Took(ByPromise(i, GoP))
      ensures stop == cancelled
      ensures promises == old(promises)[i := if stop then PUnlock(old(promises)[i].reusable, false)
                                             else PPrepare(old(promises)[i].reusable, old(promises)[i].value)]
    {
      hide Run, Init;
      stop := cancelled;
      promises := promises[i := if stop then PUnlock(promises[i].reusable, false)
                                else PPrepare(promises[i].reusable, promises[i].value)];
      Record(old(Snapshot()), ByPromise(i, GoP));
    }

    /** Set looks for room. */
    method PrepareInsert(i: nat) returns (full: bool)
      requires Valid() && i < |promises| && promises[i].PPrepare?
      modifies `promises, `log
      ensures Valid() && old(log) <= log && Took(ByPromise(i, GoP))
      ensures full == slot.Some?
      ensures promises == old(promises)[i := if full then PUnlock(old(promises)[i].reusable, false)
                                             else PInsert(old(promises)[i].reusable, old(promises)[i].value)]
    {
      hide Run, Init;
      full := slot.Some?;
      promises := promises[i := if full then PUnlock(promises[i].reusable, false)
                                else PInsert(promises[i].reusable, promises[i].value)];
      Record(old(Snapshot()), ByPromise(i, GoP));
    }

    /** Set publishes the value. */
    method FinishInsert(i: nat)
      requires Valid() && i < |promises| && promises[i].PInsert?
      modifies `slot, `stored, `promises, `log
      ensures Valid() && old(log) <= log && Took(ByPromise(i, GoP))
      ensures slot == Some(old(promises)[i].value) && stored == old(stored) + [old(promises)[i].value]
      ensures promises == old(promises)[i := PPost(old(promises)[i].reusable)]
    {
      hide Run, Init;
      slot, stored := Some(promises[i].value), stored + [promises[i].value];
      promises := promises[i := PPost(promises[i].reusable)];
      Record(old(Snapshot()), ByPromise(i, GoP));
    }

    /** Set posts has_value_. */
    method PostValue(i: nat)
      requires Valid() && i < |promises| && promises[i].PPost?
      modifies `hasValue, `promises, `log
      ensures Valid() && old(log) <= log && Took(ByPromise(i, GoP))
      ensures hasValue
      ensures promises == old(promises)[i := PUnlock(old(promises)[i].reusable, true)]
    {
      hide Run, Init;
      hasValue, promises := true, promises[i := PUnlock(promises[i].reusable, true)];
      Record(old(Snapshot()), ByPromise(i, GoP));
    }

    /** Set releases its lock; a promise for one value goes on to detach. */
    method WriteUnlock(i: nat)
      requires Valid() && i < |promises| && promises[i].PUnlock?
      modifies `writeLock, `promises, `log
      ensures Valid() && old(log) <= log && Took(ByPromise(i, GoP))
      ensures writeLock
      ensures promises == old(promises)[i := if old(promises)[i].done && !old(promises)[i].reusable then PDetach
                                             else PIdle(old(promises)[i].reusable)]
    {
      hide Run, Init;
      writeLock := true;
      promises := promises[i := if promises[i].done && !promises[i].reusable then PDetach
                                else PIdle(promises[i].reusable)];
      Record(old(Snapshot()), ByPromise(i, GoP));
    }

    /** Clears the attached flag. */
    method DetachPromise(i: nat)
      requires Valid() && i < |promises| && promises[i].PDetach?
      modifies `promiseAttached, `promises, `log
      ensures Valid() && old(log) <= log && Took(ByPromise(i, GoP))
      ensures !promiseAttached
      ensures promises == old(promises)[i := PDetached]
    {
      hide Run, Init;
      promiseAttached, promises := false, promises[i := PDetached];
      Record(old(Snapshot()), ByPromise(i, GoP));
    }

    /** The owner of a promise gives it up. */
    method LeavePromise(i: nat)
      requires Valid() && i < |promises| && promises[i].PIdle?
      modifies `promises, `log
      ensures Valid() && old(log) <= log && Took(ByPromise(i, DetachP))
      ensures promises == old(promises)[i := PDetach]
    {
      hide Run, Init;
      promises := promises[i := PDetach];
      Record(old(Snapshot()), ByPromise(i, DetachP));
    }

    /** Hands out the promise, unless one is attached. */
    method GetPromise(i: nat, reusable: bool) returns (granted: bool)
      requires Valid() && i < |promises| && promises[i].PDetached?
      modifies `promiseAttached, `promises, `log
      ensures Valid() && old(log) <= log && Took(ByPromise(i, AttachP(reusable)))
      ensures granted == !old(promiseAttached) && promiseAttached
      ensures promises == old(promises)[i := if granted then PIdle(reusable) else PDetached]
    {
      hide Run, Init;
      granted := !promiseAttached;
      promiseAttached, promises := true, promises[i := if granted then PIdle(reusable) else PDetached];
      Record(old(Snapshot()), ByPromise(i, AttachP(reusable)));
    }

    /** The try-lock of Get. */
    method ReadTryLock(i: nat) returns (free: bool)
      requires Valid() && i < |futures| && futures[i].FIdle?
      modifies `readLock, `futures, `log
      ensures Valid() && old(log) <= log && Took(ByFuture(i, PromiseProtocol.Get))
      ensures free == old(readLock) && !readLock
      ensures futures == old(futures)[i := if free then FCheck(old(futures)[i].reusable) else old(futures)[i]]
    {
      hide Run, Init;
      free := readLock;
      if free { readLock, futures := false, futures[i := FCheck(futures[i].reusable)]; }
      assert free || futures[i := futures[i]] == futures;
      Record(old(Snapshot()), ByFuture(i, PromiseProtocol.Get));
    }

    /** Get loads is_cancelled_. */
    method CheckBeforeGet(i: nat) returns (stop: bool)
      requires Valid() && i < |futures| && futures[i].FCheck?
      modifies `futures, `log
      ensures Valid() && old(log) <= log && Took(ByFuture(i, GoF))
      ensures stop == cancelled
      ensures futures == old(futures)[i := if stop then FUnlock(old(futures)[i].reusable, false)
                                           else FEmpty(old(futures)[i].reusable)]
    {
      hide Run, Init;
      stop := cancelled;
      futures := futures[i := if stop then FUnlock(futures[i].reusable, false) else FEmpty(futures[i].reusable)];
      Record(old(Snapshot()), ByFuture(i, GoF));
    }

    /** Get looks for a value. */
    method MoveFront(i: nat) returns (element: Option<T>)
      requires Valid() && i < |futures| && futures[i].FEmpty?
      modifies `futures, `log
      ensures Valid() && old(log) <= log && Took(ByFuture(i, GoF))
      ensures element == slot
      ensures futures == old(futures)[i := if element.None? then FUnlock(old(futures)[i].reusable, false)
                                           else FDrop(old(futures)[i].reusable)]
    {
      hide Run, Init;
      element := slot;
      futures := futures[i := if element.None? then FUnlock(futures[i].reusable, false)
                              else FDrop(futures[i].reusable)];
      Record(old(Snapshot()), ByFuture(i, GoF));
    }

    /** Get frees the slot. */
    method DropFront(i: nat)
      requires Valid() && i < |futures| && futures[i].FDrop?
      modifies `slot, `taken, `futures, `log
      ensures Valid() && old(log) <= log && Took(ByFuture(i, GoF))
      ensures slot.None? && taken == old(taken) + if old(slot).Some? then [old(slot).value] else []
      ensures futures == old(futures)[i := FDrain(old(futures)[i].reusable)]
    {
      hide Run, Init;
      if slot.Some? { taken := taken + [slot.value]; }
      slot, futures := None, futures[i := FDrain(futures[i].reusable)];
      Record(old(Snapshot()), ByFuture(i, GoF));
    }

    /** Get resets has_value_. */
    method DrainValue(i: nat)
      requires Valid() && i < |futures| && futures[i].FDrain?
      modifies `hasValue, `futures, `log
      ensures Valid() && old(log) <= log && Took(ByFuture(i, GoF))
      ensures !hasValue
      ensures futures == old(futures)[i := FUnlock(old(futures)[i].reusable, true)]
    {
      hide Run, Init;
      hasValue, futures := false, futures[i := FUnlock(futures[i].reusable, true)];
      Record(old(Snapshot()), ByFuture(i, GoF));
    }

    /** Get releases its lock; a future for one value goes on to detach. */
    method ReadUnlock(i: nat)
      requires Valid() && i < |futures| && futures[i].FUnlock?
      modifies `readLock, `futures, `log
      ensures Valid() && old(log) <= log && Took(ByFuture(i, GoF))
      ensures readLock
      ensures futures == old(futures)[i := if old(futures)[i].done && !old(futures)[i].reusable then FDetach
                                           else FIdle(old(futures)[i].reusable)]
    {
      hide Run, Init;
      readLock := true;
      futures := futures[i := if futures[i].done && !futures[i].reusable then FDetach else FIdle(futures[i].reusable)];
      Record(old(Snapshot()), ByFuture(i, GoF));
    }

    /** Clears the attached flag. */
    method DetachFuture(i: nat)
      requires Valid() && i < |futures| && futures[i].FDetach?
      modifies `futureAttached, `futures, `log
      ensures Valid() && old(log) <= log && Took(ByFuture(i, GoF))
      ensures !futureAttached
      ensures futures == old(futures)[i := FDetached]
    {
      hide Run, Init;
      futureAttached, futures := false, futures[i := FDetached];
      Record(old(Snapshot()), ByFuture(i, GoF));
    }

    /** The owner of a future gives it up. */
    method LeaveFuture(i: nat)
      requires Valid() && i < |futures| && futures[i].FIdle?
      modifies `futures, `log
      ensures Valid() && old(log) <= log && Took(ByFuture(i, DetachF))
      ensures futures == old(futures)[i := FDetach]
    {
      hide Run, Init;
      futures := futures[i := FDetach];
      Record(old(Snapshot()), ByFuture(i, DetachF));
    }

    /** Hands out the future, unless one is attached. */
    method GetFuture(i: nat, reusable: bool) returns (granted: bool)
      requires Valid() && i < |futures| && futures[i].FDetached?
      modifies `futureAttached, `futures, `log
      ensures Valid() && old(log) <= log && Took(ByFuture(i, AttachF(reusable)))
      ensures granted == !old(futureAttached) && futureAttached
      ensures futures == old(futures)[i := if granted then FIdle(reusable) else FDetached]
    {
      hide Run, Init;
      granted := !futureAttached;
      futureAttached, futures := true, futures[i := if granted then FIdle(reusable) else FDetached];
      Record(old(Snapshot()), ByFuture(i, AttachF(reusable)));
    }

    /** Peek loads is_cancelled_. */
    method CheckBeforePeek(i: nat) returns (stop: bool)
      requires Valid() && i < |futures| && futures[i].FIdle?
      modifies `futures, `log
      ensures Valid() && old(log) <= log && Took(ByFuture(i, PromiseProtocol.Peek))
      ensures stop == cancelled
      ensures futures == old(futures)[i := if stop then old(futures)[i] else FPeek(old(futures)[i].reusable)]
    {
      hide Run, Init;
      stop := cancelled;
      futures := futures[i := if stop then futures[i] else FPeek(futures[i].reusable)];
      Record(old(Snapshot()), ByFuture(i, PromiseProtocol.Peek));
    }

    /** Peek reads the value and leaves it. */
    method PeekFront(i: nat) returns (element: Option<T>)
      requires Valid() && i < |futures| && futures[i].FPeek?
      modifies `futures, `log
      ensures Valid() && old(log) <= log && Took(ByFuture(i, GoF))
      ensures element == slot
      ensures futures == old(futures)[i := FIdle(old(futures)[i].reusable)]
    {
      hide Run, Init;
      element := slot;
      futures := futures[i := FIdle(futures[i].reusable)];
      Record(old(Snapshot()), ByFuture(i, GoF));
    }

    /** WaitUntil loads is_cancelled_. */
    method CheckBeforeWait(i: nat) returns (stop: bool)
      requires Valid() && i < |futures| && futures[i].FIdle?
      modifies `futures, `log
      ensures Valid() && old(log) <= log && Took(ByFuture(i, Wait))
      ensures stop == cancelled
      ensures futures == old(futures)[i := if stop then old(futures)[i] else FLook(old(futures)[i].reusable)]
      ensures Trusted(old(Snapshot()), i) ==> Trusted(Snapshot(), i)
    {
      hide Run, Init, Trusted;
      if Trusted(Snapshot(), i) { OwnStepKeepsTrust(Snapshot(), i, Wait); }
      stop := cancelled;
      futures := futures[i := if stop then futures[i] else FLook(futures[i].reusable)];
      Record(old(Snapshot()), ByFuture(i, Wait));
    }

    /** WaitUntil looks for a value. */
    method LookForValue(i: nat) returns (found: bool)
      requires Valid() && i < |futures| && futures[i].FLook?
      modifies `futures, `log
      ensures Valid() && old(log) <= log && Took(ByFuture(i, GoF))
      ensures found == slot.Some? && log[..|log| - 1] == old(log) && log == old(log) + [ByFuture(i, GoF)]
      ensures futures == old(futures)[i := if found then FIdle(old(futures)[i].reusable)
                                           else FWait(old(futures)[i].reusable)]
      ensures Trusted(old(Snapshot()), i) ==> Trusted(Snapshot(), i)
    {
      hide Run, Init, Trusted;
      if Trusted(Snapshot(), i) { OwnStepKeepsTrust(Snapshot(), i, GoF); }
      found := slot.Some?;
      futures := futures[i := if found then FIdle(futures[i].reusable) else FWait(futures[i].reusable)];
      Record(old(Snapshot()), ByFuture(i, GoF));
    }

    /** WaitUntil tries the futex. */
    method TakePost(i: nat) returns (woken: bool)
      requires Valid() && i < |futures| && futures[i].FWait?
      modifies `hasValue, `futures, `log
      ensures Valid() && old(log) <= log && Took(ByFuture(i, GoF))
      ensures woken == old(hasValue) && !hasValue
      ensures futures == old(futures)[i := if woken then FWoken(old(futures)[i].reusable) else old(futures)[i]]
      ensures Trusted(old(Snapshot()), i) ==> Trusted(Snapshot(), i)
    {
      hide Run, Init, Trusted;
      if Trusted(Snapshot(), i) { OwnStepKeepsTrust(Snapshot(), i, GoF); }
      woken := hasValue;
      hasValue, futures := false, futures[i := if woken then FWoken(futures[i].reusable) else futures[i]];
      Record(old(Snapshot()), ByFuture(i, GoF));
    }

    /** The deadline of WaitUntil passes. */
    method WaitGivesUp(i: nat)
      requires Valid() && i < |futures| && futures[i].FWait?
      modifies `futures, `log
      ensures Valid() && old(log) <= log && Took(ByFuture(i, GiveUp))
      ensures futures == old(futures)[i := FIdle(old(futures)[i].reusable)]
      ensures Trusted(old(Snapshot()), i) ==> Trusted(Snapshot(), i)
    {
      hide Run, Init, Trusted;
      if Trusted(Snapshot(), i) { OwnStepKeepsTrust(Snapshot(), i, GiveUp); }
      futures := futures[i := FIdle(futures[i].reusable)];
      Record(old(Snapshot()), ByFuture(i, GiveUp));
    }

    /** WaitUntil loads is_cancelled_ again. */
    method CheckAfterWait(i: nat) returns (stop: bool)
      requires Valid() && i < |futures| && futures[i].FWoken?
      modifies `futures, `log
      ensures Valid() && old(log) <= log && Took(ByFuture(i, GoF))
      ensures stop == cancelled && log[..|log| - 1] == old(log) && log == old(log) + [ByFuture(i, GoF)]
      ensures futures == old(futures)[i := FIdle(old(futures)[i].reusable)]
      ensures Trusted(old(Snapshot()), i) ==> Trusted(Snapshot(), i)
    {
      hide Run, Init, Trusted;
      if Trusted(Snapshot(), i) { OwnStepKeepsTrust(Snapshot(), i, GoF); }
      stop := cancelled;
      futures := futures[i := FIdle(futures[i].reusable)];
      Record(old(Snapshot()), ByFuture(i, GoF));
    }

    /** The try-lock of Cancel. */
    method CancelTryLock(i: nat) returns (free: bool)
      requires Valid() && i < |cancels| && cancels[i].CIdle?
      modifies `cancelLock, `cancels, `log
      ensures Valid() && old(log) <= log && Took(ByCancel(i))
      ensures free == old(cancelLock) && !cancelLock && log[..|log| - 1] == old(log) && log == old(log) + [ByCancel(i)]
      ensures cancels == old(cancels)[i := if free then CStore else CIdle]
    {
      hide Run, Init;
      free := cancelLock;
      cancelLock, cancels := false, cancels[i := if free then CStore else CIdle];
      Record(old(Snapshot()), ByCancel(i));
    }

    /** Cancel sets the flag. */
    method StoreCancelled(i: nat)
      requires Valid() && i < |cancels| && cancels[i].CStore?
      modifies `cancelled, `cancels, `log
      ensures Valid() && old(log) <= log && Took(ByCancel(i))
      ensures cancelled
      ensures cancels == old(cancels)[i := CUnlock]
    {
      hide Run, Init;
      cancelled, cancels := true, cancels[i := CUnlock];
      Record(old(Snapshot()), ByCancel(i));
    }

    /** Cancel releases its lock. */
    method CancelUnlock(i: nat)
      requires Valid() && i < |cancels| && cancels[i].CUnlock?
      modifies `cancelLock, `cancels, `log
      ensures Valid() && old(log) <= log && Took(ByCancel(i))
      ensures cancelLock
      ensures cancels == old(cancels)[i := CPost]
    {
      hide Run, Init;
      cancelLock, cancels := true, cancels[i := CPost];
      Record(old(Snapshot()), ByCancel(i));
    }

    /** Cancel posts has_value_. */
    method PostCancelled(i: nat)
      requires Valid() && i < |cancels| && cancels[i].CPost?
      modifies `hasValue, `cancels, `log
      ensures Valid() && old(log) <= log && Took(ByCancel(i))
      ensures hasValue
      ensures cancels == old(cancels)[i := CIdle]
    {
      hide Run, Init;
      hasValue, cancels := true, cancels[i := CIdle];
      Record(old(Snapshot()), ByCancel(i));
    }

    /** An access by someone else, as far as it is that thread's next one. */
    method Other(e: Event<T>)
      requires Valid()
      modifies this
      ensures Valid() && old(log) <= log && Took(e) && schedule == old(schedule)
    {
      hide Run, Init;
      match e {
        case ByPromise(i, act) => if i < |promises| { OtherPromise(i, act); } else { Record(Snapshot(), e); }
        case ByFuture(i, act) => if i < |futures| { OtherFuture(i, act); } else { Record(Snapshot(), e); }
        case ByCancel(i) => if i < |cancels| { OtherCancel(i); } else { Record(Snapshot(), e); }
      }
    }

    /** An access that is not its thread's next one does nothing. */
    ghost method Skip(e: Event<T>)
      requires Valid() && Step(Snapshot(), e) == Snapshot()
      modifies `log
      ensures Valid() && old(log) <= log && Took(e)
    {
      hide Run, Init, Step;
      Record(Snapshot(), e);
    }

    method OtherPromise(i: nat, act: PromiseAct<T>)
      requires Valid() && i < |promises|
      modifies this
      ensures Valid() && old(log) <= log && Took(ByPromise(i, act)) && schedule == old(schedule)
    {
      hide Run, Init, Step;
      var pc := promises[i];
      if act.AttachP? && pc.PDetached? {
        var _ := GetPromise(i, act.reusable);
      } else if act.Set? && pc.PIdle? {
        var _ := WriteTryLock(i, act.value);
      } else if act.DetachP? && pc.PIdle? {
        LeavePromise(i);
      } else if act.GoP? && !pc.PDetached? && !pc.PIdle? {
        match pc {
          case PCheck(_, _) => var _ := CheckBeforeSet(i);
          case PPrepare(_, _) => var _ := PrepareInsert(i);
          case PInsert(_, _) => FinishInsert(i);
          case PPost(_) => PostValue(i);
          case PUnlock(_, _) => WriteUnlock(i);
          case PDetach => DetachPromise(i);
        }
      } else {
        StutterP(Snapshot(), i, act);
        Skip(ByPromise(i, act));
      }
    }

    method OtherFuture(i: nat, act: FutureAct)
      requires Valid() && i < |futures|
      modifies this
      ensures Valid() && old(log) <= log && Took(ByFuture(i, act)) && schedule == old(schedule)
    {
      hide Run, Init, Step;
      var pc := futures[i];
      if act.AttachF? && pc.FDetached? {
        var _ := GetFuture(i, act.reusable);
      } else if act.Get? && pc.FIdle? {
        var _ := ReadTryLock(i);
      } else if act.Peek? && pc.FIdle? {
        var _ := CheckBeforePeek(i);
      } else if act.Wait? && pc.FIdle? {
        var _ := CheckBeforeWait(i);
      } else if act.GiveUp? && pc.FWait? {
        WaitGivesUp(i);
      } else if act.DetachF? && pc.FIdle? {
        LeaveFuture(i);
      } else if act.GoF? && !pc.FDetached? && !pc.FIdle? {
        OtherFutureGoes(i);
      } else {
        StutterF(Snapshot(), i, act);
        Skip(ByFuture(i, act));
      }
    }

    method OtherFutureGoes(i: nat)
      requires Valid() && i < |futures| && !futures[i].FDetached? && !futures[i].FIdle?
      modifies this
      ensures Valid() && old(log) <= log && Took(ByFuture(i, GoF)) && schedule == old(schedule)
    {
      hide Run, Init, Step;
      match futures[i] {
        case FCheck(_) => var _ := CheckBeforeGet(i);
        case FEmpty(_) => var _ := MoveFront(i);
        case FDrop(_) => DropFront(i);
        case FDrain(_) => DrainValue(i);
        case FUnlock(_, _) => ReadUnlock(i);
        case FDetach => DetachFuture(i);
        case FPeek(_) => var _ := PeekFront(i);
        case FLook(_) => var _ := LookForValue(i);
        case FWait(_) => var _ := TakePost(i);
        case FWoken(_) => var _ := CheckAfterWait(i);
      }
    }

    method OtherCancel(i: nat)
      requires Valid() && i < |cancels|
      modifies this
      ensures Valid() && old(log) <= log && Took(ByCancel(i)) && schedule == old(schedule)
    {
      hide Run, Init, Step;
      match cancels[i] {
        case CIdle => var _ := CancelTryLock(i);
        case CStore => StoreCancelled(i);
        case CUnlock => CancelUnlock(i);
        case CPost => PostCancelled(i);
      }
    }

    /** Lets the others run between two accesses of a call made on behalf of `me`. */
    method Yield(me: Role)
      requires Valid()
      modifies this
      ensures Valid() && old(log) <= log && Kept(old(Snapshot()), Snapshot(), me)
      ensures if old(schedule) == [] then Snapshot() == old(Snapshot()) && schedule == []
              else schedule == old(schedule)[1..] && log == old(log) + Foreign(old(schedule)[0], me)
    {
      hide Run, Init, Step, Inv;
      if schedule == [] { return; }
      var batch := schedule[0];
      schedule := schedule[1..];
      for k := 0 to |batch|
        invariant Valid() && old(log) <= log && schedule == old(schedule)[1..]
        invariant Kept(old(Snapshot()), Snapshot(), me) && log == old(log) + Foreign(batch[..k], me)
      {
        assert batch[..k + 1][..k] == batch[..k];
        if !Mine(me, batch[k]) {
          ghost var p, f := RunsKeepInv(|promises|, |futures|, |cancels|, log);
          OthersKeep(Snapshot(), p, f, me, batch[k]);
          Other(batch[k]);
        }
      }
      assert batch[..|batch|] == batch;
    }

    /** Yield on behalf of an attached promise. */
    method YieldP(me: nat)
      requires Valid() && me < |promises| && AttachedP(promises[me])
      modifies this
      ensures Valid() && old(log) <= log && |promises| == old(|promises|) && promises[me] == old(promises)[me]
      ensures stored == old(stored) && writeLock == old(writeLock) && (old(slot).None? ==> slot.None?)
      ensures old(cancelled) ==> cancelled
    {
      hide Run, Init, Step, Inv;
      Yield(P(me));
    }

    /** Yield on behalf of an attached future. */
    method YieldF(me: nat)
      requires Valid() && me < |futures| && AttachedF(futures[me])
      modifies this
      ensures Valid() && old(log) <= log && |futures| == old(|futures|) && futures[me] == old(futures)[me]
      ensures taken == old(taken) && readLock == old(readLock) && (old(slot).Some? ==> slot == old(slot))
      ensures (old(cancelled) ==> cancelled) && (Trusted(old(Snapshot()), me) ==> Trusted(Snapshot(), me))
      ensures if old(schedule) == [] then schedule == [] && hasValue == old(hasValue)
              else schedule == old(schedule)[1..]
    {
      hide Run, Init, Step, Inv;
      Yield(F(me));
    }

    // ----- The calls ---------------------------------------------------------------------------------------

    /** Stores `value`, unless the context is cancelled or still holds a value. */
    method Set(me: nat, value: T) returns (status: Status)
      requires Valid() && me < |promises| && (promises[me].PDetached? || promises[me].PIdle?)
      modifies this
      ensures Valid() && old(log) <= log && |promises| == old(|promises|)
      ensures status.FailedPrecondition? <==> old(promises)[me].PDetached?
      ensures status.Ok? ==> stored == old(stored) + [value]
      ensures old(promises)[me].PIdle? && !status.Ok? ==> stored == old(stored)
      ensures status.Ok? ==>
                !old(cancelled) && promises[me] == if old(promises)[me].reusable then old(promises)[me] else PDetached
      ensures !status.Ok? ==> promises[me] == old(promises)[me]
      ensures status.Cancelled? ==> cancelled
      ensures old(cancelled) && old(promises)[me].PIdle? ==> status.Cancelled?
      ensures status.ResourceExhausted? ==> old(slot).Some?
      ensures status.Ok? || status.Cancelled? || status.ResourceExhausted? || status.FailedPrecondition?
    {
      hide Run, Init, Step, Inv, Took, Valid, Snapshot;
      if promises[me].PDetached? { return FailedPrecondition; }
      YieldP(me);
      LocksFree(me, true);
      var _ := WriteTryLock(me, value);
      YieldP(me);
      var stop := CheckBeforeSet(me);
      YieldP(me);
      if stop { WriteUnlock(me); return Cancelled; }
      var full := PrepareInsert(me);
      YieldP(me);
      if full { WriteUnlock(me); return ResourceExhausted; }
      FinishInsert(me);
      FinishSet(me);
      return Ok;
    }

    /** The rest of Set once the value is published. */
    method FinishSet(me: nat)
      requires Valid() && me < |promises| && promises[me].PPost?
      modifies this
      ensures Valid() && old(log) <= log && |promises| == old(|promises|) && stored == old(stored)
      ensures promises[me] == if old(promises)[me].reusable then PIdle(true) else PDetached
    {
      hide Run, Init, Step, Inv, Took, Valid, Snapshot;
      YieldP(me);
      PostValue(me);
      YieldP(me);
      WriteUnlock(me);
      if promises[me].PDetach? {
        YieldP(me);
        DetachPromise(me);
      }
    }

    /** The lock of an idle handle is free, so its try-lock succeeds. */
    lemma LocksFree(i: nat, promise: bool)
      requires Valid()
      ensures promise && i < |promises| && promises[i].PIdle? ==> writeLock
      ensures !promise && i < |futures| && futures[i].FIdle? ==> readLock
    {
      TryLocksSucceed(|promises|, |futures|, |cancels|, log, i);
    }

    /** Takes the value, unless the context is cancelled or holds none. */
    method Get(me: nat) returns (result: Result<T>)
      requires Valid() && me < |futures| && (futures[me].FDetached? || futures[me].FIdle?)
      modifies this
      ensures Valid() && old(log) <= log && |futures| == old(|futures|)
      ensures result == Failed(FailedPrecondition) <==> old(futures)[me].FDetached?
      ensures result.Value? ==> taken == old(taken) + [result.value]
      ensures old(futures)[me].FIdle? && result.Failed? ==> taken == old(taken)
      ensures result.Value? ==>
                !old(cancelled) && futures[me] == if old(futures)[me].reusable then old(futures)[me] else FDetached
      ensures result.Failed? ==> futures[me] == old(futures)[me]
      ensures result == Failed(Cancelled) ==> cancelled
      ensures old(cancelled) && old(futures)[me].FIdle? ==> result == Failed(Cancelled)
      ensures result == Failed(Unavailable) ==> old(slot).None?
      ensures result.Failed? ==>
                result.status.Cancelled? || result.status.Unavailable? || result.status.FailedPrecondition?
    {
      hide Run, Init, Step, Inv, Took, Valid, Snapshot;
      if futures[me].FDetached? { return Failed(FailedPrecondition); }
      YieldF(me);
      LocksFree(me, false);
      var _ := ReadTryLock(me);
      YieldF(me);
      var stop := CheckBeforeGet(me);
      YieldF(me);
      if stop { ReadUnlock(me); return Failed(Cancelled); }
      var element := TakeFront(me);
      if element.None? { return Failed(Unavailable); }
      FinishGet(me);
      return Value(element.value);
    }

    /** Moves the value out of the queue, or finds the queue empty and lets go of the lock. */
    method TakeFront(me: nat) returns (element: Option<T>)
      requires Valid() && me < |futures| && futures[me].FEmpty?
      modifies this
      ensures Valid() && old(log) <= log && |futures| == old(|futures|)
      ensures element.None? ==>
                old(slot).None? && taken == old(taken) && futures[me] == FIdle(old(futures)[me].reusable)
      ensures element.Some? ==>
                taken == old(taken) + [element.value] && futures[me] == FDrain(old(futures)[me].reusable)
    {
      hide Run, Init, Step, Inv, Took, Valid, Snapshot;
      element := MoveFront(me);
      YieldF(me);
      if element.None? { ReadUnlock(me); } else { DropFront(me); }
    }

    /** The rest of Get once the value is taken. */
    method FinishGet(me: nat)
      requires Valid() && me < |futures| && futures[me].FDrain?
      modifies this
      ensures Valid() && old(log) <= log && |futures| == old(|futures|) && taken == old(taken)
      ensures futures[me] == if old(futures)[me].reusable then FIdle(true) else FDetached
    {
      hide Run, Init, Step, Inv, Took, Valid, Snapshot;
      YieldF(me);
      DrainValue(me);
      YieldF(me);
      ReadUnlock(me);
      if futures[me].FDetach? {
        YieldF(me);
        DetachFuture(me);
      }
    }

    /** Reads the value and takes nothing. */
    method Peek(me: nat) returns (result: Result<T>)
      requires Valid() && me < |futures| && (futures[me].FDetached? || futures[me].FIdle?)
      modifies this
      ensures Valid() && old(log) <= log && |futures| == old(|futures|) && futures[me] == old(futures)[me]
      ensures result == Failed(FailedPrecondition) <==> old(futures)[me].FDetached?
      ensures old(futures)[me].FIdle? ==> taken == old(taken)
      ensures result.Value? ==> |taken| < |stored| && result.value == stored[|taken|] && slot == Some(result.value)
      ensures result == Failed(Cancelled) ==> cancelled
      ensures result == Failed(Unavailable) ==> old(slot).None? && slot.None?
      ensures old(cancelled) && old(futures)[me].FIdle? ==> result == Failed(Cancelled)
      ensures result.Failed? ==>
                result.status.Cancelled? || result.status.Unavailable? || result.status.FailedPrecondition?
    {
      hide Run, Init, Step, Inv, Took, Valid, Snapshot;
      if futures[me].FDetached? { return Failed(FailedPrecondition); }
      YieldF(me);
      var stop := CheckBeforePeek(me);
      if stop { return Failed(Cancelled); }
      YieldF(me);
      var element := PeekFront(me);
      if element.None? { return Failed(Unavailable); }
      SlotIsNext();
      return Value(element.value);
    }

    lemma SlotIsNext()
      requires Valid()
      ensures slot == if |stored| <= |taken| then None else Some(stored[|taken|])
    {
      ExactlyOnce(|promises|, |futures|, |cancels|, log);
    }

    /**
     Blocks until has_value_ is posted or the others have nothing more to do. OK means that a value is at hand, if the
     call began with no stale post there or about to come.
     */
    method WaitUntil(me: nat) returns (status: Status)
      requires Valid() && me < |futures| && (futures[me].FDetached? || futures[me].FIdle?)
      modifies this
      ensures Valid() && old(log) <= log && |futures| == old(|futures|) && futures[me] == old(futures)[me]
      ensures status.FailedPrecondition? <==> old(futures)[me].FDetached?
      ensures old(futures)[me].FIdle? ==> taken == old(taken)
      ensures status.Ok? && Clean(old(Snapshot())) ==> slot.Some?
      ensures status.Ok? ==> !cancelled || slot.Some?
      ensures status.Cancelled? ==> cancelled
      ensures old(cancelled) && old(futures)[me].FIdle? ==> status.Cancelled?
      ensures status.Ok? ==> old(log) < log && log[|log| - 1] == ByFuture(me, GoF) && AboutToSucceed(Before(), me)
      ensures status.DeadlineExceeded? ==> schedule == [] && !hasValue
      ensures status.DeadlineExceeded? && (slot.Some? || cancelled) ==> PostComing(promises, cancels)
      ensures status.Ok? || status.Cancelled? || status.FailedPrecondition? || status.DeadlineExceeded?
    {
      hide Run, Init, Step, Inv, Took, Valid, Snapshot, Trusted, Clean;
      if futures[me].FDetached? { return FailedPrecondition; }
      TrustedFromStart(me);
      YieldF(me);
      var stop := CheckBeforeWait(me);
      if stop { return Cancelled; }
      YieldF(me);
      Here();
      var found := LookForValue(me);
      if found { return Ok; }
      var woken := Block(me);
      if !woken {
        Unnotified(me);
        WaitGivesUp(me);
        return DeadlineExceeded;
      }
      YieldF(me);
      if Trusted(Snapshot(), me) { Reason(me); }
      Here();
      stop := CheckAfterWait(me);
      return if stop then Cancelled else Ok;
    }

    /** Waits for a post of has_value_, or for as long as the others have something to do. */
    method Block(me: nat) returns (woken: bool)
      requires Valid() && me < |futures| && futures[me].FWait?
      modifies this
      ensures Valid() && old(log) <= log && |futures| == old(|futures|) && taken == old(taken)
      ensures futures[me] == if woken then FWoken(old(futures)[me].reusable) else old(futures)[me]
      ensures !woken ==> schedule == [] && !hasValue
      ensures Trusted(old(Snapshot()), me) ==> Trusted(Snapshot(), me)
    {
      hide Run, Init, Step, Inv, Took, Valid, Snapshot, Trusted, Clean;
      woken := false;
      while !woken && (schedule != [] || hasValue)
        invariant Valid() && old(log) <= log && |futures| == old(|futures|) && taken == old(taken)
        invariant futures[me] == if woken then FWoken(old(futures)[me].reusable) else old(futures)[me]
        invariant Trusted(old(Snapshot()), me) ==> Trusted(Snapshot(), me)
        decreases |schedule|, !woken
      {
        YieldF(me);
        woken := TakePost(me);
      }
    }

    /** A clean state is one in which an idle future can trust its next WaitUntil. */
    lemma TrustedFromStart(i: nat)
      requires i < |futures| && futures[i].FIdle?
      ensures Clean(Snapshot()) == Trusted(Snapshot(), i)
    {
    }

    /** Being woken in such a call is for a value or a cancellation. */
    lemma Reason(i: nat)
      requires Trusted(Snapshot(), i) && futures[i].FWoken?
      ensures slot.Some? || cancelled
    {
    }

    lemma Unnotified(i: nat)
      requires Valid() && i < |futures|
      ensures futures[i].FWait? && (slot.Some? || cancelled) ==> hasValue || PostComing(promises, cancels)
    {
      NoMissedNotification(|promises|, |futures|, |cancels|, log, i);
    }

    /** Cancels the context; refused exactly if the try-lock finds that another Cancel holds the lock. */
    method Cancel(me: nat) returns (status: Status)
      requires Valid() && me < |cancels| && cancels[me].CIdle?
      modifies this
      ensures Valid() && old(log) < log && |cancels| == old(|cancels|) && cancels[me].CIdle?
      ensures status.Ok? || status.ResourceExhausted?
      ensures status.Ok? ==> cancelled && hasValue
      ensures status.ResourceExhausted? ==> log[|log| - 1] == ByCancel(me) && AtCancelLock(Before(), me, false)
      ensures old(schedule) == [] ==> status.Ok? == old(cancelLock)
      ensures old(cancelled) ==> cancelled
    {
      hide Run, Init, Step, Inv, Took, Valid, Snapshot;
      YieldC(me);
      Here();
      var free := CancelTryLock(me);
      if !free { return ResourceExhausted; }
      YieldC(me);
      StoreCancelled(me);
      YieldC(me);
      CancelUnlock(me);
      YieldC(me);
      PostCancelled(me);
      return Ok;
    }

    /** The fields are those of the run so far. */
    lemma Here()
      requires Valid()
      ensures var s := Run<T>(Init(|promises|, |futures|, |cancels|), log);
              && s.shared.cancelLock == cancelLock && s.shared.cancelled == cancelled && s.shared.slot == slot
              && s.futures == futures && s.cancels == cancels
    {
    }

    method YieldC(me: nat)
      requires Valid() && me < |cancels|
      modifies this
      ensures Valid() && old(log) <= log && |cancels| == old(|cancels|) && cancels[me] == old(cancels)[me]
      ensures old(cancelled) ==> cancelled
      ensures old(schedule) == [] ==> schedule == [] && cancelLock == old(cancelLock)
    {
      hide Run, Init, Step, Inv;
      Yield(C(me));
    }
  }
}
