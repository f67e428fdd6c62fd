/**
 LockableBinaryFutex (icon/interprocess/lockable_binary_futex.h): a futex that starts posted and is never closed.
 Locking is waiting for its token; unlocking tests that the lock is held and posts.
 */
module LockProtocol {
  import F = FutexProtocol

  /** The threads between Lock and Unlock, and those between the test and the post of Unlock. */
  datatype State = State(futex: F.State, holders: set<nat>, releasing: set<nat>, refused: bool)

  datatype Event =
    | Acquire(e: F.Event)         // an access of Lock or TryLock
    | Test(t: nat)                // Unlock loads the word
    | Release(t: nat)             // Unlock posts
    | Wake(t: nat, w: nat)

  predicate Waiting(e: F.Event) {
    e.CallWait? || e.TryTake? || e.Sleep? || e.Interrupt? || e.Expire? || e.SyscallError? || e.TryWait?
  }

  function Init(threads: nat): State {
    State(F.Init(threads, true), {}, {}, false)
  }

  /** A caller of Unlock holds the lock; an Unlock that finds it free is refused and does nothing. */
  function Step(s: State, e: Event): State {
    match e
    case Acquire(f) =>
      if !Waiting(f) then s
      else
        var futex := F.Step(s.futex, f);
        s.(futex := futex, holders := if futex.takes > s.futex.takes then s.holders + {f.t} else s.holders)
    case Test(t) =>
      if t !in s.holders then s
      else if s.futex.word == F.Ready then s.(holders := s.holders - {t}, releasing := s.releasing + {t})
      else s.(refused := true)
    case Release(t) =>
      if t !in s.releasing || !F.At(s.futex, t, F.Idle) then s
      else s.(futex := F.Step(s.futex, F.Post(t)), releasing := s.releasing - {t})
    case Wake(t, w) => s.(futex := F.Step(s.futex, F.WakeOne(t, w)))
  }

  ghost function Run(s: State, es: seq<Event>): State {
    if es == [] then s else Step(Run(s, es[..|es| - 1]), es[|es| - 1])
  }

  /** The token is in the word, or with exactly one thread. */
  ghost predicate Inv(s: State) {
    && !s.refused && s.futex.word != F.Closed && s.holders !! s.releasing
    && (s.futex.word == F.Posted ==> s.holders == {} && s.releasing == {})
    && (s.futex.word == F.Ready ==> exists t :: s.holders + s.releasing == {t})
  }

  lemma AcquireKeepsInv(s: State, f: F.Event)
    requires Inv(s) && Waiting(f)
    ensures Inv(Step(s, Acquire(f)))
  {
    hide F.Step;
    F.RefinesToken(s.futex, f);
    if s.futex.word == F.Posted {
      assert s.holders + {f.t} + s.releasing == {f.t};
    }
  }

  lemma StepKeepsInv(s: State, e: Event)
    requires Inv(s)
    ensures Inv(Step(s, e))
  {
    match e {
      case Acquire(f) => if Waiting(f) { AcquireKeepsInv(s, f); }
      case Test(t) =>
        if t in s.holders { assert Step(s, e).holders + Step(s, e).releasing == s.holders + s.releasing; }
      case Release(t) =>
        F.RefinesToken(s.futex, F.Post(t));
        if t in s.releasing {
          var u :| s.holders + s.releasing == {u};
          assert t in s.holders + s.releasing;
        }
      case Wake(t, w) => F.RefinesToken(s.futex, F.WakeOne(t, w));
    }
  }

  lemma {:induction false} RunsKeepInv(threads: nat, es: seq<Event>)
    ensures Inv(Run(Init(threads), es))
  {
    if es != [] {
      hide Inv, Step;
      RunsKeepInv(threads, es[..|es| - 1]);
      StepKeepsInv(Run(Init(threads), es[..|es| - 1]), es[|es| - 1]);
    }
  }

  /**
   In every run at most one thread is between Lock and the post of its Unlock, the lock is free exactly if there is
   none, and no Unlock of a holder is refused.
   */
  lemma AtMostOneHolder(threads: nat, es: seq<Event>)
    ensures var s := Run(Init(threads), es);
            && (forall t, u :: t in s.holders + s.releasing && u in s.holders + s.releasing ==> t == u)
            && (s.futex.word == F.Posted <==> s.holders + s.releasing == {}) && !s.refused
  {
    RunsKeepInv(threads, es);
  }

  lemma RunTwo(s: State, e1: Event, e2: Event)
    ensures Run(s, [e1, e2]) == Step(Step(s, e1), e2)
  {
    hide Step;
    assert [e1, e2][..1] == [e1] && [e1][..0] == [];
    assert Run(s, [e1]) == Step(Run(s, []), e1);
  }

  /** A thread gets a free lock by its own two accesses, and then is the one that holds it. */
  lemma FreeLockIsTaken(threads: nat, es: seq<Event>, t: nat)
    requires var s := Run(Init(threads), es); s.holders + s.releasing == {} && F.At(s.futex, t, F.Idle)
    ensures var s' := Run(Run(Init(threads), es), [Acquire(F.CallWait(t)), Acquire(F.TryTake(t))]);
            s'.holders == {t} && s'.futex.word == F.Ready && F.At(s'.futex, t, F.Idle)
  {
    RunsKeepInv(threads, es);
    hide Run;
    RunTwo(Run(Init(threads), es), Acquire(F.CallWait(t)), Acquire(F.TryTake(t)));
  }

  /** The holder frees it by its own two, and is about to wake a waiter. */
  lemma HeldLockIsFreed(threads: nat, es: seq<Event>, t: nat)
    requires var s := Run(Init(threads), es); t in s.holders && F.At(s.futex, t, F.Idle)
    ensures var s' := Run(Run(Init(threads), es), [Test(t), Release(t)]);
            s'.holders + s'.releasing == {} && s'.futex.word == F.Posted && F.At(s'.futex, t, F.PostWake)
  {
    RunsKeepInv(threads, es);
    hide Run;
    var s := Run(Init(threads), es);
    var u :| s.holders + s.releasing == {u};
    assert t in s.holders + s.releasing;
    RunTwo(s, Test(t), Release(t));
  }

  /** The access to the futex that an event makes, if any. */
  function Access(s: State, e: Event): seq<F.Event> {
    match e
    case Acquire(f) => if Waiting(f) then [f] else []
    case Test(_) => []
    case Release(t) => if t in s.releasing && F.At(s.futex, t, F.Idle) then [F.Post(t)] else []
    case Wake(t, w) => [F.WakeOne(t, w)]
  }

  ghost function Accesses(s: State, es: seq<Event>): seq<F.Event> {
    if es == [] then []
    else Accesses(s, es[..|es| - 1]) + Access(Run(s, es[..|es| - 1]), es[|es| - 1])
  }

  lemma StepOfTheFutex(s: State, e: Event, init: F.State, fs: seq<F.Event>)
    requires s.futex == F.Run(init, fs)
    ensures Step(s, e).futex == F.Run(init, fs + Access(s, e))
  {
    hide F.Step;
    var more := Access(s, e);
    if more == [] {
      assert fs + more == fs;
    } else {
      assert (fs + more)[..|fs|] == fs;
    }
  }

  lemma {:induction false} FutexOfTheRun(threads: nat, es: seq<Event>)
    ensures Run(Init(threads), es).futex == F.Run(F.Init(threads, true), Accesses(Init(threads), es))
  {
    if es != [] {
      hide Step, Access, F.Run;
      var earlier := es[..|es| - 1];
      FutexOfTheRun(threads, earlier);
      var fs := Accesses(Init(threads), earlier);
      StepOfTheFutex(Run(Init(threads), earlier), es[|es| - 1], F.Init(threads, true), fs);
    } else {
      assert F.Run(F.Init(threads, true), []) == F.Init(threads, true);
    }
  }

  /** Every run of the lock is one of its futex, so that nobody is left asleep while the lock is free. */
  lemma RunsOfTheFutex(threads: nat, es: seq<Event>)
    ensures Run(Init(threads), es).futex == F.Run(F.Init(threads, true), Accesses(Init(threads), es))
    ensures F.NoLostPost(Run(Init(threads), es).futex)
  {
    hide Run, Accesses, F.Run, F.NoLostPost;
    FutexOfTheRun(threads, es);
    F.NoLostWakeup(threads, true, Accesses(Init(threads), es));
  }
}
