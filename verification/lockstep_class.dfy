/**
 The classes of util/thread/lockstep.cc and icon/hal/realtime_clock.cc. Each method makes the atomic
 accesses of its C++ counterpart in order and lets the scheduled steps of other threads run in between.
 */
module LockstepClass {
  import opened LockstepProtocol
  import LockstepTokens
  import LockstepCancel

  datatype Status = Ok | Aborted | DeadlineExceeded | FailedPrecondition

  function Waiting(op: Op): Pc { if op.A? then StartAWait else StartBWait }
  function Swapping(op: Op): Pc { if op.A? then StartASwap else StartBSwap }
  function Reposting(op: Op): Pc { if op.A? then StartARepost else StartBRepost }
  function Running(op: Op): Pc { if op.A? then InA else InB }
  function SwapOf(op: Op, t: nat): Event { if op.A? then SwapA(t) else SwapB(t) }
  function Before(op: Op): Word { if op.A? then BFinished else AFinished }

  /** The other operation, and the end of a wait. */
  function Opposite(op: Op): Op { if op.A? then B else A }
  function TimeoutOf(op: Op, t: nat): Event { if op.A? then TimeoutA(t) else TimeoutB(t) }

  /** The compare-exchange of a start, spelt out. */
  lemma SwapStep(s: State, op: Op, t: nat)
    requires At(s, t, Swapping(op))
    ensures Step(s, SwapOf(op, t)) ==
            if s.word == Before(op)
            then s.(word := if op.A? then ARunning else BRunning, started := s.started + [op],
                    pcs := s.pcs[t := Running(op)])
            else if s.word == Cancelled then s.(pcs := s.pcs[t := Reposting(op)])
            else s.(refused := true, pcs := s.pcs[t := Idle])
  {
  }

  /** Among the accesses since `from`, the word went from ARunning to Cancelled between the two loads of `me`. */
  ghost predicate CancelledBetween(threads: nat, log: seq<Event>, from: nat, me: nat) {
    exists j: nat, k: nat :: from <= j < k && Loads(threads, log, j, ARunning, LoadEndA(me))
                             && Loads(threads, log, k, Cancelled, ReloadEndA(me))
  }

  /** The access numbered `k` is `e`, and finds the word as given. */
  ghost predicate Loads(threads: nat, log: seq<Event>, k: nat, word: Word, e: Event) {
    k < |log| && log[k] == e && Run(Init(threads), log[..k]).word == word
  }

  /** In a disciplined run the holder of an operation finds its own word, or a cancellation. */
  lemma WordOfHolder(threads: nat, earlier: seq<Event>, log: seq<Event>, me: nat)
    requires earlier <= log && Disciplined(Init(threads), log) && me < |Run(Init(threads), earlier).pcs|
    ensures var s := Run(Init(threads), earlier);
            && (ActiveA(s.pcs[me]) ==> s.word == ARunning || s.word == Cancelled)
            && (s.pcs[me].InB? ==> s.word == BRunning || s.word == Cancelled)
  {
    DisciplinedBefore(Init(threads), earlier, log);
    DisciplinedRunsKeepInv(Init(threads), earlier);
    hide Run, Init, Disciplined;
    var s := Run(Init(threads), earlier);
    assert ThreadOk(s, s.pcs[me]);
  }

  // ----- The accesses of one EndOperation ----------------------------------------------------------------

  /** The loads and the positions of an EndOperationA, by a thread that runs operation A or by another one. */
  function FirstLoad(own: bool, t: nat): Event { if own then LoadEndA(t) else StrayLoadA(t) }
  function SecondLoad(own: bool, t: nat): Event { if own then ReloadEndA(t) else StrayReloadA(t) }
  function Ending(own: bool): Pc { if own then InA else Idle }
  function Reloading(own: bool): Pc { if own then EndALoad else StrayLoad }
  function Storing(own: bool): Pc { if own then EndAStore else StrayStore }

  function SwapToEndB(own: bool, t: nat): Event { if own then SwapEndB(t) else StraySwapB(t) }

  /** The accesses of the two EndOperations, spelt out. */
  lemma FirstLoadStep(s: State, own: bool, t: nat)
    requires At(s, t, Ending(own))
    ensures Step(s, FirstLoad(own, t)) == s.(pcs := s.pcs[t := if s.word == Cancelled then Idle else Reloading(own)])
  {
  }

  lemma StoreStep(s: State, own: bool, t: nat)
    requires At(s, t, Storing(own))
    ensures Step(s, if own then StoreEndA(t) else StrayStoreA(t)) ==
            s.(word := AFinished, pcs := s.pcs[t := EndAPost])
  {
  }

  lemma SecondLoadStep(s: State, own: bool, t: nat)
    requires At(s, t, Reloading(own))
    ensures Step(s, SecondLoad(own, t)) ==
            s.(pcs := s.pcs[t := if s.word == ARunning then Storing(own) else Idle],
               refused := s.refused || (own && s.word != ARunning))
  {
  }

  lemma SwapToEndBStep(s: State, own: bool, t: nat)
    requires At(s, t, if own then InB else Idle)
    ensures Step(s, SwapToEndB(own, t)) ==
            if s.word == BRunning then s.(word := BFinished, pcs := s.pcs[t := EndBPost])
            else s.(pcs := s.pcs[t := Idle], refused := s.refused || (own && s.word != Cancelled))
  {
  }

  /** Among the accesses since `from` there is an `e` that finds the word as given. */
  ghost predicate Finds(threads: nat, log: seq<Event>, from: nat, e: Event, word: Word) {
    exists k: nat :: from <= k && Loads(threads, log, k, word, e)
  }

  /** None of the accesses since `from` is by `me`. */
  ghost predicate Others(log: seq<Event>, from: nat, me: nat) {
    forall k :: from <= k < |log| ==> log[k].t != me
  }

  /** The loads of an EndOperationA by `me` since `from` are the accesses `i` and, unless it is the end, `j`. */
  ghost predicate LoadsAt(log: seq<Event>, from: nat, i: nat, j: nat, me: nat, own: bool) {
    && from <= i < j <= |log| && log[i] == FirstLoad(own, me) && (j < |log| ==> log[j] == SecondLoad(own, me))
    && (forall k :: from <= k < |log| && k != i ==> log[k] != FirstLoad(own, me))
    && (forall k :: from <= k < |log| && k != j ==> log[k] != SecondLoad(own, me))
  }

  /** What `me` does since `from` belongs to the end of an EndOperationA. */
  ghost predicate NoMoreLoads(log: seq<Event>, from: nat, me: nat) {
    forall k :: from <= k < |log| && log[k].t == me ==> log[k].StoreEndA? || log[k].StrayStoreA? || log[k].PostEndA?
  }

  lemma LoadsBegin(before: seq<Event>, from: nat, me: nat, own: bool)
    requires from <= |before| && Others(before, from, me)
    ensures LoadsAt(before + [FirstLoad(own, me)], from, |before|, |before| + 1, me, own)
  {
  }

  lemma LoadsPause(before: seq<Event>, log: seq<Event>, from: nat, i: nat, me: nat, own: bool)
    requires LoadsAt(before, from, i, |before|, me, own) && before <= log && Others(log, |before|, me)
    ensures LoadsAt(log, from, i, |log|, me, own)
  {
    assert forall k :: 0 <= k < |before| ==> log[k] == before[k];
  }

  lemma LoadsAgain(before: seq<Event>, from: nat, i: nat, me: nat, own: bool)
    requires LoadsAt(before, from, i, |before|, me, own)
    ensures LoadsAt(before + [SecondLoad(own, me)], from, i, |before|, me, own)
  {
  }

  lemma LoadsOver(before: seq<Event>, log: seq<Event>, from: nat, i: nat, j: nat, me: nat, own: bool)
    requires LoadsAt(before, from, i, j, me, own) && j < |before| && before <= log && NoMoreLoads(log, |before|, me)
    ensures LoadsAt(log, from, i, j, me, own)
  {
    assert forall k :: 0 <= k < |before| ==> log[k] == before[k];
  }

  /** With the loads known, what is found is what they found. */
  lemma WhatIsFound(threads: nat, log: seq<Event>, from: nat, i: nat, j: nat, me: nat, own: bool)
    requires LoadsAt(log, from, i, j, me, own)
    ensures forall w :: Finds(threads, log, from, FirstLoad(own, me), w) <==> Run(Init(threads), log[..i]).word == w
    ensures forall w :: Finds(threads, log, from, SecondLoad(own, me), w) <==>
                        j < |log| && Run(Init(threads), log[..j]).word == w
  {
    hide Run, Init;
    forall w ensures Finds(threads, log, from, FirstLoad(own, me), w) <==> Run(Init(threads), log[..i]).word == w {
      if Run(Init(threads), log[..i]).word == w { assert Loads(threads, log, i, w, FirstLoad(own, me)); }
    }
    forall w ensures Finds(threads, log, from, SecondLoad(own, me), w) <==>
                     j < |log| && Run(Init(threads), log[..j]).word == w
    {
      if j < |log| && Run(Init(threads), log[..j]).word == w {
        assert Loads(threads, log, j, w, SecondLoad(own, me));
      }
    }
  }

  lemma BetweenLoads(threads: nat, log: seq<Event>, from: nat, i: nat, j: nat, me: nat)
    requires LoadsAt(log, from, i, j, me, true)
    ensures CancelledBetween(threads, log, from, me) <==>
            && j < |log| && Run(Init(threads), log[..i]).word == ARunning
            && Run(Init(threads), log[..j]).word == Cancelled
  {
    hide Run, Init;
    if j < |log| && Run(Init(threads), log[..i]).word == ARunning && Run(Init(threads), log[..j]).word == Cancelled {
      assert Loads(threads, log, i, ARunning, LoadEndA(me)) && Loads(threads, log, j, Cancelled, ReloadEndA(me));
    }
  }

  /** In a disciplined run an EndOperation without its Start does not find the operation running. */
  lemma NoStrike(threads: nat, log: seq<Event>, k: nat)
    requires Disciplined(Init(threads), log) && k < |log|
    ensures !Strikes(Run(Init(threads), log[..k]), log[k])
  {
    hide Run, Init, Strikes;
    DisciplinedBefore(Init(threads), log[..k + 1], log);
    assert log[..k + 1][..k] == log[..k];
  }

  /**
   What an EndOperationA returns in a disciplined run: with its Start FailedPrecondition exactly if a Cancel came
   between its loads, without it OK exactly if the first load found a cancellation.
   */
  lemma DisciplinedEndA(threads: nat, log: seq<Event>, from: nat, i: nat, j: nat, me: nat, own: bool)
    requires Disciplined(Init(threads), log) && LoadsAt(log, from, i, j, me, own)
    requires At(Run(Init(threads), log[..i]), me, Ending(own))
    requires j < |log| ==> At(Run(Init(threads), log[..j]), me, Reloading(own))
    requires j == |log| ==> Run(Init(threads), log[..i]).word == Cancelled
    requires j < |log| ==> Run(Init(threads), log[..i]).word != Cancelled
    ensures var ok := j == |log| || Run(Init(threads), log[..j]).word == ARunning;
            if own then !ok <==> CancelledBetween(threads, log, from, me)
            else ok <==> Finds(threads, log, from, StrayLoadA(me), Cancelled)
  {
    hide Run, Init, Disciplined, Finds, CancelledBetween;
    WhatIsFound(threads, log, from, i, j, me, own);
    if own {
      BetweenLoads(threads, log, from, i, j, me);
      WordOfHolder(threads, log[..i], log, me);
      if j < |log| { WordOfHolder(threads, log[..j], log, me); }
    } else if j < |log| {
      NoStrike(threads, log, j);
    }
  }

  /** None of the accesses since `from` is `e`. */
  ghost predicate Never(log: seq<Event>, from: nat, e: Event) {
    forall k :: from <= k < |log| ==> log[k] != e
  }

  /** The last access is `e`, made when the futex of `op` was empty. */
  ghost predicate EndsEmpty(threads: nat, log: seq<Event>, e: Event, op: Op) {
    && log != [] && log[|log| - 1] == e
    && (var s := Run(Init(threads), log[..|log| - 1]); if op.A? then !s.bPosted else !s.aPosted)
  }

  /** `me` publishes nothing since `from`. */
  ghost predicate Silent(log: seq<Event>, from: nat, me: nat) {
    forall k :: from <= k < |log| && log[k].t == me ==> !log[k].Publish?
  }

  function Less(n: nat, m: nat): nat { if m <= n then n - m else 0 }

  lemma SilentOn(before: seq<Event>, log: seq<Event>, from: nat, me: nat)
    requires from <= |before| && before <= log && Silent(before, from, me) && Silent(log, |before|, me)
    ensures Silent(log, from, me)
  {
    assert forall k :: 0 <= k < |before| ==> log[k] == before[k];
  }

  /** What `me` does since `from` belongs to an EndOperationA. */
  predicate OfEndA(e: Event) {
    || e.LoadEndA? || e.ReloadEndA? || e.StoreEndA? || e.PostEndA? || e.StrayLoadA? || e.StrayReloadA? || e.StrayStoreA?
  }

  ghost predicate OnlyEndsA(log: seq<Event>, from: nat, me: nat) {
    forall k :: from <= k < |log| && log[k].t == me ==> OfEndA(log[k])
  }

  lemma OnlyEndsAOn(before: seq<Event>, log: seq<Event>, from: nat, me: nat)
    requires from <= |before| && before <= log && OnlyEndsA(before, from, me) && OnlyEndsA(log, |before|, me)
    ensures OnlyEndsA(log, from, me)
  {
    assert forall k :: 0 <= k < |before| ==> log[k] == before[k];
  }

  lemma OnlyFirst(before: seq<Event>, from: nat, me: nat, own: bool)
    requires from <= |before| && Others(before, from, me)
    ensures OnlyEndsA(before + [FirstLoad(own, me)], from, me)
  {
  }

  lemma EnteredSilently(before: seq<Event>, log: seq<Event>, me: nat)
    requires |before| < |log| && !log[|before|].Publish? && Others(log, |before| + 1, me)
    ensures Silent(log, |before|, me)
  {
  }

  lemma NeverFound(threads: nat, log: seq<Event>, from: nat, e: Event)
    requires Never(log, from, e)
    ensures forall w :: !Finds(threads, log, from, e, w)
  {
    hide Run, Init;
  }

  /** The compare-exchange `e` by `me` since `from` is the access `k`. */
  ghost predicate SwapAt(log: seq<Event>, from: nat, k: nat, e: Event) {
    from <= k < |log| && log[k] == e && forall j :: from <= j < |log| && j != k ==> log[j] != e
  }

  lemma SwapAlone(before: seq<Event>, log: seq<Event>, from: nat, me: nat, own: bool)
    requires from <= |before| && Others(before, from, me) && before + [SwapToEndB(own, me)] <= log
    requires forall j :: |before| < j < |log| && log[j].t == me ==> log[j].PostEndB?
    ensures SwapAt(log, from, |before|, SwapToEndB(own, me)) && log[..|before|] == before
  {
    var swapped := before + [SwapToEndB(own, me)];
    assert forall j :: 0 <= j < |swapped| ==> log[j] == swapped[j];
  }

  /** With that known, what is found is what it found. */
  lemma SwapFound(threads: nat, log: seq<Event>, from: nat, k: nat, e: Event)
    requires SwapAt(log, from, k, e)
    ensures forall w :: Finds(threads, log, from, e, w) <==> Run(Init(threads), log[..k]).word == w
  {
    hide Run, Init;
    forall w ensures Finds(threads, log, from, e, w) <==> Run(Init(threads), log[..k]).word == w {
      if Run(Init(threads), log[..k]).word == w { assert Loads(threads, log, k, w, e); }
    }
  }

  /** What is found by a call that makes its one compare-exchange `e` after `before`. */
  lemma SwapLast(threads: nat, before: seq<Event>, log: seq<Event>, from: nat, e: Event)
    requires from <= |before| && Never(before, from, e) && before + [e] <= log && Never(log, |before| + 1, e)
    ensures forall w :: Finds(threads, log, from, e, w) <==> Run(Init(threads), before).word == w
    ensures !Never(log, from, e)
  {
    hide Run, Init, Finds;
    var swapped := before + [e];
    assert forall j :: 0 <= j < |swapped| ==> log[j] == swapped[j];
    assert log[..|before|] == before;
    SwapFound(threads, log, from, |before|, e);
  }

  /** What an EndOperationB finds in a disciplined run: with its Start what it expects, without it never. */
  lemma DisciplinedEndB(threads: nat, log: seq<Event>, from: nat, k: nat, me: nat, own: bool)
    requires Disciplined(Init(threads), log) && SwapAt(log, from, k, SwapToEndB(own, me))
    requires At(Run(Init(threads), log[..k]), me, if own then InB else Idle)
    ensures var word := Run(Init(threads), log[..k]).word;
            if own then word == BRunning || word == Cancelled else word != BRunning
  {
    hide Run, Init, Disciplined;
    if own { WordOfHolder(threads, log[..k], log, me); } else { NoStrike(threads, log, k); }
  }

  /** Among the accesses since `from`, `me` has stored BFinished with no operation started since. */
  ghost predicate MadeFresh(threads: nat, log: seq<Event>, from: nat, me: nat) {
    exists k {:trigger log[k]} :: from <= k < |log| && log[k] == StoreReset(me)
                 && (var s := Run(Init(threads), log[..k + 1]); s.word == BFinished && s.started == [])
  }

  lemma FreshEarlier(threads: nat, log: seq<Event>, from: nat, later: nat, me: nat)
    requires from <= later && MadeFresh(threads, log, later, me)
    ensures MadeFresh(threads, log, from, me)
  {
    hide Run, Init;
  }

  /** A cancellation stands in `s`, and no Reset stores in `es`. */
  ghost predicate StillCancelled(s: State, es: seq<Event>) {
    LockstepCancel.Stands(s, s.started) && ResetFree(es)
  }

  lemma NotWhileCancelled(threads: nat, earlier: seq<Event>, before: seq<Event>, e: Event)
    requires earlier <= before && Run(Init(threads), before).word != Cancelled
    ensures !StillCancelled(Run(Init(threads), earlier), (before + [e])[|earlier|..])
  {
    var s := Run(Init(threads), earlier);
    RunOnwards(Init(threads), earlier, before);
    hide Run, Init;
    if StillCancelled(s, (before + [e])[|earlier|..]) {
      assert (before + [e])[|earlier|..] == before[|earlier|..] + [e];
      LockstepCancel.RunKeepsStanding(s, before[|earlier|..], s.started);
    }
  }

  /** The accesses of the others in a batch. */
  function Foreign(batch: seq<Event>, me: nat): seq<Event> {
    if batch == [] then []
    else
      var e := batch[|batch| - 1];
      Foreign(batch[..|batch| - 1], me) + if e.t != me then [e] else []
  }

  class Lockstep {
    const threads: nat
    var word: Word
    var aFinished: bool
    var bFinished: bool
    /** The shared segment the clock publishes its timestamp in. */
    var stamp: int
    var pcs: seq<Pc>
    var started: seq<Op>
    var refused: bool
    /** What the other threads will do, one batch between two accesses of the caller. */
    var schedule: seq<seq<Event>>
    /** Every access so far, by anyone, in order. */
    ghost var log: seq<Event>

    function Snapshot(): State
      reads this
    {
      State(word, aFinished, bFinished, pcs, started, refused, stamp)
    }

    /** The fields are what the protocol makes of the accesses logged so far. */
    ghost predicate Valid()
      reads this
    {
      |pcs| == threads && Snapshot() == Run(Init(threads), log)
    }

    constructor (threads: nat, schedule: seq<seq<Event>>)
      ensures Valid() && log == [] && Snapshot() == Init(threads) && this.schedule == schedule
    {
      this.threads := threads;
      word, aFinished, bFinished, stamp := BFinished, false, true, 0;
      pcs, started, refused := seq(threads, _ => Idle), [], false;
      this.schedule := schedule;
      log := [];
    }

    /** Logs the access `e` that has just turned `before` into the current fields. */
    ghost method Record(before: State, e: Event)
      requires before == Run(Init(threads), log) && |pcs| == threads
      requires Snapshot() == Step(before, e)
      modifies this`log
      ensures Valid() && log == old(log) + [e] && log[..|log| - 1] == old(log)
    {
      log := log + [e];
      RunPlus(Init(threads), old(log), e);
      assert log[..|log| - 1] == old(log);
    }

    method Other(e: Event)
      requires Valid()
      modifies this
      ensures Valid() && Snapshot() == Step(old(Snapshot()), e)
      ensures log == old(log) + [e] && schedule == old(schedule)
    {
      hide Run;
      var s := Step(Snapshot(), e);
      word, aFinished, bFinished, pcs := s.word, s.aPosted, s.bPosted, s.pcs;
      started, refused, stamp := s.started, s.refused, s.stamp;
      Record(old(Snapshot()), e);
    }

    /** Lets the other threads run; nobody but `me` moves `me`. */
    method Yield(me: nat)
      requires Valid() && me < threads
      modifies this
      ensures Valid() && old(log) <= log && pcs[me] == old(pcs[me]) && Others(log, |old(log)|, me)
      ensures if old(schedule) == [] then Snapshot() == old(Snapshot()) && schedule == []
              else schedule == old(schedule)[1..]
      ensures old(schedule) == [] ==> word == old(word) && aFinished == old(aFinished) && bFinished == old(bFinished)
      ensures old(schedule) != [] ==> log == old(log) + Foreign(old(schedule)[0], me)
    {
      hide Run;
      if schedule == [] { return; }
      var batch := schedule[0];
      schedule := schedule[1..];
      for i := 0 to |batch|
        invariant Valid() && old(log) <= log && pcs[me] == old(pcs[me]) && schedule == old(schedule)[1..]
        invariant Others(log, |old(log)|, me) && log == old(log) + Foreign(batch[..i], me)
      {
        assert batch[..i + 1][..i] == batch[..i];
        if batch[i].t != me { Other(batch[i]); }
      }
      assert batch[..|batch|] == batch;
    }

    /** An access that changes no shared field but moves the caller on. */
    method Pass(me: nat, pc: Pc, ghost e: Event)
      requires Valid() && me < threads && Step(Snapshot(), e) == Snapshot().(pcs := pcs[me := pc])
      modifies this
      ensures Valid() && log == old(log) + [e] && log[..|log| - 1] == old(log) && schedule == old(schedule)
      ensures Snapshot() == old(Snapshot()).(pcs := old(pcs)[me := pc])
    {
      hide Run;
      pcs := pcs[me := pc];
      Record(old(Snapshot()), e);
    }

    predicate Posted(op: Op)
      reads this
    {
      if op.A? then bFinished else aFinished
    }

    method TakeToken(op: Op, me: nat)
      requires Valid() && me < threads && pcs[me] == Waiting(op) && Posted(op)
      modifies this
      ensures Valid() && log == old(log) + [if op.A? then TakeB(me) else TakeA(me)]
      ensures schedule == old(schedule) && pcs[me] == Swapping(op) && word == old(word)
      ensures !Posted(op) && Posted(Opposite(op)) == old(Posted(Opposite(op)))
    {
      hide Run;
      ghost var before := Snapshot();
      pcs := pcs[me := Swapping(op)];
      if op.A? {
        bFinished := false;
        Record(before, TakeB(me));
      } else {
        aFinished := false;
        Record(before, TakeA(me));
      }
    }

    /** One try at the futex the operation starts from. */
    method TakeOrLeave(op: Op, me: nat, giveUp: bool) returns (taken: bool)
      requires Valid() && me < threads && pcs[me] == Waiting(op)
      modifies this
      ensures Valid() && old(log) <= log && taken == old(Posted(op)) && schedule == old(schedule) && word == old(word)
      ensures pcs[me] == if taken then Swapping(op) else if giveUp then Idle else Waiting(op)
      ensures !Posted(op) && Posted(Opposite(op)) == old(Posted(Opposite(op)))
      ensures !taken && !giveUp ==> log == old(log)
      ensures !taken && giveUp ==> EndsEmpty(threads, log, TimeoutOf(op, me), op)
      ensures Never(log, |old(log)|, SwapOf(op, me)) && Silent(log, |old(log)|, me)
    {
      hide Run;
      taken := Posted(op);
      if taken {
        TakeToken(op, me);
      } else if giveUp {
        Pass(me, Idle, TimeoutOf(op, me));
      }
    }

    /** WaitUntil on that futex: tries again after each of at most `rounds` turns of the others. */
    method WaitUntil(op: Op, me: nat, rounds: nat) returns (taken: bool)
      requires Valid() && me < threads && pcs[me] == Waiting(op)
      modifies this
      ensures Valid() && old(log) <= log && pcs[me] == if taken then Swapping(op) else Idle
      ensures old(Posted(op)) ==> taken && word == old(word) && schedule == old(schedule)
      ensures old(schedule) == [] ==>
                && taken == old(Posted(op)) && schedule == [] && word == old(word)
                && !Posted(op) && Posted(Opposite(op)) == old(Posted(Opposite(op)))
      ensures !taken ==> EndsEmpty(threads, log, TimeoutOf(op, me), op) && |schedule| == Less(|old(schedule)|, rounds)
      ensures Never(log, |old(log)|, SwapOf(op, me)) && Silent(log, |old(log)|, me)
    {
      hide Foreign, Run, Step, Init, Snapshot, EndsEmpty;
      var k: nat := rounds;
      taken := TakeOrLeave(op, me, k == 0);
      while !taken && k > 0
        invariant Valid() && old(log) <= log && k <= rounds
        invariant pcs[me] == if taken then Swapping(op) else if k == 0 then Idle else Waiting(op)
        invariant old(Posted(op)) ==> taken && word == old(word) && schedule == old(schedule)
        invariant old(schedule) == [] ==>
                    && taken == old(Posted(op)) && schedule == [] && word == old(word)
                    && !Posted(op) && Posted(Opposite(op)) == old(Posted(Opposite(op)))
        invariant !taken && k == 0 ==> EndsEmpty(threads, log, TimeoutOf(op, me), op)
        invariant !taken ==> |schedule| == Less(|old(schedule)|, rounds - k)
        invariant Never(log, |old(log)|, SwapOf(op, me)) && Silent(log, |old(log)|, me)
      {
        Yield(me);
        k := k - 1;
        taken := TakeOrLeave(op, me, k == 0);
      }
    }

    /** The compare-exchange of a start; `seen` is the value it found in the state word. */
    method Swap(op: Op, me: nat) returns (seen: Word)
      requires Valid() && me < threads && pcs[me] == Swapping(op)
      modifies this
      ensures Valid() && log == old(log) + [SwapOf(op, me)] && log[..|log| - 1] == old(log)
      ensures seen == old(word) && schedule == old(schedule)
      ensures pcs[me] == if seen == Before(op) then Running(op) else if seen == Cancelled then Reposting(op) else Idle
      ensures started == if seen == Before(op) then old(started) + [op] else old(started)
      ensures word == if seen == Before(op) then (if op.A? then ARunning else BRunning) else seen
      ensures aFinished == old(aFinished) && bFinished == old(bFinished)
      ensures refused == (old(refused) || (seen != Before(op) && seen != Cancelled))
    {
      hide Run, Step;
      ghost var before := Snapshot();
      seen := word;
      if seen == Before(op) {
        word := if op.A? then ARunning else BRunning;
        started := started + [op];
        pcs := pcs[me := Running(op)];
      } else if seen == Cancelled {
        pcs := pcs[me := Reposting(op)];
      } else {
        refused := true;
        pcs := pcs[me := Idle];
      }
      SwapStep(before, op, me);
      Record(before, SwapOf(op, me));
    }

    method PutBack(op: Op, me: nat)
      requires Valid() && me < threads && pcs[me] == Reposting(op)
      modifies this
      ensures Valid() && log == old(log) + [if op.A? then RepostB(me) else RepostA(me)] && pcs[me] == Idle && Posted(op)
      ensures word == old(word) && schedule == old(schedule) && Posted(Opposite(op)) == old(Posted(Opposite(op)))
    {
      hide Run;
      ghost var before := Snapshot();
      if op.A? { bFinished := true; } else { aFinished := true; }
      pcs := pcs[me := Idle];
      Record(before, if op.A? then RepostB(me) else RepostA(me));
    }

    method Enter(op: Op, me: nat)
      requires Valid() && me < threads && pcs[me] == Idle
      modifies this
      ensures Valid() && log == old(log) + [if op.A? then CallStartA(me) else CallStartB(me)] && pcs[me] == Waiting(op)
      ensures word == old(word) && schedule == old(schedule)
      ensures aFinished == old(aFinished) && bFinished == old(bFinished)
    {
      hide Run;
      Pass(me, Waiting(op), if op.A? then CallStartA(me) else CallStartB(me));
    }

    /**
     StartOperationAWithDeadline and StartOperationBWithDeadline. The answer is decided by what the caller's own
     compare-exchange finds: OK the word that lets the operation start, Aborted a cancellation, and then with the token
     put back, FailedPrecondition anything else. DeadlineExceeded means that there was none: the wait has gone through
     all its rounds and ends with the futex empty. Called while a cancellation stands, and before a Reset stores, it
     returns Aborted or runs out of time.
     */
    method StartOperation(op: Op, me: nat, rounds: nat) returns (status: Status)
      requires Valid() && me < threads && pcs[me] == Idle
      modifies this
      ensures Valid() && old(log) < log && pcs[me] == if status == Ok then Running(op) else Idle
      ensures status == Ok ==>
                log[|log| - 1] == SwapOf(op, me) && started == Run(Init(threads), log[..|log| - 1]).started + [op]
      ensures status == Ok <==> Finds(threads, log, |old(log)|, SwapOf(op, me), Before(op))
      ensures status == Aborted <==> Finds(threads, log, |old(log)|, SwapOf(op, me), Cancelled)
      ensures status == DeadlineExceeded <==> Never(log, |old(log)|, SwapOf(op, me))
      ensures status == DeadlineExceeded ==>
                EndsEmpty(threads, log, TimeoutOf(op, me), op) && |schedule| == Less(|old(schedule)|, rounds + 1)
      ensures old(schedule) == [] ==>
                status == if !old(Posted(op)) then DeadlineExceeded
                          else if old(word) == Before(op) then Ok
                          else if old(word) == Cancelled then Aborted
                          else FailedPrecondition
      ensures old(schedule) == [] ==>
                && schedule == [] && Posted(op) == (status == Aborted)
                && Posted(Opposite(op)) == old(Posted(Opposite(op)))
                && word == if status == Ok then (if op.A? then ARunning else BRunning) else old(word)
      ensures status == Aborted ==> Posted(op)
      ensures status == FailedPrecondition ==> !LockstepTokens.Undisturbed(threads, log)
      ensures StillCancelled(old(Snapshot()), log[|old(log)|..]) ==> status == Aborted || status == DeadlineExceeded
      ensures Silent(log, |old(log)|, me)
    {
      hide Foreign, Run, Step, Init, Valid, Snapshot, StillCancelled, Finds, EndsEmpty, Silent;
      hide LockstepTokens.Undisturbed;
      Here(me);
      ghost var from := |log|;
      Enter(op, me);
      Yield(me);
      ghost var entered := log;
      assert Silent(log, from, me) by { EnteredSilently(old(log), log, me); }
      var taken := WaitUntil(op, me, rounds);
      assert Silent(log, from, me) by { SilentOn(entered, log, from, me); }
      if !taken {
        NeverFound(threads, log, from, SwapOf(op, me));
        return DeadlineExceeded;
      }
      ghost var waited := log;
      status := SwapAndSettle(op, me, old(log));
      assert Silent(log, from, me) by { SilentOn(waited, log, from, me); }
    }

    /** The compare-exchange of a start with its token in hand, and the token put back under a cancellation. */
    method SwapAndSettle(op: Op, me: nat, ghost earlier: seq<Event>) returns (status: Status)
      requires Valid() && me < threads && pcs[me] == Swapping(op)
      requires earlier <= log && Never(log, |earlier|, SwapOf(op, me))
      modifies this
      ensures Valid() && old(log) < log && pcs[me] == if status == Ok then Running(op) else Idle
      ensures status == Ok ==>
                log[|log| - 1] == SwapOf(op, me) && started == Run(Init(threads), log[..|log| - 1]).started + [op]
      ensures status == Ok <==> Finds(threads, log, |earlier|, SwapOf(op, me), Before(op))
      ensures status == Aborted <==> Finds(threads, log, |earlier|, SwapOf(op, me), Cancelled)
      ensures status != DeadlineExceeded && !Never(log, |earlier|, SwapOf(op, me)) && Silent(log, |old(log)|, me)
      ensures old(schedule) == [] ==>
                status == if old(word) == Before(op) then Ok
                          else if old(word) == Cancelled then Aborted
                          else FailedPrecondition
      ensures old(schedule) == [] ==>
                && schedule == [] && Posted(op) == (status == Aborted || old(Posted(op)))
                && Posted(Opposite(op)) == old(Posted(Opposite(op)))
                && word == if status == Ok then (if op.A? then ARunning else BRunning) else old(word)
      ensures status == Aborted ==> Posted(op)
      ensures status == FailedPrecondition ==> !LockstepTokens.Undisturbed(threads, log)
      ensures StillCancelled(Run(Init(threads), earlier), log[|earlier|..]) ==> status == Aborted
    {
      hide Foreign, Run, Step, Init, Valid, Snapshot, StillCancelled, Finds, LockstepTokens.Undisturbed;
      Yield(me);
      Here(me);
      ghost var before := log;
      var seen := Swap(op, me);
      if seen == Cancelled { GiveBack(op, me); }
      SwapLast(threads, before, log, |earlier|, SwapOf(op, me));
      if seen == Cancelled { return Aborted; }
      NotWhileCancelled(threads, earlier, before, SwapOf(op, me));
      if seen == Before(op) { return Ok; }
      NeverRefusedWithoutCancel();
      return FailedPrecondition;
    }

    /** The token put back by a start that has found a cancellation. */
    method GiveBack(op: Op, me: nat)
      requires Valid() && me < threads && pcs[me] == Reposting(op)
      modifies this
      ensures Valid() && old(log) < log && pcs[me] == Idle && Posted(op)
      ensures Never(log, |old(log)|, SwapOf(op, me)) && Silent(log, |old(log)|, me)
      ensures old(schedule) == [] ==>
                schedule == [] && word == old(word) && Posted(Opposite(op)) == old(Posted(Opposite(op)))
    {
      hide Foreign, Run, Step, Init, Valid, Snapshot;
      Yield(me);
      PutBack(op, me);
    }

    /** The fields are those of the run so far. */
    lemma Here(me: nat)
      requires Valid() && me < threads
      ensures var s := Run(Init(threads), log);
              && s == Snapshot() && |s.pcs| == |pcs| == threads && s.pcs[me] == pcs[me]
              && s.word == word && s.started == started
    {
    }

    lemma NeverRefusedWithoutCancel()
      requires Valid() && refused
      ensures !LockstepTokens.Undisturbed(threads, log)
    {
      if LockstepTokens.Undisturbed(threads, log) { LockstepTokens.TokenConserved(threads, log); }
    }

    /** The first load of EndOperationA. */
    method Check(me: nat, own: bool) returns (seen: Word)
      requires Valid() && me < threads && pcs[me] == Ending(own)
      modifies this
      ensures Valid() && seen == word == old(word)
      ensures log == old(log) + [FirstLoad(own, me)] && log[..|old(log)|] == old(log)
      ensures schedule == old(schedule) && aFinished == old(aFinished) && bFinished == old(bFinished)
      ensures pcs[me] == if seen == Cancelled then Idle else Reloading(own)
    {
      hide Run, Step, FirstLoad;
      ghost var before := Snapshot();
      FirstLoadStep(before, own, me);
      seen := word;
      pcs := pcs[me := if seen == Cancelled then Idle else Reloading(own)];
      Record(before, FirstLoad(own, me));
    }

    /** The second one. */
    method CheckAgain(me: nat, own: bool) returns (seen: Word)
      requires Valid() && me < threads && pcs[me] == Reloading(own)
      modifies this
      ensures Valid() && seen == word == old(word)
      ensures log == old(log) + [SecondLoad(own, me)] && log[..|old(log)|] == old(log)
      ensures schedule == old(schedule) && aFinished == old(aFinished) && bFinished == old(bFinished)
      ensures pcs[me] == if seen == ARunning then Storing(own) else Idle
      ensures refused == (old(refused) || (own && seen != ARunning))
    {
      hide Run, Step, SecondLoad;
      ghost var before := Snapshot();
      SecondLoadStep(before, own, me);
      seen := word;
      refused := refused || (own && seen != ARunning);
      pcs := pcs[me := if seen == ARunning then Storing(own) else Idle];
      Record(before, SecondLoad(own, me));
    }

    method StoreAFinished(me: nat, own: bool)
      requires Valid() && me < threads && pcs[me] == Storing(own)
      modifies this
      ensures Valid() && log == old(log) + [if own then StoreEndA(me) else StrayStoreA(me)]
      ensures pcs[me] == EndAPost && word == AFinished && schedule == old(schedule) && bFinished == old(bFinished)
    {
      hide Run, Step;
      ghost var before := Snapshot();
      StoreStep(before, own, me);
      word := AFinished;
      pcs := pcs[me := EndAPost];
      Record(before, if own then StoreEndA(me) else StrayStoreA(me));
    }

    method PostAFinished(me: nat)
      requires Valid() && me < threads && pcs[me] == EndAPost
      modifies this
      ensures Valid() && log == old(log) + [PostEndA(me)] && pcs[me] == Idle && aFinished
      ensures word == old(word) && bFinished == old(bFinished) && schedule == old(schedule)
    {
      hide Run;
      ghost var before := Snapshot();
      aFinished := true;
      pcs := pcs[me := Idle];
      Record(before, PostEndA(me));
    }

    /**
     Load, load, store, post, by a thread that runs operation A or by any other. OK exactly if the first load found a
     cancellation or the second one operation A running. So in a disciplined run a call with its Start is refused
     exactly if a Cancel came between the loads, and one without is refused unless the lockstep is cancelled.
     */
    method EndOperationA(me: nat) returns (status: Status)
      requires Valid() && me < threads && (pcs[me] == InA || pcs[me] == Idle)
      modifies this
      ensures Valid() && old(log) < log && pcs[me] == Idle && (status == Ok || status == FailedPrecondition)
      ensures status == Ok ==> word == Cancelled || aFinished
      ensures var own := old(pcs[me]) == InA;
              status == Ok <==>
              || Finds(threads, log, |old(log)|, FirstLoad(own, me), Cancelled)
              || Finds(threads, log, |old(log)|, SecondLoad(own, me), ARunning)
      ensures status == FailedPrecondition && old(pcs[me]) == InA ==> !LockstepTokens.Undisturbed(threads, log)
      ensures Disciplined(Init(threads), log) ==>
                if old(pcs[me]) == InA
                then status == FailedPrecondition <==> CancelledBetween(threads, log, |old(log)|, me)
                else status == Ok <==> Finds(threads, log, |old(log)|, StrayLoadA(me), Cancelled)
      ensures old(schedule) == [] ==> schedule == []
      ensures old(schedule) == [] ==>
                if old(word) == ARunning
                then status == Ok && word == AFinished && aFinished && bFinished == old(bFinished)
                else && status == (if old(word) == Cancelled then Ok else FailedPrecondition)
                     && word == old(word) && aFinished == old(aFinished) && bFinished == old(bFinished)
      ensures OnlyEndsA(log, |old(log)|, me)
    {
      hide Foreign, Run, Step, Init, Valid, Snapshot, Disciplined, CancelledBetween;
      hide Finds, LoadsAt, Others, NoMoreLoads;
      hide OnlyEndsA;
      Here(me);
      var own := pcs[me] == InA;
      ghost var from := |log|;
      Yield(me);
      Here(me);
      ghost var first := log;
      var seen := Check(me, own);
      LoadsBegin(first, from, me, own);
      OnlyFirst(first, from, me, own);
      ghost var i, j := |first|, |log|;
      if seen == Cancelled {
        status := Ok;
      } else {
        ghost var checked := log;
        status, j := AfterFirstLoad(me, own, from, i);
        OnlyEndsAOn(checked, log, from, me);
        assert log[..i] == first;
      }
      WhatIsFound(threads, log, from, i, j, me, own);
      if Disciplined(Init(threads), log) { DisciplinedEndA(threads, log, from, i, j, me, own); }
    }

    /** The rest of an EndOperationA whose first load, numbered `i`, did not find a cancellation. */
    method AfterFirstLoad(me: nat, own: bool, ghost from: nat, ghost i: nat) returns (status: Status, ghost j: nat)
      requires Valid() && me < threads && pcs[me] == Reloading(own) && LoadsAt(log, from, i, |log|, me, own)
      modifies this
      ensures Valid() && old(log) < log && pcs[me] == Idle
      ensures |old(log)| <= j < |log| && LoadsAt(log, from, i, j, me, own) && OnlyEndsA(log, |old(log)|, me)
      ensures var s := Run(Init(threads), log[..j]);
              At(s, me, Reloading(own)) && status == if s.word == ARunning then Ok else FailedPrecondition
      ensures if status == Ok then aFinished else own ==> !LockstepTokens.Undisturbed(threads, log)
      ensures old(schedule) == [] ==>
                && schedule == [] && bFinished == old(bFinished)
                && if old(word) == ARunning then status == Ok && word == AFinished
                   else status == FailedPrecondition && word == old(word) && aFinished == old(aFinished)
    {
      hide Foreign, Run, Step, Init, Valid, Snapshot, LoadsAt, NoMoreLoads, OnlyEndsA;
      j := FirstLoadPassed(me, own, from, i);
      Here(me);
      ghost var loaded := log;
      status := if pcs[me] == Idle then FailedPrecondition else Ok;
      if pcs[me] != Idle {
        FinishEndA(me, own);
        LoadsOver(loaded, log, from, i, j, me, own);
        OnlyEndsAOn(loaded, log, |old(log)|, me);
      }
      assert log[..j] == loaded[..j];
    }

    /** The second load of an EndOperationA, after a first one, numbered `i`, that did not find a cancellation. */
    method FirstLoadPassed(me: nat, own: bool, ghost from: nat, ghost i: nat) returns (ghost j: nat)
      requires Valid() && me < threads && pcs[me] == Reloading(own) && LoadsAt(log, from, i, |log|, me, own)
      modifies this
      ensures Valid() && old(log) < log && |old(log)| <= j == |log| - 1 && LoadsAt(log, from, i, j, me, own)
      ensures var s := Run(Init(threads), log[..j]);
              At(s, me, Reloading(own)) && pcs[me] == if s.word == ARunning then Storing(own) else Idle
      ensures own && pcs[me] == Idle ==> !LockstepTokens.Undisturbed(threads, log)
      ensures OnlyEndsA(log, |old(log)|, me)
      ensures old(schedule) == [] ==>
                && schedule == [] && word == old(word) && aFinished == old(aFinished) && bFinished == old(bFinished)
                && pcs[me] == if word == ARunning then Storing(own) else Idle
    {
      hide Foreign, Run, Step, Init, Valid, Snapshot, LoadsAt;
      ghost var before := log;
      Yield(me);
      LoadsPause(before, log, from, i, me, own);
      Here(me);
      j := |log|;
      LoadsAgain(log, from, i, me, own);
      var seen := CheckAgain(me, own);
      if own && seen != ARunning { NeverRefusedWithoutCancel(); }
    }

    method FinishEndA(me: nat, own: bool)
      requires Valid() && me < threads && pcs[me] == Storing(own)
      modifies this
      ensures Valid() && old(log) < log && pcs[me] == Idle && aFinished && NoMoreLoads(log, |old(log)|, me)
      ensures OnlyEndsA(log, |old(log)|, me)
      ensures old(schedule) == [] ==> word == AFinished && bFinished == old(bFinished) && schedule == []
    {
      hide Foreign, Run, Step, Init, Valid, Snapshot;
      Yield(me);
      StoreAFinished(me, own);
      Yield(me);
      PostAFinished(me);
    }

    method SwapToBFinished(me: nat, own: bool) returns (seen: Word)
      requires Valid() && me < threads && pcs[me] == if own then InB else Idle
      modifies this
      ensures Valid() && seen == old(word) && log == old(log) + [SwapToEndB(own, me)] && log[..|old(log)|] == old(log)
      ensures pcs[me] == if seen == BRunning then EndBPost else Idle
      ensures refused == (old(refused) || (own && seen != BRunning && seen != Cancelled))
      ensures word == (if seen == BRunning then BFinished else seen) && schedule == old(schedule)
      ensures aFinished == old(aFinished) && bFinished == old(bFinished)
    {
      hide Run, Step, SwapToEndB;
      ghost var before := Snapshot();
      SwapToEndBStep(before, own, me);
      seen := word;
      if seen == BRunning { word := BFinished; } else { refused := refused || (own && seen != Cancelled); }
      pcs := pcs[me := if seen == BRunning then EndBPost else Idle];
      Record(before, SwapToEndB(own, me));
    }

    method PostBFinished(me: nat)
      requires Valid() && me < threads && pcs[me] == EndBPost
      modifies this
      ensures Valid() && log == old(log) + [PostEndB(me)] && pcs[me] == Idle && bFinished
      ensures word == old(word) && aFinished == old(aFinished)
    {
      hide Run;
      ghost var before := Snapshot();
      bFinished := true;
      pcs := pcs[me := Idle];
      Record(before, PostEndB(me));
    }

    /**
     One compare-exchange, so unlike EndOperationA it never overwrites a cancellation. OK exactly if it found a
     cancellation or operation B running. So in a disciplined run a call with its Start always returns OK, and one
     without exactly if the lockstep was cancelled.
     */
    method EndOperationB(me: nat) returns (status: Status)
      requires Valid() && me < threads && (pcs[me] == InB || pcs[me] == Idle)
      modifies this
      ensures Valid() && old(log) < log && pcs[me] == Idle && (status == Ok || status == FailedPrecondition)
      ensures status == Ok ==> word == Cancelled || bFinished
      ensures var swap := SwapToEndB(old(pcs[me]) == InB, me);
              status == Ok <==>
              Finds(threads, log, |old(log)|, swap, Cancelled) || Finds(threads, log, |old(log)|, swap, BRunning)
      ensures status == FailedPrecondition && old(pcs[me]) == InB ==> !LockstepTokens.Undisturbed(threads, log)
      ensures Disciplined(Init(threads), log) ==>
                (status == Ok <==>
                 old(pcs[me]) == InB || Finds(threads, log, |old(log)|, StraySwapB(me), Cancelled))
      ensures old(schedule) == [] ==>
                if old(word) == BRunning
                then status == Ok && word == BFinished && bFinished && aFinished == old(aFinished)
                else && status == (if old(word) == Cancelled then Ok else FailedPrecondition)
                     && word == old(word) && aFinished == old(aFinished) && bFinished == old(bFinished)
    {
      hide Foreign, Run, Step, Init, Valid, Snapshot, Disciplined, Finds, SwapAt;
      Here(me);
      var own := pcs[me] == InB;
      ghost var from := |log|;
      Yield(me);
      Here(me);
      ghost var before := log;
      var seen := SwapToBFinished(me, own);
      status := if seen == BRunning || seen == Cancelled then Ok else FailedPrecondition;
      if own && status != Ok { NeverRefusedWithoutCancel(); }
      if seen == BRunning { FinishEndB(me); }
      SwapAlone(before, log, from, me, own);
      SwapFound(threads, log, from, |before|, SwapToEndB(own, me));
      if Disciplined(Init(threads), log) { DisciplinedEndB(threads, log, from, |before|, me, own); }
    }

    method FinishEndB(me: nat)
      requires Valid() && me < threads && pcs[me] == EndBPost
      modifies this
      ensures Valid() && old(log) < log && pcs[me] == Idle && bFinished
      ensures forall j :: |old(log)| <= j < |log| && log[j].t == me ==> log[j].PostEndB?
      ensures old(schedule) == [] ==> word == old(word) && aFinished == old(aFinished)
    {
      hide Foreign, Run, Step, Init, Valid, Snapshot;
      Yield(me);
      PostBFinished(me);
    }

    method StoreCancelled(me: nat)
      requires Valid() && me < threads && pcs[me] == Idle
      modifies this
      ensures Valid() && log == old(log) + [CancelStore(me)] && log[..|log| - 1] == old(log)
      ensures Snapshot() == Step(old(Snapshot()), CancelStore(me)) && pcs[me] == CancelPostA && word == Cancelled
      ensures schedule == old(schedule)
    {
      hide Run;
      ghost var before := Snapshot();
      word := Cancelled;
      pcs := pcs[me := CancelPostA];
      Record(before, CancelStore(me));
    }

    method PostForCancel(me: nat)
      requires Valid() && me < threads && (pcs[me] == CancelPostA || pcs[me] == CancelPostB)
      modifies this
      ensures Valid() && old(log) < log && !log[|log| - 1].StoreReset? && !log[|log| - 1].ResetTimeoutB?
      ensures pcs[me] == if old(pcs[me]) == CancelPostA then CancelPostB else Idle
      ensures if old(pcs[me]) == CancelPostA then aFinished && bFinished == old(bFinished)
              else bFinished && aFinished == old(aFinished)
      ensures word == old(word) && schedule == old(schedule)
    {
      hide Run;
      ghost var before := Snapshot();
      if pcs[me] == CancelPostA {
        aFinished := true;
        pcs := pcs[me := CancelPostB];
        Record(before, CancelA(me));
      } else {
        bFinished := true;
        pcs := pcs[me := Idle];
        Record(before, CancelB(me));
      }
    }

    /**
     The cancellation stands when Cancel returns, unless an EndOperationA was about to store or a Reset has stored
     since, and no futex is lost unless a Reset has ended since.
     */
    method Cancel(me: nat)
      requires Valid() && me < threads && pcs[me] == Idle
      modifies this
      ensures Valid() && old(log) < log && pcs[me] == Idle
      ensures !LockstepCancel.EndAInFlight(old(Snapshot())) && ResetFree(log[|old(log)|..]) ==>
                && word == Cancelled
                && (LockstepCancel.NoResetEnds(log[|old(log)|..]) ==> LockstepCancel.Covered(Snapshot()))
      ensures bFinished && (old(schedule) == [] ==> word == Cancelled && aFinished)
    {
      hide Foreign, Run, Step, Init;
      StoreCancelled(me);
      ghost var stored := log;
      Yield(me);
      PostForCancel(me);
      Yield(me);
      PostForCancel(me);
      if !LockstepCancel.EndAInFlight(old(Snapshot())) && ResetFree(log[|old(log)|..]) {
        assert stored <= log && log[|old(log)|..] == [CancelStore(me)] + log[|stored|..];
        RunOnwards(Init(threads), stored, log);
        LockstepCancel.CancelIsSticky(old(Snapshot()), me, log[|stored|..]);
      }
    }

    /** The first load of Reset, which decides whether there is anything to reset. */
    method BeginReset(me: nat) returns (cancelled: bool)
      requires Valid() && me < threads && pcs[me] == Idle
      modifies this
      ensures Valid() && old(log) < log && cancelled == (old(word) == Cancelled)
      ensures pcs[me] == (if cancelled then ResetWaitA else Idle) && word == old(word)
      ensures schedule == old(schedule) && aFinished == old(aFinished) && bFinished == old(bFinished)
    {
      hide Run;
      cancelled := word == Cancelled;
      Pass(me, if cancelled then ResetWaitA else Idle, ResetLoad(me));
    }

    /** One try at the first futex of Reset. */
    method TakeAForReset(me: nat, giveUp: bool) returns (taken: bool)
      requires Valid() && me < threads && pcs[me] == ResetWaitA
      modifies this
      ensures Valid() && old(log) <= log && schedule == old(schedule)
      ensures taken == old(aFinished) && bFinished == old(bFinished)
      ensures pcs[me] == if taken then ResetWaitB else if giveUp then Idle else ResetWaitA
      ensures !taken ==> !aFinished
      ensures !taken && giveUp ==> EndsEmpty(threads, log, ResetTimeoutA(me), B)
    {
      hide Run;
      ghost var before := Snapshot();
      taken := aFinished;
      if taken {
        aFinished := false;
        pcs := pcs[me := ResetWaitB];
        Record(before, ResetTakeA(me));
      } else if giveUp {
        Pass(me, Idle, ResetTimeoutA(me));
      }
    }

    /** One try at the second; giving up here leaves the first futex empty. */
    method TakeBForReset(me: nat, giveUp: bool) returns (taken: bool)
      requires Valid() && me < threads && pcs[me] == ResetWaitB
      modifies this
      ensures Valid() && old(log) <= log && schedule == old(schedule)
      ensures taken == old(bFinished) && aFinished == old(aFinished)
      ensures pcs[me] == if taken then ResetStore else if giveUp then Idle else ResetWaitB
      ensures !taken ==> !bFinished
      ensures !taken && giveUp ==> EndsEmpty(threads, log, ResetTimeoutB(me), A)
    {
      hide Run;
      ghost var before := Snapshot();
      taken := bFinished;
      if taken {
        bFinished := false;
        pcs := pcs[me := ResetStore];
        Record(before, ResetTakeB(me));
      } else if giveUp {
        Pass(me, Idle, ResetTimeoutB(me));
      }
    }

    /** The two waits of Reset, each for at most `rounds` turns of the others. */
    method WaitForA(me: nat, rounds: nat) returns (taken: bool)
      requires Valid() && me < threads && pcs[me] == ResetWaitA
      modifies this
      ensures Valid() && old(log) <= log && pcs[me] == if taken then ResetWaitB else Idle
      ensures |schedule| <= |old(schedule)|
      ensures !taken ==> EndsEmpty(threads, log, ResetTimeoutA(me), B) && |schedule| == Less(|old(schedule)|, rounds)
      ensures old(schedule) == [] ==> taken == old(aFinished) && schedule == [] && bFinished == old(bFinished)
    {
      hide Foreign, Run, Step, Init, Snapshot, EndsEmpty;
      var k: nat := rounds;
      taken := TakeAForReset(me, k == 0);
      while !taken && k > 0
        invariant Valid() && old(log) <= log && k <= rounds && |schedule| <= |old(schedule)|
        invariant pcs[me] == if taken then ResetWaitB else if k == 0 then Idle else ResetWaitA
        invariant !taken && k == 0 ==> EndsEmpty(threads, log, ResetTimeoutA(me), B)
        invariant !taken ==> |schedule| == Less(|old(schedule)|, rounds - k)
        invariant old(schedule) == [] ==>
                    taken == old(aFinished) && schedule == [] && bFinished == old(bFinished) && (!taken ==> !aFinished)
      {
        Yield(me);
        k := k - 1;
        taken := TakeAForReset(me, k == 0);
      }
    }

    method WaitForB(me: nat, rounds: nat) returns (taken: bool)
      requires Valid() && me < threads && pcs[me] == ResetWaitB
      modifies this
      ensures Valid() && old(log) <= log && pcs[me] == if taken then ResetStore else Idle
      ensures !taken ==> EndsEmpty(threads, log, ResetTimeoutB(me), A) && |schedule| == Less(|old(schedule)|, rounds)
      ensures old(schedule) == [] ==> taken == old(bFinished) && schedule == []
    {
      hide Foreign, Run, Step, Init, Snapshot, EndsEmpty;
      var k: nat := rounds;
      taken := TakeBForReset(me, k == 0);
      while !taken && k > 0
        invariant Valid() && old(log) <= log && k <= rounds
        invariant pcs[me] == if taken then ResetStore else if k == 0 then Idle else ResetWaitB
        invariant !taken && k == 0 ==> EndsEmpty(threads, log, ResetTimeoutB(me), A)
        invariant !taken ==> |schedule| == Less(|old(schedule)|, rounds - k)
        invariant old(schedule) == [] ==> taken == old(bFinished) && schedule == [] && (!taken ==> !bFinished)
      {
        Yield(me);
        k := k - 1;
        taken := TakeBForReset(me, k == 0);
      }
    }

    method StoreBFinished(me: nat)
      requires Valid() && me < threads && pcs[me] == ResetStore
      modifies this
      ensures Valid() && log == old(log) + [StoreReset(me)] && pcs[me] == ResetPost && word == BFinished
              && started == []
    {
      hide Run;
      ghost var before := Snapshot();
      word, started := BFinished, [];
      pcs := pcs[me := ResetPost];
      Record(before, StoreReset(me));
    }

    method PostForReset(me: nat)
      requires Valid() && me < threads && pcs[me] == ResetPost
      modifies this
      ensures Valid() && old(log) < log && pcs[me] == Idle && bFinished
    {
      hide Run;
      ghost var before := Snapshot();
      bFinished := true;
      pcs := pcs[me := Idle];
      Record(before, PostReset(me));
    }

    /**
     OK only after a store that made operation A the next one, with nothing started, and with b_finished_ posted.
     DeadlineExceeded only if a wait has gone through all its rounds and ends with its futex empty.
     */
    method Reset(me: nat, rounds: nat) returns (status: Status)
      requires Valid() && me < threads && pcs[me] == Idle
      modifies this
      ensures Valid() && old(log) < log && pcs[me] == Idle
      ensures status == FailedPrecondition <==> old(word) != Cancelled
      ensures status == Ok ==> bFinished && MadeFresh(threads, log, |old(log)|, me)
      ensures status == DeadlineExceeded ==>
                && (|| EndsEmpty(threads, log, ResetTimeoutA(me), B)
                    || EndsEmpty(threads, log, ResetTimeoutB(me), A))
                && |schedule| <= Less(|old(schedule)|, rounds + 1)
      ensures old(schedule) == [] ==>
                status == if old(word) != Cancelled then FailedPrecondition
                          else if old(aFinished) && old(bFinished) then Ok
                          else DeadlineExceeded
      ensures status != Aborted
    {
      hide Foreign, Run, Step, Init, MadeFresh, EndsEmpty, Snapshot;
      var cancelled := BeginReset(me);
      if !cancelled { return FailedPrecondition; }
      Yield(me);
      var taken := WaitForA(me, rounds);
      if !taken { return DeadlineExceeded; }
      Yield(me);
      taken := WaitForB(me, rounds);
      if !taken { return DeadlineExceeded; }
      ghost var n := |log|;
      FinishReset(me);
      FreshEarlier(threads, log, |old(log)|, n, me);
      return Ok;
    }

    method FinishReset(me: nat)
      requires Valid() && me < threads && pcs[me] == ResetStore
      modifies this
      ensures Valid() && old(log) < log && pcs[me] == Idle && bFinished && MadeFresh(threads, log, |old(log)|, me)
    {
      hide Foreign, Run, Step, Init, Valid, Snapshot;
      Yield(me);
      StoreBFinished(me);
      Here(me);
      ghost var stored := log;
      Yield(me);
      PostForReset(me);
      assert log[..|stored|] == stored && log[|stored| - 1] == StoreReset(me);
    }

    /** The store of the timestamp, which operation A may do as often as it likes. */
    method PublishStamp(me: nat, timestamp: int)
      requires Valid() && me < threads && pcs[me] == InA
      modifies this
      ensures Valid() && log == old(log) + [Publish(me, timestamp)] && pcs[me] == InA && stamp == timestamp
      ensures started == old(started) && schedule == old(schedule) && word == old(word)
      ensures aFinished == old(aFinished) && bFinished == old(bFinished)
    {
      hide Run;
      ghost var before := Snapshot();
      stamp := timestamp;
      assert pcs[me := InA] == pcs;
      Record(before, Publish(me, timestamp));
    }
  }

  /** The clock: everything outside a tick is operation A, the control update is operation B. */
  class RealtimeClock {
    const lockstep: Lockstep
    const me: nat
    var up: bool

    ghost predicate Valid()
      reads this, lockstep
    {
      lockstep.Valid() && me < lockstep.threads
    }

    /** Starts operation A; a clock that does not get to it is not up, where the source ends the process. */
    constructor (lockstep: Lockstep, me: nat, rounds: nat)
      requires lockstep.Valid() && me < lockstep.threads && lockstep.pcs[me] == Idle
      modifies lockstep
      ensures Valid() && this.lockstep == lockstep && this.me == me
      ensures up <==> lockstep.pcs[me] == InA
      ensures old(lockstep.schedule) == [] ==> up == (old(lockstep.bFinished) && old(lockstep.word) == BFinished)
      ensures up ==> |lockstep.started| > 0 && lockstep.started[|lockstep.started| - 1] == A
    {
      this.lockstep, this.me := lockstep, me;
      new;
      var status := lockstep.StartOperation(A, me, rounds);
      up := status == Ok;
    }

    /**
     Publishes the timestamp, ends operation A and starts it again. When a tick returns OK in a disciplined run and no
     Reset has stored during it, the control update has started once more: the first operation started since is a B. In
     every state up to the start of the next one, which includes all of that update, the timestamp is the one
     published here.
     */
    method TickBlockingWithDeadline(timestamp: int, rounds: nat) returns (status: Status)
      requires Valid() && lockstep.pcs[me] == InA
      modifies lockstep
      ensures Valid() && old(lockstep.log) < lockstep.log
      ensures lockstep.pcs[me] == if status == Ok then InA else Idle
      ensures status == FailedPrecondition ==> !LockstepTokens.Undisturbed(lockstep.threads, lockstep.log)
      ensures status == DeadlineExceeded ==> EndsEmpty(lockstep.threads, lockstep.log, TimeoutA(me), A)
      ensures old(lockstep.schedule) == [] && old(lockstep.word) == ARunning && !old(lockstep.bFinished) ==>
                status == DeadlineExceeded && lockstep.word == AFinished && lockstep.aFinished
      ensures var from, n := |old(lockstep.log)|, |old(lockstep.started)|;
              Disciplined(Init(lockstep.threads), lockstep.log) && ResetFree(lockstep.log[from..]) ==>
                && ShowsStamp(lockstep.threads, lockstep.log, from + 1, n + 1, timestamp)
                && (status == Ok ==> |lockstep.started| >= n + 2 && lockstep.started[n] == B)
    {
      hide Run, Step, Init, Disciplined, ResetFree, Finds, CancelledBetween, LockstepTokens.Undisturbed, EndsEmpty;
      hide ShowsStamp, OnlyEndsA, Never;
      ghost var before := lockstep.log;
      Now();
      lockstep.PublishStamp(me, timestamp);
      ghost var published := lockstep.log;
      Now();
      status := lockstep.EndOperationA(me);
      ghost var ended := lockstep.log;
      assert Silent(ended, |published|, me) by { EndsSilently(ended, |published|, me); }
      if status == Ok { status := lockstep.StartOperation(A, me, rounds); }
      SilentOn(ended, lockstep.log, |published|, me);
      if Disciplined(Init(lockstep.threads), lockstep.log) && ResetFree(lockstep.log[|before|..]) {
        ResetFreeOn(before, published, lockstep.log);
        StampStays(lockstep.threads, published, lockstep.log, me);
        if status == Ok { Now(); TickRanUpdate(lockstep.threads, before, lockstep.log, me); }
      }
    }

    lemma Now()
      requires Valid()
      ensures var s := Run(Init(lockstep.threads), lockstep.log);
              s == lockstep.Snapshot() && |s.pcs| == lockstep.threads && s.pcs[me] == lockstep.pcs[me]
    {
    }
  }

  // ----- The timestamp of a tick --------------------------------------------------------------------------

  /** In every state from the access `from` on in which at most `n` operations have started, the stamp is this. */
  ghost predicate ShowsStamp(threads: nat, log: seq<Event>, from: nat, n: nat, stamp: int) {
    forall j {:trigger log[..j]} :: from <= j <= |log| && |Run(Init(threads), log[..j]).started| <= n ==>
      Run(Init(threads), log[..j]).stamp == stamp
  }

  lemma EndsSilently(log: seq<Event>, from: nat, me: nat)
    requires OnlyEndsA(log, from, me)
    ensures Silent(log, from, me)
  {
  }

  lemma ResetFreeOn(before: seq<Event>, later: seq<Event>, log: seq<Event>)
    requires before <= later <= log && ResetFree(log[|before|..])
    ensures ResetFree(log[|later|..])
  {
    assert forall e :: e in log[|later|..] ==> e in log[|before|..];
  }

  /** Nobody but `me` is in operation A as long as no other operation has started. */
  ghost predicate OnlyMeInA(s: State, me: nat) {
    forall u :: 0 <= u < |s.pcs| && u != me ==> !ActiveA(s.pcs[u])
  }

  /** The stamp of `s`, published by `me` in operation A, is that of `s'` until the operation after the next one. */
  ghost predicate StampKept(s: State, s': State, me: nat) {
    && |s'.started| >= |s.started| && (|s'.started| == |s.started| ==> OnlyMeInA(s', me))
    && (|s'.started| <= |s.started| + 1 ==> s'.stamp == s.stamp)
  }

  lemma StampStep(published: State, s: State, e: Event, me: nat)
    requires |published.started| % 2 == 1 && StampKept(published, s, me)
    requires Inv(s) && !e.StoreReset? && (e.t == me ==> !e.Publish?)
    ensures StampKept(published, Step(s, e), me)
  {
    if !Enabled(s, e) { return; }
    assert ThreadOk(s, s.pcs[e.t]);
    hide Inv;
    OthersInA(s, e);
  }

  /** A thread comes into operation A only by starting it, and publishes only from inside. */
  lemma OthersInA(s: State, e: Event)
    requires Enabled(s, e)
    ensures ActiveA(To(s.word, e)) ==> ActiveA(s.pcs[e.t]) || |StartedAfter(s, e)| == |s.started| + 1
    ensures e.Publish? ==> ActiveA(s.pcs[e.t])
    ensures !e.StoreReset? ==> |StartedAfter(s, e)| >= |s.started|
  {
  }

  lemma AloneInA(s: State, me: nat)
    requires Inv(s) && At(s, me, InA)
    ensures OnlyMeInA(s, me) && |s.started| % 2 == 1
  {
    assert ThreadOk(s, s.pcs[me]);
    forall u | 0 <= u < |s.pcs| && u != me ensures !ActiveA(s.pcs[u]) { assert Compatible(s.pcs[u], s.pcs[me]); }
  }

  lemma QuietBefore(published: seq<Event>, log: seq<Event>, me: nat)
    requires published < log && ResetFree(log[|published|..]) && Silent(log, |published|, me)
    ensures var before, e := log[..|log| - 1], log[|log| - 1];
            && published <= before && before + [e] == log && !e.StoreReset? && (e.t == me ==> !e.Publish?)
            && ResetFree(before[|published|..]) && Silent(before, |published|, me)
  {
    var before, e := log[..|log| - 1], log[|log| - 1];
    assert log[|published|..] == before[|published|..] + [e];
    assert e in log[|published|..];
  }

  lemma {:induction false} StampAfter(threads: nat, published: seq<Event>, log: seq<Event>, me: nat)
    requires published <= log && Disciplined(Init(threads), log) && ResetFree(log[|published|..])
    requires Silent(log, |published|, me) && At(Run(Init(threads), published), me, InA)
    ensures StampKept(Run(Init(threads), published), Run(Init(threads), log), me)
    decreases |log|
  {
    assert Inv(Init(threads));
    hide Run, Init, Step, Inv, OnlyMeInA, Disciplined, ResetFree, Silent;
    DisciplinedBefore(Init(threads), published, log);
    DisciplinedRunsKeepInv(Init(threads), published);
    AloneInA(Run(Init(threads), published), me);
    if published != log {
      hide StampKept;
      var before, e := log[..|log| - 1], log[|log| - 1];
      DisciplinedBefore(Init(threads), before, log);
      DisciplinedRunsKeepInv(Init(threads), before);
      QuietBefore(published, log, me);
      StampAfter(threads, published, before, me);
      RunPlus(Init(threads), before, e);
      StampStep(Run(Init(threads), published), Run(Init(threads), before), e, me);
    }
  }

  /** Until the operation after the next one starts, the stamp that was published in operation A is what can be read. */
  lemma StampStays(threads: nat, published: seq<Event>, log: seq<Event>, me: nat)
    requires published <= log && Disciplined(Init(threads), log) && ResetFree(log[|published|..])
    requires Silent(log, |published|, me) && At(Run(Init(threads), published), me, InA)
    ensures var s := Run(Init(threads), published); ShowsStamp(threads, log, |published|, |s.started| + 1, s.stamp)
  {
    hide Run, Init, Disciplined;
    forall j | |published| <= j <= |log|
      ensures var s, s' := Run(Init(threads), published), Run(Init(threads), log[..j]);
              |s'.started| <= |s.started| + 1 ==> s'.stamp == s.stamp
    {
      DisciplinedBefore(Init(threads), log[..j], log);
      assert log[|published|..][..j - |published|] == log[..j][|published|..];
      StampAfter(threads, published, log[..j], me);
    }
  }

  lemma {:induction false} TickRanUpdate(threads: nat, before: seq<Event>, log: seq<Event>, t: nat)
    requires before < log && Disciplined(Init(threads), log) && ResetFree(log[|before|..])
    requires At(Run(Init(threads), before), t, InA) && At(Run(Init(threads), log), t, InA)
    requires Run(Init(threads), log).started == Run(Init(threads), log[..|log| - 1]).started + [A]
    ensures var n := |Run(Init(threads), before).started|;
            |Run(Init(threads), log).started| >= n + 2 && Run(Init(threads), log).started[n] == B
  {
    hide Run, Disciplined, Init;
    var last := log[..|log| - 1];
    assert log[|before|..][..|last| - |before|] == last[|before|..];
    assert forall e :: e in last[|before|..] ==> e in log[|before|..];
    StartedGrows(Init(threads), before, last);
    UpdateRanBetween(threads, before, log, t);
  }
}
