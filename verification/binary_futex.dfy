/**
 The three-valued futex word, one step per atomic access or futex(2) call.

 Any number of threads run Wait, TryWait, Post and Close on one word. An event that is not possible
 in a state leaves the state as it is, so a run is any sequence of events at all.
 */
module FutexProtocol {

  datatype Word = Ready | Posted | Closed

  /** Where a thread is between two atomic accesses. */
  datatype Pc =
    | Idle
    | WaitTry      // in Wait, about to compare-exchange kPosted -> kReady
    | WaitSyscall  // saw kReady, about to enter FUTEX_WAIT
    | Asleep       // on the kernel's queue
    | PostWake     // exchanged kReady -> kPosted, about to FUTEX_WAKE one thread
    | CloseWake    // stored kClosed, about to FUTEX_WAKE every thread

  /** `posts`, `takes` and `dropped` count tokens put in, taken out, and overwritten by Close. */
  datatype State = State(word: Word, pcs: seq<Pc>, initial: nat, posts: nat, takes: nat, dropped: nat)

  datatype Event =
    | CallWait(t: nat)
    | TryTake(t: nat)           // the compare-exchange inside the Wait loop
    | Sleep(t: nat)             // FUTEX_WAIT: the kernel compares and enqueues in one step
    | Interrupt(t: nat)         // EINTR
    | Expire(t: nat)            // ETIMEDOUT
    | SyscallError(t: nat)      // any other errno
    | TryWait(t: nat)           // the non-blocking call
    | Post(t: nat)              // the compare-exchange of Post
    | WakeOne(t: nat, w: nat)   // FUTEX_WAKE 1, the kernel picks w
    | Close(t: nat)             // the exchange of Close
    | WakeAll(t: nat)           // FUTEX_WAKE INT_MAX

  function Init(threads: nat, posted: bool): State {
    State(if posted then Posted else Ready, seq(threads, _ => Idle), if posted then 1 else 0, 0, 0, 0)
  }

  predicate At(s: State, t: nat, pc: Pc) {
    t < |s.pcs| && s.pcs[t] == pc
  }

  function Goto(s: State, t: nat, pc: Pc): State
    requires t < |s.pcs|
  {
    s.(pcs := s.pcs[t := pc])
  }

  /** Takes the token if there is one; `TryWait(std::atomic<uint32_t>&)` in the source. */
  function Take(s: State): State {
    if s.word == Posted then s.(word := Ready, takes := s.takes + 1) else s
  }

  function Woken(pcs: seq<Pc>): seq<Pc> {
    seq(|pcs|, i requires 0 <= i < |pcs| => if pcs[i] == Asleep then WaitTry else pcs[i])
  }

  predicate SomeoneAsleep(s: State) {
    Asleep in s.pcs
  }

  function Step(s: State, e: Event): State {
    match e
    case CallWait(t) => if At(s, t, Idle) then Goto(s, t, WaitTry) else s
    case TryTake(t) =>
      if At(s, t, WaitTry) then Goto(Take(s), t, if s.word == Ready then WaitSyscall else Idle) else s
    case Sleep(t) =>
      if At(s, t, WaitSyscall) then Goto(s, t, if s.word == Ready then Asleep else WaitTry) else s
    case Interrupt(t) => if At(s, t, Asleep) then Goto(s, t, WaitTry) else s
    case Expire(t) => if At(s, t, Asleep) then Goto(s, t, Idle) else s
    case SyscallError(t) => if At(s, t, Asleep) || At(s, t, WaitSyscall) then Goto(s, t, Idle) else s
    case TryWait(t) => if At(s, t, Idle) then Take(s) else s
    case Post(t) =>
      if At(s, t, Idle) && s.word == Ready
      then Goto(s.(word := Posted, posts := s.posts + 1), t, PostWake) else s
    case WakeOne(t, w) =>
      if !At(s, t, PostWake) then s
      else if At(s, w, Asleep) then Goto(Goto(s, t, Idle), w, WaitTry)
      else if SomeoneAsleep(s) then s
      else Goto(s, t, Idle)
    case Close(t) =>
      if At(s, t, Idle) && s.word != Closed
      then Goto(s.(word := Closed, dropped := s.dropped + if s.word == Posted then 1 else 0), t, CloseWake)
      else s
    case WakeAll(t) => if At(s, t, CloseWake) then Goto(s, t, Idle).(pcs := Woken(s.pcs[t := Idle])) else s
  }

  function Run(s: State, es: seq<Event>): State {
    if es == [] then s else Step(Run(s, es[..|es| - 1]), es[|es| - 1])
  }

  /** A run can be cut at any point. */
  lemma {:induction false} RunOnwards(s: State, earlier: seq<Event>, later: seq<Event>)
    requires earlier <= later
    ensures Run(s, later) == Run(Run(s, earlier), later[|earlier|..])
    decreases |later|
  {
    if earlier == later {
      assert later[|earlier|..] == [];
    } else {
      var rest := later[|earlier|..];
      assert later[..|later| - 1][|earlier|..] == rest[..|rest| - 1];
      RunOnwards(s, earlier, later[..|later| - 1]);
    }
  }

  /** A posted word with a sleeper still has a wake to come, or a woken thread that will retry. */
  predicate NoLostPost(s: State) {
    s.word == Posted && SomeoneAsleep(s) ==> PostWake in s.pcs || WaitTry in s.pcs
  }

  /** A closed word with a sleeper still has its wake-all to come. */
  predicate NoLostClose(s: State) {
    s.word == Closed && SomeoneAsleep(s) ==> CloseWake in s.pcs
  }

  /** Every token that ever existed is in the word, was taken once, or was overwritten by Close. */
  predicate TokensConserved(s: State) {
    s.initial + s.posts == s.takes + s.dropped + (if s.word == Posted then 1 else 0)
  }

  predicate Inv(s: State) {
    && NoLostPost(s)
    && NoLostClose(s)
    && TokensConserved(s)
    && (s.word == Closed || s.dropped == 0)
  }

  lemma InUpdated(pcs: seq<Pc>, t: nat, pc: Pc, x: Pc)
    requires t < |pcs| && x in pcs[t := pc]
    ensures x == pc || x in pcs
  {
    var i :| 0 <= i < |pcs| && pcs[t := pc][i] == x;
    assert x == pc || pcs[i] == x;
  }

  lemma StaysIn(pcs: seq<Pc>, t: nat, pc: Pc, x: Pc)
    requires t < |pcs| && x in pcs && pcs[t] != x
    ensures x in pcs[t := pc] && pc in pcs[t := pc]
  {
    var i :| 0 <= i < |pcs| && pcs[i] == x;
    assert pcs[t := pc][i] == x && pcs[t := pc][t] == pc;
  }

  /** What moving thread `t` from one pc to another does to membership of every pc. */
  lemma GotoMembers(s: State, t: nat, pc: Pc)
    requires t < |s.pcs|
    ensures pc in Goto(s, t, pc).pcs
    ensures forall x :: x in s.pcs && x != s.pcs[t] ==> x in Goto(s, t, pc).pcs
    ensures forall x :: x in Goto(s, t, pc).pcs ==> x == pc || x in s.pcs
  {
    assert s.pcs[t := pc][t] == pc;
    forall x | x in s.pcs && x != s.pcs[t] ensures x in s.pcs[t := pc] { StaysIn(s.pcs, t, pc, x); }
    forall x | x in s.pcs[t := pc] ensures x == pc || x in s.pcs { InUpdated(s.pcs, t, pc, x); }
  }

  lemma StepKeepsInv(s: State, e: Event)
    requires Inv(s)
    ensures Inv(Step(s, e))
  {
    match e {
      case CallWait(t) => if At(s, t, Idle) { GotoMembers(s, t, WaitTry); }
      case TryTake(t) =>
        if At(s, t, WaitTry) { GotoMembers(Take(s), t, if s.word == Ready then WaitSyscall else Idle); }
      case Sleep(t) =>
        if At(s, t, WaitSyscall) { GotoMembers(s, t, if s.word == Ready then Asleep else WaitTry); }
      case Interrupt(t) => if At(s, t, Asleep) { GotoMembers(s, t, WaitTry); }
      case Expire(t) => if At(s, t, Asleep) { GotoMembers(s, t, Idle); }
      case SyscallError(t) => if t < |s.pcs| { GotoMembers(s, t, Idle); }
      case TryWait(t) =>
      case Post(t) => if t < |s.pcs| { GotoMembers(s, t, PostWake); }
      case WakeOne(t, w) =>
        if At(s, t, PostWake) {
          GotoMembers(s, t, Idle);
          if At(s, w, Asleep) { GotoMembers(Goto(s, t, Idle), w, WaitTry); }
        }
      case Close(t) => if t < |s.pcs| { GotoMembers(s, t, CloseWake); }
      case WakeAll(t) =>
    }
  }

  lemma {:induction false} EveryRunKeepsInv(s: State, es: seq<Event>)
    requires Inv(s)
    ensures Inv(Run(s, es))
    decreases |es|
  {
    if es != [] {
      EveryRunKeepsInv(s, es[..|es| - 1]);
      StepKeepsInv(Run(s, es[..|es| - 1]), es[|es| - 1]);
    }
  }

  /** No lost wakeup, for any number of threads and any interleaving. */
  lemma {:induction false} NoLostWakeup(threads: nat, posted: bool, es: seq<Event>)
    ensures var s := Run(Init(threads, posted), es);
            NoLostPost(s) && NoLostClose(s) && TokensConserved(s)
  {
    EveryRunKeepsInv(Init(threads, posted), es);
  }

  /** When nothing is left to do but sleep or start new calls, sleepers sleep only on an empty, open word. */
  lemma {:induction false} NobodyStranded(threads: nat, posted: bool, es: seq<Event>)
    ensures var s := Run(Init(threads, posted), es);
            SomeoneAsleep(s) && (forall pc :: pc in s.pcs ==> pc == Idle || pc == Asleep) ==> s.word == Ready
  {
    NoLostWakeup(threads, posted, es);
  }

  /** A token and a sleeper can always be brought together by at most two steps that are already due. */
  lemma {:induction false} TokenReachesAWaiter(threads: nat, posted: bool, es: seq<Event>) returns (due: seq<Event>)
    requires var s := Run(Init(threads, posted), es); s.word == Posted && SomeoneAsleep(s)
    ensures |due| <= 2 && (forall e :: e in due ==> e.WakeOne? || e.TryTake?)
    ensures var s := Run(Init(threads, posted), es);
            Run(s, due).takes == s.takes + 1 && Run(s, due).word == Ready
  {
    NoLostWakeup(threads, posted, es);
    var s := Run(Init(threads, posted), es);
    if WaitTry in s.pcs {
      var t :| 0 <= t < |s.pcs| && s.pcs[t] == WaitTry;
      due := [TryTake(t)];
      assert due[..0] == [];
      assert Run(s, due) == Step(Run(s, []), TryTake(t));
    } else {
      var t :| 0 <= t < |s.pcs| && s.pcs[t] == PostWake;
      var w :| 0 <= w < |s.pcs| && s.pcs[w] == Asleep;
      due := [WakeOne(t, w), TryTake(w)];
      assert due[..1] == [WakeOne(t, w)] && due[..1][..0] == [];
      assert Run(s, due[..1]) == Step(Run(s, []), WakeOne(t, w));
    }
  }

  lemma {:induction false} ClosedIsFinal(s: State, es: seq<Event>)
    requires s.word == Closed
    ensures Run(s, es).word == Closed && Run(s, es).takes == s.takes && Run(s, es).posts == s.posts
    decreases |es|
  {
    if es != [] { ClosedIsFinal(s, es[..|es| - 1]); }
  }

  // ----- The word as a token -----------------------------------------------------------------------

  /** What the users of a futex see of it: a token that is taken, put in, or gone for good. */
  datatype TokenOp = Take | Put | Shut | Nothing

  function Effect(s: State, e: Event): TokenOp {
    match e
    case TryTake(t) => if At(s, t, WaitTry) && s.word == Posted then TokenOp.Take else Nothing
    case TryWait(t) => if At(s, t, Idle) && s.word == Posted then TokenOp.Take else Nothing
    case Post(t) => if At(s, t, Idle) && s.word != Closed then Put else Nothing
    case Close(t) => if At(s, t, Idle) then Shut else Nothing
    case _ => Nothing
  }

  function Apply(word: Word, op: TokenOp): Word {
    match op
    case Take => Ready
    case Put => Posted
    case Shut => Closed
    case Nothing => word
  }

  /** Sleeping and waking do not show: a step takes the token that is there, puts it in, shuts it off or is silent. */
  lemma RefinesToken(s: State, e: Event)
    ensures Step(s, e).word == Apply(s.word, Effect(s, e))
    ensures Step(s, e).takes == s.takes + if Effect(s, e).Take? then 1 else 0
    ensures Effect(s, e).Take? ==> s.word == Posted
  {
  }

  lemma KeepsShape(s: State, e: Event)
    ensures Step(s, e).initial == s.initial && |Step(s, e).pcs| == |s.pcs|
  {
  }

  /** The only thing one thread can do to another is wake it up. */
  lemma OthersOnlyWake(s: State, e: Event, me: nat)
    requires me < |s.pcs| && e.t != me
    ensures |Step(s, e).pcs| == |s.pcs|
    ensures Step(s, e).pcs[me] == s.pcs[me] || (s.pcs[me] == Asleep && Step(s, e).pcs[me] == WaitTry)
  {
  }
}

/** The class of icon/interprocess/binary_futex.cc, with the other threads' steps run between its accesses. */
module BinaryFutexClass {
  import opened FutexProtocol

  datatype Status = Ok | Aborted | DeadlineExceeded | Internal

  /** How a sleep that nobody ended comes to an end. */
  datatype SleepEnd = Interrupted | TimedOut | Failed

  datatype Errno = Success | EAGAIN | EINTR | ETIMEDOUT | EOther

  /** From `before` to `after`, `me` has returned and one sleeper was woken, or none if there was none. */
  ghost predicate WokeOne(before: seq<Pc>, after: seq<Pc>, me: nat) {
    && me < |before| && before[me] == PostWake
    && if Asleep in before
       then exists w :: 0 <= w < |before| && before[w] == Asleep && after == before[me := Idle][w := WaitTry]
       else after == before[me := Idle]
  }

  /** How the first sleep ends that is not merely interrupted; with nothing left it runs into the deadline. */
  function FinalEnd(ends: seq<SleepEnd>): SleepEnd {
    if ends == [] then TimedOut else if ends[0] == Interrupted then FinalEnd(ends[1..]) else ends[0]
  }

  lemma {:induction false} InterruptedSoFar(ends: seq<SleepEnd>, k: nat)
    requires k <= |ends| && forall j :: 0 <= j < k ==> ends[j] == Interrupted
    ensures FinalEnd(ends) == FinalEnd(ends[k..])
    ensures k == |ends| || ends[k] != Interrupted ==> FinalEnd(ends) == if k < |ends| then ends[k] else TimedOut
    decreases k
  {
    if k > 0 {
      InterruptedSoFar(ends, k - 1);
      assert ends[k - 1..][1..] == ends[k..];
    }
  }

  /** The accesses of the others in a batch. */
  function Foreign(batch: seq<Event>, me: nat): seq<Event> {
    if batch == [] then []
    else
      var e := batch[|batch| - 1];
      Foreign(batch[..|batch| - 1], me) + if e.t != me then [e] else []
  }

  class BinaryFutex {
    const threads: nat
    const posted: bool
    var word: Word
    var pcs: seq<Pc>
    var posts: nat
    var takes: nat
    var dropped: nat
    /** What the other threads will do: one batch of events between two accesses of the caller. */
    var schedule: seq<seq<Event>>
    /** Every atomic access so far, by anyone, in order. */
    ghost var log: seq<Event>

    function Snapshot(): State
      reads this
    {
      State(word, pcs, if posted then 1 else 0, posts, takes, dropped)
    }

    /** The fields are what the protocol makes of the accesses logged so far. */
    ghost predicate Valid()
      reads this
    {
      |pcs| == threads && Snapshot() == Run(Init(threads, posted), log)
    }

    constructor (posted: bool, threads: nat, schedule: seq<seq<Event>>)
      ensures Valid() && log == [] && Snapshot() == Init(threads, posted) && this.schedule == schedule
    {
      this.threads, this.posted := threads, posted;
      word := if posted then Posted else Ready;
      pcs := seq(threads, _ => Idle);
      posts, takes, dropped := 0, 0, 0;
      this.schedule := schedule;
      log := [];
    }

    /** Logs the access `e` that has just turned `before` into the current fields. */
    ghost method Record(before: State, e: Event)
      requires before == Run(Init(threads, posted), log) && |pcs| == threads
      requires Snapshot() == Step(before, e)
      modifies this`log
      ensures Valid() && log == old(log) + [e] && log[..|log| - 1] == old(log)
    {
      hide Step, Init;
      log := log + [e];
      assert log[..|log| - 1] == old(log);
    }

    method Other(e: Event)
      requires Valid()
      modifies this
      ensures Valid() && log == old(log) + [e] && schedule == old(schedule)
      ensures Snapshot() == Step(old(Snapshot()), e)
    {
      var s := Step(Snapshot(), e);
      KeepsShape(Snapshot(), e);
      word, pcs, posts, takes, dropped := s.word, s.pcs, s.posts, s.takes, s.dropped;
      Record(old(Snapshot()), e);
    }

    /** Lets the other threads run; they can move `me` only by waking it. */
    method Yield(me: nat)
      requires Valid() && me < threads
      modifies this
      ensures Valid() && old(log) <= log
      ensures pcs[me] == old(pcs[me]) || (old(pcs[me]) == Asleep && pcs[me] == WaitTry)
      ensures if old(schedule) == [] then Snapshot() == old(Snapshot()) && schedule == []
              else schedule == old(schedule)[1..]
      ensures old(schedule) != [] ==> log == old(log) + Foreign(old(schedule)[0], me)
    {
      if schedule == [] { return; }
      var batch := schedule[0];
      schedule := schedule[1..];
      for i := 0 to |batch|
        invariant Valid() && old(log) <= log
        invariant pcs[me] == old(pcs[me]) || (old(pcs[me]) == Asleep && pcs[me] == WaitTry)
        invariant schedule == old(schedule)[1..] && log == old(log) + Foreign(batch[..i], me)
      {
        assert batch[..i + 1][..i] == batch[..i];
        if batch[i].t != me {
          OthersOnlyWake(Snapshot(), batch[i], me);
          Other(batch[i]);
        }
      }
      assert batch[..|batch|] == batch;
    }

    /** The compare-exchange both waiting calls are built on. */
    method TryWait(me: nat) returns (value: Word)
      requires Valid() && me < threads && pcs[me] == WaitTry
      modifies this
      ensures Valid() && log == old(log) + [TryTake(me)] && log[..|log| - 1] == old(log)
      ensures value == old(word) && schedule == old(schedule)
      ensures pcs == old(pcs)[me := if value == Ready then WaitSyscall else Idle]
      ensures word == (if value == Posted then Ready else value)
      ensures takes == old(takes) + if value == Posted then 1 else 0
    {
      value := word;
      if word == Posted { word, takes := Ready, takes + 1; }
      pcs := pcs[me := if value == Ready then WaitSyscall else Idle];
      Record(old(Snapshot()), TryTake(me));
    }

    method Move(me: nat, pc: Pc, ghost e: Event)
      requires Valid() && me < threads && Step(Snapshot(), e) == Goto(Snapshot(), me, pc)
      modifies this
      ensures Valid() && log == old(log) + [e] && log[..|log| - 1] == old(log) && schedule == old(schedule)
      ensures Snapshot() == Goto(old(Snapshot()), me, pc)
    {
      pcs := pcs[me := pc];
      Record(old(Snapshot()), e);
    }

    /** The futex(2) call of Wait; with no interference left it can only be interrupted, expire or fail. */
    method FutexWait(me: nat, end: SleepEnd) returns (errno: Errno)
      requires Valid() && me < threads && pcs[me] == WaitSyscall
      modifies this
      ensures Valid() && old(log) < log && |schedule| <= |old(schedule)|
      ensures errno == EINTR ==> end == Interrupted
      ensures (errno.ETIMEDOUT? ==> end == TimedOut) && (errno.EOther? ==> end == Failed)
      ensures old(schedule) == [] ==>
                && schedule == [] && word == old(word)
                && errno == if old(word) != Ready then EAGAIN
                            else match end
                                 case Interrupted => EINTR
                                 case TimedOut => ETIMEDOUT
                                 case Failed => EOther
      ensures errno.Success? || errno.EAGAIN? ==> old(schedule) != [] || old(word) != Ready
      ensures errno.EAGAIN? ==>
                log[|log| - 1] == Sleep(me) && Run(Init(threads, posted), log[..|log| - 1]).word != Ready
      ensures pcs[me] == if errno.ETIMEDOUT? || errno.EOther? then Idle else WaitTry
      ensures errno.ETIMEDOUT? || errno.EOther? ==>
                && log[|log| - 1] == (if errno.EOther? then SyscallError(me) else Expire(me))
                && At(Run(Init(threads, posted), log[..|log| - 1]), me, Asleep)
    {
      hide Foreign, Run;
      Yield(me);
      if word != Ready {
        Move(me, WaitTry, Sleep(me));
        return EAGAIN;
      }
      Move(me, Asleep, Sleep(me));
      Yield(me);
      if pcs[me] != Asleep { return Success; }
      errno := EndSleep(me, end);
    }

    /** A sleep that nobody has ended with a wake. */
    method EndSleep(me: nat, end: SleepEnd) returns (errno: Errno)
      requires Valid() && me < threads && pcs[me] == Asleep
      modifies this
      ensures Valid() && schedule == old(schedule) && word == old(word)
      ensures errno == match end
                       case Interrupted => EINTR
                       case TimedOut => ETIMEDOUT
                       case Failed => EOther
      ensures log == old(log) + [match end
                                 case Interrupted => Interrupt(me)
                                 case TimedOut => Expire(me)
                                 case Failed => SyscallError(me)]
      ensures pcs == old(pcs)[me := if end == Interrupted then WaitTry else Idle]
    {
      hide Run;
      match end {
        case Interrupted =>
          Move(me, WaitTry, Interrupt(me));
          return EINTR;
        case TimedOut =>
          Move(me, Idle, Expire(me));
          return ETIMEDOUT;
        case Failed =>
          Move(me, Idle, SyscallError(me));
          return EOther;
      }
    }

    /**
     The retry loop of Wait. OK is returned only when the caller's own compare-exchange took the
     token, Aborted only on a closed word, DeadlineExceeded only out of a sleep.
     */
    method Wait(me: nat, ends: seq<SleepEnd>) returns (status: Status)
      requires Valid() && me < threads && pcs[me] == Idle
      modifies this
      ensures Valid() && old(log) < log && pcs[me] == Idle
      ensures var last := log[|log| - 1];
              var before := Run(Init(threads, posted), log[..|log| - 1]);
              match status
              case Ok => last == TryTake(me) && before.word == Posted && word == Ready && takes == before.takes + 1
              case Aborted => last == TryTake(me) && before.word == Closed && word == Closed
              case DeadlineExceeded => last == Expire(me) && At(before, me, Asleep)
              case Internal => last == SyscallError(me) && At(before, me, Asleep)
      ensures status == DeadlineExceeded ==> FinalEnd(ends) == TimedOut
      ensures status == Internal ==> FinalEnd(ends) == Failed
      ensures old(schedule) == [] ==>
                status == match old(word)
                          case Posted => Ok
                          case Closed => Aborted
                          case Ready => if FinalEnd(ends) == Failed then Internal else DeadlineExceeded
    {
      hide Foreign, Run;
      Move(me, WaitTry, CallWait(me));
      var k := 0;
      while true
        invariant Valid() && old(log) < log && pcs[me] == WaitTry && k <= |ends|
        invariant forall j :: 0 <= j < k ==> ends[j] == Interrupted
        invariant old(schedule) == [] ==> schedule == [] && word == old(word)
        decreases |schedule| + |ends| - k
      {
        InterruptedSoFar(ends, k);
        Yield(me);
        var value := TryWait(me);
        match value {
          case Closed => return Aborted;
          case Posted => return Ok;
          case Ready =>
        }
        var errno := FutexWait(me, if k < |ends| then ends[k] else TimedOut);
        match errno {
          case ETIMEDOUT => return DeadlineExceeded;
          case EOther => return Internal;
          case EINTR => k := k + 1;
          case _ =>
        }
      }
    }

    /** The compare-exchange of Post. */
    method PutToken(me: nat) returns (seen: Word)
      requires Valid() && me < threads && pcs[me] == Idle
      modifies this
      ensures Valid() && log == old(log) + [FutexProtocol.Post(me)] && schedule == old(schedule) && seen == old(word)
      ensures seen == Ready ==> word == Posted && posts == old(posts) + 1 && pcs[me] == PostWake
      ensures seen != Ready ==> Snapshot() == old(Snapshot())
    {
      hide Run;
      seen := word;
      if word == Ready {
        word, posts := Posted, posts + 1;
        pcs := pcs[me := PostWake];
      }
      Record(old(Snapshot()), FutexProtocol.Post(me));
    }

    /** The futex(2) call of Post, which wakes one sleeper of the kernel's choice if there is any. */
    method FutexWakeOne(me: nat)
      requires Valid() && me < threads && pcs[me] == PostWake
      modifies this
      ensures Valid() && |log| == |old(log)| + 1 && log[..|old(log)|] == old(log)
      ensures WokeOne(old(pcs), pcs, me) && pcs[me] == Idle
      ensures word == old(word) && posts == old(posts) && takes == old(takes)
    {
      hide Run;
      if Asleep in pcs {
        var w :| 0 <= w < |pcs| && pcs[w] == Asleep;
        pcs := pcs[me := Idle][w := WaitTry];
        Record(old(Snapshot()), WakeOne(me, w));
      } else {
        pcs := pcs[me := Idle];
        Record(old(Snapshot()), WakeOne(me, me));
      }
    }

    /**
     Puts a token in unless one is there, then wakes one sleeper of the kernel's choice. Only an empty word changes: its
     first access fills it, and its last one wakes exactly one sleeper if there is one.
     */
    method Post(me: nat) returns (status: Status)
      requires Valid() && me < threads && pcs[me] == Idle
      modifies this
      ensures Valid() && old(log) < log && pcs[me] == Idle && log[|old(log)|] == FutexProtocol.Post(me)
      ensures status == if old(word) == Closed then Aborted else Ok
      ensures old(word) != Ready ==> Snapshot() == old(Snapshot())
      ensures old(word) == Ready ==>
                && (var put := Run(Init(threads, posted), log[..|old(log)| + 1]);
                    put.word == Posted && put.posts == old(posts) + 1)
                && WokeOne(Run(Init(threads, posted), log[..|log| - 1]).pcs, pcs, me)
    {
      hide Foreign, Run, Step, Init, WokeOne;
      var seen := PutToken(me);
      if seen == Ready {
        ghost var put := log;
        Yield(me);
        ghost var before := log;
        FutexWakeOne(me);
        assert log[..|put|] == put && log[..|log| - 1] == before;
      }
      return if seen == Closed then Aborted else Ok;
    }

    /** Closes the word for good; only the caller that changed it wakes the sleepers. */
    method Close(me: nat)
      requires Valid() && me < threads && pcs[me] == Idle
      modifies this
      ensures Valid() && old(log) < log && pcs[me] == Idle && word == Closed
      ensures old(word) != Closed ==> Asleep !in pcs
    {
      hide Foreign, Run;
      ghost var before := Snapshot();
      var seen := word;
      if seen != Closed {
        dropped := dropped + if word == Posted then 1 else 0;
        word := Closed;
        pcs := pcs[me := CloseWake];
      }
      Record(before, FutexProtocol.Close(me));
      if seen != Closed {
        ghost var closed := log;
        Yield(me);
        StaysClosed(closed, log);
        before := Snapshot();
        pcs := Woken(pcs[me := Idle]);
        Record(before, WakeAll(me));
      }
    }

    lemma StaysClosed(earlier: seq<Event>, later: seq<Event>)
      requires earlier <= later && Run(Init(threads, posted), earlier).word == Closed
      ensures Run(Init(threads, posted), later).word == Closed
    {
      RunOnwards(Init(threads, posted), earlier, later);
      ClosedIsFinal(Run(Init(threads, posted), earlier), later[|earlier|..]);
    }
  }
}
