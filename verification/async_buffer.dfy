/**
 icon/utils/async_buffer.h as a protocol: a producer and a consumer share three buffers and one atomic
 word, and the load and the compare-exchange of each retry loop are separate steps.
 */
module AsyncBufferProtocol {
  import opened Collections

  datatype Word = Word(active: nat, mailbox: nat, free: nat, full: bool)

  /** Idle, or between the load of `seen` and the compare-exchange. */
  datatype Pc = Idle | Loaded(seen: Word)

  /** What the callers see, in the order of the successful compare-exchanges. */
  datatype Action<T> = Committed(value: T) | Read(isNew: bool, value: T) | Drained

  /**
   `held` is the buffer GetFreeBuffer handed out, `view` the one GetActiveBuffer handed out last.
   */
  datatype State<T> = State(word: Word, buffers: seq<T>, checkedOut: bool, held: nat, view: Option<nat>,
                            producer: Pc, consumer: Pc, history: seq<Action<T>>)

  datatype Event<T> =
    | GetFree
    | Write(value: T)          // the producer fills the buffer it was handed
    | CommitLoad
    | CommitSwap
    | ReadLoad
    | ReadSwap(wanted: bool)   // false: the caller passed a null pointer

  ghost function Init<T>(initial: T): State<T> {
    State(Word(0, 1, 2, false), [initial, initial, initial], false, 0, None, Idle, Idle, [])
  }

  function Committing(w: Word): Word {
    Word(w.active, w.free, w.mailbox, true)
  }

  function Reading(w: Word): Word {
    if w.full then Word(w.mailbox, w.active, w.free, false) else w
  }

  predicate Permutation(w: Word) {
    w.active < 3 && w.mailbox < 3 && w.free < 3 && w.active != w.mailbox && w.mailbox != w.free && w.free != w.active
  }

  /** The shape every state keeps: three buffers, the word a permutation, the handed-out indices current. */
  ghost predicate Shape<T>(s: State<T>) {
    && |s.buffers| == 3 && Permutation(s.word)
    && (s.checkedOut ==> s.held == s.word.free)
    && (s.view.Some? ==> s.view.value == s.word.active)
    && (s.producer.Loaded? ==> s.checkedOut && s.producer.seen.free == s.word.free && Permutation(s.producer.seen))
    && (s.consumer.Loaded? ==> s.consumer.seen.active == s.word.active && Permutation(s.consumer.seen))
  }

  ghost function Step<T>(s: State<T>, e: Event<T>): State<T>
    requires Shape(s)
  {
    match e
    case GetFree => if s.producer.Idle? then s.(checkedOut := true, held := s.word.free) else s
    case Write(value) => if s.producer.Idle? && s.checkedOut then s.(buffers := s.buffers[s.held := value]) else s
    case CommitLoad => if s.producer.Idle? && s.checkedOut then s.(producer := Loaded(s.word)) else s
    case CommitSwap =>
      if s.producer.Idle? then s
      else if s.producer.seen != s.word then s.(producer := Idle)
      else s.(word := Committing(s.word), producer := Idle, checkedOut := false,
              history := s.history + [Committed(s.buffers[s.word.free])])
    case ReadLoad => if s.consumer.Idle? then s.(consumer := Loaded(s.word)) else s
    case ReadSwap(wanted) =>
      if s.consumer.Idle? then s
      else if s.consumer.seen != s.word then s.(consumer := Idle)
      else
        var next := Reading(s.word);
        s.(word := next, consumer := Idle, view := if wanted then Some(next.active) else None,
           history := s.history + [if wanted then Read(s.word.full, s.buffers[next.active]) else Drained])
  }

  lemma SwapsPermute(w: Word)
    requires Permutation(w)
    ensures Permutation(Committing(w)) && Permutation(Reading(w))
  {
  }

  lemma StepKeepsShape<T>(s: State<T>, e: Event<T>)
    requires Shape(s)
    ensures Shape(Step(s, e))
  {
    SwapsPermute(s.word);
    hide Permutation;
    match e {
      case GetFree =>
      case Write(_) =>
      case CommitLoad =>
      case CommitSwap => CommitKeepsShape(s);
      case ReadLoad =>
      case ReadSwap(wanted) => ReadKeepsShape(s, wanted);
    }
  }

  lemma CommitKeepsShape<T>(s: State<T>)
    requires Shape(s)
    ensures Shape(Step(s, CommitSwap))
  {
    SwapsPermute(s.word);
    hide Permutation;
  }

  lemma ReadKeepsShape<T>(s: State<T>, wanted: bool)
    requires Shape(s)
    ensures Shape(Step(s, ReadSwap(wanted)))
  {
    SwapsPermute(s.word);
    hide Permutation;
  }

  ghost function Run<T>(s: State<T>, es: seq<Event<T>>): (r: State<T>)
    requires Shape(s)
    ensures Shape(r)
  {
    if es == [] then s else
      var before := Run(s, es[..|es| - 1]);
      StepKeepsShape(before, es[|es| - 1]);
      Step(before, es[|es| - 1])
  }

  // ----- The register that the buffers implement -------------------------------------------------

  ghost function Latest<T>(h: seq<Action<T>>, initial: T): T {
    if h == [] then initial
    else if h[|h| - 1].Committed? then h[|h| - 1].value
    else Latest(h[..|h| - 1], initial)
  }

  /** Something was committed since the last read. */
  predicate Unread<T>(h: seq<Action<T>>) {
    h != [] && h[|h| - 1].Committed?
  }

  /** Every read returns the latest committed value and says whether it is new. */
  ghost predicate Legal<T>(h: seq<Action<T>>, initial: T) {
    h == [] ||
    (var before := h[..|h| - 1];
     Legal(before, initial) &&
     (h[|h| - 1].Read? ==> h[|h| - 1] == Read(Unread(before), Latest(before, initial))))
  }

  ghost predicate Inv<T>(s: State<T>, initial: T) {
    && Shape(s)
    && Legal(s.history, initial)
    && s.word.full == Unread(s.history)
    && s.buffers[if s.word.full then s.word.mailbox else s.word.active] == Latest(s.history, initial)
  }

  /** What one more action does to a legal history. */
  lemma HistoryPlus<T>(h: seq<Action<T>>, a: Action<T>, initial: T)
    requires Legal(h, initial) && (a.Read? ==> a == Read(Unread(h), Latest(h, initial)))
    ensures Legal(h + [a], initial) && Unread(h + [a]) == a.Committed?
    ensures Latest(h + [a], initial) == if a.Committed? then a.value else Latest(h, initial)
  {
    assert (h + [a])[..|h|] == h;
  }

  lemma CommitKeepsInv<T>(s: State<T>, initial: T)
    requires Inv(s, initial)
    ensures Inv(Step(s, CommitSwap), initial)
  {
    StepKeepsShape(s, CommitSwap);
    hide Legal, Latest, Unread;
    if s.producer.Loaded? && s.producer.seen == s.word {
      HistoryPlus(s.history, Committed(s.buffers[s.word.free]), initial);
    }
  }

  lemma ReadKeepsInv<T>(s: State<T>, wanted: bool, initial: T)
    requires Inv(s, initial)
    ensures Inv(Step(s, ReadSwap(wanted)), initial)
  {
    StepKeepsShape(s, ReadSwap(wanted));
    hide Legal, Latest, Unread;
    if s.consumer.Loaded? && s.consumer.seen == s.word {
      var value := s.buffers[Reading(s.word).active];
      HistoryPlus(s.history, if wanted then Read(s.word.full, value) else Drained, initial);
    }
  }

  lemma StepKeepsInv<T>(s: State<T>, e: Event<T>, initial: T)
    requires Inv(s, initial)
    ensures Inv(Step(s, e), initial)
  {
    hide Legal, Latest;
    match e {
      case CommitSwap => CommitKeepsInv(s, initial);
      case ReadSwap(wanted) => ReadKeepsInv(s, wanted, initial);
      case _ =>
    }
  }

  lemma {:induction false} RunsKeepInv<T>(initial: T, es: seq<Event<T>>)
    ensures Inv(Run(Init(initial), es), initial)
    decreases |es|
  {
    if es != [] {
      RunsKeepInv(initial, es[..|es| - 1]);
      StepKeepsInv(Run(Init(initial), es[..|es| - 1]), es[|es| - 1], initial);
    }
  }

  /** Linearisation: in every interleaving the reads are those of a latest-value register. */
  lemma {:induction false} BehavesAsRegister<T>(initial: T, es: seq<Event<T>>)
    ensures Legal(Run(Init(initial), es).history, initial)
  {
    RunsKeepInv(initial, es);
  }

  /** The two sides never hold the same buffer, and the word is always a permutation of 0..2. */
  lemma {:induction false} NeverShared<T>(initial: T, es: seq<Event<T>>)
    ensures var s := Run(Init(initial), es);
            Permutation(s.word) && (s.checkedOut && s.view.Some? ==> s.held != s.view.value)
  {
  }

  /** The buffer a read handed out keeps its contents until the consumer's next read takes effect. */
  lemma ViewIsStable<T>(initial: T, es: seq<Event<T>>, e: Event<T>)
    requires var s := Run(Init(initial), es); s.view.Some? && !e.ReadSwap?
    ensures var s := Run(Init(initial), es); var s' := Step(s, e);
            s'.view == s.view && s'.buffers[s.view.value] == s.buffers[s.view.value]
  {
  }

  // ----- Reads never go back -----------------------------------------------------------------------

  /** The committed values in order. */
  ghost function Commits<T>(h: seq<Action<T>>): seq<T> {
    if h == [] then []
    else Commits(h[..|h| - 1]) + if h[|h| - 1].Committed? then [h[|h| - 1].value] else []
  }

  /** The n-th value the register has held; the 0-th is the initial one. */
  ghost function Version<T>(initial: T, h: seq<Action<T>>, n: nat): T
    requires n <= |Commits(h)|
  {
    if n == 0 then initial else Commits(h)[n - 1]
  }

  lemma {:induction false} LatestIsLastVersion<T>(initial: T, h: seq<Action<T>>)
    ensures Latest(h, initial) == Version(initial, h, |Commits(h)|)
    decreases |h|
  {
    if h != [] { LatestIsLastVersion(initial, h[..|h| - 1]); }
  }

  lemma {:induction false} CommitsGrow<T>(h: seq<Action<T>>, i: nat)
    requires i <= |h|
    ensures Commits(h[..i]) <= Commits(h)
    decreases |h|
  {
    if i == |h| {
      assert h[..i] == h;
    } else {
      assert h[..|h| - 1][..i] == h[..i];
      CommitsGrow(h[..|h| - 1], i);
    }
  }

  lemma {:induction false} LegalBefore<T>(h: seq<Action<T>>, initial: T, i: nat)
    requires Legal(h, initial) && i <= |h|
    ensures Legal(h[..i], initial)
    decreases |h|
  {
    if i == |h| {
      assert h[..i] == h;
    } else {
      assert h[..|h| - 1][..i] == h[..i];
      LegalBefore(h[..|h| - 1], initial, i);
    }
  }

  /** The read at `i` returned the version that was newest at that moment. */
  lemma {:induction false} ReadReturnsVersion<T>(h: seq<Action<T>>, initial: T, i: nat)
    requires Legal(h, initial) && i < |h| && h[i].Read?
    ensures |Commits(h[..i])| <= |Commits(h)| && h[i].value == Version(initial, h, |Commits(h[..i])|)
  {
    LegalBefore(h, initial, i + 1);
    assert h[..i + 1][..i] == h[..i];
    LatestIsLastVersion(initial, h[..i]);
    CommitsGrow(h, i);
  }

  /** Of two reads the later one returns the same version or a newer one. */
  lemma {:induction false} ReadsNeverGoBack<T>(initial: T, es: seq<Event<T>>, i: nat, j: nat)
    returns (m: nat, n: nat)
    requires var h := Run(Init(initial), es).history; i < j < |h| && h[i].Read? && h[j].Read?
    ensures var h := Run(Init(initial), es).history;
            m <= n <= |Commits(h)| && h[i].value == Version(initial, h, m) && h[j].value == Version(initial, h, n)
  {
    var h := Run(Init(initial), es).history;
    BehavesAsRegister(initial, es);
    ReadReturnsVersion(h, initial, i);
    ReadReturnsVersion(h, initial, j);
    m, n := |Commits(h[..i])|, |Commits(h[..j])|;
    assert h[..j][..i] == h[..i];
    CommitsGrow(h[..j], i);
  }

  // ----- ABA: the word may return to an old value between load and compare-exchange ----------------

  /** A whole commit: get the free buffer, fill it, load, exchange. */
  ghost function WholeCommit<T>(s: State<T>, value: T): (r: State<T>)
    requires Shape(s)
    ensures Shape(r)
  {
    StepKeepsShape(s, GetFree);
    var s1 := Step(s, GetFree);
    StepKeepsShape(s1, Write(value));
    var s2 := Step(s1, Write(value));
    StepKeepsShape(s2, CommitLoad);
    var s3 := Step(s2, CommitLoad);
    StepKeepsShape(s3, CommitSwap);
    Step(s3, CommitSwap)
  }

  lemma WholeCommitSwaps<T>(s: State<T>, value: T)
    requires Shape(s) && s.producer.Idle?
    ensures var r := WholeCommit(s, value);
            && r.word == Committing(s.word) && r.consumer == s.consumer && r.producer.Idle?
            && r.buffers == s.buffers[s.word.free := value] && r.history == s.history + [Committed(value)]
  {
  }

  /**
   Two commits between the consumer's load of a full mailbox and its compare-exchange bring the word
   back to the loaded value; the exchange then succeeds and returns the second of them.
   */
  lemma AbaIsHarmless<T>(s: State<T>, first: T, second: T)
    requires Shape(s) && s.producer.Idle? && s.word.full && s.consumer == Loaded(s.word)
    ensures var r := WholeCommit(WholeCommit(s, first), second);
            && r.word == s.word && r.consumer == Loaded(r.word)
            && Step(r, ReadSwap(true)).history == r.history + [Read(true, second)]
  {
    WholeCommitSwaps(s, first);
    WholeCommitSwaps(WholeCommit(s, first), second);
  }
}

/** The class template of icon/utils/async_buffer.h; a buffer pointer is an index into `buffers`. */
module AsyncBufferClass {
  import opened Collections
  import opened AsyncBufferProtocol

  predicate ByConsumer<T>(e: Event<T>) {
    e.ReadLoad? || e.ReadSwap?
  }

  /** The buffer the consumer was handed has the same contents in both states. */
  ghost predicate SameView<T>(s: State<T>, s': State<T>) {
    s.view.Some? ==>
      s.view.value < |s.buffers| && s.view.value < |s'.buffers| && s'.buffers[s.view.value] == s.buffers[s.view.value]
  }

  lemma OtherSideKeeps<T>(s: State<T>, e: Event<T>)
    requires Shape(s)
    ensures ByConsumer(e) ==> Step(s, e).buffers == s.buffers && Step(s, e).checkedOut == s.checkedOut
                              && Step(s, e).held == s.held && Step(s, e).producer == s.producer
    ensures !ByConsumer(e) ==> Step(s, e).consumer == s.consumer && Step(s, e).view == s.view && SameView(s, Step(s, e))
  {
  }

  /** The accesses of the others in a batch. */
  function Foreign<T>(batch: seq<Event<T>>, asConsumer: bool): seq<Event<T>> {
    if batch == [] then []
    else
      var e := batch[|batch| - 1];
      Foreign(batch[..|batch| - 1], asConsumer) + if ByConsumer(e) != asConsumer then [e] else []
  }

  class AsyncBuffer<T(==)> {
    const initial: T
    const buffers: array<T>
    var word: Word
    var checkedOut: bool
    var held: nat
    var view: Option<nat>
    var producer: Pc
    var consumer: Pc
    /** What the other side will do, one batch between two accesses of the caller. */
    var schedule: seq<seq<Event<T>>>
    ghost var history: seq<Action<T>>
    ghost var log: seq<Event<T>>

    ghost function Snapshot(): State<T>
      reads this, buffers
    {
      State(word, buffers[..], checkedOut, held, view, producer, consumer, history)
    }

    /** The fields are what the protocol makes of the accesses logged so far. */
    ghost predicate Valid()
      reads this, buffers
    {
      Shape(Snapshot()) && Snapshot() == Run(Init(initial), log)
    }

    constructor (initial: T, schedule: seq<seq<Event<T>>>)
      ensures Valid() && fresh(buffers) && log == [] && this.initial == initial && this.schedule == schedule
      ensures !checkedOut && producer.Idle? && consumer.Idle?
    {
      this.initial := initial;
      buffers := new T[3](_ => initial);
      word := Word(0, 1, 2, false);
      checkedOut, held, view, producer, consumer := false, 0, None, Idle, Idle;
      this.schedule := schedule;
      history, log := [], [];
      new;
      assert buffers[..] == [initial, initial, initial];
    }

    /** Logs the access `e` that has just turned `before` into the current fields. */
    ghost method Record(before: State<T>, e: Event<T>)
      requires Shape(before) && before == Run(Init(initial), log) && Snapshot() == Step(before, e)
      modifies this`log
      ensures Valid() && log == old(log) + [e]
    {
      log := log + [e];
      assert log[..|log| - 1] == old(log);
      StepKeepsShape(before, e);
    }

    /** An access by the producer, seen from the consumer. */
    method FromProducer(e: Event<T>)
      requires Valid() && !ByConsumer(e)
      modifies this, buffers
      ensures Valid() && log == old(log) + [e] && schedule == old(schedule)
      ensures Snapshot() == Step(old(Snapshot()), e)
    {
      hide Run;
      match e {
        case GetFree => if producer.Idle? { checkedOut, held := true, word.free; }
        case Write(value) => if producer.Idle? && checkedOut { buffers[held] := value; }
        case CommitLoad => if producer.Idle? && checkedOut { producer := Loaded(word); }
        case CommitSwap =>
          if producer.Loaded? {
            if producer.seen == word {
              history := history + [Committed(buffers[word.free])];
              word, checkedOut := Committing(word), false;
            }
            producer := Idle;
          }
      }
      Record(old(Snapshot()), e);
    }

    /** An access by the consumer, seen from the producer. */
    method FromConsumer(e: Event<T>)
      requires Valid() && ByConsumer(e)
      modifies this
      ensures Valid() && log == old(log) + [e] && schedule == old(schedule)
      ensures Snapshot() == Step(old(Snapshot()), e)
    {
      hide Run;
      match e {
        case ReadLoad => if consumer.Idle? { consumer := Loaded(word); }
        case ReadSwap(wanted) =>
          if consumer.Loaded? {
            if consumer.seen == word {
              var next := Reading(word);
              history := history + [if wanted then Read(word.full, buffers[next.active]) else Drained];
              word, view := next, if wanted then Some(next.active) else None;
            }
            consumer := Idle;
          }
      }
      Record(old(Snapshot()), e);
    }

    /** Lets the other side run: the producer while the consumer yields, and the other way round. */
    method Yield(asConsumer: bool)
      requires Valid()
      modifies this, buffers
      ensures Valid() && old(log) <= log
      ensures asConsumer ==> consumer == old(consumer) && view == old(view) && SameView(old(Snapshot()), Snapshot())
      ensures !asConsumer ==>
                && producer == old(producer) && checkedOut == old(checkedOut) && held == old(held)
                && buffers[..] == old(buffers[..])
      ensures if old(schedule) == [] then Snapshot() == old(Snapshot()) && schedule == []
              else schedule == old(schedule)[1..]
      ensures old(schedule) != [] ==> log == old(log) + Foreign(old(schedule)[0], asConsumer)
    {
      hide Run;
      if schedule == [] { return; }
      var batch := schedule[0];
      schedule := schedule[1..];
      for i := 0 to |batch|
        invariant Valid() && old(log) <= log && schedule == old(schedule)[1..]
        invariant asConsumer ==> consumer == old(consumer) && view == old(view) && SameView(old(Snapshot()), Snapshot())
        invariant !asConsumer ==>
                    && producer == old(producer) && checkedOut == old(checkedOut) && held == old(held)
                    && buffers[..] == old(buffers[..])
        invariant log == old(log) + Foreign(batch[..i], asConsumer)
      {
        assert batch[..i + 1][..i] == batch[..i];
        if ByConsumer(batch[i]) != asConsumer {
          OtherSideKeeps(Snapshot(), batch[i]);
          if asConsumer { FromProducer(batch[i]); } else { FromConsumer(batch[i]); }
        }
      }
      assert batch[..|batch|] == batch;
    }

    /** Hands out the free buffer. */
    method GetFreeBuffer() returns (index: nat)
      requires Valid() && producer.Idle?
      modifies this, buffers
      ensures Valid() && log == old(log) + [GetFree] && index < 3 && index == held && checkedOut && producer.Idle?
      ensures view.Some? ==> index != view.value
    {
      hide Run;
      ghost var before := Snapshot();
      checkedOut, held := true, word.free;
      Record(before, GetFree);
      return held;
    }

    /** The load of the commit loop. */
    method LoadForCommit() returns (current: Word)
      requires Valid() && producer.Idle? && checkedOut
      modifies this
      ensures Valid() && log == old(log) + [CommitLoad] && schedule == old(schedule)
      ensures current == word == old(word) && producer == Loaded(current) && checkedOut && held == old(held)
    {
      hide Run;
      ghost var before := Snapshot();
      current := word;
      producer := Loaded(current);
      Record(before, CommitLoad);
    }

    /** The compare-exchange of the commit loop. */
    method SwapForCommit(current: Word) returns (done: bool)
      requires Valid() && producer == Loaded(current) && checkedOut
      modifies this
      ensures Valid() && log == old(log) + [CommitSwap] && schedule == old(schedule) && producer.Idle?
      ensures done == (old(word) == current) && checkedOut == !done && held == old(held)
      ensures done ==> word.full && history == old(history) + [Committed(buffers[held])]
    {
      hide Run;
      ghost var before := Snapshot();
      done := word == current;
      if done {
        history := history + [Committed(buffers[word.free])];
        word, checkedOut := Committing(current), false;
      }
      producer := Idle;
      Record(before, CommitSwap);
    }

    /** Publishes the buffer handed out last; false, and no effect, if none was. */
    method CommitFreeBuffer() returns (committed: bool)
      requires Valid() && producer.Idle?
      modifies this, buffers
      ensures Valid() && old(log) <= log && producer.Idle? && !checkedOut
      ensures committed == old(checkedOut)
      ensures if committed then history != [] && history[|history| - 1] == Committed(old(buffers[..])[old(held)])
              else Snapshot() == old(Snapshot())
    {
      hide Foreign, Run;
      if !checkedOut { return false; }
      var done := false;
      while !done
        invariant Valid() && old(log) <= log && producer.Idle? && held == old(held) && checkedOut == !done
        invariant buffers[..] == old(buffers[..])
        invariant done ==> history != [] && history[|history| - 1] == Committed(old(buffers[..])[old(held)])
        decreases |schedule|, !done
      {
        Yield(false);
        var current := LoadForCommit();
        Yield(false);
        done := SwapForCommit(current);
      }
      return true;
    }

    /** The load of the read loop. */
    method LoadForRead() returns (current: Word)
      requires Valid() && consumer.Idle?
      modifies this
      ensures Valid() && log == old(log) + [ReadLoad] && schedule == old(schedule)
      ensures current == word == old(word) && consumer == Loaded(current)
    {
      hide Run;
      ghost var before := Snapshot();
      current := word;
      consumer := Loaded(current);
      Record(before, ReadLoad);
    }

    /** The compare-exchange of the read loop. */
    method SwapForRead(current: Word, wanted: bool) returns (done: bool)
      requires Valid() && consumer == Loaded(current)
      modifies this
      ensures Valid() && log == old(log) + [ReadSwap(wanted)] && schedule == old(schedule) && consumer.Idle?
      ensures done == (old(word) == current)
      ensures done ==> word == Reading(current) && view == (if wanted then Some(word.active) else None)
      ensures done ==> history == old(history) + [if wanted then Read(current.full, buffers[word.active]) else Drained]
    {
      hide Run;
      ghost var before := Snapshot();
      done := word == current;
      if done {
        var next := Reading(current);
        history := history + [if wanted then Read(current.full, buffers[next.active]) else Drained];
        word, view := next, if wanted then Some(next.active) else None;
      }
      consumer := Idle;
      Record(before, ReadSwap(wanted));
    }

    /**
     Hands out the newest committed value and says whether it was committed since the last read. A null
     pointer (`wanted` false) empties the mailbox all the same and returns false.
     */
    method GetActiveBuffer(wanted: bool) returns (isNew: bool, index: nat)
      requires Valid() && consumer.Idle?
      modifies this, buffers
      ensures Valid() && old(log) < log && consumer.Idle? && index < 3 && !word.full && history != []
      ensures wanted ==> view == Some(index) && history[|history| - 1] == Read(isNew, buffers[index])
      ensures wanted ==> isNew == Unread(history[..|history| - 1])
                         && buffers[index] == Latest(history[..|history| - 1], initial)
      ensures !wanted ==> !isNew && history[|history| - 1] == Drained
    {
      hide Foreign, Run;
      var done := false;
      var current := word;
      while !done
        invariant Valid() && old(log) <= log && consumer.Idle? && (done ==> old(log) < log)
        invariant done ==> word == Reading(current) && view == (if wanted then Some(word.active) else None)
        invariant done ==> history != []
        invariant done ==>
                    history[|history| - 1] == if wanted then Read(current.full, buffers[word.active]) else Drained
        decreases |schedule|, !done
      {
        Yield(true);
        current := LoadForRead();
        Yield(true);
        done := SwapForRead(current, wanted);
      }
      RunsKeepInv(initial, log);
      return wanted && current.full, word.active;
    }
  }
}
