/**
 platform/common/buffers/rt_queue_buffer.h as a protocol: one reader and one writer on a ring, with the
 update of the shared size and the update of the private index as separate steps.
 */
module RingProtocol {
  import opened Collections

  /** Out, holding a slot, or between the update of the index and the update of the size. */
  datatype WriterPc = WriterOut | WriterSlot | WriterCounting

  datatype ReaderPc = ReaderOut | ReaderSlot | ReaderAdvancing

  /** `inserted` and `popped` list the values made available and the values dropped, in order. */
  datatype State<T> = State(buffer: seq<T>, head: nat, tail: nat, size: nat, writer: WriterPc, reader: ReaderPc,
                            inserted: seq<T>, popped: seq<T>)

  datatype Event<T> =
    | Prepare          // the load of Full() in PrepareInsert
    | Fill(value: T)   // the writer sets the element it was handed
    | Finish           // FinishInsert: head_ moves on
    | Count            // FinishInsert: size_ goes up
    | Front            // the load of Empty() in Front
    | Keep
    | Drop             // DropFront: size_ goes down
    | Advance          // DropFront: tail_ moves on

  ghost function Init<T>(buffer: seq<T>): State<T> {
    State(buffer, 0, 0, 0, WriterOut, ReaderOut, [], [])
  }

  /** The contents of the abstract queue. */
  ghost function Contents<T>(s: State<T>): seq<T>
    requires |s.popped| <= |s.inserted|
  {
    s.inserted[|s.popped|..]
  }

  function Ahead(busy: bool): nat { if busy then 1 else 0 }

  /** The slot that position `k` of the endless stream of values falls into. */
  function Slot(k: nat, n: nat): (slot: nat)
    requires n > 0
    ensures slot < n
  {
    if k == 0 || Slot(k - 1, n) + 1 == n then 0 else Slot(k - 1, n) + 1
  }

  /** The slot after `i`, computed as the code computes it. */
  function Next(i: nat, n: nat): (j: nat)
    requires i < n
    ensures j == if i + 1 == n then 0 else i + 1
  {
    (i + 1) % n
  }

  /** How indices, size and slots relate to the values inserted and popped so far. */
  ghost predicate Inv<T>(s: State<T>) {
    var n, ins, out := |s.buffer|, |s.inserted|, |s.popped|;
    && s.popped <= s.inserted
    && s.size == ins - out <= n
    && (s.writer != WriterOut ==> s.size < n)
    && (s.reader == ReaderSlot ==> s.size > 0)
    && (s.reader == ReaderAdvancing ==> out > 0)
    && (n == 0 ==> s.head == s.tail == 0 && s.inserted == [])
    && (n > 0 ==>
          && s.head == Slot(ins + Ahead(s.writer == WriterCounting), n)
          && s.tail == Slot(out - Ahead(s.reader == ReaderAdvancing), n)
          && forall k :: out <= k < ins ==> s.buffer[Slot(k, n)] == s.inserted[k])
  }

  /** One access; the remainder and the decrement are defined because the invariant holds. */
  ghost function Step<T>(s: State<T>, e: Event<T>): State<T>
    requires Inv(s)
  {
    match e
    case Prepare => if s.writer == WriterOut && s.size != |s.buffer| then s.(writer := WriterSlot) else s
    case Fill(value) => if s.writer == WriterSlot then s.(buffer := s.buffer[s.head := value]) else s
    case Finish =>
      if s.writer == WriterSlot then s.(writer := WriterCounting, head := Next(s.head, |s.buffer|)) else s
    case Count =>
      if s.writer == WriterCounting
      then s.(writer := WriterOut, size := s.size + 1,
              inserted := s.inserted + [s.buffer[Slot(|s.inserted|, |s.buffer|)]])
      else s
    case Front => if s.reader == ReaderOut && s.size != 0 then s.(reader := ReaderSlot) else s
    case Keep => if s.reader == ReaderSlot then s.(reader := ReaderOut) else s
    case Drop =>
      if s.reader == ReaderSlot
      then s.(reader := ReaderAdvancing, size := s.size - 1, popped := s.popped + [s.buffer[s.tail]]) else s
    case Advance =>
      if s.reader == ReaderAdvancing then s.(reader := ReaderOut, tail := Next(s.tail, |s.buffer|)) else s
  }

  lemma {:induction false} SlotFurther(k: nat, d: nat, n: nat)
    requires n > 0 && d <= n
    ensures Slot(k + d, n) == if Slot(k, n) + d < n then Slot(k, n) + d else Slot(k, n) + d - n
    decreases d
  {
    if d > 0 { SlotFurther(k, d - 1, n); }
  }

  /** Positions less than one lap apart are in different slots. */
  lemma SlotsDiffer(i: nat, j: nat, n: nat)
    requires i < j < i + n
    ensures Slot(i, n) != Slot(j, n)
  {
    SlotFurther(i, j - i, n);
  }

  lemma FillKeepsInv<T>(s: State<T>, value: T)
    requires Inv(s)
    ensures Inv(Step(s, Fill(value)))
  {
    var n := |s.buffer|;
    if s.writer == WriterSlot {
      forall k | |s.popped| <= k < |s.inserted| ensures s.head != Slot(k, n) { SlotsDiffer(k, |s.inserted|, n); }
    }
  }

  lemma CountKeepsInv<T>(s: State<T>)
    requires Inv(s)
    ensures Inv(Step(s, Count))
  {
  }

  lemma DropKeepsInv<T>(s: State<T>)
    requires Inv(s)
    ensures Inv(Step(s, Drop))
  {
    if s.reader == ReaderSlot { assert s.buffer[Slot(|s.popped|, |s.buffer|)] == s.inserted[|s.popped|]; }
  }

  lemma FinishKeepsInv<T>(s: State<T>)
    requires Inv(s)
    ensures Inv(Step(s, Finish))
  {
    hide Next;
  }

  lemma AdvanceKeepsInv<T>(s: State<T>)
    requires Inv(s)
    ensures Inv(Step(s, Advance))
  {
    hide Next;
  }

  lemma StepKeepsInv<T>(s: State<T>, e: Event<T>)
    requires Inv(s)
    ensures Inv(Step(s, e))
  {
    hide Slot, Next;
    match e {
      case Prepare =>
      case Fill(value) => FillKeepsInv(s, value);
      case Finish => FinishKeepsInv(s);
      case Count => CountKeepsInv(s);
      case Front =>
      case Keep =>
      case Drop => DropKeepsInv(s);
      case Advance => AdvanceKeepsInv(s);
    }
  }

  ghost function Run<T>(s: State<T>, es: seq<Event<T>>): (r: State<T>)
    requires Inv(s)
    ensures Inv(r)
  {
    if es == [] then s else
      var before := Run(s, es[..|es| - 1]);
      StepKeepsInv(before, es[|es| - 1]);
      Step(before, es[|es| - 1])
  }

  lemma InitHolds<T>(buffer: seq<T>)
    ensures Inv(Init(buffer))
  {
  }

  /** A bounded FIFO, at any capacity and in every interleaving: values come out in the order they went in. */
  lemma {:induction false} FirstInFirstOut<T>(buffer: seq<T>, es: seq<Event<T>>)
    ensures var s := Run(Init(buffer), es);
            s.popped <= s.inserted && s.size == |Contents(s)| && |Contents(s)| <= |buffer|
  {
    CapacityIsFixed(Init(buffer), es);
  }

  lemma {:induction false} CapacityIsFixed<T>(s: State<T>, es: seq<Event<T>>)
    requires Inv(s)
    ensures |Run(s, es).buffer| == |s.buffer|
    decreases |es|
  {
    hide Slot, Next, Inv, Step;
    if es != [] {
      CapacityIsFixed(s, es[..|es| - 1]);
      StepKeepsCapacity(Run(s, es[..|es| - 1]), es[|es| - 1]);
    }
  }

  lemma StepKeepsCapacity<T>(s: State<T>, e: Event<T>)
    requires Inv(s)
    ensures |Step(s, e).buffer| == |s.buffer|
  {
    hide Slot, Next;
  }

  /** The slot the reader holds is the oldest value, the slot the writer holds is another one. */
  lemma {:induction false} SlotsNeverMeet<T>(buffer: seq<T>, es: seq<Event<T>>)
    ensures var s := Run(Init(buffer), es);
            && (s.reader == ReaderSlot ==> s.buffer != [] && Contents(s) != [] && s.buffer[s.tail] == Contents(s)[0])
            && (s.reader == ReaderSlot && s.writer == WriterSlot ==> s.head != s.tail)
  {
    InitHolds(buffer);
    hide Slot, Run;
    var s := Run(Init(buffer), es);
    if s.reader == ReaderSlot {
      assert s.buffer[Slot(|s.popped|, |s.buffer|)] == s.inserted[|s.popped|];
      if s.writer == WriterSlot { SlotsDiffer(|s.popped|, |s.inserted|, |s.buffer|); }
    }
  }

  /** What each access does to the abstract queue: Count appends what was filled in, Drop removes the oldest. */
  lemma RefinesQueue<T>(s: State<T>, e: Event<T>)
    requires Inv(s)
    ensures Inv(Step(s, e))
    ensures Contents(Step(s, e)) ==
            if e.Count? && s.writer == WriterCounting then Contents(s) + [s.buffer[Slot(|s.inserted|, |s.buffer|)]]
            else if e.Drop? && s.reader == ReaderSlot then Contents(s)[1..]
            else Contents(s)
  {
    hide Slot, Next;
    StepKeepsInv(s, e);
  }

  /** PrepareInsert is refused exactly when the queue is full, Front exactly when it is empty. */
  lemma RefusedExactlyWhen<T>(s: State<T>)
    requires Inv(s)
    ensures s.writer == WriterOut ==> (Step(s, Prepare) == s <==> |Contents(s)| == |s.buffer|)
    ensures s.reader == ReaderOut ==> (Step(s, Front) == s <==> Contents(s) == [])
  {
  }

  /** What a ring of one element holds. */
  ghost function Held<T>(s: State<T>): Option<T>
    requires |s.popped| <= |s.inserted|
  {
    if Contents(s) == [] then None else Some(Contents(s)[0])
  }

  /**
   A ring of one element is a slot: Count puts what was filled in into the empty slot, Drop empties the full one and
   takes its value out, no other access shows, and the loads of Full() and Empty() tell whether there is a value.
   */
  lemma OneElementIsASlot<T>(s: State<T>, e: Event<T>)
    requires Inv(s) && |s.buffer| == 1
    ensures Inv(Step(s, e)) && |Step(s, e).buffer| == 1
    ensures var s' := Step(s, e);
            if e.Count? && s.writer == WriterCounting then Held(s) == None && Held(s') == Some(s.buffer[0])
            else if e.Drop? && s.reader == ReaderSlot
            then Held(s).Some? && Held(s') == None && s'.popped == s.popped + [Held(s).value]
            else Held(s') == Held(s)
    ensures e.Prepare? && s.writer == WriterOut ==> (Step(s, e).writer == WriterSlot <==> Held(s).None?)
    ensures e.Front? && s.reader == ReaderOut ==> (Step(s, e).reader == ReaderSlot <==> Held(s).Some?)
  {
    RefinesQueue(s, e);
    StepKeepsCapacity(s, e);
    assert Slot(|s.popped|, 1) == Slot(|s.inserted|, 1) == 0;
    hide Slot, Next;
    if s.reader == ReaderSlot { assert s.buffer[Slot(|s.popped|, 1)] == s.inserted[|s.popped|]; }
  }
}

/**
 RtQueueBuffer and the Reader and Writer of platform/common/buffers/rt_queue.h. A pointer to an element
 is an index into `buffer`; the other side's steps run between the caller's accesses.
 */
module RingClass {
  import opened Collections
  import opened RingProtocol

  predicate ByReader<T>(e: Event<T>) {
    e.Front? || e.Keep? || e.Drop? || e.Advance?
  }

  /** What one side finds unchanged however much the other side does. */
  ghost predicate WriterKeeps<T>(s: State<T>, s': State<T>) {
    && s'.reader == s.reader && s'.tail == s.tail && s'.popped == s.popped && s.inserted <= s'.inserted
  }

  ghost predicate ReaderKeeps<T>(s: State<T>, s': State<T>) {
    && s'.writer == s.writer && s'.head == s.head && s'.inserted == s.inserted && s.popped <= s'.popped
    && s'.buffer == s.buffer
  }

  lemma OtherSideKeeps<T>(s: State<T>, e: Event<T>)
    requires Inv(s)
    ensures if ByReader(e) then ReaderKeeps(s, Step(s, e)) else WriterKeeps(s, Step(s, e))
  {
    hide Slot, Next;
  }

  /** The accesses of the others in a batch. */
  function Foreign<T>(batch: seq<Event<T>>, asReader: bool): seq<Event<T>> {
    if batch == [] then []
    else
      var e := batch[|batch| - 1];
      Foreign(batch[..|batch| - 1], asReader) + if ByReader(e) != asReader then [e] else []
  }

  class RtQueueBuffer<T> {
    const buffer: array<T>
    ghost const start: seq<T>
    var head: nat
    var tail: nat
    var size: nat
    var insertInProgress: bool
    var frontAccessed: bool
    var writer: WriterPc
    var reader: ReaderPc
    var schedule: seq<seq<Event<T>>>
    ghost var inserted: seq<T>
    ghost var popped: seq<T>
    ghost var log: seq<Event<T>>

    ghost function Snapshot(): State<T>
      reads this, buffer
    {
      State(buffer[..], head, tail, size, writer, reader, inserted, popped)
    }

    /** The fields are what the protocol makes of the accesses logged so far. */
    ghost predicate Valid()
      reads this, buffer
    {
      && Inv(Init(start)) && Inv(Snapshot()) && Snapshot() == Run(Init(start), log)
      && insertInProgress == (writer == WriterSlot) && frontAccessed == (reader == ReaderSlot)
    }

    /** A queue over `elements`, whose length is the capacity. */
    constructor (elements: array<T>, schedule: seq<seq<Event<T>>>)
      ensures Valid() && buffer == elements && log == [] && Contents(Snapshot()) == [] && this.schedule == schedule
    {
      buffer, start := elements, elements[..];
      head, tail, size, insertInProgress, frontAccessed := 0, 0, 0, false, false;
      writer, reader, this.schedule := WriterOut, ReaderOut, schedule;
      inserted, popped, log := [], [], [];
      new;
      InitHolds(start);
    }

    ghost method Record(before: State<T>, e: Event<T>)
      requires Inv(Init(start)) && Inv(before) && before == Run(Init(start), log) && Snapshot() == Step(before, e)
      requires insertInProgress == (writer == WriterSlot) && frontAccessed == (reader == ReaderSlot)
      modifies this`log
      ensures Valid() && log == old(log) + [e]
    {
      hide Inv, Slot, Next;
      log := log + [e];
      assert log[..|log| - 1] == old(log);
      StepKeepsInv(before, e);
    }

    /** The load of Full() and what follows from it. */
    method AccessPrepare()
      requires Valid()
      modifies this
      ensures Valid() && log == old(log) + [Prepare] && schedule == old(schedule)
              && Snapshot() == Step(old(Snapshot()), Prepare)
    {
      hide Run, Slot;
      if writer == WriterOut && size != buffer.Length { writer, insertInProgress := WriterSlot, true; }
      Record(old(Snapshot()), Prepare);
    }

    /** Sets the element that PrepareInsert handed out. */
    method AccessFill(value: T)
      requires Valid()
      modifies this, buffer
      ensures Valid() && log == old(log) + [Fill(value)] && schedule == old(schedule)
              && Snapshot() == Step(old(Snapshot()), Fill(value))
    {
      hide Run, Slot;
      if writer == WriterSlot { buffer[head] := value; }
      Record(old(Snapshot()), Fill(value));
    }

    /** The flag and head_ in FinishInsert. */
    method AccessFinish()
      requires Valid()
      modifies this
      ensures Valid() && log == old(log) + [Finish] && schedule == old(schedule)
              && Snapshot() == Step(old(Snapshot()), Finish)
    {
      hide Run, Slot;
      if writer == WriterSlot {
        insertInProgress, head, writer := false, Next(head, buffer.Length), WriterCounting;
      }
      Record(old(Snapshot()), Finish);
    }

    /** The fetch_add in FinishInsert. */
    method AccessCount()
      requires Valid()
      modifies this
      ensures Valid() && log == old(log) + [Count] && schedule == old(schedule)
              && Snapshot() == Step(old(Snapshot()), Count)
    {
      hide Run, Slot;
      if writer == WriterCounting {
        inserted := inserted + [buffer[Slot(|inserted|, buffer.Length)]];
        size, writer := size + 1, WriterOut;
      }
      Record(old(Snapshot()), Count);
    }

    /** The load of Empty() and what follows from it. */
    method AccessFront()
      requires Valid()
      modifies this
      ensures Valid() && log == old(log) + [RingProtocol.Front] && schedule == old(schedule)
              && Snapshot() == Step(old(Snapshot()), RingProtocol.Front)
    {
      hide Run, Slot;
      if reader == ReaderOut && size != 0 { reader, frontAccessed := ReaderSlot, true; }
      Record(old(Snapshot()), RingProtocol.Front);
    }

    /** The flag in KeepFront. */
    method AccessKeep()
      requires Valid()
      modifies this
      ensures Valid() && log == old(log) + [Keep] && schedule == old(schedule)
              && Snapshot() == Step(old(Snapshot()), Keep)
    {
      hide Run, Slot;
      if reader == ReaderSlot { reader, frontAccessed := ReaderOut, false; }
      Record(old(Snapshot()), Keep);
    }

    /** The flag and the fetch_sub in DropFront. */
    method AccessDrop()
      requires Valid()
      modifies this
      ensures Valid() && log == old(log) + [Drop] && schedule == old(schedule)
              && Snapshot() == Step(old(Snapshot()), Drop)
    {
      hide Run, Slot;
      if reader == ReaderSlot {
        popped := popped + [buffer[tail]];
        frontAccessed, size, reader := false, size - 1, ReaderAdvancing;
      }
      Record(old(Snapshot()), Drop);
    }

    /** tail_ in DropFront. */
    method AccessAdvance()
      requires Valid()
      modifies this
      ensures Valid() && log == old(log) + [Advance] && schedule == old(schedule)
              && Snapshot() == Step(old(Snapshot()), Advance)
    {
      hide Run, Slot;
      if reader == ReaderAdvancing { tail, reader := Next(tail, buffer.Length), ReaderOut; }
      Record(old(Snapshot()), Advance);
    }

    method Access(e: Event<T>)
      requires Valid()
      modifies this, buffer
      ensures Valid() && log == old(log) + [e] && schedule == old(schedule) && Snapshot() == Step(old(Snapshot()), e)
    {
      hide Run, Slot, Next, Inv, Step;
      match e {
        case Prepare => AccessPrepare();
        case Fill(value) => AccessFill(value);
        case Finish => AccessFinish();
        case Count => AccessCount();
        case Front => AccessFront();
        case Keep => AccessKeep();
        case Drop => AccessDrop();
        case Advance => AccessAdvance();
      }
    }

    method Yield(asReader: bool)
      requires Valid()
      modifies this, buffer
      ensures Valid() && old(log) <= log
      ensures if asReader then WriterKeeps(old(Snapshot()), Snapshot()) else ReaderKeeps(old(Snapshot()), Snapshot())
      ensures if old(schedule) == [] then Snapshot() == old(Snapshot()) && schedule == []
              else schedule == old(schedule)[1..] && log == old(log) + Foreign(old(schedule)[0], asReader)
    {
      hide Run, Inv, Slot, Next;
      if schedule == [] { return; }
      var batch := schedule[0];
      schedule := schedule[1..];
      for i := 0 to |batch|
        invariant Valid() && old(log) <= log
        invariant if asReader then WriterKeeps(old(Snapshot()), Snapshot())
                  else ReaderKeeps(old(Snapshot()), Snapshot())
        invariant schedule == old(schedule)[1..] && log == old(log) + Foreign(batch[..i], asReader)
      {
        assert batch[..i + 1][..i] == batch[..i];
        if ByReader(batch[i]) != asReader {
          OtherSideKeeps(Snapshot(), batch[i]);
          Access(batch[i]);
        }
      }
      assert batch[..|batch|] == batch;
    }

    /** The front element, or None exactly if the queue is empty at that moment. */
    method Front() returns (slot: Option<nat>)
      requires Valid() && reader == ReaderOut
      modifies this, buffer
      ensures Valid() && old(log) < log && popped == old(popped) && (frontAccessed <==> slot.Some?)
      ensures reader == if slot.Some? then ReaderSlot else ReaderOut
      ensures slot.None? <==> Contents(Snapshot()) == []
      ensures slot.Some? ==> slot.value == tail < buffer.Length && buffer[tail] == Contents(Snapshot())[0]
    {
      hide Foreign, Run, Slot, Next, Inv, Step;
      Yield(true);
      FrontStep(Snapshot());
      AccessFront();
      return if frontAccessed then Some(tail) else None;
    }

    method KeepFront()
      requires Valid() && frontAccessed
      modifies this, buffer
      ensures Valid() && old(log) < log && reader == ReaderOut && popped == old(popped)
    {
      hide Foreign, Run, Slot, Next, Inv, Step;
      Yield(true);
      KeepStep(Snapshot());
      AccessKeep();
    }

    /** Removes the element that Front handed out, which is still the oldest one. */
    method DropFront()
      requires Valid() && frontAccessed
      modifies this, buffer
      ensures Valid() && old(log) < log && reader == ReaderOut
      ensures popped == old(popped) + [old(Contents(Snapshot()))[0]]
    {
      hide Foreign, Run, Slot, Next, Inv, Step;
      FrontIsOldest(Snapshot());
      Yield(true);
      DropRemovesOldest(Snapshot());
      assert Contents(Snapshot())[0] == inserted[|popped|] == old(inserted)[|popped|];
      AccessDrop();
      Yield(true);
      DropRemovesOldest(Snapshot());
      AccessAdvance();
    }

    /** The element to fill in, or None exactly if the queue is full at that moment. */
    method PrepareInsert() returns (slot: Option<nat>)
      requires Valid() && writer == WriterOut
      modifies this, buffer
      ensures Valid() && old(log) < log && inserted == old(inserted) && (insertInProgress <==> slot.Some?)
              && writer != WriterCounting
      ensures slot.None? <==> |Contents(Snapshot())| == buffer.Length
      ensures slot.Some? ==> slot.value == head < buffer.Length && (frontAccessed ==> slot.value != tail)
    {
      hide Foreign, Run, Slot, Next, Inv, Step;
      Yield(false);
      PrepareStep(Snapshot());
      AccessPrepare();
      return if insertInProgress then Some(head) else None;
    }

    /** Makes the element that PrepareInsert handed out available. */
    method FinishInsert()
      requires Valid() && insertInProgress
      modifies this, buffer
      ensures Valid() && old(log) < log && writer == WriterOut
              && inserted == old(inserted) + [old(buffer[..])[old(head)]]
    {
      hide Foreign, Run, Slot, Next, Inv, Step;
      InsertSteps(Snapshot());
      Yield(false);
      InsertSteps(Snapshot());
      AccessFinish();
      Yield(false);
      InsertSteps(Snapshot());
      AccessCount();
    }

    /** Reader::Pop: the oldest value leaves the queue, or the queue was empty. */
    method Pop() returns (r: Option<T>)
      requires Valid() && reader == ReaderOut
      modifies this, buffer
      ensures Valid() && old(log) < log && reader == ReaderOut
      ensures popped == old(popped) + if r.Some? then [r.value] else []
      ensures r.None? ==> Contents(Snapshot()) == []
    {
      hide Run, Slot, Next, Inv;
      var slot := Front();
      if slot.None? { return None; }
      r := Some(buffer[slot.value]);
      DropFront();
    }

    /** Writer::Insert: false, and no change, exactly if the queue was full. */
    method Insert(item: T) returns (done: bool)
      requires Valid() && writer == WriterOut
      modifies this, buffer
      ensures Valid() && old(log) < log && writer == WriterOut
      ensures inserted == old(inserted) + if done then [item] else []
      ensures !done ==> |Contents(Snapshot())| == buffer.Length
    {
      hide Run, Slot, Next, Inv, Step;
      var slot := PrepareInsert();
      if slot.None? { return false; }
      FillStep(Snapshot(), item);
      AccessFill(item);
      FinishInsert();
      return true;
    }
  }

  lemma FrontIsOldest<T>(s: State<T>)
    requires Inv(s)
    ensures s.popped <= s.inserted
    ensures s.reader == ReaderSlot ==> s.tail < |s.buffer| && Contents(s) != [] && s.buffer[s.tail] == Contents(s)[0]
  {
    if s.reader == ReaderSlot { assert s.buffer[Slot(|s.popped|, |s.buffer|)] == s.inserted[|s.popped|]; }
  }

  /** The load of Empty() hands out the oldest value, or finds that there is none. */
  lemma FrontStep<T>(s: State<T>)
    requires Inv(s) && s.reader == ReaderOut
    ensures var s' := Step(s, RingProtocol.Front);
            && s'.popped == s.popped <= s'.inserted && s'.buffer == s.buffer && s'.tail == s.tail
            && s'.reader == (if Contents(s') == [] then ReaderOut else ReaderSlot)
            && (s'.reader == ReaderSlot ==> s'.tail < |s'.buffer| && s'.buffer[s'.tail] == Contents(s')[0])
  {
    hide Slot, Next;
    StepKeepsInv(s, RingProtocol.Front);
    FrontIsOldest(Step(s, RingProtocol.Front));
  }

  lemma KeepStep<T>(s: State<T>)
    requires Inv(s) && s.reader == ReaderSlot
    ensures var s' := Step(s, Keep); s'.reader == ReaderOut && s'.popped == s.popped
  {
    hide Slot, Next;
  }

  /** The load of Full() hands out a slot that the reader does not hold, or finds that there is none. */
  lemma PrepareStep<T>(s: State<T>)
    requires Inv(s) && s.writer == WriterOut
    ensures var s' := Step(s, Prepare);
            && s'.inserted == s.inserted && s'.popped <= s'.inserted && s'.buffer == s.buffer && s'.head == s.head
            && s'.writer == (if |Contents(s')| == |s'.buffer| then WriterOut else WriterSlot)
            && (s'.writer == WriterSlot ==> s'.head < |s'.buffer| && (s'.reader == ReaderSlot ==> s'.head != s'.tail))
  {
    hide Slot, Next;
    StepKeepsInv(s, Prepare);
    SlotIsFree(Step(s, Prepare));
  }

  lemma FillStep<T>(s: State<T>, value: T)
    requires Inv(s) && s.writer == WriterSlot && s.head < |s.buffer|
    ensures Step(s, Fill(value)) == s.(buffer := s.buffer[s.head := value])
  {
    hide Slot, Next;
  }

  /** The two halves of FinishInsert: the index moves on, then what is in the slot counts as inserted. */
  lemma InsertSteps<T>(s: State<T>)
    requires Inv(s)
    ensures s.writer == WriterSlot ==>
              && s.head < |s.buffer| && s.head == Slot(|s.inserted|, |s.buffer|)
              && (var s' := Step(s, Finish);
                  s'.writer == WriterCounting && s'.inserted == s.inserted && s'.buffer == s.buffer)
    ensures s.writer == WriterCounting ==>
              && s.buffer != []
              && (var s' := Step(s, Count);
                  s'.writer == WriterOut && s'.inserted == s.inserted + [s.buffer[Slot(|s.inserted|, |s.buffer|)]])
  {
    SlotIsFree(s);
    hide Slot, Next;
  }

  lemma DropRemovesOldest<T>(s: State<T>)
    requires Inv(s)
    ensures s.popped <= s.inserted
    ensures s.reader == ReaderSlot ==>
      && Contents(s) != [] && Step(s, Drop).popped == s.popped + [Contents(s)[0]]
      && Step(s, Drop).reader == ReaderAdvancing
    ensures s.reader == ReaderAdvancing ==> Step(s, Advance).popped == s.popped && Step(s, Advance).reader == ReaderOut
  {
    FrontIsOldest(s);
  }

  lemma SlotIsFree<T>(s: State<T>)
    requires Inv(s)
    ensures s.writer == WriterSlot ==> s.head < |s.buffer| && s.head == Slot(|s.inserted|, |s.buffer|)
    ensures s.writer == WriterSlot && s.reader == ReaderSlot ==> s.head != s.tail
  {
    if s.writer == WriterSlot && s.reader == ReaderSlot { SlotsDiffer(|s.popped|, |s.inserted|, |s.buffer|); }
  }
}
