/**
 Handles on shared memory segments and the reference counters in the segments' headers (memory_segment.cc and
 segment_header.cc in icon/interprocess/shared_memory_manager/).
 */
module SegmentRefs {
  import opened Collections

  datatype Kind = Unknown | ReadOnly | ReadWrite

  class SegmentHeader {
    var readers: int
    var writers: int

    constructor ()
      ensures readers == 0 && writers == 0
    {
      readers, writers := 0, 0;
    }

    method IncrementReaderRefCount()
      modifies `readers
      ensures readers == old(readers) + 1
    {
      readers := readers + 1;
    }

    method IncrementWriterRefCount()
      modifies `writers
      ensures writers == old(writers) + 1
    {
      writers := writers + 1;
    }

    /** A counter stays at zero. */
    method DecrementReaderRefCount()
      modifies `readers
      ensures readers == if old(readers) > 0 then old(readers) - 1 else old(readers)
    {
      if readers > 0 { readers := readers - 1; }
    }

    method DecrementWriterRefCount()
      modifies `writers
      ensures writers == if old(writers) > 0 then old(writers) - 1 else old(writers)
    {
      if writers > 0 { writers := writers - 1; }
    }
  }

  // ----- Counting ------------------------------------------------------------------------------------

  /** What a handle stands for. */
  datatype Hold = Hold(header: SegmentHeader?, kind: Kind)

  ghost function Held(live: set<MemorySegment>): map<MemorySegment, Hold>
    reads live`header, live`kind
  {
    map s | s in live :: Hold(s.header, s.kind)
  }

  ghost function Holders(held: map<MemorySegment, Hold>, hold: Hold): set<MemorySegment> {
    set s | s in held && held[s] == hold
  }

  ghost function One(b: bool): nat { if b then 1 else 0 }

  lemma HoldersAdded(held: map<MemorySegment, Hold>, s: MemorySegment, v: Hold, hold: Hold)
    requires s !in held
    ensures |Holders(held[s := v], hold)| == |Holders(held, hold)| + One(v == hold)
  {
    assert Holders(held[s := v], hold) == if v == hold then Holders(held, hold) + {s} else Holders(held, hold);
  }

  lemma HoldersRemoved(held: map<MemorySegment, Hold>, s: MemorySegment, hold: Hold)
    requires s in held
    ensures |Holders(held, hold)| == |Holders(held - {s}, hold)| + One(held[s] == hold)
  {
    assert Holders(held, hold) == if held[s] == hold then Holders(held - {s}, hold) + {s}
                                  else Holders(held - {s}, hold);
  }

  /** The counters of the segment at `h` are the numbers of read-only and read-write handles on it. */
  ghost predicate Fair(held: map<MemorySegment, Hold>, h: SegmentHeader, readers: int, writers: int) {
    readers == |Holders(held, Hold(h, ReadOnly))| && writers == |Holders(held, Hold(h, ReadWrite))|
  }

  lemma FairAdded(held: map<MemorySegment, Hold>, s: MemorySegment, v: Hold, h: SegmentHeader, readers: int,
                  writers: int)
    requires s !in held && Fair(held, h, readers, writers)
    ensures Fair(held[s := v], h, readers + One(v == Hold(h, ReadOnly)), writers + One(v == Hold(h, ReadWrite)))
  {
    HoldersAdded(held, s, v, Hold(h, ReadOnly));
    HoldersAdded(held, s, v, Hold(h, ReadWrite));
  }

  /** Without its own handle a counter is one less, so it was not zero. */
  lemma FairRemoved(held: map<MemorySegment, Hold>, s: MemorySegment, h: SegmentHeader, readers: int, writers: int)
    requires s in held && Fair(held, h, readers, writers)
    ensures Fair(held - {s}, h, readers - One(held[s] == Hold(h, ReadOnly)),
                 writers - One(held[s] == Hold(h, ReadWrite)))
    ensures (held[s] == Hold(h, ReadOnly) ==> readers > 0) && (held[s] == Hold(h, ReadWrite) ==> writers > 0)
  {
    HoldersRemoved(held, s, Hold(h, ReadOnly));
    HoldersRemoved(held, s, Hold(h, ReadWrite));
  }

  /** Passing a handle on to `s`, which stands for nothing yet, changes no counter. */
  lemma FairMoved(held: map<MemorySegment, Hold>, s: MemorySegment, other: MemorySegment, h: SegmentHeader,
                  readers: int, writers: int)
    requires other in held && s !in held && Fair(held, h, readers, writers)
    ensures Fair(held[other := NOTHING][s := held[other]], h, readers, writers)
  {
    var v := held[other];
    var r, w := One(v == Hold(h, ReadOnly)), One(v == Hold(h, ReadWrite));
    FairRemoved(held, other, h, readers, writers);
    FairAdded(held - {other}, other, NOTHING, h, readers - r, writers - w);
    assert (held - {other})[other := NOTHING] == held[other := NOTHING];
    FairAdded(held[other := NOTHING], s, v, h, readers - r, writers - w);
  }

  ghost const NOTHING := Hold(null, Unknown)

  /** Every segment's counters are the numbers of live handles on it. */
  ghost predicate Balanced(live: set<MemorySegment>, headers: set<SegmentHeader>)
    reads live`header, live`kind, headers
  {
    && (forall s :: s in live && s.header != null ==> s.header in headers)
    && (forall h :: h in headers ==> Fair(Held(live), h, h.readers, h.writers))
  }

  class MemorySegment {
    var name: string
    var header: SegmentHeader?
    var value: nat
    var size: nat
    var kind: Kind

    /** Takes a handle on the segment at `header`, if there is one, among the handles `live`. */
    constructor (name: string, header: SegmentHeader?, value: nat, size: nat, kind: Kind,
                 ghost live: set<MemorySegment>, ghost headers: set<SegmentHeader>)
      requires Balanced(live, headers) && (header != null ==> header in headers)
      modifies headers
      ensures this.header == header && this.kind == kind
      ensures this.name == name && this.size == size && this.value == value
      ensures Balanced(live + {this}, headers)
    {
      this.name, this.header, this.value, this.size, this.kind := name, header, value, size, kind;
      new;
      hide Fair;
      ghost var before: map<MemorySegment, Hold> := old(Held(live));
      forall h | h in headers { FairAdded(before, this, Hold(header, kind), h, h.readers, h.writers); }
      if header != null {
        match kind {
          case ReadOnly => header.IncrementReaderRefCount();
          case ReadWrite => header.IncrementWriterRefCount();
          case Unknown =>
        }
      }
      assert Held(live + {this}) == before[this := Hold(header, kind)];
    }

    /** Takes over the handle of `other`, which then stands for nothing. */
    constructor Move(other: MemorySegment, ghost live: set<MemorySegment>, ghost headers: set<SegmentHeader>)
      requires other in live && Balanced(live, headers)
      modifies other
      ensures header == old(other.header) && kind == old(other.kind)
      ensures name == old(other.name) && size == old(other.size) && value == old(other.value)
      ensures other.header == null && other.kind.Unknown? && other.name == "" && other.size == other.value == 0
      ensures Balanced(live + {this}, headers)
    {
      name, header, value, size, kind := other.name, other.header, other.value, other.size, other.kind;
      new;
      hide Fair;
      other.name, other.header, other.value, other.size, other.kind := "", null, 0, 0, Unknown;
      ghost var before: map<MemorySegment, Hold> := old(Held(live));
      assert Held(live + {this}) == before[other := NOTHING][this := before[other]];
      hide Held;
      forall h | h in headers { FairMoved(before, this, other, h, h.readers, h.writers); }
    }

    /** Gives up the handle, which stands for something that must not be counted any more. */
    method CleanUpSharedMemory(ghost live: set<MemorySegment>, ghost headers: set<SegmentHeader>)
      requires this in live && Balanced(live, headers)
      modifies headers
      ensures Balanced(live - {this}, headers)
      ensures header != null && kind.ReadOnly? ==> header.readers == old(header.readers) - 1
      ensures header != null && kind.ReadWrite? ==> header.writers == old(header.writers) - 1
    {
      hide Fair;
      ghost var before: map<MemorySegment, Hold> := Held(live);
      forall h | h in headers { FairRemoved(before, this, h, h.readers, h.writers); }
      if header != null {
        match kind {
          case ReadWrite => header.DecrementWriterRefCount();
          case ReadOnly => header.DecrementReaderRefCount();
          case Unknown =>
        }
      }
      assert Held(live - {this}) == before - {this};
    }

    /** Gives up the own handle and takes over that of `other`; nothing happens if both are the same. */
    method MoveAssign(other: MemorySegment, ghost live: set<MemorySegment>, ghost headers: set<SegmentHeader>)
      requires this in live && other in live && Balanced(live, headers)
      modifies this, other, headers
      ensures Balanced(live, headers)
      ensures header == old(other.header) && kind == old(other.kind)
      ensures name == old(other.name) && size == old(other.size) && value == old(other.value)
      ensures this != other ==>
                other.header == null && other.kind.Unknown? && other.name == "" && other.size == other.value == 0
    {
      if this != other {
        CleanUpSharedMemory(live, headers);
        TakeOver(other, live - {this}, headers);
        assert live - {this} + {this} == live;
      }
    }

    method TakeFields(other: MemorySegment)
      requires this != other
      modifies this, other
      ensures name == old(other.name) && size == old(other.size) && value == old(other.value)
      ensures header == old(other.header) && kind == old(other.kind)
      ensures other.header == null && other.kind.Unknown? && other.name == "" && other.size == other.value == 0
    {
      name, header, value, size, kind := other.name, other.header, other.value, other.size, other.kind;
      other.name, other.header, other.value, other.size, other.kind := "", null, 0, 0, Unknown;
    }

    /** The second half of MoveAssign, when the own handle is no longer counted. */
    method TakeOver(other: MemorySegment, ghost live: set<MemorySegment>, ghost headers: set<SegmentHeader>)
      requires this !in live && other in live && Balanced(live, headers)
      modifies this, other
      ensures Balanced(live + {this}, headers)
      ensures header == old(other.header) && kind == old(other.kind)
      ensures name == old(other.name) && size == old(other.size) && value == old(other.value)
      ensures other.header == null && other.kind.Unknown? && other.name == "" && other.size == other.value == 0
    {
      hide Fair;
      ghost var before: map<MemorySegment, Hold> := Held(live);
      TakeFields(other);
      assert Held(live + {this}) == before[other := NOTHING][this := before[other]];
      forall h | h in headers { FairMoved(before, this, other, h, h.readers, h.writers); }
    }
  }

  // ----- Any sequence of operations --------------------------------------------------------------------

  /** What a program can do with its handles, which are referred to by position. */
  datatype Op =
    | Create(h: nat, kind: Kind)
    | Construct(i: nat)                   // a new handle takes over that of the one at i
    | Assign(i: nat, j: nat)              // the one at i takes over that of the one at j, which may be the same
    | Destroy(i: nat)

  /** What the handles stand for, in order. */
  ghost function HoldsOf(handles: seq<MemorySegment>): (holds: seq<Hold>)
    reads handles
    ensures |holds| == |handles|
  {
    seq(|handles|, k requires 0 <= k < |handles| reads handles => Hold(handles[k].header, handles[k].kind))
  }

  /** What an operation makes of that; one on a handle that is not there does nothing. */
  ghost function After(op: Op, holds: seq<Hold>, headers: seq<SegmentHeader>): seq<Hold> {
    match op
    case Create(h, kind) => holds + [Hold(if h < |headers| then headers[h] else null, kind)]
    case Construct(i) => if i < |holds| then holds[i := NOTHING] + [holds[i]] else holds
    case Assign(i, j) =>
      if i < |holds| && j < |holds| && i != j then holds[i := holds[j]][j := NOTHING] else holds
    case Destroy(i) => if i < |holds| then holds[..i] + holds[i + 1..] else holds
  }

  ghost function AfterAll(ops: seq<Op>, headers: seq<SegmentHeader>): seq<Hold> {
    if ops == [] then [] else After(ops[|ops| - 1], AfterAll(ops[..|ops| - 1], headers), headers)
  }

  lemma Without<T>(s: seq<T>, i: nat)
    requires Distinct(s) && i < |s|
    ensures Distinct(s[..i] + s[i + 1..]) && Elements(s[..i] + s[i + 1..]) == Elements(s) - {s[i]}
  {
    var r := s[..i] + s[i + 1..];
    forall x | x in Elements(s) - {s[i]} ensures x in r {
      var j :| 0 <= j < |s| && s[j] == x;
      assert x == if j < i then r[j] else r[j - 1];
    }
  }

  lemma NoHandles(headers: set<SegmentHeader>)
    requires forall h :: h in headers ==> h.readers == 0 && h.writers == 0
    ensures Balanced({}, headers)
  {
    forall h | h in headers ensures Fair(Held({}), h, 0, 0) {
      assert Holders(map[], Hold(h, ReadOnly)) == {} && Holders(map[], Hold(h, ReadWrite)) == {};
      assert Held({}) == map[];
    }
  }

  /**
   Carries out any operations on segments without handles. What the handles then stand for is what the operations make
   of it, and every counter is the number of handles that stand for it.
   */
  method Perform(ops: seq<Op>, headers: seq<SegmentHeader>) returns (handles: seq<MemorySegment>)
    requires forall h :: h in headers ==> h.readers == 0 && h.writers == 0
    modifies Elements(headers)
    ensures Distinct(handles) && HoldsOf(handles) == AfterAll(ops, headers)
    ensures Balanced(Elements(handles), Elements(headers))
  {
    handles := [];
    ghost var all := Elements(headers);
    NoHandles(all);
    assert Elements(handles) == {};
    for k := 0 to |ops|
      invariant Distinct(handles) && Balanced(Elements(handles), all)
      invariant forall s :: s in handles ==> fresh(s)
      invariant HoldsOf(handles) == AfterAll(ops[..k], headers)
    {
      assert ops[..k + 1][..k] == ops[..k];
      handles := PerformOne(ops[k], handles, headers);
    }
    assert ops[..|ops|] == ops;
  }

  method PerformCreate(h: nat, kind: Kind, handles: seq<MemorySegment>, headers: seq<SegmentHeader>)
    returns (handles': seq<MemorySegment>)
    requires Distinct(handles) && Balanced(Elements(handles), Elements(headers))
    modifies Elements(headers)
    ensures Distinct(handles') && Balanced(Elements(handles'), Elements(headers))
    ensures |handles'| == |handles| + 1 && handles <= handles' && fresh(handles'[|handles|])
    ensures HoldsOf(handles') == After(Create(h, kind), old(HoldsOf(handles)), headers)
  {
    hide Balanced;
    var header := if h < |headers| then headers[h] else null;
    var s := new MemorySegment("segment", header, 1, 1, kind, Elements(handles), Elements(headers));
    handles' := handles + [s];
    assert Elements(handles') == Elements(handles) + {s};
  }

  method PerformOne(op: Op, handles: seq<MemorySegment>, headers: seq<SegmentHeader>)
    returns (handles': seq<MemorySegment>)
    requires Distinct(handles) && Balanced(Elements(handles), Elements(headers))
    modifies Elements(handles), Elements(headers)
    ensures Distinct(handles') && Balanced(Elements(handles'), Elements(headers))
    ensures forall s :: s in handles' ==> s in handles || fresh(s)
    ensures HoldsOf(handles') == After(op, old(HoldsOf(handles)), headers)
  {
    hide Balanced;
    handles' := handles;
    ghost var live, all := Elements(handles), Elements(headers);
    if op.Create? {
      handles' := PerformCreate(op.h, op.kind, handles, headers);
    } else if op.Construct? && op.i < |handles| {
      var s := new MemorySegment.Move(handles[op.i], live, all);
      handles' := handles + [s];
      assert Elements(handles') == live + {s};
    } else if op.Assign? && op.i < |handles| && op.j < |handles| {
      handles[op.i].MoveAssign(handles[op.j], live, all);
    } else if op.Destroy? && op.i < |handles| {
      handles[op.i].CleanUpSharedMemory(live, all);
      Without(handles, op.i);
      handles' := handles[..op.i] + handles[op.i + 1..];
    }
  }
}
