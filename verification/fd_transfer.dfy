/** Fixed-size strings (icon/flatbuffers/fixed_string.h). */
module FixedString {

  type Byte = b: int | 0 <= b < 256

  function Min(a: nat, b: nat): nat { if a < b then a else b }

  function Zeros(n: nat): seq<Byte> { seq(n, _ => 0) }

  /** The contents of an array of `size` bytes after StringCopy. */
  function Field(text: seq<Byte>, size: nat): (field: seq<Byte>)
    requires size > 0
    ensures |field| == size
  {
    var n := Min(size - 1, |text|);
    text[..n] + Zeros(size - n)
  }

  /** What StringView makes of an array: everything up to the first NUL. */
  function View(field: seq<Byte>): (text: seq<Byte>)
    ensures |text| <= |field| && text == field[..|text|] && 0 !in text
    ensures |text| == |field| || field[|text|] == 0
  {
    if field == [] || field[0] == 0 then [] else [field[0]] + View(field[1..])
  }

  /** A text that survives being stored in an array of `size` bytes. */
  predicate Fits(text: seq<Byte>, size: nat) {
    |text| < size && 0 !in text
  }

  /** The first NUL determines the view. */
  lemma {:induction false} ViewIs(field: seq<Byte>, n: nat)
    requires n <= |field| && 0 !in field[..n] && (n == |field| || field[n] == 0)
    ensures View(field) == field[..n]
  {
    if n > 0 {
      assert field[0] == field[..n][0];
      assert field[1..][..n - 1] == field[..n][1..];
      ViewIs(field[1..], n - 1);
    }
  }

  /** A text comes back from a fixed-size array exactly when it is short enough and has no NUL. */
  lemma FieldRoundTrip(text: seq<Byte>, size: nat)
    requires size > 0
    ensures View(Field(text, size)) == text <==> Fits(text, size)
  {
    var field := Field(text, size);
    if Fits(text, size) {
      assert field[..|text|] == text;
      assert field[|text|] == 0;
      ViewIs(field, |text|);
    } else if |text| >= size {
      assert field[..size] == field && field[size - 1] == 0 && field[size - 1] in field;
    }
  }

  /** StringCopy: silent about a text that is too long, of which it keeps a part. */
  method StringCopy(destination: array<Byte>, source: seq<Byte>)
    requires destination.Length > 0
    modifies destination
    ensures destination[..] == Field(source, destination.Length)
  {
    forall i | 0 <= i < destination.Length { destination[i] := 0; }
    var count := Min(destination.Length - 1, |source|);
    for i := 0 to count
      invariant destination[..i] == source[..i]
      invariant forall j :: i <= j < destination.Length ==> destination[j] == 0
    {
      destination[i] := source[i];
      assert destination[..i + 1] == destination[..i] + [source[i]];
    }
    assert destination[..] == destination[..count] + destination[count..];
    assert destination[count..] == Zeros(destination.Length - count);
  }

  method StringView(source: seq<Byte>) returns (text: seq<Byte>)
    ensures text == View(source)
  {
    var size := |source|;
    for i := 0 to |source|
      invariant size == |source| && 0 !in source[..i]
    {
      if source[i] == 0 {
        size := i;
        break;
      }
      assert source[..i + 1] == source[..i] + [source[i]];
    }
    ViewIs(source, size);
    return source[..size];
  }
}

/**
 How a map from segment names to file descriptors crosses a domain socket: split into messages by
 domain_socket_server.cc, received in pieces and put together again by domain_socket_utils.cc
 (both in icon/interprocess/shared_memory_manager/).
 */
module FdTransfer {
  import opened Collections
  import opened FixedString

  const MAX_FDS_PER_MESSAGE: nat := 200
  const NAME_SIZE: nat := 255
  const PROTOCOL_VERSION: nat := 2
  const WORD: nat := 0x1_0000_0000_0000_0000

  type Name = seq<Byte>

  datatype Error = InvalidArgument | OutOfRange | FailedPrecondition | Internal

  datatype Result<T> = Ok(value: T) | Err(error: Error)

  datatype Entry = Entry(name: Name, fd: int)

  /** `names` is the part of the array of names that is in use. */
  datatype Message = Message(version: nat, numMessages: nat, messageIndex: nat, names: seq<seq<Byte>>, fds: seq<int>)

  // ----- What messages mean --------------------------------------------------------------------------

  /** The entries that a receiver finds in a message. */
  function Contents(m: Message): seq<Entry>
    requires |m.names| == |m.fds|
  {
    seq(|m.names|, i requires 0 <= i < |m.names| => Entry(View(m.names[i]), m.fds[i]))
  }

  predicate Consistent(messages: seq<Message>) {
    forall i :: 0 <= i < |messages| ==> |messages[i].names| == |messages[i].fds|
  }

  /** The entries of several messages, in order. */
  function Flat(messages: seq<Message>): seq<Entry>
    requires Consistent(messages)
  {
    if messages == [] then [] else Flat(messages[..|messages| - 1]) + Contents(messages[|messages| - 1])
  }

  /** The entries as they come out of fixed-size strings. */
  function Stored(entries: seq<Entry>): seq<Entry> {
    seq(|entries|, i requires 0 <= i < |entries| => Entry(View(Field(entries[i].name, NAME_SIZE)), entries[i].fd))
  }

  /** The map that results from inserting the entries one after the other. */
  function MapOf(entries: seq<Entry>): map<Name, int> {
    if entries == [] then map[]
    else var last := entries[|entries| - 1]; MapOf(entries[..|entries| - 1])[last.name := last.fd]
  }

  /** The message numbered `i` (from zero) out of `n`, with as many names as descriptors. */
  predicate Numbered(m: Message, i: nat, n: nat) {
    m.messageIndex == i + 1 && m.numMessages == n && |m.names| == |m.fds|
  }

  /** What the server makes of `entries`: numbered messages, none empty or too long, that hold them in order. */
  ghost predicate Prepared(entries: seq<Entry>, version: nat, messages: seq<Message>) {
    && (forall i :: 0 <= i < |messages| ==>
          && Numbered(messages[i], i, |messages|) && messages[i].version == version
          && 1 <= |messages[i].names| <= MAX_FDS_PER_MESSAGE)
    && Consistent(messages) && Flat(messages) == Stored(entries)
  }

  // ----- The server ------------------------------------------------------------------------------------

  method PrepareMessage(index: nat, count: nat, version: nat, names: seq<seq<Byte>>, fds: seq<int>)
    returns (r: Result<Message>)
    ensures if 1 <= index <= count then r == Ok(Message(version, count, index, names, fds)) else r == Err(OutOfRange)
  {
    if index == 0 || count == 0 || index > count { return Err(OutOfRange); }
    return Ok(Message(version, count, index, names, fds));
  }

  /** Takes the next names and descriptors for one message. */
  method FillMessage(entries: seq<Entry>, start: nat) returns (names: seq<seq<Byte>>, fds: seq<int>, next: nat)
    requires start <= |entries|
    ensures next == Min(start + MAX_FDS_PER_MESSAGE, |entries|) && |names| == |fds| == next - start
    ensures forall i :: 0 <= i < |names| ==>
              names[i] == Field(entries[start + i].name, NAME_SIZE) && fds[i] == entries[start + i].fd
  {
    names, fds, next := [], [], start;
    while |names| < MAX_FDS_PER_MESSAGE && next < |entries|
      invariant start <= next <= |entries| && |names| == |fds| == next - start <= MAX_FDS_PER_MESSAGE
      invariant forall i :: 0 <= i < |names| ==>
                  names[i] == Field(entries[start + i].name, NAME_SIZE) && fds[i] == entries[start + i].fd
    {
      var field := new Byte[NAME_SIZE];
      StringCopy(field, entries[next].name);
      names, fds, next := names + [field[..]], fds + [entries[next].fd], next + 1;
    }
  }

  /** Adding one more message adds the entries it was filled with. */
  lemma FlatPlus(messages: seq<Message>, m: Message, entries: seq<Entry>, start: nat, next: nat)
    requires Consistent(messages) && start <= next <= |entries| && Flat(messages) == Stored(entries[..start])
    requires |m.names| == |m.fds| == next - start
    requires forall i :: 0 <= i < |m.names| ==>
               m.names[i] == Field(entries[start + i].name, NAME_SIZE) && m.fds[i] == entries[start + i].fd
    ensures Consistent(messages + [m]) && Flat(messages + [m]) == Stored(entries[..next])
  {
    assert (messages + [m])[..|messages|] == messages;
    assert Stored(entries[..next]) == Stored(entries[..start]) + Contents(m);
  }

  /**
   Splits a map, given in the order in which it is iterated, into as few messages as can hold it; only an empty
   one is refused.
   */
  method PrepareMessages(entries: seq<Entry>, version: nat) returns (r: Result<seq<Message>>)
    ensures entries == [] ==> r == Err(InvalidArgument)
    ensures entries != [] ==>
              r.Ok? && Prepared(entries, version, r.value)
              && (|r.value| - 1) * MAX_FDS_PER_MESSAGE < |entries| <= |r.value| * MAX_FDS_PER_MESSAGE
  {
    if entries == [] { return Err(InvalidArgument); }
    var count := 1 + (|entries| - 1) / MAX_FDS_PER_MESSAGE;
    var messages, next, descriptors := [], 0, 0;
    for index := 1 to count + 1
      invariant next == descriptors == Min((index - 1) * MAX_FDS_PER_MESSAGE, |entries|) && |messages| == index - 1
      invariant Consistent(messages) && Flat(messages) == Stored(entries[..next])
      invariant forall i :: 0 <= i < |messages| ==>
                  && Numbered(messages[i], i, count) && messages[i].version == version
                  && 1 <= |messages[i].names| <= MAX_FDS_PER_MESSAGE
    {
      ghost var start := next;
      var names, fds;
      names, fds, next := FillMessage(entries, next);
      descriptors := descriptors + |names|;
      var message := PrepareMessage(index, count, version, names, fds);
      if message.Err? { return Err(OutOfRange); }
      FlatPlus(messages, message.value, entries, start, next);
      messages := messages + [message.value];
    }
    assert entries[..|entries|] == entries;
    if descriptors != |entries| { return Err(Internal); }
    return Ok(messages);
  }

  // ----- Receiving one message -------------------------------------------------------------------------

  /** A call to recvmsg: an error, or some bytes. */
  datatype Receipt = Failure | Bytes(bytes: seq<Byte>)

  function Joined(pieces: seq<seq<Byte>>): seq<Byte> {
    if pieces == [] then [] else Joined(pieces[..|pieces| - 1]) + pieces[|pieces| - 1]
  }

  /** The first `n` calls bring bytes, each at least one, and together `expected` of them. */
  ghost predicate Completes(receipts: seq<Receipt>, n: nat, expected: nat) {
    && n <= |receipts| && (forall i :: 0 <= i < n ==> receipts[i].Bytes? && receipts[i].bytes != [])
    && |Joined(Pieces(receipts, n))| == expected
  }

  ghost function Pieces(receipts: seq<Receipt>, n: nat): seq<seq<Byte>>
    requires n <= |receipts|
  {
    seq(n, i requires 0 <= i < n => if receipts[i].Bytes? then receipts[i].bytes else [])
  }

  /** Each piece adds to the total, so at most one number of pieces makes up a message. */
  lemma {:induction false} JoinedGrows(receipts: seq<Receipt>, m: nat, n: nat)
    requires m < n <= |receipts| && forall i :: 0 <= i < n ==> receipts[i].Bytes? && receipts[i].bytes != []
    ensures |Joined(Pieces(receipts, m))| < |Joined(Pieces(receipts, n))|
    decreases n
  {
    assert Pieces(receipts, n)[..n - 1] == Pieces(receipts, n - 1);
    if m < n - 1 { JoinedGrows(receipts, m, n - 1); }
  }

  lemma NoPieces(receipts: seq<Receipt>)
    ensures Joined(Pieces(receipts, 0)) == []
  {
  }

  lemma OnePieceMore(receipts: seq<Receipt>, n: nat)
    requires n < |receipts| && receipts[n].Bytes?
    ensures Joined(Pieces(receipts, n + 1)) == Joined(Pieces(receipts, n)) + receipts[n].bytes
  {
    assert Pieces(receipts, n + 1)[..n] == Pieces(receipts, n);
  }

  method CopyPiece(buffer: array<Byte>, start: nat, piece: seq<Byte>)
    requires start + |piece| <= buffer.Length
    modifies buffer
    ensures buffer[..start + |piece|] == old(buffer[..start]) + piece
  {
    for i := 0 to |piece|
      invariant buffer[..start + i] == old(buffer[..start]) + piece[..i]
    {
      buffer[start + i] := piece[i];
      assert buffer[..start + i + 1] == buffer[..start + i] + [piece[i]];
    }
  }

  /**
   The loop around recvmsg fills a buffer of fixed size. It succeeds exactly when some number of calls brings the
   message in non-empty pieces, however it is cut, and then the buffer holds what was sent.
   */
  method ReceiveBytes(receipts: seq<Receipt>, buffer: array<Byte>) returns (r: Result<nat>)
    modifies buffer
    ensures r.Ok? <==> exists n: nat :: Completes(receipts, n, buffer.Length)
    ensures r.Ok? ==> Completes(receipts, r.value, buffer.Length) && buffer[..] == Joined(Pieces(receipts, r.value))
  {
    hide Joined, Pieces;
    var sum, calls := 0, 0;
    NoPieces(receipts);
    while sum < buffer.Length
      invariant calls <= |receipts| && sum <= buffer.Length
      invariant forall i :: 0 <= i < calls ==> receipts[i].Bytes? && receipts[i].bytes != []
      invariant sum == |Joined(Pieces(receipts, calls))| && buffer[..sum] == Joined(Pieces(receipts, calls))
      decreases |receipts| - calls
    {
      if calls == |receipts| || receipts[calls].Failure? || receipts[calls].bytes == [] {
        NoOtherWay(receipts, calls, buffer.Length);
        return Err(Internal);
      }
      var piece := receipts[calls].bytes;
      OnePieceMore(receipts, calls);
      calls := calls + 1;
      if sum + |piece| > buffer.Length {
        TooMuch(receipts, calls, buffer.Length);
        return Err(OutOfRange);
      }
      CopyPiece(buffer, sum, piece);
      sum := sum + |piece|;
    }
    assert buffer[..] == buffer[..sum];
    assert Completes(receipts, calls, buffer.Length);
    return Ok(calls);
  }

  lemma NoOtherWay(receipts: seq<Receipt>, calls: nat, expected: nat)
    requires calls <= |receipts| && forall i :: 0 <= i < calls ==> receipts[i].Bytes? && receipts[i].bytes != []
    requires |Joined(Pieces(receipts, calls))| < expected
    requires calls == |receipts| || receipts[calls].Failure? || receipts[calls].bytes == []
    ensures forall n: nat :: !Completes(receipts, n, expected)
  {
    forall n: nat ensures !Completes(receipts, n, expected) {
      if n < calls { JoinedGrows(receipts, n, calls); }
    }
  }

  lemma TooMuch(receipts: seq<Receipt>, calls: nat, expected: nat)
    requires 0 < calls <= |receipts| && forall i :: 0 <= i < calls ==> receipts[i].Bytes? && receipts[i].bytes != []
    requires |Joined(Pieces(receipts, calls - 1))| < expected < |Joined(Pieces(receipts, calls))|
    ensures forall n: nat :: !Completes(receipts, n, expected)
  {
    forall n: nat ensures !Completes(receipts, n, expected) {
      if n < calls - 1 { JoinedGrows(receipts, n, calls - 1); }
      if calls < n && Completes(receipts, n, expected) { JoinedGrows(receipts, calls, n); }
    }
  }

  /** Any way of cutting `message` into non-empty pieces lets the loop rebuild it. */
  lemma AnySplitCompletes(message: seq<Byte>, pieces: seq<seq<Byte>>, receipts: seq<Receipt>)
    requires Joined(pieces) == message && forall i :: 0 <= i < |pieces| ==> pieces[i] != []
    requires |pieces| <= |receipts| && forall i :: 0 <= i < |pieces| ==> receipts[i] == Bytes(pieces[i])
    ensures Completes(receipts, |pieces|, |message|)
    ensures forall n: nat :: Completes(receipts, n, |message|) ==>
              n == |pieces| && Joined(Pieces(receipts, n)) == message
  {
    assert Pieces(receipts, |pieces|) == pieces;
    assert forall i :: 0 <= i < |pieces| ==> receipts[i].Bytes? && receipts[i].bytes != [];
    hide Joined, Pieces;
    forall n: nat | Completes(receipts, n, |message|) ensures n == |pieces| {
      if n < |pieces| { JoinedGrows(receipts, n, |pieces|); }
      if |pieces| < n { JoinedGrows(receipts, |pieces|, n); }
    }
  }

  // ----- The client --------------------------------------------------------------------------------------

  /** The first `n` messages arrive, are numbered 1 to n of n, and speak the right version. */
  ghost predicate Complete(incoming: seq<Option<Message>>, n: nat) {
    && 1 <= n <= |incoming|
    && forall i :: 0 <= i < n ==>
         incoming[i].Some? && Numbered(incoming[i].value, i, n) && incoming[i].value.version == PROTOCOL_VERSION
  }

  ghost function Arrived(incoming: seq<Option<Message>>, n: nat): (messages: seq<Message>)
    requires n <= |incoming|
    requires forall i :: 0 <= i < n ==> incoming[i].Some? && |incoming[i].value.names| == |incoming[i].value.fds|
    ensures Consistent(messages)
  {
    seq(n, i requires 0 <= i < n => incoming[i].value)
  }

  method GetNames(fields: seq<seq<Byte>>) returns (names: seq<Name>)
    ensures |names| == |fields| && forall i :: 0 <= i < |names| ==> names[i] == View(fields[i])
  {
    names := [];
    for i := 0 to |fields|
      invariant |names| == i && forall j :: 0 <= j < i ==> names[j] == View(fields[j])
    {
      var name := StringView(fields[i]);
      names := names + [name];
    }
  }

  /** The checks of GetSingleMessage on what it has received. */
  method CheckMessage(incoming: Option<Message>) returns (r: Result<Message>)
    ensures r.Ok? <==>
            && incoming.Some? && incoming.value.version == PROTOCOL_VERSION
            && |incoming.value.names| == |incoming.value.fds|
    ensures r.Ok? ==> r.value == incoming.value
  {
    if incoming.None? { return Err(Internal); }
    if incoming.value.version != PROTOCOL_VERSION { return Err(FailedPrecondition); }
    if |incoming.value.names| != |incoming.value.fds| { return Err(Internal); }
    return Ok(incoming.value);
  }

  lemma MapOfPlus(entries: seq<Entry>, e: Entry)
    ensures MapOf(entries + [e]) == MapOf(entries)[e.name := e.fd]
  {
    assert (entries + [e])[..|entries|] == entries;
  }

  /** Inserts the entries of one message into the map. */
  method InsertEntries(m: Message, before: map<Name, int>, ghost earlier: seq<Entry>) returns (after: map<Name, int>)
    requires |m.names| == |m.fds| && before == MapOf(earlier)
    ensures after == MapOf(earlier + Contents(m))
  {
    hide MapOf, View;
    var names := GetNames(m.names);
    after := before;
    ghost var contents := Contents(m);
    assert earlier + contents[..0] == earlier;
    for i := 0 to |names|
      invariant after == MapOf(earlier + contents[..i])
    {
      MapOfPlus(earlier + contents[..i], contents[i]);
      assert earlier + contents[..i] + [contents[i]] == earlier + contents[..i + 1];
      after := after[names[i] := m.fds[i]];
    }
    assert contents[..|names|] == contents;
  }

  /** The difference of two numbers of type size_t. */
  function Difference(a: nat, b: nat): (d: int)
    requires a < WORD && b < WORD
    ensures 0 <= d < WORD && (d == 0 <==> a == b)
  {
    if a >= b then a - b else a - b + WORD
  }

  /** The messages before the one numbered `index` are as they should be, and do not complete the transfer. */
  ghost predicate Underway(incoming: seq<Option<Message>>, index: nat, count: nat) {
    && 1 <= index <= |incoming| + 1 && (index > 1 ==> count == 0 || index <= count)
    && forall i :: 0 <= i < index - 1 ==>
         incoming[i].Some? && Numbered(incoming[i].value, i, count) && incoming[i].value.version == PROTOCOL_VERSION
  }

  lemma CannotComplete(incoming: seq<Option<Message>>, index: nat, count: nat)
    requires Underway(incoming, index, count)
    requires index <= |incoming| && incoming[index - 1].Some? ==>
               var m := incoming[index - 1].value;
               || m.version != PROTOCOL_VERSION || |m.names| != |m.fds| || m.messageIndex != index
               || (index > 1 && m.numMessages != count)
    ensures forall n: nat :: !Complete(incoming, n)
  {
    assert index > 1 ==> Numbered(incoming[0].value, 0, count);
  }

  lemma OnlyOne(incoming: seq<Option<Message>>, count: nat)
    requires Complete(incoming, count)
    ensures forall n: nat :: Complete(incoming, n) ==> n == count
  {
    assert incoming[0].value.numMessages == count;
  }

  /**
   Receives messages until the announced number is there. It succeeds exactly when there is a number n such that
   the messages 1 to n of n arrive in order, and then it returns what they hold. An announced number of zero wraps
   around when the remaining messages are counted, so such a transfer never succeeds.
   */
  method Reassemble(incoming: seq<Option<Message>>) returns (r: Result<map<Name, int>>)
    requires |incoming| < WORD
    requires forall i :: 0 <= i < |incoming| && incoming[i].Some? ==> incoming[i].value.numMessages < WORD
    ensures r.Ok? <==> exists n: nat :: Complete(incoming, n)
    ensures forall n: nat :: Complete(incoming, n) ==> r == Ok(MapOf(Flat(Arrived(incoming, n))))
  {
    hide MapOf, Flat;
    var result: map<Name, int> := map[];
    var index: nat, count: nat, remaining := 1, 0, 1;
    assert result == MapOf(Flat(Arrived(incoming, 0))) by { NothingYet(incoming); }
    while remaining > 0
      invariant if remaining > 0 then Underway(incoming, index, count)
                else Complete(incoming, count) && index == count + 1
      invariant count < WORD && result == MapOf(Flat(Arrived(incoming, index - 1)))
      decreases |incoming| + 1 - index
    {
      if index > |incoming| {
        CannotComplete(incoming, index, count);
        return Err(Internal);
      }
      var message := CheckMessage(incoming[index - 1]);
      if message.Err? {
        CannotComplete(incoming, index, count);
        return Err(message.error);
      }
      var m := message.value;
      if m.messageIndex != index {
        CannotComplete(incoming, index, count);
        return Err(Internal);
      }
      if index == 1 { count := m.numMessages; }
      if m.numMessages != count {
        CannotComplete(incoming, index, count);
        return Err(FailedPrecondition);
      }
      remaining := Difference(count, index);
      result := InsertEntries(m, result, Flat(Arrived(incoming, index - 1)));
      OneMore(incoming, index);
      index := index + 1;
    }
    OnlyOne(incoming, count);
    return Ok(result);
  }

  lemma NothingYet(incoming: seq<Option<Message>>)
    ensures MapOf(Flat(Arrived(incoming, 0))) == map[]
  {
  }

  lemma OneMore(incoming: seq<Option<Message>>, n: nat)
    requires 1 <= n <= |incoming|
    requires forall i :: 0 <= i < n ==> incoming[i].Some? && |incoming[i].value.names| == |incoming[i].value.fds|
    ensures Flat(Arrived(incoming, n)) == Flat(Arrived(incoming, n - 1)) + Contents(incoming[n - 1].value)
  {
    assert Arrived(incoming, n)[..n - 1] == Arrived(incoming, n - 1);
  }

  // ----- Round trip ------------------------------------------------------------------------------------------

  /** The entries of `m` in some order. */
  ghost predicate Enumerates(entries: seq<Entry>, m: map<Name, int>) {
    && (forall i :: 0 <= i < |entries| ==> entries[i].name in m && m[entries[i].name] == entries[i].fd)
    && (forall name :: name in m ==> exists i :: 0 <= i < |entries| && entries[i].name == name)
  }

  lemma {:induction false} MapOfEntries(entries: seq<Entry>, m: map<Name, int>)
    requires forall i :: 0 <= i < |entries| ==> entries[i].name in m && m[entries[i].name] == entries[i].fd
    ensures forall name :: name in MapOf(entries) <==> exists i :: 0 <= i < |entries| && entries[i].name == name
    ensures forall name :: name in MapOf(entries) ==> name in m && MapOf(entries)[name] == m[name]
  {
    if entries != [] { MapOfEntries(entries[..|entries| - 1], m); }
  }

  lemma {:induction false} KeysOfStored(entries: seq<Entry>)
    ensures forall name :: name in MapOf(Stored(entries)) ==> Fits(name, NAME_SIZE)
  {
    if entries != [] {
      var n := |entries| - 1;
      KeysOfStored(entries[..n]);
      assert Stored(entries)[..n] == Stored(entries[..n]);
      var field := Field(entries[n].name, NAME_SIZE);
      assert field[NAME_SIZE - 1] == 0 && field[..NAME_SIZE] == field && field[NAME_SIZE - 1] in field;
    }
  }

  /** The messages all arrive, and are taken for what they are, exactly when both sides speak the same version. */
  lemma DeliveredExactlyWhen(entries: seq<Entry>, version: nat, messages: seq<Message>)
    requires Prepared(entries, version, messages) && messages != []
    ensures Complete(Delivered(messages), |messages|) <==> version == PROTOCOL_VERSION
    ensures version == PROTOCOL_VERSION ==> Arrived(Delivered(messages), |messages|) == messages
  {
    assert Delivered(messages)[0].value.version == version;
  }

  /**
   A map that is split, sent and put together again comes out the same, in whatever order it was iterated, exactly
   when all its names fit.
   */
  lemma TransferRoundTrip(m: map<Name, int>, entries: seq<Entry>, version: nat, messages: seq<Message>)
    requires Enumerates(entries, m) && Prepared(entries, version, messages)
    ensures MapOf(Flat(messages)) == m <==> forall name :: name in m ==> Fits(name, NAME_SIZE)
  {
    hide MapOf, Flat, View, Field;
    KeysOfStored(entries);
    if forall name :: name in m ==> Fits(name, NAME_SIZE) {
      StoredAsIs(entries);
      MapOfEntries(entries, m);
    }
  }

  lemma StoredAsIs(entries: seq<Entry>)
    requires forall i :: 0 <= i < |entries| ==> Fits(entries[i].name, NAME_SIZE)
    ensures Stored(entries) == entries
  {
    forall i | 0 <= i < |entries| ensures Stored(entries)[i] == entries[i] {
      FieldRoundTrip(entries[i].name, NAME_SIZE);
    }
  }

  /** The messages as they arrive over a socket that loses none. */
  function Delivered(messages: seq<Message>): seq<Option<Message>> {
    seq(|messages|, i requires 0 <= i < |messages| => Some(messages[i]))
  }

  /**
   From end to end: the server splits a map, given in the order in which it iterates it, and the client puts
   together what it receives. The client accepts exactly its own version, and gets the server's map exactly if all
   names fit.
   */
  method Transfer(entries: seq<Entry>, version: nat, ghost m: map<Name, int>) returns (r: Result<map<Name, int>>)
    requires Enumerates(entries, m) && |entries| < WORD
    ensures entries == [] ==> r == Err(InvalidArgument)
    ensures entries != [] ==> (r.Ok? <==> version == PROTOCOL_VERSION)
    ensures entries != [] && version == PROTOCOL_VERSION ==>
              (r == Ok(m) <==> forall name :: name in m ==> Fits(name, NAME_SIZE))
  {
    hide MapOf, Flat, Stored, Fits;
    var prepared := PrepareMessages(entries, version);
    if prepared.Err? { return Err(prepared.error); }
    var messages := prepared.value;
    r := Reassemble(Delivered(messages));
    DeliveredExactlyWhen(entries, version, messages);
    TransferRoundTrip(m, entries, version, messages);
    CompleteMeansAll(messages);
  }

  lemma CompleteMeansAll(messages: seq<Message>)
    requires messages != [] && forall i :: 0 <= i < |messages| ==> messages[i].numMessages == |messages|
    ensures forall n: nat :: Complete(Delivered(messages), n) ==> n == |messages|
  {
    assert Delivered(messages)[0] == Some(messages[0]);
  }
}
