/**
 The readers that collect a message body from a stream of chunks into one fixed buffer. What a reader decides
 depends on the bytes of the stream, never on how they were cut into chunks.
 */
module BodyReaders {
  import opened Common

  const MAX_REQUEST_BODY_BYTES: nat := 1048576
  const MAX_UPSTREAM_BODY_BYTES: nat := 8388608

  /** A data event delivers a buffer; anything else is refused. */
  datatype Part = NotABuffer | Bytes(bytes: seq<byte>)

  datatype Outcome = TooLarge | Incomplete | Interrupted | Resolved(body: seq<byte>)

  /** What happens on the stream. `End` tells whether the message is complete and carries no trailers. */
  datatype StreamEvent = Data(part: Part) | End(complete: bool, trailers: bool) | Errored | Aborted

  /** A reader still collecting, with all it has received so far, or settled: its listeners are detached. */
  datatype Progress = Reading(received: seq<byte>) | Done(outcome: Outcome)

  function Min(a: int, b: int): int {
    if a < b then a else b
  }

  function Concat(parts: seq<seq<byte>>): seq<byte> {
    if parts == [] then [] else Concat(parts[..|parts| - 1]) + parts[|parts| - 1]
  }

  function AsEvents(parts: seq<seq<byte>>): seq<StreamEvent> {
    seq(|parts|, i requires 0 <= i < |parts| => Data(Bytes(parts[i])))
  }

  /** Copies the first `n` bytes of `source` into `target`, from `at` on. */
  method CopyInto(target: array<byte>, at: nat, source: seq<byte>, n: nat)
    requires n <= |source| && at + n <= target.Length
    modifies target
    ensures target[..at + n] == old(target[..at]) + source[..n]
  {
    forall i | 0 <= i < n {
      target[at + i] := source[i];
    }
  }

  // The reader of ordinary request bodies.

  /** Bodies declared longer than this are refused unread; one byte more than the limit is read and then refused. */
  const MAX_DECLARED: nat := MAX_REQUEST_BODY_BYTES + 1

  predicate Overflows(declared: Option<nat>, total: nat) {
    total > MAX_REQUEST_BODY_BYTES && (declared != Some(MAX_DECLARED) || total > MAX_DECLARED)
  }

  function BoundedStart(declared: Option<nat>): Progress {
    if declared.Some? && declared.value > MAX_DECLARED then Done(TooLarge) else Reading([])
  }

  function BoundedStep(declared: Option<nat>, p: Progress, e: StreamEvent): Progress {
    match p
    case Done(_) => p
    case Reading(received) =>
      match e
      case Data(NotABuffer) => Done(Incomplete)
      case Data(Bytes(bytes)) =>
        if Overflows(declared, |received + bytes|) then Done(TooLarge) else Reading(received + bytes)
      case End(complete, _) =>
        if !complete || (declared.Some? && |received| != declared.value) then Done(Incomplete)
        else if |received| > MAX_REQUEST_BODY_BYTES then Done(TooLarge)
        else Done(Resolved(received))
      case Errored => Done(Incomplete)
      case Aborted => Done(Interrupted)
  }

  function BoundedRun(declared: Option<nat>, events: seq<StreamEvent>): Progress {
    if events == [] then BoundedStart(declared)
    else BoundedStep(declared, BoundedRun(declared, events[..|events| - 1]), events[|events| - 1])
  }

  /** What a stream of these bytes comes to; `complete` is false for a stream that was cut short. */
  function BoundedVerdict(declared: Option<nat>, body: seq<byte>, complete: bool): Outcome {
    if declared.Some? && declared.value > MAX_DECLARED then TooLarge
    else if Overflows(declared, |body|) then TooLarge
    else if !complete || (declared.Some? && |body| != declared.value) then Incomplete
    else if |body| > MAX_REQUEST_BODY_BYTES then TooLarge
    else Resolved(body)
  }

  lemma {:induction false} BoundedFeed(declared: Option<nat>, parts: seq<seq<byte>>)
    ensures BoundedRun(declared, AsEvents(parts)) ==
            if BoundedStart(declared).Done? || Overflows(declared, |Concat(parts)|) then Done(TooLarge)
            else Reading(Concat(parts))
  {
    if parts != [] {
      var before := parts[..|parts| - 1];
      BoundedFeed(declared, before);
      assert AsEvents(parts)[..|parts| - 1] == AsEvents(before);
    }
  }

  /**
   Chunking does not matter: whatever way the bytes of a stream are cut, reading it comes to the same verdict, and
   it resolves, to exactly those bytes, if and only if the stream is complete, within the limit, and as long as
   declared when a length is declared.
   */
  lemma BoundedChunkingInvariant(declared: Option<nat>, parts: seq<seq<byte>>, complete: bool, trailers: bool)
    ensures BoundedRun(declared, AsEvents(parts) + [End(complete, trailers)])
            == Done(BoundedVerdict(declared, Concat(parts), complete))
    ensures BoundedRun(declared, AsEvents(parts) + [End(complete, trailers)]) == Done(Resolved(Concat(parts)))
            <==> complete && |Concat(parts)| <= MAX_REQUEST_BODY_BYTES
                 && (declared.None? || declared.value == |Concat(parts)|)
  {
    BoundedFeed(declared, parts);
    var events := AsEvents(parts) + [End(complete, trailers)];
    assert events[..|events| - 1] == AsEvents(parts);
  }

  /** Too long to be read: declared longer than one byte over 1 MiB, or delivered more than 1 MiB. */
  predicate TooLong(declared: Option<nat>, total: nat, complete: bool) {
    || (declared.Some? && declared.value > 1048577)
    || (total > 1048576 && !(declared == Some(1048577) && total == 1048577 && !complete))
  }

  /**
   The outcome in figures, for every way to cut a stream: too large if declared or delivered too long, where a body of
   just one byte more than 1 MiB that is declared so is read to its end first; otherwise incomplete if it is cut short
   or not as long as declared; otherwise its bytes.
   */
  lemma BoundedOutcome(declared: Option<nat>, parts: seq<seq<byte>>, complete: bool, trailers: bool)
    ensures BoundedRun(declared, AsEvents(parts) + [End(complete, trailers)]) ==
            Done(if TooLong(declared, |Concat(parts)|, complete) then TooLarge
                 else if !complete || (declared.Some? && declared.value != |Concat(parts)|) then Incomplete
                 else Resolved(Concat(parts)))
  {
    BoundedChunkingInvariant(declared, parts, complete, trailers);
    hide BoundedRun, AsEvents, Concat;
  }

  /**
   A stream that breaks off: too large if it was by then; otherwise incomplete, or interrupted by the abort signal.
   */
  lemma BoundedBreaksOff(declared: Option<nat>, parts: seq<seq<byte>>, e: StreamEvent)
    requires e == Errored || e == Aborted || e == Data(NotABuffer)
    ensures BoundedRun(declared, AsEvents(parts) + [e]) ==
            Done(if TooLong(declared, |Concat(parts)|, false) then TooLarge
                 else if e == Aborted then Interrupted else Incomplete)
  {
    BoundedFeed(declared, parts);
    var events := AsEvents(parts) + [e];
    assert events[..|events| - 1] == AsEvents(parts) && events[|events| - 1] == e;
    assert BoundedRun(declared, events) == BoundedStep(declared, BoundedRun(declared, AsEvents(parts)), e);
    hide BoundedRun, AsEvents, Concat;
  }

  /** What comes after the outcome does not change it. */
  lemma BoundedSettles(declared: Option<nat>, events: seq<StreamEvent>, e: StreamEvent)
    requires BoundedRun(declared, events).Done?
    ensures BoundedRun(declared, events + [e]) == BoundedRun(declared, events)
  {
    assert (events + [e])[..|events|] == events;
  }

  /** A reader resolves only on a stream that is all buffers up to a complete end, whatever comes after. */
  lemma {:induction false} BoundedResolvesOnlyWhole(declared: Option<nat>, events: seq<StreamEvent>, body: seq<byte>)
    returns (parts: seq<seq<byte>>, trailers: bool)
    requires BoundedRun(declared, events) == Done(Resolved(body))
    ensures AsEvents(parts) + [End(true, trailers)] <= events
    ensures body == Concat(parts) && |body| <= MAX_REQUEST_BODY_BYTES && (declared.None? || declared.value == |body|)
  {
    var before := events[..|events| - 1];
    if BoundedRun(declared, before).Done? {
      parts, trailers := BoundedResolvesOnlyWhole(declared, before, body);
    } else {
      parts := ReadingIsWhole(declared, before);
      trailers := events[|events| - 1].trailers;
      BoundedFeed(declared, parts);
      assert events == AsEvents(parts) + [End(true, trailers)];
    }
  }

  lemma {:induction false} ReadingIsWhole(declared: Option<nat>, events: seq<StreamEvent>)
    returns (parts: seq<seq<byte>>)
    requires BoundedRun(declared, events).Reading?
    ensures events == AsEvents(parts) && BoundedRun(declared, events).received == Concat(parts)
  {
    if events == [] {
      parts := [];
    } else {
      var before := ReadingIsWhole(declared, events[..|events| - 1]);
      var e := events[|events| - 1];
      assert e.Data? && e.part.Bytes? && BoundedRun(declared, events).received == Concat(before) + e.part.bytes;
      hide BoundedRun, BoundedStep;
      var bytes := e.part.bytes;
      parts := before + [bytes];
      assert events == events[..|events| - 1] + [e];
      assert parts[..|parts| - 1] == before;
      assert AsEvents(parts) == AsEvents(before) + [Data(Bytes(bytes))];
    }
  }

  class BoundedReader {
    const declared: Option<nat>
    const bytes: array<byte>
    var size: nat
    var settled: Option<Outcome>
    ghost var received: seq<byte>

    ghost predicate Valid()
      reads this, bytes
    {
      && bytes.Length == (if BoundedStart(declared).Done? then 0
                          else if declared.None? then MAX_REQUEST_BODY_BYTES
                          else Min(declared.value, MAX_REQUEST_BODY_BYTES))
      && (settled.None? ==>
            && size == |received|
            && BoundedStart(declared).Reading?
            && bytes[..Min(size, bytes.Length)] == received[..Min(size, bytes.Length)])
    }

    ghost function Value(): Progress
      reads this
    {
      if settled.Some? then Done(settled.value) else Reading(received)
    }

    constructor (declared: Option<nat>)
      ensures Valid() && fresh(bytes) && this.declared == declared && Value() == BoundedStart(declared)
      ensures bytes.Length <= MAX_REQUEST_BODY_BYTES
    {
      this.declared := declared;
      size := 0;
      received := [];
      if declared.Some? && declared.value > MAX_DECLARED {
        bytes := new byte[0];
        settled := Some(TooLarge);
      } else {
        bytes := new byte[if declared.None? then MAX_REQUEST_BODY_BYTES
                          else Min(declared.value, MAX_REQUEST_BODY_BYTES)];
        settled := None;
      }
    }

    method OnData(part: Part)
      requires Valid()
      modifies this, bytes
      ensures Valid() && Value() == BoundedStep(declared, old(Value()), Data(part))
    {
      if settled.Some? {
        return;
      }
      if part.NotABuffer? {
        settled := Some(Incomplete);
        return;
      }
      var next := size + |part.bytes|;
      if next > MAX_REQUEST_BODY_BYTES && (declared != Some(MAX_DECLARED) || next > MAX_DECLARED) {
        settled := Some(TooLarge);
        return;
      }
      var room := if bytes.Length > size then bytes.Length - size else 0;
      var retained := Min(|part.bytes|, room);
      if retained > 0 {
        CopyInto(bytes, size, part.bytes, retained);
      }
      size := next;
      received := received + part.bytes;
    }

    method OnEnd(complete: bool, ghost trailers: bool)
      requires Valid()
      modifies this
      ensures Valid() && Value() == BoundedStep(declared, old(Value()), End(complete, trailers))
    {
      if settled.Some? {
        return;
      }
      if !complete || (declared.Some? && size != declared.value) {
        settled := Some(Incomplete);
      } else if size > MAX_REQUEST_BODY_BYTES {
        settled := Some(TooLarge);
      } else {
        assert size <= bytes.Length && bytes[..size] == received[..size] == received;
        settled := Some(Resolved(bytes[..size]));
      }
    }

    method OnError()
      requires Valid()
      modifies this
      ensures Valid() && Value() == BoundedStep(declared, old(Value()), Errored)
    {
      if settled.None? {
        settled := Some(Incomplete);
      }
    }

    method OnAbort()
      requires Valid()
      modifies this
      ensures Valid() && Value() == BoundedStep(declared, old(Value()), Aborted)
    {
      if settled.None? {
        settled := Some(Interrupted);
      }
    }
  }

  // The readers of the source-admission route: the owner's request body and the upstream response body.

  /** A buffer of `capacity` bytes, the stream's exact length when one is known, and whether trailers are refused. */
  datatype Frame = Frame(capacity: nat, exact: Option<nat>, refusesTrailers: bool)

  /** The owner's request must have exactly the declared number of bytes. */
  function RequestFrame(count: nat): Frame {
    Frame(count, Some(count), true)
  }

  /** The upstream response may leave its length undeclared. */
  function UpstreamFrame(declared: Option<nat>): Frame {
    Frame(MAX_UPSTREAM_BODY_BYTES, declared, false)
  }

  function StrictStart(f: Frame): Progress {
    if f.exact.Some? && f.exact.value > f.capacity then Done(Incomplete) else Reading([])
  }

  function StrictStep(f: Frame, p: Progress, e: StreamEvent): Progress {
    match p
    case Done(_) => p
    case Reading(received) =>
      match e
      case Data(NotABuffer) => Done(Incomplete)
      case Data(Bytes(bytes)) =>
        if |received + bytes| > f.capacity then Done(Incomplete) else Reading(received + bytes)
      case End(complete, trailers) =>
        if !complete || (f.refusesTrailers && trailers) || (f.exact.Some? && |received| != f.exact.value)
        then Done(Incomplete)
        else Done(Resolved(received))
      case Errored => Done(Incomplete)
      case Aborted => Done(Interrupted)
  }

  function StrictRun(f: Frame, events: seq<StreamEvent>): Progress {
    if events == [] then StrictStart(f)
    else StrictStep(f, StrictRun(f, events[..|events| - 1]), events[|events| - 1])
  }

  predicate Fits(f: Frame, total: nat) {
    total <= f.capacity && (f.exact.Some? ==> total == f.exact.value)
  }

  lemma {:induction false} StrictFeed(f: Frame, parts: seq<seq<byte>>)
    ensures StrictRun(f, AsEvents(parts)) ==
            if StrictStart(f).Done? || |Concat(parts)| > f.capacity then Done(Incomplete) else Reading(Concat(parts))
  {
    if parts != [] {
      var before := parts[..|parts| - 1];
      StrictFeed(f, before);
      assert AsEvents(parts)[..|parts| - 1] == AsEvents(before);
    }
  }

  /** Chunking does not matter here either: the stream's bytes and its end decide. */
  lemma StrictChunkingInvariant(f: Frame, parts: seq<seq<byte>>, complete: bool, trailers: bool)
    ensures StrictRun(f, AsEvents(parts) + [End(complete, trailers)]) ==
            Done(if complete && !(f.refusesTrailers && trailers) && Fits(f, |Concat(parts)|)
                 then Resolved(Concat(parts)) else Incomplete)
  {
    StrictFeed(f, parts);
    var events := AsEvents(parts) + [End(complete, trailers)];
    assert events[..|events| - 1] == AsEvents(parts);
  }

  /**
   The upstream's response is handed on, as its very bytes, if and only if it is complete, at most 8 MiB, and as long as
   declared when a length is declared; its trailers do not matter.
   */
  lemma UpstreamResolvesIff(declared: Option<nat>, parts: seq<seq<byte>>, complete: bool, trailers: bool)
    ensures StrictRun(UpstreamFrame(declared), AsEvents(parts) + [End(complete, trailers)])
            == Done(Resolved(Concat(parts)))
            <==> complete && |Concat(parts)| <= MAX_UPSTREAM_BODY_BYTES
                 && (declared.None? || declared.value == |Concat(parts)|)
  {
    hide StrictRun;
    StrictChunkingInvariant(UpstreamFrame(declared), parts, complete, trailers);
  }

  /** The owner's body is taken if and only if it is complete, without trailers, and of just the declared length. */
  lemma OwnerResolvesIff(count: nat, parts: seq<seq<byte>>, complete: bool, trailers: bool)
    ensures StrictRun(RequestFrame(count), AsEvents(parts) + [End(complete, trailers)]) ==
            Done(if complete && !trailers && |Concat(parts)| == count then Resolved(Concat(parts)) else Incomplete)
  {
    hide StrictRun;
    StrictChunkingInvariant(RequestFrame(count), parts, complete, trailers);
  }

  lemma StrictBreaksOff(f: Frame, parts: seq<seq<byte>>, e: StreamEvent)
    requires e == Errored || e == Aborted || e == Data(NotABuffer)
    ensures StrictRun(f, AsEvents(parts) + [e]) ==
            Done(if (f.exact.Some? && f.exact.value > f.capacity) || |Concat(parts)| > f.capacity then Incomplete
                 else if e == Aborted then Interrupted else Incomplete)
  {
    StrictFeed(f, parts);
    var events := AsEvents(parts) + [e];
    assert events[..|events| - 1] == AsEvents(parts) && events[|events| - 1] == e;
    assert StrictRun(f, events) == StrictStep(f, StrictRun(f, AsEvents(parts)), e);
    hide StrictRun, AsEvents, Concat;
  }

  lemma {:induction false} StrictReading(f: Frame, events: seq<StreamEvent>) returns (parts: seq<seq<byte>>)
    requires StrictRun(f, events).Reading?
    ensures events == AsEvents(parts) && StrictRun(f, events).received == Concat(parts)
    ensures |Concat(parts)| <= f.capacity
  {
    if events == [] {
      parts := [];
    } else {
      var before := StrictReading(f, events[..|events| - 1]);
      var e := events[|events| - 1];
      assert e.Data? && e.part.Bytes? && StrictRun(f, events).received == Concat(before) + e.part.bytes;
      assert |Concat(before) + e.part.bytes| <= f.capacity;
      hide StrictRun, StrictStep;
      var bytes := e.part.bytes;
      parts := before + [bytes];
      assert events == events[..|events| - 1] + [e];
      assert parts[..|parts| - 1] == before;
      assert AsEvents(parts) == AsEvents(before) + [Data(Bytes(bytes))];
    }
  }

  /** The body is handed on only after a complete stream that fits the frame. */
  lemma {:induction false} StrictResolvesOnlyWhole(f: Frame, events: seq<StreamEvent>, body: seq<byte>)
    returns (parts: seq<seq<byte>>, trailers: bool)
    requires StrictRun(f, events) == Done(Resolved(body))
    ensures AsEvents(parts) + [End(true, trailers)] <= events && body == Concat(parts) && Fits(f, |body|)
    ensures f.refusesTrailers ==> !trailers
  {
    var before := events[..|events| - 1];
    if StrictRun(f, before).Done? {
      parts, trailers := StrictResolvesOnlyWhole(f, before, body);
    } else {
      parts := StrictReading(f, before);
      trailers := events[|events| - 1].trailers;
      assert events == AsEvents(parts) + [End(true, trailers)];
    }
  }

  class StrictReader {
    const frame: Frame
    const bytes: array<byte>
    var offset: nat
    var settled: Option<Outcome>
    ghost var received: seq<byte>

    ghost predicate Valid()
      reads this, bytes
    {
      && bytes.Length == frame.capacity
      && (settled.None? ==> offset == |received| <= bytes.Length && bytes[..offset] == received)
    }

    ghost function Value(): Progress
      reads this
    {
      if settled.Some? then Done(settled.value) else Reading(received)
    }

    constructor (frame: Frame)
      ensures Valid() && fresh(bytes) && this.frame == frame && Value() == StrictStart(frame)
    {
      this.frame := frame;
      bytes := new byte[frame.capacity];
      offset := 0;
      received := [];
      settled := if frame.exact.Some? && frame.exact.value > frame.capacity then Some(Incomplete) else None;
    }

    method OnData(part: Part)
      requires Valid()
      modifies this, bytes
      ensures Valid() && Value() == StrictStep(frame, old(Value()), Data(part))
    {
      if settled.Some? {
        return;
      }
      if part.NotABuffer? || offset + |part.bytes| > bytes.Length {
        settled := Some(Incomplete);
        return;
      }
      CopyInto(bytes, offset, part.bytes, |part.bytes|);
      offset := offset + |part.bytes|;
      received := received + part.bytes;
    }

    method OnEnd(complete: bool, trailers: bool)
      requires Valid()
      modifies this
      ensures Valid() && Value() == StrictStep(frame, old(Value()), End(complete, trailers))
    {
      if settled.None? {
        var refused := frame.refusesTrailers && trailers;
        settled := if !complete || refused || (frame.exact.Some? && offset != frame.exact.value)
          then Some(Incomplete) else Some(Resolved(bytes[..offset]));
      }
    }

    method OnErrorOrAbort(aborted: bool)
      requires Valid()
      modifies this
      ensures Valid() && Value() == StrictStep(frame, old(Value()), if aborted then Aborted else Errored)
    {
      if settled.None? {
        settled := if aborted then Some(Interrupted) else Some(Incomplete);
      }
    }
  }
}
