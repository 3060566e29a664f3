/**
 The writer that owns diagnostic output: a bounded queue of lines drained by one native write at a time, which
 may complete while it is being submitted, later, in part, more than once, or with an error.
 */
module DiagnosticWriter {
  import opened Common

  const MAX_LINES := 513
  const MAX_LINE := 128
  const MAX_TOTAL := 65536

  /** A value offered as a line: a string has a length in UTF-16 units and an encoding in UTF-8. */
  datatype Line = NotText | Text(units: nat, bytes: seq<byte>)

  datatype Written = NotAnInteger | Count(n: int)

  /** What a native write does before the call that submits it returns. */
  datatype Reply = Later | Throws | Completes(error: bool, written: Written)

  datatype Entry = Entry(bytes: seq<byte>, offset: nat) {
    ghost predicate Valid() {
      offset <= |bytes|
    }

    ghost function Rest(): seq<byte>
      requires Valid()
    {
      bytes[offset..]
    }
  }

  /**
   The writer's state. `inFlight` is the entry of the native write whose completion is awaited; `submitted` numbers
   the native writes and `completed` counts those that completed. `admitted` are the bytes of all accepted lines and
   `acked` the bytes that completed writes reported as written.
   */
  datatype State = State(
    enabled: bool,
    queue: seq<Entry>,
    lines: int,
    bytes: int,
    inFlight: Option<Entry>,
    retiring: bool,
    failed: bool,
    resolved: bool,
    failures: nat,
    submitted: nat,
    completed: nat,
    admitted: seq<byte>,
    acked: seq<byte>)

  function Initial(enabled: bool): State {
    State(enabled, [], 0, 0, None, false, false, false, 0, 0, 0, [], [])
  }

  function Settle(s: State): State {
    if s.retiring && s.inFlight.None? && s.queue == [] then s.(resolved := true) else s
  }

  function Fail(s: State): State {
    Settle(s.(failed := true, failures := if s.failed then s.failures else s.failures + 1, queue := []))
  }

  predicate Acceptable(entry: Entry, error: bool, written: Written) {
    !error && written.Count? && 0 < written.n <= |entry.bytes| - entry.offset
  }

  /** `n` more bytes of the entry in flight are written. */
  function Advance(s: State, n: int): State
    requires s.inFlight.Some? && 0 < n <= |s.inFlight.value.bytes| - s.inFlight.value.offset
  {
    var entry := s.inFlight.value;
    var entry' := entry.(offset := entry.offset + n);
    var queue' :=
      if s.queue == [] then []
      else if entry'.offset == |entry'.bytes| then s.queue[1..]
      else s.queue[0 := entry'];
    s.(inFlight := None, completed := s.completed + 1, queue := queue',
        acked := s.acked + entry.bytes[entry.offset..entry'.offset])
  }

  /** Submits the head of the queue; `replies` says what the native writes do while they are submitted. */
  function Pump(s: State, replies: seq<Reply>): State
    decreases |replies|, 1
  {
    if s.inFlight.Some? || s.failed || s.queue == [] then Settle(s)
    else
      var s' := s.(inFlight := Some(s.queue[0]), submitted := s.submitted + 1);
      if replies == [] then s'
      else match replies[0]
        case Later => s'
        case Throws => Completed(s', true, Count(0), replies[1..])
        case Completes(error, written) => Completed(s', error, written, replies[1..])
  }

  /** The completion of the native write in flight. */
  function Completed(s: State, error: bool, written: Written, replies: seq<Reply>): State
    requires s.inFlight.Some?
    decreases |replies|, 2
  {
    if !Acceptable(s.inFlight.value, error, written) then
      Fail(s.(inFlight := None, completed := s.completed + 1))
    else
      Pump(Advance(s, written.n), replies)
  }

  /** Is `line` accepted? This is also what `write` returns. */
  predicate Admits(s: State, line: Line) {
    && s.enabled && !s.failed && !s.retiring
    && line.Text? && line.units <= MAX_LINE && |line.bytes| <= MAX_LINE
    && s.lines + 1 <= MAX_LINES && s.bytes + |line.bytes| <= MAX_TOTAL
  }

  function Offer(s: State, line: Line, replies: seq<Reply>): State {
    if !s.enabled || s.failed then s
    else if s.retiring || line.NotText? || line.units > MAX_LINE then Fail(s)
    else if s.lines + 1 > MAX_LINES || |line.bytes| > MAX_LINE then Fail(s.(lines := s.lines + 1))
    else
      var counted := s.(lines := s.lines + 1, bytes := s.bytes + |line.bytes|);
      if counted.bytes > MAX_TOTAL then Fail(counted)
      else Pump(counted.(queue := s.queue + [Entry(line.bytes, 0)], admitted := s.admitted + line.bytes), replies)
  }

  function Retire(s: State): State {
    Settle(s.(retiring := true))
  }

  /**
   What may happen to a writer. A native write may report completion again and again, and late: a report for any
   but the newest write, or for one that has completed, is `Completion` with a ticket that is not awaited.
   */
  datatype Event =
    | Write(line: Line, replies: seq<Reply>)
    | RetireCalled
    | Completion(ticket: nat, error: bool, written: Written, replies: seq<Reply>)

  predicate Awaited(s: State, ticket: nat) {
    s.inFlight.Some? && ticket == s.submitted
  }

  function Step(s: State, e: Event): State {
    match e
    case Write(line, replies) => Offer(s, line, replies)
    case RetireCalled => Retire(s)
    case Completion(ticket, error, written, replies) =>
      if Awaited(s, ticket) then Completed(s, error, written, replies) else s
  }

  function Run(s: State, events: seq<Event>): State {
    if events == [] then s else Step(Run(s, events[..|events| - 1]), events[|events| - 1])
  }

  ghost predicate ValidQueue(queue: seq<Entry>) {
    forall i :: 0 <= i < |queue| ==> queue[i].Valid()
  }

  /** The bytes of the queue that no completed write has reported as written. */
  ghost function Unwritten(queue: seq<Entry>): seq<byte>
    requires ValidQueue(queue)
  {
    if queue == [] then [] else queue[0].Rest() + Unwritten(queue[1..])
  }

  /** What holds whenever the writer's code is not running, and also just before and after a submission. */
  ghost predicate Sound(s: State) {
    && ValidQueue(s.queue)
    && (s.failed ==> s.queue == [])
    && (!s.failed ==> s.acked + Unwritten(s.queue) == s.admitted)
    && s.acked <= s.admitted
    && (s.inFlight.Some? ==>
          && s.inFlight.value.Valid()
          && s.acked + s.inFlight.value.Rest() <= s.admitted
          && (!s.failed ==> s.queue != [] && s.queue[0] == s.inFlight.value))
    && s.failures == (if s.failed then 1 else 0)
    && s.submitted == s.completed + (if s.inFlight.Some? then 1 else 0)
    && |s.admitted| <= MAX_TOTAL
    && (!s.failed ==> s.bytes == |s.admitted| && s.lines <= MAX_LINES)
    && (!s.enabled ==> s.submitted == 0 && s.queue == [] && s.inFlight.None?)
    && (s.resolved ==> s.retiring && s.inFlight.None? && s.queue == [])
  }

  /** Quiescent: nothing waits in the queue without a native write in flight, and retirement is announced. */
  ghost predicate Quiescent(s: State) {
    && Sound(s)
    && (s.inFlight.None? ==> s.queue == [])
    && (s.resolved <==> s.retiring && s.inFlight.None? && s.queue == [])
  }

  /** What is left to do before the writer can retire: unwritten bytes and the entries that hold them. */
  ghost function Work(s: State): nat
    requires Sound(s)
  {
    |Unwritten(s.queue)| + |s.queue| + (if s.inFlight.Some? && s.failed then 1 else 0)
  }

  /** What changes while the native side is given bytes: nothing is admitted, acknowledged bytes only grow. */
  ghost predicate Drains(s: State, s': State)
    requires Sound(s) && Sound(s')
  {
    && s'.admitted == s.admitted && s'.retiring == s.retiring && s'.enabled == s.enabled
    && s.acked <= s'.acked && (s.failed ==> s'.failed) && s.submitted <= s'.submitted
    && Work(s') <= Work(s)
  }

  lemma {:induction false} PumpSound(s: State, replies: seq<Reply>)
    requires Sound(s) && s.enabled && s.inFlight.None? && !s.resolved
    ensures Quiescent(Pump(s, replies)) && Drains(s, Pump(s, replies))
    decreases |replies|, 1
  {
    if !s.failed && s.queue != [] {
      var s' := s.(inFlight := Some(s.queue[0]), submitted := s.submitted + 1);
      Regroup(s.acked, s.queue[0].Rest(), Unwritten(s.queue[1..]));
      assert Sound(s');
      hide Sound, Settle, Fail;
      if replies != [] && !replies[0].Later? {
        if replies[0].Throws? {
          CompletedSound(s', true, Count(0), replies[1..]);
        } else {
          CompletedSound(s', replies[0].error, replies[0].written, replies[1..]);
        }
      }
    }
  }

  /** The bytes of an entry that a write of `n` bytes takes. */
  ghost function Sent(entry: Entry, n: nat): seq<byte>
    requires n <= |entry.bytes| - entry.offset
  {
    entry.bytes[entry.offset..entry.offset + n]
  }

  /** A queue whose head has `n` more bytes written. */
  ghost function Shortened(queue: seq<Entry>, n: nat): seq<Entry>
    requires queue != []
  {
    var head := queue[0].(offset := queue[0].offset + n);
    if head.offset == |head.bytes| then queue[1..] else queue[0 := head]
  }

  lemma AdvanceUnwritten(queue: seq<Entry>, n: nat)
    requires ValidQueue(queue) && queue != [] && 0 < n <= |queue[0].bytes| - queue[0].offset
    ensures ValidQueue(Shortened(queue, n)) && |Shortened(queue, n)| <= |queue|
    ensures Unwritten(queue) == Sent(queue[0], n) + Unwritten(Shortened(queue, n))
  {
    var head := queue[0].(offset := queue[0].offset + n);
    var sent, rest := Sent(queue[0], n), Unwritten(queue[1..]);
    assert queue[0].Rest() == sent + head.Rest();
    assert head.offset == |head.bytes| ==> head.Rest() == [] && sent + [] == sent;
    assert queue[0 := head][1..] == queue[1..];
    assert ValidQueue(queue[0 := head]) && Unwritten(queue[0 := head]) == head.Rest() + rest;
    hide Unwritten, Entry.Rest;
    Regroup(sent, head.Rest(), rest);
  }

  lemma AdvanceIs(s: State, n: nat)
    requires Sound(s) && s.inFlight.Some? && !s.failed
    requires 0 < n <= |s.inFlight.value.bytes| - s.inFlight.value.offset
    ensures ValidQueue(s.queue) && s.queue != [] && s.queue[0] == s.inFlight.value
    ensures s.acked + Unwritten(s.queue) == s.admitted
    ensures Advance(s, n).queue == Shortened(s.queue, n)
    ensures Advance(s, n).acked == s.acked + Sent(s.queue[0], n) && |Sent(s.queue[0], n)| == n
  {
    hide Unwritten, Entry.Rest;
  }

  lemma Regroup(a: seq<byte>, b: seq<byte>, c: seq<byte>)
    ensures (a + b) + c == a + (b + c)
  {
  }

  lemma AdvancePrefix(s: State, n: nat)
    requires Sound(s) && s.inFlight.Some?
    requires 0 < n <= |s.inFlight.value.bytes| - s.inFlight.value.offset
    ensures s.acked <= Advance(s, n).acked <= s.admitted
  {
    var entry := s.inFlight.value;
    var sent, rest := entry.bytes[entry.offset..entry.offset + n], entry.bytes[entry.offset + n..];
    assert entry.Rest() == sent + rest;
    hide Unwritten, ValidQueue, Entry.Rest;
    ShorterPrefix(s.acked, sent, rest, s.admitted);
  }

  lemma AdvanceConserves(s: State, n: nat)
    requires Sound(s) && s.inFlight.Some? && !s.failed
    requires 0 < n <= |s.inFlight.value.bytes| - s.inFlight.value.offset
    ensures var s' := Advance(s, n);
            && ValidQueue(s'.queue)
            && s'.acked + Unwritten(s'.queue) == s.admitted && |s'.queue| <= |s.queue|
            && |Unwritten(s'.queue)| + n == |Unwritten(s.queue)|
  {
    AdvanceIs(s, n);
    hide *;
    AdvanceUnwritten(s.queue, n);
    Regrouped(s.acked, Sent(s.queue[0], n), Unwritten(Shortened(s.queue, n)), Unwritten(s.queue));
  }

  lemma Regrouped(a: seq<byte>, b: seq<byte>, c: seq<byte>, bc: seq<byte>)
    requires bc == b + c
    ensures (a + b) + c == a + bc
  {
  }

  lemma ShorterPrefix(a: seq<byte>, b: seq<byte>, c: seq<byte>, all: seq<byte>)
    requires a + (b + c) <= all
    ensures a + b <= all
  {
    Regroup(a, b, c);
  }

  lemma AdvanceSound(s: State, n: nat)
    requires Sound(s) && s.enabled && s.inFlight.Some?
    requires 0 < n <= |s.inFlight.value.bytes| - s.inFlight.value.offset
    ensures Sound(Advance(s, n)) && Drains(s, Advance(s, n)) && Work(Advance(s, n)) < Work(s)
  {
    AdvancePrefix(s, n);
    if !s.failed {
      AdvanceConserves(s, n);
    } else {
      assert Advance(s, n).queue == [];
    }
    hide Unwritten, Entry.Rest;
  }

  lemma {:induction false} CompletedSound(s: State, error: bool, written: Written, replies: seq<Reply>)
    requires Sound(s) && s.enabled && s.inFlight.Some?
    ensures Quiescent(Completed(s, error, written, replies)) && Drains(s, Completed(s, error, written, replies))
    ensures Work(Completed(s, error, written, replies)) < Work(s)
    decreases |replies|, 2
  {
    if Acceptable(s.inFlight.value, error, written) {
      AdvanceSound(s, written.n);
      PumpSound(Advance(s, written.n), replies);
    }
  }

  /** Every event keeps the writer sound; nothing is unsaid, taken back, or written after retirement. */
  lemma StepSound(s: State, e: Event)
    requires Quiescent(s)
    ensures Quiescent(Step(s, e))
    ensures s.acked <= Step(s, e).acked && Step(s, e).enabled == s.enabled
    ensures Step(s, e).admitted == s.admitted + (if e.Write? && Admits(s, e.line) then e.line.bytes else [])
    ensures s.failed ==> Step(s, e).failed
    ensures s.resolved ==> Step(s, e).resolved && Step(s, e).submitted == s.submitted
  {
    match e
    case Write(line, replies) =>
      if Admits(s, line) {
        var offered := s.(lines := s.lines + 1, bytes := s.bytes + |line.bytes|,
                          queue := s.queue + [Entry(line.bytes, 0)], admitted := s.admitted + line.bytes);
        OfferedSound(s, line);
        if s.inFlight.None? {
          PumpSound(offered, replies);
        }
      }
    case RetireCalled =>
    case Completion(ticket, error, written, replies) =>
      if Awaited(s, ticket) {
        CompletedSound(s, error, written, replies);
      }
  }

  lemma {:induction false} UnwrittenAppend(queue: seq<Entry>, entry: Entry)
    requires ValidQueue(queue) && entry.Valid()
    ensures ValidQueue(queue + [entry]) && Unwritten(queue + [entry]) == Unwritten(queue) + entry.Rest()
  {
    if queue == [] {
      assert [] + [entry] == [entry];
      assert Unwritten([entry]) == entry.Rest() + Unwritten([]);
    } else {
      UnwrittenAppend(queue[1..], entry);
      assert (queue + [entry])[1..] == queue[1..] + [entry];
    }
  }

  lemma OfferedSound(s: State, line: Line)
    requires Quiescent(s) && Admits(s, line)
    ensures Sound(s.(lines := s.lines + 1, bytes := s.bytes + |line.bytes|,
                     queue := s.queue + [Entry(line.bytes, 0)], admitted := s.admitted + line.bytes))
  {
    var entry := Entry(line.bytes, 0);
    UnwrittenAppend(s.queue, entry);
    assert entry.Rest() == line.bytes;
    assert s.acked + (Unwritten(s.queue) + line.bytes) == s.admitted + line.bytes;
  }

  /** The bytes of the lines for which `write` returned true along a run. */
  ghost function AcceptedBytes(s: State, events: seq<Event>): seq<byte> {
    if events == [] then []
    else
      var before, e := events[..|events| - 1], events[|events| - 1];
      AcceptedBytes(s, before)
      + (if e.Write? && Admits(Run(s, before), e.line) then e.line.bytes else [])
  }

  lemma {:induction false} RunSound(enabled: bool, events: seq<Event>)
    ensures Quiescent(Run(Initial(enabled), events))
    ensures Run(Initial(enabled), events).enabled == enabled
    ensures Run(Initial(enabled), events).admitted == AcceptedBytes(Initial(enabled), events)
  {
    if events != [] {
      var before, e := events[..|events| - 1], events[|events| - 1];
      RunSound(enabled, before);
      StepSound(Run(Initial(enabled), before), e);
    }
  }

  /**
   Conservation, over every run: until a failure the bytes reported as written and the queue's unwritten rest make
   up the accepted lines in order; after one, what was reported as written is still a prefix of them.
   */
  lemma WriterConserves(enabled: bool, events: seq<Event>)
    ensures var s, accepted := Run(Initial(enabled), events), AcceptedBytes(Initial(enabled), events);
            && ValidQueue(s.queue)
            && (!s.failed ==> s.acked + Unwritten(s.queue) == accepted)
            && s.acked <= accepted
            && (s.inFlight.Some? ==> s.inFlight.value.Valid() && s.acked + s.inFlight.value.Rest() <= accepted)
            && |accepted| <= MAX_TOTAL
            && s.failures == (if s.failed then 1 else 0)
            && s.completed <= s.submitted <= s.completed + 1
            && (!enabled ==> s.submitted == 0)
  {
    RunSound(enabled, events);
  }

  /** Whenever the writer's code is not running, retirement is announced exactly when asked for and nothing is left. */
  lemma RetiredIff(enabled: bool, events: seq<Event>)
    ensures var s := Run(Initial(enabled), events);
            && (s.resolved <==> s.retiring && s.inFlight.None? && s.queue == [])
            && (s.inFlight.None? ==> s.queue == [])
  {
    RunSound(enabled, events);
  }

  /** Once retired, always retired: later events submit no native write and acknowledge no byte. */
  lemma {:induction false} RetiredForGood(enabled: bool, events: seq<Event>, later: seq<Event>)
    requires Run(Initial(enabled), events).resolved
    ensures Run(Initial(enabled), events + later).resolved
    ensures Run(Initial(enabled), events + later).submitted == Run(Initial(enabled), events).submitted
    ensures Run(Initial(enabled), events + later).acked == Run(Initial(enabled), events).acked
  {
    if later == [] {
      assert events + later == events;
    } else {
      var before, e := later[..|later| - 1], later[|later| - 1];
      RetiredForGood(enabled, events, before);
      assert (events + later)[..|events + later| - 1] == events + before;
      RunSound(enabled, events + before);
      StepSound(Run(Initial(enabled), events + before), e);
    }
  }

  datatype Outcome = Outcome(error: bool, written: Written, replies: seq<Reply>)

  /** Each outcome completes the native write then in flight, if any. */
  function CompleteAll(s: State, outcomes: seq<Outcome>): State
    decreases |outcomes|
  {
    if outcomes == [] then s
    else
      var o := outcomes[0];
      CompleteAll(Step(s, Completion(s.submitted, o.error, o.written, o.replies)), outcomes[1..])
  }

  /** A retiring writer whose native writes keep completing, in whatever way, retires within `Work` completions. */
  lemma {:induction false} DrainsToRetirement(s: State, outcomes: seq<Outcome>)
    requires Quiescent(s) && s.retiring && |outcomes| >= Work(s)
    ensures CompleteAll(s, outcomes).resolved
    decreases |outcomes|
  {
    if outcomes != [] {
      var o := outcomes[0];
      var e := Completion(s.submitted, o.error, o.written, o.replies);
      StepSound(s, e);
      if s.inFlight.Some? {
        CompletedSound(s, o.error, o.written, o.replies);
      }
      DrainsToRetirement(Step(s, e), outcomes[1..]);
    }
  }

  /** What the writer is told, in order: a line, or to retire. Completions are the native side's business. */
  function Told(events: seq<Event>): seq<Option<Line>> {
    if events == [] then []
    else
      Told(events[..|events| - 1])
      + match events[|events| - 1]
        case Write(line, _) => [Some(line)]
        case RetireCalled => [None]
        case Completion(_, _, _, _) => []
  }

  function Lines(told: seq<Option<Line>>): nat {
    if told == [] then 0 else Lines(told[..|told| - 1]) + (if told[|told| - 1].Some? then 1 else 0)
  }

  function TotalBytes(told: seq<Option<Line>>): nat {
    if told == [] then 0
    else
      TotalBytes(told[..|told| - 1])
      + match told[|told| - 1]
        case Some(Text(_, bytes)) => |bytes|
        case _ => 0
  }

  predicate FitsLine(line: Line) {
    line.Text? && line.units <= MAX_LINE && |line.bytes| <= MAX_LINE
  }

  /** Within every limit of the writer, and no line after the call to retire. */
  ghost predicate WithinLimits(told: seq<Option<Line>>) {
    && Lines(told) <= MAX_LINES && TotalBytes(told) <= MAX_TOTAL
    && (forall i :: 0 <= i < |told| && told[i].Some? ==> FitsLine(told[i].value))
    && (forall i :: 0 <= i < |told| - 1 ==> told[i].Some?)
  }

  lemma {:induction false} WithinLimitsPrefix(told: seq<Option<Line>>, last: Option<Line>)
    requires WithinLimits(told + [last])
    ensures WithinLimits(told) && (told != [] ==> told[|told| - 1].Some?)
    ensures Lines(told + [last]) == Lines(told) + (if last.Some? then 1 else 0)
    ensures last.Some? ==> FitsLine(last.value) && TotalBytes(told + [last]) == TotalBytes(told) + |last.value.bytes|
  {
    var all := told + [last];
    assert all[..|all| - 1] == told && all[|all| - 1] == last;
    forall i | 0 <= i < |told|
      ensures told[i].Some? && FitsLine(told[i].value)
    {
      assert all[i] == told[i];
    }
    if last.Some? {
      assert FitsLine(all[|told|].value);
    }
  }

  /** What is within the limits is within them from the start. */
  lemma {:induction false} WithinLimitsFirst(told: seq<Option<Line>>, n: nat)
    requires WithinLimits(told) && n <= |told|
    ensures WithinLimits(told[..n])
  {
    if n < |told| {
      var before := told[..|told| - 1];
      assert told == before + [told[|told| - 1]];
      WithinLimitsPrefix(before, told[|told| - 1]);
      WithinLimitsFirst(before, n);
      assert before[..n] == told[..n];
    } else {
      assert told[..n] == told;
    }
  }

  ghost predicate CountsTold(s: State, told: seq<Option<Line>>) {
    && Quiescent(s) && s.enabled
    && (!s.failed ==> s.lines == Lines(told) && s.bytes == TotalBytes(told))
    && (s.retiring <==> told != [] && told[|told| - 1].None?)
  }

  lemma StepCounts(s: State, e: Event)
    requires Quiescent(s) && s.enabled
    ensures e.Completion? ==>
      Step(s, e).lines == s.lines && Step(s, e).bytes == s.bytes && Step(s, e).retiring == s.retiring
    ensures e.RetireCalled? ==> Step(s, e).lines == s.lines && Step(s, e).bytes == s.bytes && Step(s, e).retiring
    ensures e.Write? ==> Step(s, e).retiring == s.retiring
    ensures e.Write? && Admits(s, e.line) ==>
      Step(s, e).lines == s.lines + 1 && Step(s, e).bytes == s.bytes + |e.line.bytes|
  {
    hide Pump, Completed;
    match e
    case Write(line, replies) =>
      if Admits(s, line) {
        PumpCounts(s.(lines := s.lines + 1, bytes := s.bytes + |line.bytes|,
                      queue := s.queue + [Entry(line.bytes, 0)], admitted := s.admitted + line.bytes), replies);
      }
    case RetireCalled =>
    case Completion(ticket, error, written, replies) =>
      if Awaited(s, ticket) {
        CompletedCounts(s, error, written, replies);
      }
  }

  lemma {:induction false} PumpCounts(s: State, replies: seq<Reply>)
    ensures var t := Pump(s, replies); t.lines == s.lines && t.bytes == s.bytes && t.retiring == s.retiring
    decreases |replies|, 1
  {
    if s.inFlight.None? && !s.failed && s.queue != [] && replies != [] && !replies[0].Later? {
      var s' := s.(inFlight := Some(s.queue[0]), submitted := s.submitted + 1);
      if replies[0].Throws? {
        CompletedCounts(s', true, Count(0), replies[1..]);
      } else {
        CompletedCounts(s', replies[0].error, replies[0].written, replies[1..]);
      }
    }
  }

  lemma {:induction false} CompletedCounts(s: State, error: bool, written: Written, replies: seq<Reply>)
    requires s.inFlight.Some?
    ensures var t := Completed(s, error, written, replies);
            t.lines == s.lines && t.bytes == s.bytes && t.retiring == s.retiring
    decreases |replies|, 2
  {
    if Acceptable(s.inFlight.value, error, written) {
      PumpCounts(Advance(s, written.n), replies);
    }
  }

  /**
   A writer that is told no more than its limits allow never refuses a line on their account: as long as no native
   write has failed, the next line is accepted.
   */
  lemma {:induction false} RefusesOnlyAfterFailure(events: seq<Event>)
    requires WithinLimits(Told(events))
    ensures CountsTold(Run(Initial(true), events), Told(events))
    ensures events != [] && events[|events| - 1].Write? && !Run(Initial(true), events[..|events| - 1]).failed ==>
      Admits(Run(Initial(true), events[..|events| - 1]), events[|events| - 1].line)
  {
    RunSound(true, events);
    if events != [] {
      var before, e := events[..|events| - 1], events[|events| - 1];
      var s := Run(Initial(true), before);
      RunSound(true, before);
      if !e.Completion? {
        WithinLimitsPrefix(Told(before), if e.Write? then Some(e.line) else None);
      } else {
        assert Told(events) == Told(before);
      }
      RefusesOnlyAfterFailure(before);
      hide Pump, Completed, Offer, Retire, Quiescent, Told, Lines, TotalBytes;
      StepSound(s, e);
      StepCounts(s, e);
    }
  }

  /** So it is for whatever first part of what is within the limits it has been told. */
  lemma AcceptsWithinLimits(told: seq<Option<Line>>, events: seq<Event>)
    requires WithinLimits(told) && Told(events) <= told
    requires events != [] && events[|events| - 1].Write? && !Run(Initial(true), events[..|events| - 1]).failed
    ensures Admits(Run(Initial(true), events[..|events| - 1]), events[|events| - 1].line)
  {
    hide WithinLimits, Run, Admits;
    assert told[..|Told(events)|] == Told(events);
    WithinLimitsFirst(told, |Told(events)|);
    RefusesOnlyAfterFailure(events);
  }

  /** The writer itself. */
  class Writer {
    const enabled: bool
    var queue: seq<Entry>
    var admittedLines: int
    var admittedBytes: int
    var pending: bool
    var current: Entry
    var retiring: bool
    var failed: bool
    var resolved: bool
    // Each submission has its own completion callback; it is known by the number of the submission.
    var submitted: nat
    ghost var failures: nat
    ghost var completed: nat
    ghost var admitted: seq<byte>
    ghost var acked: seq<byte>

    ghost function Value(): State
      reads this
    {
      State(enabled, queue, admittedLines, admittedBytes, if pending then Some(current) else None,
            retiring, failed, resolved, failures, submitted, completed, admitted, acked)
    }

    constructor (enabled: bool)
      ensures Value() == Initial(enabled)
    {
      this.enabled := enabled;
      queue, admittedLines, admittedBytes := [], 0, 0;
      pending, current, retiring, failed, resolved := false, Entry([], 0), false, false, false;
      failures, submitted, completed, admitted, acked := 0, 0, 0, [], [];
    }

    method SettleRetirement()
      modifies this
      ensures Value() == Settle(old(Value()))
    {
      if retiring && !pending && queue == [] {
        resolved := true;
      }
    }

    method FailStop()
      modifies this
      ensures Value() == Fail(old(Value()))
    {
      if !failed {
        failed := true;
        failures := failures + 1;
      }
      queue := [];
      SettleRetirement();
    }

    /** `replies` is consumed by the native writes that this call, and the completions within it, submit. */
    method PumpQueue(replies: seq<Reply>)
      modifies this
      ensures Value() == Pump(old(Value()), replies)
      decreases |replies|, 1
    {
      if pending || failed || queue == [] {
        SettleRetirement();
        return;
      }
      current := queue[0];
      pending := true;
      submitted := submitted + 1;
      if replies != [] {
        match replies[0]
        case Later =>
        case Throws => Complete(true, Count(0), replies[1..]);
        case Completes(error, written) => Complete(error, written, replies[1..]);
      }
    }

    /** `n` more bytes of the current entry are written. */
    method CountWritten(n: int)
      requires !pending && completed > 0 && 0 < n <= |current.bytes| - current.offset
      modifies this
      ensures var before := old(Value()).(inFlight := Some(old(current)), completed := old(completed) - 1);
              Value() == Advance(before, n)
    {
      acked := acked + current.bytes[current.offset..current.offset + n];
      current := current.(offset := current.offset + n);
      // The queue's head is the very entry that is in flight; after a failure the queue holds nothing.
      if queue != [] {
        queue := if current.offset == |current.bytes| then queue[1..] else queue[0 := current];
      }
    }

    /** The first report of the native write in flight. */
    method Complete(error: bool, written: Written, replies: seq<Reply>)
      requires pending
      modifies this
      ensures Value() == Completed(old(Value()), error, written, replies)
      decreases |replies|, 2
    {
      hide Pump, Fail, Advance;
      pending := false;
      completed := completed + 1;
      if error || written.NotAnInteger? || written.n <= 0 || written.n > |current.bytes| - current.offset {
        FailStop();
        return;
      }
      CountWritten(written.n);
      PumpQueue(replies);
    }

    /** A report that a native write makes after its submission returned; it counts only if it is awaited. */
    method Report(ticket: nat, error: bool, written: Written, replies: seq<Reply>)
      modifies this
      ensures Value() == Step(old(Value()), Completion(ticket, error, written, replies))
    {
      if pending && ticket == submitted {
        Complete(error, written, replies);
      }
    }

    method Write(line: Line, replies: seq<Reply>) returns (accepted: bool)
      modifies this
      ensures Value() == Step(old(Value()), Event.Write(line, replies))
      ensures accepted == Admits(old(Value()), line)
    {
      hide Pump, Fail, Completed;
      if !enabled || failed {
        return false;
      }
      if retiring || line.NotText? || line.units > MAX_LINE {
        FailStop();
        return false;
      }
      admittedLines := admittedLines + 1;
      if admittedLines > MAX_LINES || |line.bytes| > MAX_LINE {
        FailStop();
        return false;
      }
      admittedBytes := admittedBytes + |line.bytes|;
      if admittedBytes > MAX_TOTAL {
        FailStop();
        return false;
      }
      queue := queue + [Entry(line.bytes, 0)];
      admitted := admitted + line.bytes;
      PumpQueue(replies);
      return true;
    }

    method Retire()
      modifies this
      ensures Value() == Step(old(Value()), RetireCalled)
    {
      retiring := true;
      SettleRetirement();
    }
  }
}
