/**
 Why a diagnostic writer accepts, refuses and fails, told by what happened to it: by its events, by the lengths of the
 lines that are still to be written, and by the limits in figures.
 */
module WriterHistory {
  import opened Common
  import opened DiagnosticWriter

  /** How many bytes of every queued line are still to be written. */
  function Remaining(queue: seq<Entry>): seq<int> {
    seq(|queue|, i requires 0 <= i < |queue| => |queue[i].bytes| - queue[i].offset)
  }

  /** A report that `n` bytes are written, one at least and no more than were offered. */
  predicate Progress(error: bool, written: Written, offered: int) {
    !error && written.Count? && 1 <= written.n <= offered
  }

  function Less(remaining: seq<int>, n: int): seq<int>
    requires remaining != []
  {
    if n == remaining[0] then remaining[1..] else [remaining[0] - n] + remaining[1..]
  }

  /**
   Native writes are submitted for the first line that is not written out, one after another, as long as each replies
   before its submission returns: does one of them throw or report anything but progress?
   */
  predicate Spoiled(remaining: seq<int>, replies: seq<Reply>)
    decreases |replies|
  {
    remaining != [] && replies != [] &&
    match replies[0]
    case Later => false
    case Throws => true
    case Completes(error, written) =>
      !Progress(error, written, remaining[0]) || Spoiled(Less(remaining, written.n), replies[1..])
  }

  /** How many lines `write` accepted. */
  ghost function AcceptedLines(s: State, events: seq<Event>): nat {
    if events == [] then 0
    else
      var before, e := events[..|events| - 1], events[|events| - 1];
      AcceptedLines(s, before) + (if e.Write? && Admits(Run(s, before), e.line) then 1 else 0)
  }

  predicate AskedToRetire(events: seq<Event>) {
    exists k :: 0 <= k < |events| && events[k].RetireCalled?
  }

  /** Is there room for the line? */
  ghost predicate Allowed(enabled: bool, events: seq<Event>, line: Line) {
    && !AskedToRetire(events)
    && line.Text? && line.units <= 128 && |line.bytes| <= 128
    && AcceptedLines(Initial(enabled), events) < 513
    && |AcceptedBytes(Initial(enabled), events)| + |line.bytes| <= 65536
  }

  ghost predicate Tallied(enabled: bool, events: seq<Event>, s: State) {
    && (s.retiring <==> AskedToRetire(events))
    && (!s.failed ==> s.lines == AcceptedLines(Initial(enabled), events))
  }

  lemma AskedStep(events: seq<Event>)
    requires events != []
    ensures AskedToRetire(events) <==> AskedToRetire(events[..|events| - 1]) || events[|events| - 1].RetireCalled?
  {
    var before := events[..|events| - 1];
    if AskedToRetire(before) {
      var k :| 0 <= k < |before| && before[k].RetireCalled?;
      assert events[k].RetireCalled?;
    }
    if AskedToRetire(events) {
      var k :| 0 <= k < |events| && events[k].RetireCalled?;
      assert k < |before| ==> before[k].RetireCalled?;
    }
  }

  lemma FailedLines(s: State, e: Event)
    requires Quiescent(s)
    ensures !Step(s, e).failed ==>
      Step(s, e).lines == s.lines + (if e.Write? && Admits(s, e.line) then 1 else 0)
    ensures Step(s, e).retiring == (s.retiring || e.RetireCalled?)
  {
    hide Pump, Completed;
    if s.enabled {
      StepCounts(s, e);
    }
    if e.RetireCalled? {
      RetireKeeps(s);
    }
    if e.Completion? && Awaited(s, e.ticket) {
      CompletedCounts(s, e.error, e.written, e.replies);
    }
  }

  lemma RetireKeeps(s: State)
    ensures Step(s, RetireCalled).lines == s.lines && Step(s, RetireCalled).retiring
  {
  }

  lemma {:induction false} RunTallied(enabled: bool, events: seq<Event>)
    ensures Tallied(enabled, events, Run(Initial(enabled), events))
  {
    if events != [] {
      var before, e := events[..|events| - 1], events[|events| - 1];
      var s := Run(Initial(enabled), before);
      RunTallied(enabled, before);
      RunSound(enabled, before);
      StepSound(s, e);
      AskedStep(events);
      FailedLines(s, e);
      hide Step, Admits, AskedToRetire, Quiescent;
    }
  }

  /**
   When `write` returns true, over every run: the writer is enabled and has not failed, it was not asked to retire, the
   line is text of at most 128 units and 128 bytes, fewer than 513 lines were accepted, and with this one at most 65536
   bytes are.
   */
  lemma AcceptedIff(enabled: bool, events: seq<Event>, line: Line)
    ensures Admits(Run(Initial(enabled), events), line) <==>
            enabled && !Run(Initial(enabled), events).failed && Allowed(enabled, events, line)
  {
    RunSound(enabled, events);
    RunTallied(enabled, events);
    hide Run, AcceptedBytes, AcceptedLines, AskedToRetire, ValidQueue, Unwritten;
  }

  /** The head of the queue is what a native write offers. */
  ghost predicate Offers(s: State) {
    && !s.failed
    && (s.inFlight.Some? ==> s.queue != [] && s.queue[0] == s.inFlight.value)
    && (forall i :: 0 <= i < |s.queue| ==> s.queue[i].offset <= |s.queue[i].bytes|)
  }

  lemma {:induction false} PumpSpoiled(s: State, replies: seq<Reply>)
    requires Offers(s) && s.inFlight.None?
    ensures Pump(s, replies).failed <==> Spoiled(Remaining(s.queue), replies)
    decreases |replies|, 1
  {
    if s.queue != [] && replies != [] && !replies[0].Later? {
      var s' := s.(inFlight := Some(s.queue[0]), submitted := s.submitted + 1);
      assert Offers(s');
      hide Offers, Settle, Fail, Completed;
      if replies[0].Throws? {
        CompletedSpoiled(s', true, Count(0), replies[1..]);
      } else {
        CompletedSpoiled(s', replies[0].error, replies[0].written, replies[1..]);
      }
    }
  }

  lemma LessRemaining(s: State, n: int)
    requires Offers(s) && s.inFlight.Some? && 1 <= n <= Remaining(s.queue)[0]
    ensures 0 < n <= |s.inFlight.value.bytes| - s.inFlight.value.offset
    ensures Offers(Advance(s, n)) && Advance(s, n).inFlight.None?
    ensures Remaining(Advance(s, n).queue) == Less(Remaining(s.queue), n)
  {
  }

  lemma {:induction false} CompletedSpoiled(s: State, error: bool, written: Written, replies: seq<Reply>)
    requires Offers(s) && s.inFlight.Some?
    ensures Completed(s, error, written, replies).failed <==>
            !Progress(error, written, Remaining(s.queue)[0])
            || Spoiled(Less(Remaining(s.queue), written.n), replies)
    decreases |replies|, 2
  {
    if Progress(error, written, Remaining(s.queue)[0]) {
      LessRemaining(s, written.n);
      PumpSpoiled(Advance(s, written.n), replies);
    }
  }

  lemma SoundOffers(s: State)
    requires Sound(s) && !s.failed
    ensures Offers(s)
  {
  }

  /** The event that is about to happen makes a writer fail that has not failed. */
  ghost predicate Spoils(enabled: bool, events: seq<Event>, e: Event) {
    var s := Run(Initial(enabled), events);
    enabled &&
    match e
    case Write(line, replies) =>
      !Allowed(enabled, events, line) || (s.submitted == s.completed && Spoiled([|line.bytes|], replies))
    case RetireCalled => false
    case Completion(ticket, error, written, replies) =>
      ticket == s.submitted > s.completed && Spoiled(Remaining(s.queue), [Completes(error, written)] + replies)
  }

  function Offered(s: State, line: Line): State
    requires line.Text?
  {
    s.(lines := s.lines + 1, bytes := s.bytes + |line.bytes|,
       queue := s.queue + [Entry(line.bytes, 0)], admitted := s.admitted + line.bytes)
  }

  /** An accepted line is queued, and written at once if no native write is awaited. */
  lemma WriteSpoiled(s: State, line: Line, replies: seq<Reply>)
    requires Quiescent(s) && Admits(s, line)
    ensures Step(s, Write(line, replies)).failed <==> s.inFlight.None? && Spoiled([|line.bytes|], replies)
  {
    var offered := Offered(s, line);
    assert Step(s, Write(line, replies)) == Pump(offered, replies) && !offered.failed;
    if s.inFlight.None? {
      assert s.queue == [] && offered.queue == [Entry(line.bytes, 0)] && Offers(offered);
      assert Remaining(offered.queue) == [|line.bytes|];
      hide Offers, Pump, Remaining;
      PumpSpoiled(offered, replies);
    }
  }

  lemma WriteRefused(s: State, line: Line, replies: seq<Reply>)
    requires !s.failed && !Admits(s, line)
    ensures Step(s, Write(line, replies)).failed <==> s.enabled
  {
    hide Pump;
  }

  lemma ReportSpoiled(s: State, ticket: nat, error: bool, written: Written, replies: seq<Reply>)
    requires Quiescent(s) && !s.failed
    ensures Step(s, Completion(ticket, error, written, replies)).failed <==>
            ticket == s.submitted > s.completed
            && Spoiled(Remaining(s.queue), [Completes(error, written)] + replies)
  {
    SoundOffers(s);
    if Awaited(s, ticket) {
      hide Completed, Pump, Unwritten;
      CompletedSpoiled(s, error, written, replies);
      assert ([Completes(error, written)] + replies)[1..] == replies;
    }
  }

  lemma SpoilsIff(enabled: bool, events: seq<Event>, e: Event)
    requires !Run(Initial(enabled), events).failed
    ensures Step(Run(Initial(enabled), events), e).failed <==> Spoils(enabled, events, e)
  {
    var s := Run(Initial(enabled), events);
    RunSound(enabled, events);
    assert s.submitted == s.completed <==> s.inFlight.None?;
    assert !enabled ==> s.submitted == 0;
    hide Run, Allowed, Spoiled, Step;
    match e
    case Write(line, replies) =>
      AcceptedIff(enabled, events, line);
      hide Quiescent;
      if Admits(s, line) {
        WriteSpoiled(s, line, replies);
      } else {
        WriteRefused(s, line, replies);
      }
    case RetireCalled => RetireSpoilsNothing(s);
    case Completion(ticket, error, written, replies) => ReportSpoiled(s, ticket, error, written, replies);
  }

  lemma RetireSpoilsNothing(s: State)
    ensures Step(s, RetireCalled).failed == s.failed
  {
  }

  /**
   The causes of failure, over every run: a writer has failed if and only if, while it was enabled and had not failed, a
   line was offered that there was no room for, or a native write that was awaited threw, or reported an error, no
   integer, nothing, or more bytes than it was offered.
   */
  lemma {:induction false} FailedIff(enabled: bool, events: seq<Event>)
    ensures Run(Initial(enabled), events).failed <==>
            exists k :: 0 <= k < |events| && FailsAt(enabled, events, k)
  {
    if events != [] {
      var n := |events| - 1;
      var s := Run(Initial(enabled), events[..n]);
      FailedIff(enabled, events[..n]);
      RunSound(enabled, events[..n]);
      StepSound(s, events[n]);
      assert Run(Initial(enabled), events) == Step(s, events[n]);
      if !s.failed {
        SpoilsIff(enabled, events[..n], events[n]);
      }
      assert FailsAt(enabled, events, n) <==> !s.failed && Spoils(enabled, events[..n], events[n]);
      hide Run, Spoils, Quiescent, FailsAt, Step;
      forall k | 0 <= k < n
        ensures FailsAt(enabled, events, k) <==> FailsAt(enabled, events[..n], k)
      {
        FailsEarlier(enabled, events, n, k);
      }
    }
  }

  lemma FailsEarlier(enabled: bool, events: seq<Event>, n: nat, k: nat)
    requires k < n <= |events|
    ensures FailsAt(enabled, events, k) <==> FailsAt(enabled, events[..n], k)
  {
    hide Run, Spoils;
    assert events[..n][..k] == events[..k];
  }

  ghost predicate FailsAt(enabled: bool, events: seq<Event>, k: nat)
    requires k < |events|
  {
    !Run(Initial(enabled), events[..k]).failed && Spoils(enabled, events[..k], events[k])
  }

  /**
   A report of progress, over every run: it acknowledges exactly the bytes it reports, the next ones of the line in
   flight, and makes no writer fail; native writes that reply at once may add to that.
   */
  lemma ProgressCounts(enabled: bool, events: seq<Event>, n: int, replies: seq<Reply>)
    requires Run(Initial(enabled), events).inFlight.Some?
    requires var entry := Run(Initial(enabled), events).inFlight.value; 1 <= n <= |entry.bytes| - entry.offset
    ensures var s := Run(Initial(enabled), events);
            var entry, t := s.inFlight.value, Step(s, Completion(s.submitted, false, Count(n), replies));
            && s.acked + entry.bytes[entry.offset..entry.offset + n] <= t.acked
            && (replies == [] ==>
                  t.failed == s.failed && t.acked == s.acked + entry.bytes[entry.offset..entry.offset + n])
            && (s.failed ==> t.failed && t.acked == s.acked + entry.bytes[entry.offset..entry.offset + n])
  {
    var s := Run(Initial(enabled), events);
    RunSound(enabled, events);
    var a := Advance(s, n);
    AdvanceSound(s, n);
    PumpSound(a, replies);
    assert Step(s, Completion(s.submitted, false, Count(n), replies)) == Pump(a, replies);
    hide Run, Sound, Quiescent, Unwritten, Completed;
    PumpAlone(a);
    PumpFailed(a, replies);
  }

  lemma PumpAlone(s: State)
    ensures Pump(s, []).failed == s.failed && Pump(s, []).acked == s.acked
  {
  }

  lemma PumpFailed(s: State, replies: seq<Reply>)
    ensures s.failed ==> Pump(s, replies).failed && Pump(s, replies).acked == s.acked
  {
  }
}
