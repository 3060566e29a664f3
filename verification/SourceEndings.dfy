/** How requests of the source-admission route end, and how its diagnostics do. */
module SourceEndings {
  import opened BodyReaders
  import opened Common
  import opened HeaderFraming
  import opened SourceDiagnostics
  import opened SourceAdmission
  import opened SourceHistory

  // Requests.

  lemma ReadingAlone(r: Request, now: int)
    requires r.phase.Receiving?
    ensures LocalStep(r, now, ClientGone).phase.Finalizing?
    ensures if Expired(r, now) then LocalStep(r, now, TimerFires).phase.Finalizing?
            else LocalStep(r, now, TimerFires) == r
  {
    hide Expired;
  }

  lemma ReadingInTime(s: Server, i: nat)
    requires Safe(s) && i < |s.requests| && s.requests[i].phase.Receiving?
    ensures var r := s.requests[i];
            && |r.stamps| > 0
            && (Expired(r, s.now) <==>
                  || s.now >= r.startedAt + r.policy.absoluteMs
                  || (r.policy.idleMs.Some? && r.policy.idleMs.value != 0
                      && s.now - r.stamps[|r.stamps| - 1] >= r.policy.idleMs.value))
  {
    assert BodyKept(s.requests[i], s.now);
    hide Whole, Ownership, Unfinished;
  }

  /**
   A request that reads its body stops when its client goes, and at the timer's first look once an idle limit has passed
   since the last chunk or an absolute limit since its arrival; an earlier look changes nothing.
   */
  lemma ReadingStops(enabled: bool, events: seq<Event>, i: nat)
    requires i < |Arrivals(events)| && |Arrivals(events)| == |Run(enabled, events).requests|
    requires Run(enabled, events).requests[i].phase.Receiving?
    ensures var r, a := Run(enabled, events).requests[i], Arrivals(events)[i];
            var looked := Run(enabled, events + [Local(i, TimerFires)]);
            var gone := Run(enabled, events + [Local(i, ClientGone)]);
            && i < |looked.requests| && i < |gone.requests| && |r.stamps| > 0
            && gone.requests[i].phase.Finalizing?
            && (if Clock(events) >= a.at + a.policy.absoluteMs
                   || (a.policy.idleMs.Some? && a.policy.idleMs.value != 0
                       && Clock(events) - r.stamps[|r.stamps| - 1] >= a.policy.idleMs.value)
                then looked.requests[i].phase.Finalizing? else looked.requests[i] == r)
  {
    hide *;
    RunSafe(enabled, events);
    ArrivalsRecorded(enabled, events);
    RunMore(enabled, events, Local(i, TimerFires));
    RunMore(enabled, events, Local(i, ClientGone));
    var s := Run(enabled, events);
    RecordOf(s.requests[i], Arrivals(events)[i]);
    LocalAt(s, i, TimerFires);
    LocalAt(s, i, ClientGone);
    ReadingInTime(s, i);
    ReadingAlone(s.requests[i], s.now);
  }

  lemma TurnAlone(r: Request, now: int, destroyed: bool, fails: bool)
    requires r.phase.Ready?
    ensures var r' := LocalStep(r, now, Turn(destroyed, fails));
            && (r'.phase.Forwarding? || r'.phase.Finalizing?)
            && (r'.phase.Forwarding? ==> r'.outgoing.Open? && r'.forwarded.Some? && r'.forwarded.value.0 == now)
            && (r'.phase.Forwarding? ==> !destroyed && !fails && !r.aborted && !Expired(r, now))
  {
    hide BodyOf, Expired;
  }

  lemma TurnTaken(r: Request, now: int)
    requires r.phase.Ready? && !r.aborted && !Expired(r, now)
    requires exists body :: Whole(r.headers, r.policy, r.count, r.stream, body)
    ensures LocalStep(r, now, Turn(false, false)).phase.Forwarding?
  {
    hide StrictRun, SourceBodyLength, Expired;
  }

  /**
   A whole body is sent at its turn if and only if the socket stands, the sender record, if any, succeeds, the request
   was not aborted, and neither limit has run out.
   */
  lemma TurnIff(enabled: bool, events: seq<Event>, i: nat, destroyed: bool, fails: bool)
    requires i < |Arrivals(events)| && |Arrivals(events)| == |Run(enabled, events).requests|
    requires Run(enabled, events).requests[i].phase.Ready?
    ensures var r, a, now := Run(enabled, events).requests[i], Arrivals(events)[i], Clock(events);
            var s' := Run(enabled, events + [Local(i, Turn(destroyed, fails))]);
            && i < |s'.requests| && |r.stamps| > 0
            && (s'.requests[i].phase.Forwarding? <==>
                  && !destroyed && !fails && !r.aborted && now < a.at + a.policy.absoluteMs
                  && (a.policy.idleMs.Some? && a.policy.idleMs.value != 0 ==>
                        now - r.stamps[|r.stamps| - 1] < a.policy.idleMs.value))
            && (s'.requests[i].phase.Forwarding? || s'.requests[i].phase.Finalizing?)
  {
    hide *;
    RunSafe(enabled, events);
    ArrivalsRecorded(enabled, events);
    RunMore(enabled, events, Local(i, Turn(destroyed, fails)));
    var s := Run(enabled, events);
    var r := s.requests[i];
    RecordOf(r, Arrivals(events)[i]);
    LocalAt(s, i, Turn(destroyed, fails));
    ReadyInTime(s, i);
    TurnAlone(r, s.now, destroyed, fails);
    if !r.aborted && !Expired(r, s.now) {
      TurnTaken(r, s.now);
    }
  }

  lemma ReadyInTime(s: Server, i: nat)
    requires Safe(s) && i < |s.requests| && s.requests[i].phase.Ready?
    ensures var r := s.requests[i];
            && |r.stamps| > 0 && (exists body :: Whole(r.headers, r.policy, r.count, r.stream, body))
            && (Expired(r, s.now) <==>
                  || s.now >= r.startedAt + r.policy.absoluteMs
                  || (r.policy.idleMs.Some? && r.policy.idleMs.value != 0
                      && s.now - r.stamps[|r.stamps| - 1] >= r.policy.idleMs.value))
  {
    assert BodyKept(s.requests[i], s.now);
    hide Whole, Ownership, Unfinished;
  }

  lemma AbortAlone(r: Request, now: int)
    requires !r.phase.Finalizing? && !r.phase.Released?
    ensures LocalStep(r, now, ClientGone).aborted
    ensures LocalStep(r, now, TimerFires).aborted <==> r.aborted || Expired(r, now)
  {
    hide Expired;
  }

  lemma AbortStays(r: Request, now: int, e: LocalEvent)
    ensures r.aborted ==> LocalStep(r, now, e).aborted
  {
    hide Expired, StrictStep, BodyOf;
  }

  /** Until its end a request is aborted at once when its client goes, and it stays aborted whatever follows. */
  lemma ClientGoneAborts(enabled: bool, events: seq<Event>, i: nat, e: LocalEvent)
    requires i < |Arrivals(events)| && |Arrivals(events)| == |Run(enabled, events).requests|
    ensures var r := Run(enabled, events).requests[i];
            var gone := Run(enabled, events + [Local(i, ClientGone)]);
            var next := Run(enabled, events + [Local(i, e)]);
            && i < |gone.requests| && i < |next.requests|
            && (!r.phase.Finalizing? && !r.phase.Released? ==> gone.requests[i].aborted)
            && (r.aborted ==> next.requests[i].aborted)
  {
    hide *;
    RunMore(enabled, events, Local(i, ClientGone));
    RunMore(enabled, events, Local(i, e));
    var s := Run(enabled, events);
    LocalAt(s, i, ClientGone);
    LocalAt(s, i, e);
    AbortStays(s.requests[i], s.now, e);
    if !s.requests[i].phase.Finalizing? && !s.requests[i].phase.Released? {
      AbortAlone(s.requests[i], s.now);
    }
  }

  /** The upstream's objects must close before a request goes on. */
  ghost predicate UpstreamGone(r: Request) {
    r.outgoing.Closed? && !r.incoming.Open?
  }

  lemma ExchangeOver(r: Request, now: int, result: bool)
    requires r.phase.Forwarding?
    ensures LocalStep(r, now, ExchangeEnds(result)).phase == Closing(result && !r.aborted)
  {
  }

  lemma UpstreamOver(r: Request, now: int, answered: bool)
    requires r.phase.Closing?
    ensures LocalStep(r, now, UpstreamClosed(answered)).phase ==
            if !UpstreamGone(r) then r.phase
            else if r.phase.ok && !r.aborted && now < r.startedAt + r.policy.absoluteMs && answered then Responding
            else Finalizing
  {
  }

  /**
   How an exchange ends: a result counts only if the request was not aborted; once both upstream objects have closed,
   and not before, the client is answered if there is such a result and the absolute limit has not passed since the
   arrival.
   */
  lemma AnsweredIff(enabled: bool, events: seq<Event>, i: nat, result: bool, answered: bool)
    requires i < |Arrivals(events)| && |Arrivals(events)| == |Run(enabled, events).requests|
    ensures var r, a := Run(enabled, events).requests[i], Arrivals(events)[i];
            var ended := Run(enabled, events + [Local(i, ExchangeEnds(result))]);
            var closed := Run(enabled, events + [Local(i, UpstreamClosed(answered))]);
            && i < |ended.requests| && i < |closed.requests|
            && (r.phase.Forwarding? ==> ended.requests[i].phase == Closing(result && !r.aborted))
            && (r.phase.Closing? ==>
                  closed.requests[i].phase ==
                  if !UpstreamGone(r) then r.phase
                  else if r.phase.ok && !r.aborted && Clock(events) < a.at + a.policy.absoluteMs && answered
                  then Responding else Finalizing)
  {
    hide *;
    ArrivalsRecorded(enabled, events);
    RunMore(enabled, events, Local(i, ExchangeEnds(result)));
    RunMore(enabled, events, Local(i, UpstreamClosed(answered)));
    var s := Run(enabled, events);
    RecordOf(s.requests[i], Arrivals(events)[i]);
    LocalAt(s, i, ExchangeEnds(result));
    LocalAt(s, i, UpstreamClosed(answered));
    if s.requests[i].phase.Forwarding? {
      ExchangeOver(s.requests[i], s.now, result);
    }
    if s.requests[i].phase.Closing? {
      UpstreamOver(s.requests[i], s.now, answered);
    }
  }

  lemma RecordOf(r: Request, a: Arrival)
    requires Recorded(r, a)
    ensures r.startedAt == a.at && r.policy == a.policy
  {
  }

  lemma Watched(r: Request, now: int)
    ensures var r' := Touch(r, now);
            var late := now >= r.startedAt + r.policy.absoluteMs
                        || (r.policy.idleMs.Some? && r.policy.idleMs.value != 0 && now >= r.idleEnd);
            if late then r'.aborted && r' == Abort(r)
            else r' == r.(idleEnd := now + if r.policy.idleMs.Some? then r.policy.idleMs.value else r.policy.absoluteMs)
  {
  }

  /**
   A response under way is watched like a request: each of its chunks either comes in time and starts the idle limit
   afresh, or is too late and aborts the request; and so is a refused body that is being dropped, which it ends.
   */
  lemma ProgressWatched(enabled: bool, events: seq<Event>, i: nat)
    requires i < |Arrivals(events)| && |Arrivals(events)| == |Run(enabled, events).requests|
    ensures var r, a, now := Run(enabled, events).requests[i], Arrivals(events)[i], Clock(events);
            var late := now >= a.at + a.policy.absoluteMs
                        || (a.policy.idleMs.Some? && a.policy.idleMs.value != 0 && now >= r.idleEnd);
            var answer := Run(enabled, events + [Local(i, ResponseProgress)]);
            var drop := Run(enabled, events + [Local(i, Dropped)]);
            && i < |answer.requests| && i < |drop.requests|
            && (r.incoming.Open? ==>
                  if late then answer.requests[i].aborted
                  else answer.requests[i].aborted == r.aborted && answer.requests[i].idleEnd ==
                       now + if a.policy.idleMs.Some? then a.policy.idleMs.value else a.policy.absoluteMs)
            && (r.phase.Settling? ==>
                  if late then drop.requests[i].phase.Finalizing? else drop.requests[i].phase.Settling?)
  {
    hide *;
    ArrivalsRecorded(enabled, events);
    RunMore(enabled, events, Local(i, ResponseProgress));
    RunMore(enabled, events, Local(i, Dropped));
    var s := Run(enabled, events);
    RecordOf(s.requests[i], Arrivals(events)[i]);
    LocalAt(s, i, ResponseProgress);
    LocalAt(s, i, Dropped);
    Watched(s.requests[i], s.now);
    Watching(s.requests[i], s.now);
  }

  lemma Watching(r: Request, now: int)
    ensures r.incoming.Open? ==> LocalStep(r, now, ResponseProgress) == Touch(r, now)
    ensures r.phase.Settling? ==> LocalStep(r, now, Dropped) == Touch(r, now)
    ensures r.phase.Settling? ==> Abort(r).phase.Finalizing?
  {
    hide Touch;
  }

  /**
   A request is released if and only if it is at its end and it and its socket have closed; the owner frees the route.
   */
  lemma ReleasedIff(enabled: bool, events: seq<Event>, i: nat)
    requires i < |Run(enabled, events).requests| && !Run(enabled, events).requests[i].phase.Released?
    ensures var s, s' := Run(enabled, events), Run(enabled, events + [Releases(i)]);
            && i < |s'.requests|
            && (s'.requests[i].phase.Released? <==>
                  s.requests[i].phase.Finalizing? && s.requests[i].requestClosed && s.requests[i].socketClosed)
            && (s'.active <==> s.active && !(s'.requests[i].phase.Released? && s.requests[i].owns))
  {
    RunMore(enabled, events, Releases(i));
    hide Run, Observe, Leave;
  }

  // Diagnostics.

  predicate WriterHasFailed(events: seq<Event>) {
    events != [] && (WriterHasFailed(events[..|events| - 1]) || events[|events| - 1].WriterFails?)
  }

  lemma ObserveOverflows(d: Diagnostics, phase: LifetimePhase, ordinal: nat, role: Role)
    requires d.enabled && !d.overflow ==> ordinal <= d.sequence + 1
    ensures var d' := Observe(d, phase, ordinal, role);
            if !d.enabled || d.overflow then d' == d
            else d'.sequence == d.sequence + 1 && (d'.overflow <==> d'.sequence > 512)
  {
  }

  ghost predicate OverflowTold(d: Diagnostics, failed: bool) {
    d.overflow <==> d.sequence > 512 || failed
  }

  lemma StepOverflow(s: Server, e: Event, failed: bool)
    requires LogSafe(s) && OverflowTold(s.diagnostics, failed)
    ensures OverflowTold(Step(s, e).diagnostics, failed || e.WriterFails?)
  {
    hide LocalStep, Arriving, Orderly;
    var d := s.diagnostics;
    match e
    case Arrives(headers, policy, trusted, role) =>
      ObserveOverflows(Admit(d), if !s.active then Acquired else Denied, Admit(d).ordinal, role);
      hide Observe;
    case SocketCloses(i) =>
      if i < |s.requests| {
        ObserveOverflows(d, SocketClosed, s.requests[i].ordinal, s.requests[i].role);
      }
      hide Observe;
    case Releases(i) =>
      if i < |s.requests| {
        ObserveOverflows(d, OwnerReleased, s.requests[i].ordinal, s.requests[i].role);
      }
      hide Observe;
    case _ =>
  }

  /** Lines overflow, over every run, if and only if there are 513 of them or a native write has failed. */
  lemma {:induction false} OverflowIff(enabled: bool, events: seq<Event>)
    ensures var d := Run(enabled, events).diagnostics;
            && OverflowTold(d, WriterHasFailed(events))
            && (d.overflow <==> |Lifetimes(d.log)| == 513 || WriterHasFailed(events))
  {
    RunLogSafe(enabled, events);
    if events != [] {
      var before, e := events[..|events| - 1], events[|events| - 1];
      OverflowIff(enabled, before);
      RunLogSafe(enabled, before);
      assert Run(enabled, events) == Step(Run(enabled, before), e);
      assert |Lifetimes(Run(enabled, events).diagnostics.log)| == Run(enabled, events).diagnostics.sequence <= 513;
      hide Run, Step, LogSafe, Lifetimes;
      StepOverflow(Run(enabled, before), e, WriterHasFailed(before));
    }
  }

  /** The writer has been told to retire exactly when the server has closed and no handler is left. */
  ghost predicate RetiresWhenDone(d: Diagnostics) {
    Retired(d.log) <==> d.closing && d.handlers == 0
  }

  lemma RetireIfDoneDone(d: Diagnostics)
    requires !Retired(d.log)
    ensures RetiresWhenDone(RetireIfDone(d))
  {
    RetiredAppend(d.log, Retire);
    hide Retired;
  }

  lemma StepRetires(s: Server, e: Event)
    requires Safe(s) && LogSafe(s) && RetiresWhenDone(s.diagnostics)
    ensures RetiresWhenDone(Step(s, e).diagnostics)
  {
    hide LocalStep, Arriving, Observe, Numbered, Lifetimes, RetireLast, BodyKept, Retired, Sender;
    var d := s.diagnostics;
    match e
    case Arrives(headers, policy, trusted, role) =>
      if !d.closing {
        ObserveOrderly(Admit(d), if !s.active then Acquired else Denied, Admit(d).ordinal, role);
      }
    case SenderRecorded(i, plausible) =>
      if i < |s.requests| && s.requests[i].phase.Ready? {
        UnreleasedPositive(s.requests, i);
        SenderOrderly(d, plausible);
      }
    case SocketCloses(i) =>
      if i < |s.requests| && !s.requests[i].socketClosed {
        assert Ownership(s.requests[i]);
        UnreleasedPositive(s.requests, i);
        ObserveOrderly(d, SocketClosed, s.requests[i].ordinal, s.requests[i].role);
      }
    case Releases(i) =>
      if i < |s.requests| && CanRelease(s.requests[i]) {
        var r := s.requests[i];
        UnreleasedPositive(s.requests, i);
        ObserveOrderly(d, OwnerReleased, r.ordinal, r.role);
        var d' := if r.owns then Observe(d, OwnerReleased, r.ordinal, r.role) else d;
        if d.enabled {
          RetireIfDoneDone(d'.(handlers := d'.handlers - 1));
        }
      }
    case ServerCloses =>
      if !d.closing {
        RetireIfDoneDone(d.(closing := true));
      }
    case _ =>
  }

  lemma {:induction false} RunRetires(enabled: bool, events: seq<Event>)
    ensures RetiresWhenDone(Run(enabled, events).diagnostics)
  {
    if events != [] {
      var before, e := events[..|events| - 1], events[|events| - 1];
      RunRetires(enabled, before);
      RunSafe(enabled, before);
      RunLogSafe(enabled, before);
      hide Safe, LogSafe, RetiresWhenDone;
      StepRetires(Run(enabled, before), e);
    }
  }

  /**
   Retirement, over every run: the writer has been told to retire if and only if the server has closed and, where
   diagnostics are on, every request was released.
   */
  lemma RetiredIff(enabled: bool, events: seq<Event>)
    ensures var s := Run(enabled, events);
            Retired(s.diagnostics.log) <==> HasClosed(events) && (enabled ==> Unreleased(s.requests) == 0)
  {
    RunRetires(enabled, events);
    RunLogSafe(enabled, events);
    ArrivalsRecorded(enabled, events);
    hide Run, Retired, HasClosed, Unreleased;
  }

  function SenderLines(log: seq<LogEntry>): nat {
    if log == [] then 0 else SenderLines(log[..|log| - 1]) + (if log[|log| - 1].SenderLine? then 1 else 0)
  }

  lemma SenderLinesAppend(log: seq<LogEntry>, entry: LogEntry)
    ensures SenderLines(log + [entry]) == SenderLines(log) + (if entry.SenderLine? then 1 else 0)
  {
    assert (log + [entry])[..|log|] == log;
  }

  ghost predicate SendersBounded(d: Diagnostics) {
    SenderLines(d.log) <= (if d.senders < 32 then d.senders else 32)
  }

  lemma ObserveBounded(d: Diagnostics, phase: LifetimePhase, ordinal: nat, role: Role)
    requires SendersBounded(d)
    ensures SendersBounded(Observe(d, phase, ordinal, role))
  {
    SenderLinesAppend(d.log, Lifetime(d.sequence + 1, 0, Role.Other, Overflow));
    SenderLinesAppend(d.log, Lifetime(d.sequence + 1, ordinal, role, phase));
    hide SenderLines;
  }

  lemma LogsBounded(d: Diagnostics, plausible: bool)
    requires SendersBounded(d)
    ensures SendersBounded(Sender(d, plausible)) && SendersBounded(RetireIfDone(d))
  {
    SenderLinesAppend(d.log, SenderLine);
    SenderLinesAppend(d.log, Retire);
    hide SenderLines;
  }

  lemma StepSenders(s: Server, e: Event)
    requires SendersBounded(s.diagnostics)
    ensures SendersBounded(Step(s, e).diagnostics)
  {
    var d := s.diagnostics;
    hide LocalStep, Arriving, Observe, SenderLines, Sender, RetireIfDone;
    match e
    case Arrives(headers, policy, trusted, role) =>
      ObserveBounded(Admit(d), if !s.active then Acquired else Denied, Admit(d).ordinal, role);
    case SenderRecorded(i, plausible) => LogsBounded(d, plausible);
    case SocketCloses(i) =>
      if i < |s.requests| {
        ObserveBounded(d, SocketClosed, s.requests[i].ordinal, s.requests[i].role);
      }
    case Releases(i) =>
      if i < |s.requests| {
        var r := s.requests[i];
        ObserveBounded(d, OwnerReleased, r.ordinal, r.role);
        var d' := if r.owns then Observe(d, OwnerReleased, r.ordinal, r.role) else d;
        LogsBounded(d'.(handlers := d'.handlers - 1), true);
      }
    case ServerCloses => LogsBounded(d.(closing := true), true);
    case _ =>
  }

  /** At most 32 sockets are recorded, plausibly or not. */
  lemma {:induction false} SenderRecords(enabled: bool, events: seq<Event>)
    ensures var d := Run(enabled, events).diagnostics;
            SenderLines(d.log) <= (if d.senders < 32 then d.senders else 32)
  {
    if events != [] {
      var before, e := events[..|events| - 1], events[|events| - 1];
      SenderRecords(enabled, before);
      hide SenderLines;
      StepSenders(Run(enabled, before), e);
    }
  }

  /** A socket is recorded if diagnostics are on, the facts are plausible, and fewer than 32 sockets were looked at. */
  lemma SenderRecordedIff(enabled: bool, events: seq<Event>, i: nat, plausible: bool)
    requires i < |Run(enabled, events).requests| && Run(enabled, events).requests[i].phase.Ready?
    ensures var d, d' := Run(enabled, events).diagnostics,
                         Run(enabled, events + [SenderRecorded(i, plausible)]).diagnostics;
            && SenderLines(d'.log) == SenderLines(d.log) + (if enabled && plausible && d.senders < 32 then 1 else 0)
            && d'.senders == d.senders + (if enabled then 1 else 0)
  {
    RunLogSafe(enabled, events);
    RunMore(enabled, events, SenderRecorded(i, plausible));
    var d := Run(enabled, events).diagnostics;
    SenderLinesAppend(d.log, SenderLine);
    hide Run, LogSafe, SenderLines;
  }
}
