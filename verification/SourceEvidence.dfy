/**
 What the lifetime lines of the source-admission route prove about it: read without any other knowledge, they tell who
 owned the route when, and as long as they have not overflown they tell everything.
 */
module SourceEvidence {
  import opened Common
  import opened SourceDiagnostics
  import opened SourceAdmission

  ghost predicate Said(lines: seq<LogEntry>, phase: LifetimePhase, ordinal: nat) {
    exists k :: 0 <= k < |lines| && lines[k].Lifetime? && lines[k].phase == phase && lines[k].ordinal == ordinal
  }

  predicate Decision(e: LogEntry) {
    e.Lifetime? && (e.phase.Acquired? || e.phase.Denied?)
  }

  function Decisions(lines: seq<LogEntry>): nat {
    if lines == [] then 0 else Decisions(lines[..|lines| - 1]) + (if Decision(lines[|lines| - 1]) then 1 else 0)
  }

  ghost predicate SameRole(before: seq<LogEntry>, e: LogEntry)
    requires e.Lifetime?
  {
    forall k :: 0 <= k < |before| && before[k].Lifetime? && before[k].ordinal == e.ordinal ==> before[k].role == e.role
  }

  /** The route is free, as far as the lines say. */
  ghost predicate FreeAfter(before: seq<LogEntry>) {
    forall o :: Said(before, Acquired, o) ==> Said(before, OwnerReleased, o)
  }

  /**
   `e` may follow `before`: requests are decided in the order of their numbers, none left out and none twice; the route
   is given away only when it is free and denied only when it is not; a socket closes once, after the decision; the
   owner, and only the owner, is released once, after its socket has closed; a request keeps its role.
   */
  ghost predicate Follows(before: seq<LogEntry>, e: LogEntry) {
    e.Lifetime? &&
    match e.phase
    case Acquired => e.ordinal == Decisions(before) + 1 && FreeAfter(before) && SameRole(before, e)
    case Denied => e.ordinal == Decisions(before) + 1 && !FreeAfter(before) && SameRole(before, e)
    case SocketClosed =>
      1 <= e.ordinal <= Decisions(before) && !Said(before, SocketClosed, e.ordinal) && SameRole(before, e)
    case OwnerReleased =>
      && Said(before, Acquired, e.ordinal) && Said(before, SocketClosed, e.ordinal)
      && !Said(before, OwnerReleased, e.ordinal) && SameRole(before, e)
    case Overflow => |before| == MAX_ORDINARY
  }

  ghost predicate Consistent(lines: seq<LogEntry>) {
    forall k :: 0 <= k < |lines| ==> Follows(lines[..k], lines[k])
  }

  /** What the lines say of request number `ordinal` is what became of it. */
  ghost predicate Recorded(lines: seq<LogEntry>, r: Request, ordinal: nat) {
    && r.ordinal == ordinal
    && (Said(lines, Acquired, ordinal) <==> r.owns)
    && (Said(lines, Denied, ordinal) <==> !r.owns)
    && (Said(lines, SocketClosed, ordinal) <==> r.socketClosed)
    && (Said(lines, OwnerReleased, ordinal) <==> r.owns && r.phase.Released?)
  }

  /** The lines speak of the requests there are, and of no others. */
  ghost predicate Speaks(lines: seq<LogEntry>, requests: seq<Request>) {
    forall k :: 0 <= k < |lines| ==>
      && lines[k].Lifetime? && 1 <= lines[k].ordinal <= |requests|
      && lines[k].role == requests[lines[k].ordinal - 1].role
  }

  ghost predicate Complete(lines: seq<LogEntry>, requests: seq<Request>) {
    && Decisions(lines) == |requests|
    && Speaks(lines, requests)
    && (forall i :: 0 <= i < |requests| ==> Recorded(lines, requests[i], i + 1))
  }

  ghost predicate Truthful(s: Server) {
    var d := s.diagnostics;
    && Consistent(Lifetimes(d.log))
    && (d.enabled && !d.overflow ==> d.ordinal == |s.requests| && Complete(Lifetimes(d.log), s.requests))
  }

  lemma SaidAppend(lines: seq<LogEntry>, e: LogEntry, phase: LifetimePhase, ordinal: nat)
    ensures Said(lines + [e], phase, ordinal) <==>
            Said(lines, phase, ordinal) || (e.Lifetime? && e.phase == phase && e.ordinal == ordinal)
  {
    var all := lines + [e];
    if k :| 0 <= k < |lines| && lines[k].Lifetime? && lines[k].phase == phase && lines[k].ordinal == ordinal {
      assert all[k] == lines[k];
    }
    assert all[|lines|] == e;
  }

  /** What one more line says of one request. */
  lemma SaidOneMore(lines: seq<LogEntry>, e: LogEntry, o: nat)
    requires e.Lifetime?
    ensures Said(lines + [e], Acquired, o) <==> Said(lines, Acquired, o) || (e.phase.Acquired? && e.ordinal == o)
    ensures Said(lines + [e], Denied, o) <==> Said(lines, Denied, o) || (e.phase.Denied? && e.ordinal == o)
    ensures Said(lines + [e], SocketClosed, o) <==>
            Said(lines, SocketClosed, o) || (e.phase.SocketClosed? && e.ordinal == o)
    ensures Said(lines + [e], OwnerReleased, o) <==>
            Said(lines, OwnerReleased, o) || (e.phase.OwnerReleased? && e.ordinal == o)
  {
    hide Said;
    SaidAppend(lines, e, Acquired, o);
    SaidAppend(lines, e, Denied, o);
    SaidAppend(lines, e, SocketClosed, o);
    SaidAppend(lines, e, OwnerReleased, o);
  }

  /** Nothing is said of a request that is yet to come. */
  lemma Unsaid(lines: seq<LogEntry>, requests: seq<Request>)
    requires Speaks(lines, requests)
    ensures var o := |requests| + 1;
            && !Said(lines, Acquired, o) && !Said(lines, Denied, o)
            && !Said(lines, SocketClosed, o) && !Said(lines, OwnerReleased, o)
  {
  }

  lemma DecisionsAppend(lines: seq<LogEntry>, e: LogEntry)
    ensures Decisions(lines + [e]) == Decisions(lines) + (if Decision(e) then 1 else 0)
  {
    assert (lines + [e])[..|lines|] == lines;
  }

  lemma ConsistentAppend(lines: seq<LogEntry>, e: LogEntry)
    requires Consistent(lines) && Follows(lines, e)
    ensures Consistent(lines + [e])
  {
    hide Follows;
    var all := lines + [e];
    forall k | 0 <= k < |all|
      ensures Follows(all[..k], all[k])
    {
      if k < |lines| {
        assert all[..k] == lines[..k];
      } else {
        assert all[..k] == lines;
      }
    }
  }

  lemma SpeaksAppend(lines: seq<LogEntry>, e: LogEntry, requests: seq<Request>)
    requires Speaks(lines, requests) && e.Lifetime? && 1 <= e.ordinal <= |requests|
    requires e.role == requests[e.ordinal - 1].role
    ensures Speaks(lines + [e], requests)
    ensures SameRole(lines, e)
  {
  }

  /** A line about request number `i + 1`, which is now `r`, and about no other. */
  lemma OneMoreLine(lines: seq<LogEntry>, e: LogEntry, requests: seq<Request>, i: nat, r: Request)
    requires Complete(lines, requests) && i < |requests| && !Decision(e)
    requires e.Lifetime? && e.ordinal == i + 1 && e.role == r.role == requests[i].role
    requires Recorded(lines + [e], r, i + 1)
    ensures Complete(lines + [e], requests[i := r])
  {
    hide Recorded, Speaks;
    DecisionsAppend(lines, e);
    var later := requests[i := r];
    forall j | 0 <= j < |later|
      ensures Recorded(lines + [e], later[j], j + 1)
    {
      if j != i {
        assert Recorded(lines, requests[j], j + 1);
        OtherRecorded(lines, e, requests[j], j + 1);
      }
    }
    SpeaksUpdate(lines, requests, i, r);
    SpeaksAppend(lines, e, later);
  }

  lemma OtherRecorded(lines: seq<LogEntry>, e: LogEntry, r: Request, ordinal: nat)
    requires Recorded(lines, r, ordinal) && e.Lifetime? && e.ordinal != ordinal
    ensures Recorded(lines + [e], r, ordinal)
  {
    hide Said;
    SaidOneMore(lines, e, ordinal);
  }

  lemma SpeaksUpdate(lines: seq<LogEntry>, requests: seq<Request>, i: nat, r: Request)
    requires Speaks(lines, requests) && i < |requests| && r.role == requests[i].role
    ensures Speaks(lines, requests[i := r])
  {
  }

  /** An event that logs nothing and leaves what is recorded of a request as it is. */
  lemma NoLine(lines: seq<LogEntry>, requests: seq<Request>, i: nat, r: Request)
    requires Complete(lines, requests) && i < |requests| && SameIdentity(requests[i], r)
    ensures Complete(lines, requests[i := r])
  {
    assert Recorded(lines, requests[i], i + 1);
    SpeaksUpdate(lines, requests, i, r);
    hide Speaks, Said;
  }

  lemma NewRecorded(lines: seq<LogEntry>, e: LogEntry, requests: seq<Request>, r: Request)
    requires Speaks(lines, requests) && Decision(e) && e.ordinal == |requests| + 1 == r.ordinal
    requires e.phase.Acquired? == r.owns && !r.socketClosed && !r.phase.Released?
    ensures Recorded(lines + [e], r, |requests| + 1)
  {
    Unsaid(lines, requests);
    hide Said, Speaks;
    SaidOneMore(lines, e, |requests| + 1);
  }

  lemma NewRequest(lines: seq<LogEntry>, e: LogEntry, requests: seq<Request>, r: Request)
    requires Complete(lines, requests) && Decision(e) && e.ordinal == |requests| + 1 == r.ordinal && e.role == r.role
    requires e.phase.Acquired? == r.owns && !r.socketClosed && !r.phase.Released?
    ensures Complete(lines + [e], requests + [r])
    ensures SameRole(lines, e)
  {
    hide Recorded, Speaks, Said, SameRole, Decisions;
    DecisionsAppend(lines, e);
    SpeaksMore(lines, requests, r);
    SpeaksAppend(lines, e, requests + [r]);
    NewRecorded(lines, e, requests, r);
    forall j | 0 <= j < |requests|
      ensures Recorded(lines + [e], requests[j], j + 1)
    {
      OtherRecorded(lines, e, requests[j], j + 1);
    }
  }

  lemma SpeaksMore(lines: seq<LogEntry>, requests: seq<Request>, r: Request)
    requires Speaks(lines, requests)
    ensures Speaks(lines, requests + [r])
  {
  }

  lemma SocketLine(lines: seq<LogEntry>, e: LogEntry, requests: seq<Request>, i: nat)
    requires Complete(lines, requests) && i < |requests| && !requests[i].socketClosed
    requires e.Lifetime? && e.phase.SocketClosed? && e.ordinal == requests[i].ordinal && e.role == requests[i].role
    ensures e.ordinal == i + 1 && Follows(lines, e)
    ensures Complete(lines + [e], requests[i := requests[i].(socketClosed := true)])
  {
    assert Recorded(lines, requests[i], i + 1);
    SpeaksAppend(lines, e, requests);
    hide Speaks, Said, SameRole, FreeAfter;
    SaidOneMore(lines, e, i + 1);
    OneMoreLine(lines, e, requests, i, requests[i].(socketClosed := true));
  }

  lemma ReleaseLine(lines: seq<LogEntry>, e: LogEntry, requests: seq<Request>, i: nat)
    requires Complete(lines, requests) && i < |requests| && CanRelease(requests[i]) && requests[i].owns
    requires e.Lifetime? && e.phase.OwnerReleased? && e.ordinal == requests[i].ordinal && e.role == requests[i].role
    ensures e.ordinal == i + 1 && Follows(lines, e)
    ensures Complete(lines + [e], requests[i := requests[i].(phase := Released, retained := 0)])
  {
    assert Recorded(lines, requests[i], i + 1);
    SpeaksAppend(lines, e, requests);
    hide Speaks, Said, SameRole, FreeAfter;
    SaidOneMore(lines, e, i + 1);
    OneMoreLine(lines, e, requests, i, requests[i].(phase := Released, retained := 0));
  }

  lemma SaidInRange(lines: seq<LogEntry>, requests: seq<Request>, phase: LifetimePhase, o: nat)
    requires Speaks(lines, requests) && Said(lines, phase, o)
    ensures 1 <= o <= |requests|
  {
  }

  /** The lines say that the route is free exactly when it is. */
  lemma FreeIff(s: Server)
    requires Safe(s) && Complete(Lifetimes(s.diagnostics.log), s.requests)
    ensures FreeAfter(Lifetimes(s.diagnostics.log)) <==> !s.active
  {
    var lines := Lifetimes(s.diagnostics.log);
    hide Said, Speaks, Ownership, BodyKept;
    if s.active {
      var i :| 0 <= i < |s.requests| && Holds(s.requests[i]);
      assert Recorded(lines, s.requests[i], i + 1);
    } else {
      forall o | Said(lines, Acquired, o)
        ensures Said(lines, OwnerReleased, o)
      {
        SaidInRange(lines, s.requests, Acquired, o);
        assert Recorded(lines, s.requests[o - 1], o);
        assert !Holds(s.requests[o - 1]);
      }
    }
  }

  /** How one observation changes the lines. */
  lemma Observed(d: Diagnostics, phase: LifetimePhase, ordinal: nat, role: Role)
    requires Orderly(d) && (d.enabled && !d.overflow ==> ordinal <= d.sequence + 1)
    ensures var d', lines := Observe(d, phase, ordinal, role), Lifetimes(d.log);
            && d'.enabled == d.enabled && d'.ordinal == d.ordinal && (d.overflow ==> d'.overflow)
            && (if !d.enabled || d.overflow then d' == d
                else if d'.overflow then
                  |lines| == MAX_ORDINARY
                  && Lifetimes(d'.log) == lines + [Lifetime(d.sequence + 1, 0, Role.Other, Overflow)]
                else Lifetimes(d'.log) == lines + [Lifetime(d.sequence + 1, ordinal, role, phase)])
  {
    if d.enabled && !d.overflow {
      LifetimesAppend(d.log, Lifetime(d.sequence + 1, 0, Role.Other, Overflow));
      LifetimesAppend(d.log, Lifetime(d.sequence + 1, ordinal, role, phase));
    }
    hide Lifetimes, Retired, RetireLast;
  }

  /** Close, Leave and Sender log no lifetime line. */
  lemma Unobserved(d: Diagnostics, plausible: bool)
    ensures Lifetimes(RetireIfDone(d).log) == Lifetimes(d.log)
    ensures Lifetimes(Leave(d).log) == Lifetimes(d.log) && Leave(d).overflow == d.overflow
    ensures Leave(d).enabled == d.enabled && Leave(d).ordinal == d.ordinal
    ensures Lifetimes(Close(d).log) == Lifetimes(d.log) && Close(d).overflow == d.overflow
    ensures Close(d).enabled == d.enabled && Close(d).ordinal == d.ordinal
    ensures Lifetimes(Sender(d, plausible).log) == Lifetimes(d.log) && Sender(d, plausible).overflow == d.overflow
    ensures Sender(d, plausible).enabled == d.enabled && Sender(d, plausible).ordinal == d.ordinal
  {
    LifetimesAppend(d.log, Retire);
    LifetimesAppend(d.log, SenderLine);
    hide Lifetimes;
  }

  lemma ObservedConsistent(d: Diagnostics, phase: LifetimePhase, ordinal: nat, role: Role)
    requires Orderly(d) && (d.enabled && !d.overflow ==> ordinal <= d.sequence + 1) && Consistent(Lifetimes(d.log))
    requires d.enabled && !d.overflow ==>
      Follows(Lifetimes(d.log), Lifetime(d.sequence + 1, ordinal, role, phase))
    ensures Consistent(Lifetimes(Observe(d, phase, ordinal, role).log))
  {
    Observed(d, phase, ordinal, role);
    var lines, d' := Lifetimes(d.log), Observe(d, phase, ordinal, role);
    var overflow := Lifetime(d.sequence + 1, 0, Role.Other, Overflow);
    if d.enabled && !d.overflow {
      if d'.overflow {
        assert Follows(lines, overflow);
        ConsistentAppend(lines, overflow);
      } else {
        ConsistentAppend(lines, Lifetime(d.sequence + 1, ordinal, role, phase));
      }
    }
  }

  lemma ArrivalLine(s: Server, e: LogEntry, r: Request)
    requires Safe(s) && Complete(Lifetimes(s.diagnostics.log), s.requests)
    requires e.Lifetime? && e.phase == (if s.active then Denied else Acquired)
    requires e.ordinal == |s.requests| + 1 == r.ordinal && e.role == r.role
    requires r.owns == !s.active && !r.socketClosed && !r.phase.Released?
    ensures Follows(Lifetimes(s.diagnostics.log), e)
    ensures Complete(Lifetimes(s.diagnostics.log) + [e], s.requests + [r])
  {
    var lines := Lifetimes(s.diagnostics.log);
    hide Safe, Complete, FreeAfter, SameRole, Lifetimes, Said;
    DecisionsOf(lines, s.requests);
    FreeIff(s);
    NewRequest(lines, e, s.requests, r);
  }

  lemma ArrivesTruthful(s: Server, headers: seq<HeaderFraming.Header>, policy: HeaderFraming.Policy, trusted: bool,
                        role: Role)
    requires Safe(s) && LogSafe(s) && Truthful(s) && !s.diagnostics.closing
    ensures Truthful(Step(s, Arrives(headers, policy, trusted, role)))
  {
    hide Safe, Consistent, Complete, Follows, Lifetimes, HeaderFraming.SourceBodyLength;
    var owns := !s.active;
    var d, lines := Admit(s.diagnostics), Lifetimes(s.diagnostics.log);
    var phase := if owns then Acquired else Denied;
    var r := Arriving(headers, policy, trusted, owns, s.now, d.ordinal, role);
    assert r.ordinal == d.ordinal && r.role == role && r.owns == owns && !r.socketClosed && !r.phase.Released?;
    assert Orderly(d) && d.log == s.diagnostics.log;
    assert d.enabled && !d.overflow ==> d.ordinal <= d.sequence + 1;
    hide Arriving, Orderly, LogSafe;
    if d.enabled && !d.overflow {
      AdmittedOrdinal(s, d);
      ArrivalLine(s, Lifetime(d.sequence + 1, d.ordinal, role, phase), r);
    }
    ObservedConsistent(d, phase, d.ordinal, role);
    Observed(d, phase, d.ordinal, role);
    hide Observe, Admit;
  }

  lemma AdmittedOrdinal(s: Server, d: Diagnostics)
    requires LogSafe(s) && Truthful(s) && d == Admit(s.diagnostics) && d.enabled && !d.overflow
    ensures d.ordinal == |s.requests| + 1 && Complete(Lifetimes(s.diagnostics.log), s.requests)
  {
    hide Complete, Consistent, Lifetimes;
  }

  lemma DecisionsOf(lines: seq<LogEntry>, requests: seq<Request>)
    requires Complete(lines, requests)
    ensures Decisions(lines) == |requests|
  {
  }

  lemma SocketTruthful(s: Server, i: nat)
    requires LogSafe(s) && Truthful(s) && i < |s.requests| && !s.requests[i].socketClosed
    ensures Truthful(Step(s, SocketCloses(i)))
  {
    var d, r, lines := s.diagnostics, s.requests[i], Lifetimes(s.diagnostics.log);
    assert Paced(d) && r.ordinal <= d.ordinal && Orderly(d);
    hide Consistent, Orderly, Lifetimes, Complete, Follows;
    if d.enabled && !d.overflow {
      SocketLine(lines, Lifetime(d.sequence + 1, r.ordinal, r.role, SocketClosed), s.requests, i);
    }
    ObservedConsistent(d, SocketClosed, r.ordinal, r.role);
    Observed(d, SocketClosed, r.ordinal, r.role);
    hide Observe;
  }

  lemma ReleaseTruthful(s: Server, i: nat)
    requires LogSafe(s) && Truthful(s) && i < |s.requests| && CanRelease(s.requests[i])
    ensures Truthful(Step(s, Releases(i)))
  {
    var d, r, lines := s.diagnostics, s.requests[i], Lifetimes(s.diagnostics.log);
    assert Paced(d) && r.ordinal <= d.ordinal && Orderly(d);
    hide Consistent, Orderly, Lifetimes, Complete, Follows;
    if d.enabled && !d.overflow {
      if r.owns {
        ReleaseLine(lines, Lifetime(d.sequence + 1, r.ordinal, r.role, OwnerReleased), s.requests, i);
      } else {
        DeniedReleased(lines, s.requests, i, r.(phase := Released, retained := 0));
      }
    }
    if r.owns {
      ObservedConsistent(d, OwnerReleased, r.ordinal, r.role);
      Observed(d, OwnerReleased, r.ordinal, r.role);
    }
    hide Observe, Leave;
    Unobserved(if r.owns then Observe(d, OwnerReleased, r.ordinal, r.role) else d, true);
  }

  lemma DeniedReleased(lines: seq<LogEntry>, requests: seq<Request>, i: nat, r: Request)
    requires Complete(lines, requests) && i < |requests| && !r.owns
    requires r == requests[i].(phase := Released, retained := 0)
    ensures Complete(lines, requests[i := r])
  {
    assert Recorded(lines, requests[i], i + 1);
    SpeaksUpdate(lines, requests, i, r);
    hide Speaks, Said;
  }

  lemma StepTruthful(s: Server, e: Event)
    requires Safe(s) && LogSafe(s) && Truthful(s)
    ensures Truthful(Step(s, e))
  {
    hide Safe, LogSafe, Consistent, Complete, Lifetimes, LocalStep, Observe, Leave, Close, Sender;
    match e
    case Arrives(headers, policy, trusted, role) =>
      if !s.diagnostics.closing {
        ArrivesTruthful(s, headers, policy, trusted, role);
      }
    case Local(i, event) =>
      if i < |s.requests| {
        LocalKeepsIdentity(s.requests[i], s.now, event);
        if s.diagnostics.enabled && !s.diagnostics.overflow {
          NoLine(Lifetimes(s.diagnostics.log), s.requests, i, LocalStep(s.requests[i], s.now, event));
        }
      }
    case SocketCloses(i) =>
      if i < |s.requests| && !s.requests[i].socketClosed {
        SocketTruthful(s, i);
      }
    case Releases(i) =>
      if i < |s.requests| && CanRelease(s.requests[i]) {
        ReleaseTruthful(s, i);
      }
    case SenderRecorded(_, plausible) => Unobserved(s.diagnostics, plausible);
    case _ => Unobserved(s.diagnostics, true);
  }

  lemma {:induction false} RunTruthful(enabled: bool, events: seq<Event>)
    ensures Truthful(Run(enabled, events))
  {
    if events != [] {
      var before := events[..|events| - 1];
      RunTruthful(enabled, before);
      RunSafe(enabled, before);
      RunLogSafe(enabled, before);
      hide Truthful, Safe, LogSafe;
      StepTruthful(Run(enabled, before), events[|events| - 1]);
    }
  }

  /**
   Over every run: the lifetime lines, whatever their number, are a consistent account of who owned the route; and as
   long as they have not overflown, and no native write failed, they say of every request whether it was admitted or
   denied, whether its socket has closed and whether it was released, and of the route whether it is free.
   */
  lemma LinesTellTheTruth(enabled: bool, events: seq<Event>)
    ensures var s := Run(enabled, events);
            var lines := Lifetimes(s.diagnostics.log);
            && Consistent(lines)
            && (enabled && !s.diagnostics.overflow ==> Complete(lines, s.requests) && (FreeAfter(lines) <==> !s.active))
  {
    RunTruthful(enabled, events);
    RunSafe(enabled, events);
    RunLogSafe(enabled, events);
    var s := Run(enabled, events);
    hide Run, Consistent, Complete, FreeAfter, Safe, Lifetimes;
    if enabled && !s.diagnostics.overflow {
      FreeIff(s);
    }
  }

  /** A consistent account never shows two owners at once. */
  lemma {:induction false} OneOwnerInLines(lines: seq<LogEntry>, o: nat, p: nat)
    requires Consistent(lines)
    requires Said(lines, Acquired, o) && !Said(lines, OwnerReleased, o)
    requires Said(lines, Acquired, p) && !Said(lines, OwnerReleased, p)
    ensures o == p
  {
    if lines != [] {
      var before, e := lines[..|lines| - 1], lines[|lines| - 1];
      assert Follows(lines[..|lines| - 1], lines[|lines| - 1]);
      assert lines == before + [e];
      forall k | 0 <= k < |before|
        ensures Follows(before[..k], before[k])
      {
        assert before[..k] == lines[..k];
      }
      hide Said, SameRole, Decisions;
      SaidAppend(before, e, Acquired, o);
      SaidAppend(before, e, Acquired, p);
      SaidAppend(before, e, OwnerReleased, o);
      SaidAppend(before, e, OwnerReleased, p);
      if Said(before, Acquired, o) && Said(before, Acquired, p) {
        OneOwnerInLines(before, o, p);
      }
    }
  }
}
