/**
 The source-admission route told by what happened to the server: who is admitted, what is sent upstream and when, how
 requests end, and when the diagnostics stop.
 */
module SourceHistory {
  import opened Common
  import opened BodyReaders
  import opened HeaderFraming
  import opened SourceDiagnostics
  import opened SourceAdmission

  /** The greatest time that the clock has shown. */
  function Clock(events: seq<Event>): int {
    if events == [] then 0
    else
      var before, e := Clock(events[..|events| - 1]), events[|events| - 1];
      if e.Tick? && e.time > before then e.time else before
  }

  function HasClosed(events: seq<Event>): bool {
    events != [] && (HasClosed(events[..|events| - 1]) || events[|events| - 1].ServerCloses?)
  }

  datatype Arrival = Arrival(headers: seq<Header>, policy: Policy, trusted: bool, role: Role, at: int)

  /** Every request that arrived before the server closed, with the time of its arrival. */
  function Arrivals(events: seq<Event>): seq<Arrival> {
    if events == [] then []
    else
      var before, e := events[..|events| - 1], events[|events| - 1];
      Arrivals(before)
      + (if e.Arrives? && !HasClosed(before) then [Arrival(e.headers, e.policy, e.trusted, e.role, Clock(before))]
         else [])
  }

  /** Events that say nothing about a body: the timer may look, and the request may close. */
  predicate Silent(e: LocalEvent) {
    e.TimerFires? || e.RequestCloses?
  }

  datatype Timed = Timed(at: int, event: LocalEvent)

  /** What happened to request `i` since it arrived, and when. */
  function Trace(events: seq<Event>, i: nat): seq<Timed> {
    if events == [] then []
    else
      var before, e := events[..|events| - 1], events[|events| - 1];
      Trace(before, i)
      + (if e.Local? && e.i == i < |Arrivals(before)| && !Silent(e.event) then [Timed(Clock(before), e.event)] else [])
  }

  ghost predicate Recorded(r: Request, a: Arrival) {
    && r.headers == a.headers && r.policy == a.policy && r.role == a.role && r.startedAt == a.at
    && (r.owns && a.trusted && SourceBodyLength(a.headers, a.policy).Accepted? ==>
          r.count == SourceBodyLength(a.headers, a.policy).count)
  }

  /** What is on record of a request. */
  ghost predicate SameRecord(r: Request, r': Request) {
    && r'.headers == r.headers && r'.policy == r.policy && r'.role == r.role && r'.startedAt == r.startedAt
    && r'.count == r.count && r'.owns == r.owns
  }

  lemma AbortSameRecord(r: Request, now: int)
    ensures SameRecord(r, Abort(r)) && SameRecord(r, Touch(r, now)) && SameRecord(r, Touch(Answering(r), now))
  {
    hide Expired;
  }

  lemma BodySameRecord(r: Request, now: int, event: StreamEvent, destroyed: bool, fails: bool)
    ensures r.phase.Receiving? ==> SameRecord(r, ReadEvent(r, now, event))
    ensures r.phase.Ready? ==> SameRecord(r, TakeTurn(r, now, destroyed, fails))
  {
    hide StrictStep, BodyOf, Expired;
  }

  lemma LocalKeepsRecord(r: Request, now: int, e: LocalEvent, a: Arrival)
    requires Recorded(r, a)
    ensures Recorded(LocalStep(r, now, e), a)
  {
    assert SameRecord(r, LocalStep(r, now, e)) by {
      hide Recorded, ReadEvent, TakeTurn, Touch, Abort, Answering, Expired;
      AbortSameRecord(r, now);
      match e
      case Stream(event) => BodySameRecord(r, now, event, false, false);
      case Turn(destroyed, fails) => BodySameRecord(r, now, Errored, destroyed, fails);
      case _ =>
    }
    hide LocalStep, SourceBodyLength;
  }

  lemma ArrivingRecorded(headers: seq<Header>, policy: Policy, trusted: bool, owns: bool, now: int, ordinal: nat,
                         role: Role)
    ensures Recorded(Arriving(headers, policy, trusted, owns, now, ordinal, role),
                     Arrival(headers, policy, trusted, role, now))
  {
    hide SourceBodyLength;
  }

  /** One event keeps the record of the requests that are there. */
  lemma StepKeepsRecord(s: Server, e: Event, i: nat, a: Arrival)
    requires i < |s.requests| && Recorded(s.requests[i], a)
    ensures i < |Step(s, e).requests| && Recorded(Step(s, e).requests[i], a)
  {
    hide LocalStep, Arriving, SourceBodyLength, Observe, Leave, Close, Sender, Admit;
    match e
    case Local(j, event) =>
      if j == i {
        LocalKeepsRecord(s.requests[i], s.now, event, a);
      }
    case _ =>
  }

  lemma StepClock(s: Server, e: Event)
    ensures Step(s, e).now == (if e.Tick? && e.time > s.now then e.time else s.now)
    ensures Step(s, e).diagnostics.closing == (s.diagnostics.closing || e.ServerCloses?)
    ensures |Step(s, e).requests| == |s.requests| + (if e.Arrives? && !s.diagnostics.closing then 1 else 0)
    ensures e.Arrives? && !s.diagnostics.closing ==>
      Recorded(Step(s, e).requests[|s.requests|], Arrival(e.headers, e.policy, e.trusted, e.role, s.now))
  {
    hide LocalStep, Recorded, SourceBodyLength;
    if e.Arrives? && !s.diagnostics.closing {
      var ordinal := Admit(s.diagnostics).ordinal;
      ArrivingRecorded(e.headers, e.policy, e.trusted, !s.active, s.now, ordinal, e.role);
    }
    hide Arriving;
  }

  /** Requests are the arrivals, one for one and in order. */
  lemma {:induction false} ArrivalsRecorded(enabled: bool, events: seq<Event>)
    ensures var s := Run(enabled, events);
            && s.now == Clock(events) && s.diagnostics.closing == HasClosed(events)
            && |s.requests| == |Arrivals(events)|
            && forall i :: 0 <= i < |s.requests| ==> Recorded(s.requests[i], Arrivals(events)[i])
  {
    if events != [] {
      var before, e := events[..|events| - 1], events[|events| - 1];
      var s := Run(enabled, before);
      ArrivalsRecorded(enabled, before);
      assert Run(enabled, events) == Step(s, e);
      hide Run, Step, Recorded;
      StepClock(s, e);
      forall i | 0 <= i < |s.requests|
        ensures Recorded(Step(s, e).requests[i], Arrivals(before)[i])
      {
        StepKeepsRecord(s, e, i, Arrivals(before)[i]);
      }
    }
  }

  lemma RunMore(enabled: bool, events: seq<Event>, e: Event)
    ensures Run(enabled, events + [e]) == Step(Run(enabled, events), e)
  {
    assert (events + [e])[..|events|] == events;
  }

  /**
   Who is admitted, over every run: a request that arrives before the server has closed becomes the owner if and only if
   no earlier one holds the route. An owner whose ingress identity is trusted reads its body if its fields allow one and
   drops it if they do not; any other request goes straight to its end.
   */
  lemma AdmittedIff(enabled: bool, events: seq<Event>, headers: seq<Header>, policy: Policy, trusted: bool, role: Role)
    requires !HasClosed(events)
    ensures var s, s' := Run(enabled, events), Run(enabled, events + [Arrives(headers, policy, trusted, role)]);
            && |s'.requests| == |s.requests| + 1 && s'.requests[..|s.requests|] == s.requests && s'.active
            && var r := s'.requests[|s.requests|];
            && (r.owns <==> forall j :: 0 <= j < |s.requests| ==> !Holds(s.requests[j]))
            && (if !r.owns || !trusted then r.phase.Finalizing?
                else if exists n: nat :: MayCarry(headers, policy, n) then
                  r.phase.Receiving? && MayCarry(headers, policy, r.count) && r.retained == r.count
                else r.phase.Settling?)
  {
    RunSafe(enabled, events);
    ArrivalsRecorded(enabled, events);
    RunMore(enabled, events, Arrives(headers, policy, trusted, role));
    var framing := SourceBodyLength(headers, policy);
    forall n: nat
      ensures framing == Accepted(n) <==> MayCarry(headers, policy, n)
    {
      StrictAcceptsIff(headers, policy, n);
    }
    if framing.Accepted? {
      assert framing == Accepted(framing.count);
    }
    hide Run, MayCarry, SourceBodyLength, BodyKept, Ownership, Clock, Arrivals;
  }

  // What is never sent.

  ghost predicate NothingSent(r: Request) {
    && r.outgoing.NotCreated? && r.incoming.NotCreated? && r.forwarded.None? && r.retained == 0
    && (r.phase.Settling? || r.phase.Finalizing? || r.phase.Released?)
  }

  lemma LocalSendsNothing(r: Request, now: int, e: LocalEvent)
    requires NothingSent(r)
    ensures NothingSent(LocalStep(r, now, e))
  {
    hide Expired;
  }

  lemma ArrivingSendsNothing(headers: seq<Header>, policy: Policy, trusted: bool, owns: bool, now: int, ordinal: nat,
                             role: Role)
    requires !owns || !trusted || !SourceBodyLength(headers, policy).Accepted?
    ensures NothingSent(Arriving(headers, policy, trusted, owns, now, ordinal, role))
  {
    hide SourceBodyLength;
  }

  /**
   What never goes upstream and keeps no buffer, over every run: a request that was denied, one whose ingress identity
   is not trusted, and one whose fields allow no body.
   */
  lemma {:induction false} RefusedSendsNothing(enabled: bool, events: seq<Event>, i: nat)
    requires i < |Arrivals(events)| && |Arrivals(events)| == |Run(enabled, events).requests|
    requires var r, a := Run(enabled, events).requests[i], Arrivals(events)[i];
             !r.owns || !a.trusted || forall n: nat :: !MayCarry(a.headers, a.policy, n)
    ensures NothingSent(Run(enabled, events).requests[i])
  {
    if events != [] {
      var before, e := events[..|events| - 1], events[|events| - 1];
      var s := Run(enabled, before);
      ArrivalsRecorded(enabled, before);
      assert Run(enabled, events) == Step(s, e);
      if i < |Arrivals(before)| {
        hide Run, LocalStep, Arriving, MayCarry, Recorded;
        StepKeepsOwner(s, e, i);
        RefusedSendsNothing(enabled, before, i);
        if e.Local? && e.i == i {
          LocalSendsNothing(s.requests[i], s.now, e.event);
        }
      } else {
        NeverAccepted(e.headers, e.policy);
        hide Run, LocalStep, Arriving, MayCarry, SourceBodyLength;
        ArrivingSendsNothing(e.headers, e.policy, e.trusted, !s.active, s.now, Admit(s.diagnostics).ordinal, e.role);
      }
    }
  }

  lemma NeverAccepted(headers: seq<Header>, policy: Policy)
    ensures (forall n: nat :: !MayCarry(headers, policy, n)) ==> !SourceBodyLength(headers, policy).Accepted?
  {
    if SourceBodyLength(headers, policy).Accepted? {
      StrictAcceptsIff(headers, policy, SourceBodyLength(headers, policy).count);
    }
  }

  lemma StepKeepsOwner(s: Server, e: Event, i: nat)
    requires i < |s.requests|
    ensures |Step(s, e).requests| >= |s.requests| && Step(s, e).requests[i].owns == s.requests[i].owns
  {
    hide LocalStep, Arriving, Observe, Leave, Close, Sender, Admit;
    if e.Local? && e.i == i {
      LocalKeepsIdentity(s.requests[i], s.now, e.event);
    }
  }

  // What is sent.

  /** The parts of a body, delivered at the times `at`. */
  ghost predicate Delivered(trace: seq<Timed>, parts: seq<seq<byte>>, at: seq<int>) {
    && |trace| == |parts| == |at|
    && forall k :: 0 <= k < |parts| ==> trace[k] == Timed(at[k], Stream(Data(Bytes(parts[k]))))
  }

  /** How far a whole body has come: its parts arrive, its end was met, or it was sent. */
  datatype Stage = Collecting(parts: seq<seq<byte>>, at: seq<int>) | Ended(parts: seq<seq<byte>>, at: seq<int>)
                 | SentAt(parts: seq<seq<byte>>, at: seq<int>, sent: int)

  ghost predicate Reached(trace: seq<Timed>, stage: Stage) {
    match stage
    case Collecting(parts, at) => Delivered(trace, parts, at)
    case Ended(parts, at) =>
      && trace != [] && Delivered(trace[..|trace| - 1], parts, at)
      && trace[|trace| - 1].event == Stream(End(true, false))
    case SentAt(parts, at, sent) =>
      && |trace| > 1 && Reached(trace[..|trace| - 1], Ended(parts, at))
      && trace[|trace| - 1] == Timed(sent, Turn(false, false))
  }

  ghost predicate InStage(r: Request, n: nat, stage: Stage) {
    var stamps := [r.startedAt] + stage.at;
    match stage
    case Collecting(parts, at) =>
      && r.phase.Receiving? && !r.aborted && r.count == n && r.stream == AsEvents(parts) && r.stamps == stamps
      && (IdleBound(r.policy) ==> r.idleEnd == stamps[|stamps| - 1] + r.policy.idleMs.value)
    case Ended(parts, at) =>
      && r.phase.Ready? && !r.aborted && r.count == n && r.stream == AsEvents(parts) + [End(true, false)]
      && r.stamps == stamps
      && (IdleBound(r.policy) ==> r.idleEnd == stamps[|stamps| - 1] + r.policy.idleMs.value)
    case SentAt(parts, at, sent) =>
      r.forwarded == Some((sent, Concat(parts))) && !r.phase.Receiving? && !r.phase.Ready? && !r.phase.Settling?
  }

  /** As far as it was delivered, the body stays within its length. */
  predicate Within(n: nat, stage: Stage) {
    if stage.Collecting? then |Concat(stage.parts)| <= n else |Concat(stage.parts)| == n
  }

  /** No two steps an idle limit apart, none an absolute limit after the arrival, up to `now`. */
  ghost predicate InTime(a: Arrival, stage: Stage, now: int) {
    Timely(a.policy, [a.at] + stage.at + [if stage.SentAt? then stage.sent else now])
  }

  lemma TimelyEarlier(p: Policy, stamps: seq<int>, now: int, earlier: int)
    requires Timely(p, stamps + [now]) && stamps != [] && stamps[|stamps| - 1] <= earlier <= now
    ensures Timely(p, stamps + [earlier])
  {
    var all, sooner := stamps + [now], stamps + [earlier];
    forall k | 0 < k < |sooner|
      ensures sooner[k - 1] <= sooner[k] < sooner[0] + p.absoluteMs
      ensures IdleBound(p) ==> sooner[k] - sooner[k - 1] < p.idleMs.value
    {
      assert all[k - 1] <= all[k] < all[0] + p.absoluteMs;
      assert all[k - 1] == sooner[k - 1] && all[0] == sooner[0];
    }
  }

  lemma TimelyPrefix(p: Policy, stamps: seq<int>, now: int)
    requires Timely(p, stamps + [now]) && stamps != []
    ensures Timely(p, stamps)
  {
    var all := stamps + [now];
    forall k | 0 < k < |stamps|
      ensures stamps[k - 1] <= stamps[k] < stamps[0] + p.absoluteMs
      ensures IdleBound(p) ==> stamps[k] - stamps[k - 1] < p.idleMs.value
    {
      assert all[k - 1] <= all[k] < all[0] + p.absoluteMs;
      assert all[k - 1] == stamps[k - 1] && all[k] == stamps[k];
    }
  }

  lemma NotExpired(r: Request, stamps: seq<int>, now: int)
    requires Timely(r.policy, stamps + [now]) && stamps != [] && stamps[0] == r.startedAt
    requires IdleBound(r.policy) ==> r.idleEnd == stamps[|stamps| - 1] + r.policy.idleMs.value
    ensures !Expired(r, now)
  {
    var all, k := stamps + [now], |stamps|;
    assert all[k - 1] <= all[k] < all[0] + r.policy.absoluteMs;
    assert all[k - 1] == stamps[k - 1] && all[k] == now && all[0] == stamps[0];
  }

  lemma NextPart(r: Request, now: int, n: nat, parts: seq<seq<byte>>, at: seq<int>)
    requires |parts| == |at| > 0 && at[|at| - 1] == now
    requires InStage(r, n, Collecting(parts[..|parts| - 1], at[..|at| - 1])) && Within(n, Collecting(parts, at))
    requires Timely(r.policy, [r.startedAt] + at)
    ensures InStage(LocalStep(r, now, Stream(Data(Bytes(parts[|parts| - 1])))), n, Collecting(parts, at))
  {
    var init, last := parts[..|parts| - 1], Data(Bytes(parts[|parts| - 1]));
    assert Concat(parts) == Concat(init) + parts[|parts| - 1];
    StrictFeed(RequestFrame(n), init);
    assert AsEvents(parts) == AsEvents(init) + [last];
    assert [r.startedAt] + at == ([r.startedAt] + at[..|at| - 1]) + [now];
    hide StrictRun, Concat, AsEvents, Timely;
    NotExpired(r, [r.startedAt] + at[..|at| - 1], now);
    hide Expired;
  }

  lemma NextEnd(r: Request, now: int, n: nat, parts: seq<seq<byte>>, at: seq<int>)
    requires InStage(r, n, Collecting(parts, at)) && Within(n, Ended(parts, at))
    ensures InStage(LocalStep(r, now, Stream(End(true, false))), n, Ended(parts, at))
  {
    StrictFeed(RequestFrame(n), parts);
    hide StrictRun, Concat, AsEvents, Expired;
  }

  lemma NextTurn(r: Request, now: int, n: nat, parts: seq<seq<byte>>, at: seq<int>)
    requires InStage(r, n, Ended(parts, at)) && Within(n, Ended(parts, at))
    requires Timely(r.policy, [r.startedAt] + at + [now])
    ensures InStage(LocalStep(r, now, Turn(false, false)), n, SentAt(parts, at, now))
  {
    StrictChunkingInvariant(RequestFrame(n), parts, true, false);
    hide StrictRun, Concat, AsEvents, Timely;
    NotExpired(r, [r.startedAt] + at, now);
    hide Expired;
  }

  lemma SilentStays(r: Request, now: int, e: LocalEvent, n: nat, stage: Stage)
    requires InStage(r, n, stage) && Silent(e)
    requires stage.SentAt? || Timely(r.policy, [r.startedAt] + stage.at + [now])
    ensures InStage(LocalStep(r, now, e), n, stage)
  {
    if !stage.SentAt? {
      hide Timely;
      NotExpired(r, [r.startedAt] + stage.at, now);
    }
    hide Expired, Concat, AsEvents;
  }

  lemma ArrivingCollects(headers: seq<Header>, policy: Policy, now: int, ordinal: nat, role: Role, n: nat)
    requires SourceBodyLength(headers, policy) == Accepted(n)
    ensures InStage(Arriving(headers, policy, true, true, now, ordinal, role), n, Collecting([], []))
  {
    hide SourceBodyLength;
    assert AsEvents([]) == [];
    assert [now] + [] == [now];
  }

  ghost function Earlier(stage: Stage): Stage
    requires stage.Collecting? ==> stage.parts != [] && stage.at != []
  {
    match stage
    case Collecting(parts, at) => Collecting(parts[..|parts| - 1], at[..|at| - 1])
    case Ended(parts, at) => Collecting(parts, at)
    case SentAt(parts, at, _) => Ended(parts, at)
  }

  lemma EarlierReached(trace: seq<Timed>, last: Timed, stage: Stage, n: nat)
    requires Reached(trace + [last], stage) && Within(n, stage)
    ensures stage.Collecting? ==> |stage.parts| == |stage.at| > 0 && stage.at[|stage.at| - 1] == last.at
    ensures Reached(trace, Earlier(stage)) && Within(n, Earlier(stage))
    ensures stage.SentAt? ==> stage.sent == last.at
    ensures last.event == match stage
                          case Collecting(parts, _) => Stream(Data(Bytes(parts[|parts| - 1])))
                          case Ended(_, _) => Stream(End(true, false))
                          case SentAt(_, _, _) => Turn(false, false)
  {
    assert (trace + [last])[..|trace|] == trace && (trace + [last])[|trace|] == last;
    if stage.Collecting? {
      var parts, at := stage.parts, stage.at;
      assert (trace + [last])[|trace|] == Timed(at[|trace|], Stream(Data(Bytes(parts[|trace|]))));
      assert |Concat(parts[..|parts| - 1])| <= |Concat(parts)|;
      forall k | 0 <= k < |parts| - 1
        ensures trace[k] == Timed(at[..|at| - 1][k], Stream(Data(Bytes(parts[..|parts| - 1][k]))))
      {
        assert trace[k] == (trace + [last])[k];
      }
    }
    hide Concat;
  }

  lemma EarlierInTime(a: Arrival, stage: Stage, now: int, last: Timed)
    requires stage.Collecting? ==> |stage.at| > 0 && stage.at[|stage.at| - 1] == last.at
    requires stage.SentAt? ==> stage.sent == last.at
    requires InTime(a, stage, now) && last.at <= now
    requires stage.Collecting? ==> stage.parts != []
    requires !stage.Collecting? ==> ([a.at] + stage.at)[|stage.at|] <= last.at
    ensures InTime(a, Earlier(stage), last.at)
    ensures stage.Collecting? ==> Timely(a.policy, [a.at] + stage.at)
  {
    var stamps := [a.at] + stage.at;
    match stage
    case Collecting(parts, at) =>
      TimelyPrefix(a.policy, stamps, now);
      assert stamps == [a.at] + at[..|at| - 1] + [last.at];
    case Ended(parts, at) => TimelyEarlier(a.policy, stamps, now, last.at);
    case SentAt(parts, at, sent) =>
  }

  /** Time only goes forward: what was traced happened up to now, and nothing before the arrival. */
  lemma {:induction false} TraceTimes(events: seq<Event>, i: nat)
    ensures i < |Arrivals(events)| ==> Arrivals(events)[i].at <= Clock(events)
    ensures i >= |Arrivals(events)| ==> Trace(events, i) == []
    ensures forall k :: 0 <= k < |Trace(events, i)| ==> Trace(events, i)[k].at <= Clock(events)
  {
    if events != [] {
      var before := events[..|events| - 1];
      assert Clock(before) <= Clock(events);
      TraceTimes(before, i);
    }
  }

  lemma StageTimes(a: Arrival, trace: seq<Timed>, stage: Stage, now: int)
    requires Reached(trace, stage) && a.at <= now && forall k :: 0 <= k < |trace| ==> trace[k].at <= now
    ensures ([a.at] + stage.at)[|stage.at|] <= now
    ensures stage.SentAt? ==> stage.sent <= now
  {
    if |stage.at| > 0 {
      assert trace[|stage.at| - 1].at == stage.at[|stage.at| - 1];
    }
  }

  lemma StaysInTime(a: Arrival, trace: seq<Timed>, stage: Stage, now: int, earlier: int)
    requires Reached(trace, stage) && InTime(a, stage, now) && earlier <= now
    requires a.at <= earlier && forall k :: 0 <= k < |trace| ==> trace[k].at <= earlier
    ensures InTime(a, stage, earlier)
  {
    StageTimes(a, trace, stage, earlier);
    if !stage.SentAt? {
      TimelyEarlier(a.policy, [a.at] + stage.at, now, earlier);
    }
  }

  lemma NextStage(r: Request, a: Arrival, n: nat, last: Timed, stage: Stage)
    requires r.policy == a.policy && r.startedAt == a.at && Within(n, stage)
    requires stage.Collecting? ==> |stage.parts| == |stage.at| > 0 && stage.at[|stage.at| - 1] == last.at
    requires stage.Collecting? ==> Timely(a.policy, [a.at] + stage.at)
    requires stage.SentAt? ==> stage.sent == last.at && InTime(a, stage, last.at)
    requires last.event == match stage
                           case Collecting(parts, _) => Stream(Data(Bytes(parts[|parts| - 1])))
                           case Ended(_, _) => Stream(End(true, false))
                           case SentAt(_, _, _) => Turn(false, false)
    requires InStage(r, n, Earlier(stage))
    ensures InStage(LocalStep(r, last.at, last.event), n, stage)
  {
    hide LocalStep, InStage, Timely, Concat;
    match stage
    case Collecting(parts, at) => NextPart(r, last.at, n, parts, at);
    case Ended(parts, at) => NextEnd(r, last.at, n, parts, at);
    case SentAt(parts, at, sent) => NextTurn(r, last.at, n, parts, at);
  }

  /** An event of another request, or one that says nothing, leaves the stage as it is. */
  lemma OtherStays(s: Server, e: Event, i: nat, n: nat, stage: Stage)
    requires i < |s.requests| && InStage(s.requests[i], n, stage)
    requires e.Local? && e.i == i ==> Silent(e.event)
    requires stage.SentAt? || Timely(s.requests[i].policy, [s.requests[i].startedAt] + stage.at + [s.now])
    ensures i < |Step(s, e).requests| && InStage(Step(s, e).requests[i], n, stage)
  {
    hide LocalStep, Arriving, Observe, Leave, Close, Sender, Admit, Timely;
    match e
    case Local(j, event) =>
      if j == i {
        SilentStays(s.requests[i], s.now, event, n, stage);
      }
    case _ => hide Concat, AsEvents;
  }

  /** What the event before a telling one must have left behind. */
  lemma EarlierHolds(a: Arrival, n: nat, trace: seq<Timed>, last: Timed, stage: Stage, now: int)
    requires Reached(trace + [last], stage) && Within(n, stage) && InTime(a, stage, now)
    requires a.at <= last.at <= now && forall k :: 0 <= k < |trace| ==> trace[k].at <= last.at
    ensures stage.Collecting? ==> stage.parts != [] && stage.at != []
    ensures Reached(trace, Earlier(stage)) && Within(n, Earlier(stage)) && InTime(a, Earlier(stage), last.at)
  {
    hide Reached, Within, InTime;
    EarlierReached(trace, last, stage, n);
    StageTimes(a, trace, Earlier(stage), last.at);
    EarlierInTime(a, stage, now, last);
  }

  lemma TellingStep(r: Request, a: Arrival, n: nat, trace: seq<Timed>, last: Timed, stage: Stage, now: int)
    requires Reached(trace + [last], stage) && Within(n, stage) && InTime(a, stage, now)
    requires a.at <= last.at <= now && forall k :: 0 <= k < |trace| ==> trace[k].at <= last.at
    requires r.policy == a.policy && r.startedAt == a.at
    requires stage.Collecting? ==> stage.parts != [] && stage.at != []
    requires InStage(r, n, Earlier(stage))
    ensures InStage(LocalStep(r, last.at, last.event), n, stage)
  {
    hide Reached, Within, InTime, InStage, LocalStep, Timely;
    EarlierReached(trace, last, stage, n);
    StageTimes(a, trace, Earlier(stage), last.at);
    EarlierInTime(a, stage, now, last);
    if stage.SentAt? {
      SentInTimeToo(a, stage, now, last.at);
    }
    NextStage(r, a, n, last, stage);
  }

  lemma SilentStep(s: Server, e: Event, i: nat, a: Arrival, n: nat, stage: Stage)
    requires i < |s.requests| && InStage(s.requests[i], n, stage) && InTime(a, stage, s.now)
    requires e.Local? && e.i == i ==> Silent(e.event)
    requires s.requests[i].policy == a.policy && s.requests[i].startedAt == a.at
    ensures i < |Step(s, e).requests| && InStage(Step(s, e).requests[i], n, stage)
  {
    hide Step, InStage, Timely;
    OtherStays(s, e, i, n, stage);
  }

  lemma LocalAt(s: Server, i: nat, event: LocalEvent)
    requires i < |s.requests|
    ensures i < |Step(s, Local(i, event)).requests|
    ensures Step(s, Local(i, event)).requests[i] == LocalStep(s.requests[i], s.now, event)
  {
    hide LocalStep;
  }

  /** An event that tells something of request `i`, which has arrived. */
  predicate Telling(e: Event, i: nat) {
    e.Local? && e.i == i && !Silent(e.event)
  }

  lemma TraceStep(events: seq<Event>, i: nat)
    requires events != [] && i < |Arrivals(events[..|events| - 1])|
    ensures var before, e := events[..|events| - 1], events[|events| - 1];
            && Trace(events, i) == Trace(before, i) + (if Telling(e, i) then [Timed(Clock(before), e.event)] else [])
            && i < |Arrivals(events)| && Arrivals(events)[i] == Arrivals(before)[i] && Clock(before) <= Clock(events)
  {
  }

  lemma FirstStage(s: Server, e: Event, n: nat)
    requires e.Arrives? && !s.diagnostics.closing && e.trusted && SourceBodyLength(e.headers, e.policy) == Accepted(n)
    requires Step(s, e).requests[|s.requests|].owns
    ensures InStage(Step(s, e).requests[|s.requests|], n, Collecting([], []))
  {
    var r := Step(s, e).requests[|s.requests|];
    assert r == Arriving(e.headers, e.policy, true, !s.active, s.now, Admit(s.diagnostics).ordinal, e.role);
    ArrivingOwner(e.headers, e.policy, !s.active, s.now, Admit(s.diagnostics).ordinal, e.role);
    hide Step, SourceBodyLength, InStage, Arriving, Observe;
    ArrivingCollects(e.headers, e.policy, s.now, Admit(s.diagnostics).ordinal, e.role, n);
  }

  lemma ArrivingOwner(headers: seq<Header>, policy: Policy, owns: bool, now: int, ordinal: nat, role: Role)
    ensures Arriving(headers, policy, true, owns, now, ordinal, role).owns == owns
  {
    hide SourceBodyLength;
  }

  lemma NewcomerIs(events: seq<Event>, i: nat)
    requires events != [] && |Arrivals(events[..|events| - 1])| <= i < |Arrivals(events)|
    ensures var before, e := events[..|events| - 1], events[|events| - 1];
            && i == |Arrivals(before)| && e.Arrives? && !HasClosed(before) && Trace(events, i) == []
            && Arrivals(events)[i] == Arrival(e.headers, e.policy, e.trusted, e.role, Clock(before))
  {
    TraceTimes(events[..|events| - 1], i);
  }

  lemma {:induction false} StageReached(enabled: bool, events: seq<Event>, i: nat, n: nat, stage: Stage)
    requires i < |Arrivals(events)| && |Arrivals(events)| == |Run(enabled, events).requests|
    requires Run(enabled, events).requests[i].owns && Arrivals(events)[i].trusted
    requires SourceBodyLength(Arrivals(events)[i].headers, Arrivals(events)[i].policy) == Accepted(n)
    requires Reached(Trace(events, i), stage) && Within(n, stage) && InTime(Arrivals(events)[i], stage, Clock(events))
    ensures InStage(Run(enabled, events).requests[i], n, stage)
    decreases |events|
  {
    if events != [] {
      var before, e := events[..|events| - 1], events[|events| - 1];
      var s, a := Run(enabled, before), Arrivals(events)[i];
      ArrivalsRecorded(enabled, before);
      assert Run(enabled, events) == Step(s, e);
      hide Run, Step, Trace, Arrivals, Clock, Reached, Within, InStage, InTime, SourceBodyLength, HasClosed;
      if i < |Arrivals(before)| {
        TraceStep(events, i);
        TraceTimes(before, i);
        StepKeepsOwner(s, e, i);
        assert Recorded(s.requests[i], a);
        if Telling(e, i) {
          var last := Timed(Clock(before), e.event);
          EarlierHolds(a, n, Trace(before, i), last, stage, Clock(events));
          StageReached(enabled, before, i, n, Earlier(stage));
          TellingStep(s.requests[i], a, n, Trace(before, i), last, stage, Clock(events));
          LocalAt(s, i, e.event);
        } else {
          assert Trace(events, i) == Trace(before, i);
          StaysInTime(a, Trace(before, i), stage, Clock(events), Clock(before));
          StageReached(enabled, before, i, n, stage);
          SilentStep(s, e, i, a, n, stage);
        }
      } else {
        NewcomerIs(events, i);
        NothingToldYet(stage);
        FirstStage(s, e, n);
      }
    }
  }

  lemma NothingToldYet(stage: Stage)
    requires Reached([], stage)
    ensures stage == Collecting([], [])
  {
  }

  lemma SentInTimeToo(a: Arrival, stage: Stage, now: int, earlier: int)
    requires stage.SentAt? && InTime(a, stage, now)
    ensures InTime(a, stage, earlier)
  {
  }

  /**
   A whole and timely body is forwarded, over every run and whatever other requests do: if all that a trusted owner was
   told are the parts of a body, its complete end without trailers and its turn, with no two steps an idle limit apart
   and none an absolute limit after its arrival, and its fields allow a body of just that length, then the body that
   went upstream, at that turn, is the parts put together.
   */
  lemma WholeBodyForwarded(enabled: bool, events: seq<Event>, i: nat, parts: seq<seq<byte>>, at: seq<int>, sent: int)
    requires i < |Arrivals(events)| && |Arrivals(events)| == |Run(enabled, events).requests|
    requires Run(enabled, events).requests[i].owns
    requires var a := Arrivals(events)[i];
             && a.trusted && MayCarry(a.headers, a.policy, |Concat(parts)|)
             && Timely(a.policy, [a.at] + at + [sent])
    requires Reached(Trace(events, i), SentAt(parts, at, sent))
    ensures Run(enabled, events).requests[i].forwarded == Some((sent, Concat(parts)))
  {
    var a, n := Arrivals(events)[i], |Concat(parts)|;
    StrictAcceptsIff(a.headers, a.policy, n);
    hide SourceBodyLength, MayCarry, Run, Arrivals, Trace, Reached, Timely, Clock;
    StageReached(enabled, events, i, n, SentAt(parts, at, sent));
  }

  // Nothing else is sent.

  /** What the body stream delivered. */
  function StreamOf(trace: seq<Timed>): seq<StreamEvent> {
    if trace == [] then []
    else
      var last := trace[|trace| - 1].event;
      StreamOf(trace[..|trace| - 1]) + (if last.Stream? then [last.event] else [])
  }

  /** And when. */
  function StreamTimes(trace: seq<Timed>): seq<int> {
    if trace == [] then []
    else
      var last := trace[|trace| - 1];
      StreamTimes(trace[..|trace| - 1]) + (if last.event.Stream? then [last.at] else [])
  }

  lemma {:induction false} StreamLengths(trace: seq<Timed>)
    ensures |StreamOf(trace)| == |StreamTimes(trace)|
  {
    if trace != [] {
      StreamLengths(trace[..|trace| - 1]);
    }
  }

  /** What is recorded of the body of a request is what its stream delivered, and when. */
  ghost predicate Tied(r: Request, stream: seq<StreamEvent>, times: seq<int>, trace: seq<Timed>) {
    && |r.stamps| >= 1 && r.stamps[0] == r.startedAt
    && r.stream <= stream && r.stamps[1..] <= times
    && (r.phase.Receiving? ==> r.stream == stream && r.stamps[1..] == times)
    && (r.phase.Ready? || !r.outgoing.NotCreated? ==>
          && |r.stamps| == |r.stream| && StrictRun(RequestFrame(r.count), r.stream[..|r.stream| - 1]).Reading?)
    && (r.forwarded.Some? ==> Timed(r.forwarded.value.0, Turn(false, false)) in trace)
  }

  lemma TraceGrows(r: Request, stream: seq<StreamEvent>, times: seq<int>, trace: seq<Timed>, last: Timed)
    requires Tied(r, stream, times, trace)
    ensures Tied(r, stream, times, trace + [last])
  {
    hide StrictRun;
  }

  /** Reading goes on, with or without a stamp. */
  lemma ChunkTied(r: Request, now: int, event: StreamEvent, stream: seq<StreamEvent>, times: seq<int>,
                  trace: seq<Timed>)
    requires r.phase.Receiving? && r.outgoing.NotCreated? && Tied(r, stream, times, trace)
    ensures Tied(ChunkRead(r, now, r.stream + [event]), stream + [event], times + [now], trace)
  {
    hide StrictRun, Expired;
  }

  /** Reading ends. */
  lemma ReadingEndsTied(r: Request, now: int, event: StreamEvent, stream: seq<StreamEvent>, times: seq<int>,
                        trace: seq<Timed>, whole: bool)
    requires r.phase.Receiving? && r.outgoing.NotCreated? && Tied(r, stream, times, trace) && |stream| == |times|
    requires StrictRun(RequestFrame(r.count), r.stream).Reading?
    ensures Tied(r.(stream := r.stream + [event], phase := if whole then Ready else Finalizing),
                 stream + [event], times + [now], trace)
  {
    assert (r.stream + [event])[..|r.stream|] == r.stream;
    hide StrictRun;
  }

  lemma ReadTied(r: Request, now: int, event: StreamEvent, stream: seq<StreamEvent>, times: seq<int>, trace: seq<Timed>)
    requires r.phase.Receiving? && Tied(r, stream, times, trace) && |stream| == |times|
    requires Ownership(r) && BodyKept(r, now)
    ensures Tied(ReadEvent(r, now, event), stream + [event], times + [now], trace)
  {
    assert r.outgoing.NotCreated? && BodyOf(r).Reading?;
    assert BodyOf(r) == StrictRun(RequestFrame(r.count), r.stream);
    hide Tied, Ownership, BodyKept, StrictRun, StrictStep, ChunkRead, BodyOf;
    ChunkTied(r, now, event, stream, times, trace);
    ReadingEndsTied(r, now, event, stream, times, trace, true);
    ReadingEndsTied(r, now, event, stream, times, trace, false);
  }

  lemma OtherTied(r: Request, now: int, e: LocalEvent, stream: seq<StreamEvent>, times: seq<int>, trace: seq<Timed>)
    requires Tied(r, stream, times, trace) && !e.Stream? && Ownership(r)
    requires e == Turn(false, false) ==> Timed(now, e) in trace
    ensures Tied(LocalStep(r, now, e), stream, times, trace)
  {
    hide StrictRun, StrictStep, Expired, SourceBodyLength;
  }

  lemma MissedTied(r: Request, now: int, event: StreamEvent, stream: seq<StreamEvent>, times: seq<int>,
                   trace: seq<Timed>)
    requires Tied(r, stream, times, trace) && !r.phase.Receiving?
    ensures Tied(LocalStep(r, now, Stream(event)), stream + [event], times + [now], trace)
  {
    hide StrictRun;
  }

  lemma StreamGrows(trace: seq<Timed>, last: Timed)
    ensures StreamOf(trace + [last]) == StreamOf(trace) + (if last.event.Stream? then [last.event.event] else [])
    ensures StreamTimes(trace + [last]) == StreamTimes(trace) + (if last.event.Stream? then [last.at] else [])
  {
    assert (trace + [last])[..|trace|] == trace && (trace + [last])[|trace|] == last;
  }

  lemma StreamTied(r: Request, now: int, event: StreamEvent, stream: seq<StreamEvent>, times: seq<int>,
                   trace: seq<Timed>)
    requires Tied(r, stream, times, trace) && |stream| == |times| && Ownership(r) && BodyKept(r, now)
    ensures Tied(LocalStep(r, now, Stream(event)), stream + [event], times + [now], trace)
  {
    if r.phase.Receiving? {
      assert LocalStep(r, now, Stream(event)) == ReadEvent(r, now, event);
      hide LocalStep, ReadEvent, Tied, Ownership, BodyKept;
      ReadTied(r, now, event, stream, times, trace);
    } else {
      hide LocalStep, Tied, Ownership, BodyKept;
      MissedTied(r, now, event, stream, times, trace);
    }
  }

  lemma LocalTied(r: Request, now: int, e: LocalEvent, trace: seq<Timed>)
    requires Tied(r, StreamOf(trace), StreamTimes(trace), trace) && Ownership(r) && BodyKept(r, now)
    ensures Silent(e) ==> Tied(LocalStep(r, now, e), StreamOf(trace), StreamTimes(trace), trace)
    ensures var more := trace + [Timed(now, e)]; Tied(LocalStep(r, now, e), StreamOf(more), StreamTimes(more), more)
  {
    hide Tied, Ownership, BodyKept, LocalStep, StreamOf, StreamTimes;
    var more := trace + [Timed(now, e)];
    StreamLengths(trace);
    StreamGrows(trace, Timed(now, e));
    TraceGrows(r, StreamOf(trace), StreamTimes(trace), trace, Timed(now, e));
    if e.Stream? {
      StreamTied(r, now, e.event, StreamOf(trace), StreamTimes(trace), more);
    } else {
      assert more[|trace|] == Timed(now, e);
      assert StreamOf(more) == StreamOf(trace) && StreamTimes(more) == StreamTimes(trace);
      OtherTied(r, now, e, StreamOf(trace), StreamTimes(trace), more);
      if Silent(e) {
        OtherTied(r, now, e, StreamOf(trace), StreamTimes(trace), trace);
      }
    }
  }

  lemma ArrivingTied(headers: seq<Header>, policy: Policy, trusted: bool, owns: bool, now: int, ordinal: nat,
                     role: Role)
    ensures Tied(Arriving(headers, policy, trusted, owns, now, ordinal, role), [], [], [])
  {
    hide SourceBodyLength, StrictRun;
  }

  lemma StepTied(s: Server, e: Event, i: nat, trace: seq<Timed>)
    requires Safe(s) && i < |s.requests| && Tied(s.requests[i], StreamOf(trace), StreamTimes(trace), trace)
    ensures i < |Step(s, e).requests|
    ensures var more := trace + (if Telling(e, i) then [Timed(s.now, e.event)] else []);
            Tied(Step(s, e).requests[i], StreamOf(more), StreamTimes(more), more)
  {
    hide LocalStep, Arriving, Observe, Leave, Close, Sender, Admit;
    hide StrictRun, Ownership, BodyKept, StreamOf, StreamTimes;
    assert trace + [] == trace;
    match e
    case Local(j, event) =>
      if j == i {
        LocalTied(s.requests[i], s.now, event, trace);
      }
    case _ =>
  }

  lemma {:induction false} RunTied(enabled: bool, events: seq<Event>, i: nat)
    requires i < |Arrivals(events)| && |Arrivals(events)| == |Run(enabled, events).requests|
    ensures var trace := Trace(events, i);
            Tied(Run(enabled, events).requests[i], StreamOf(trace), StreamTimes(trace), trace)
  {
    if events != [] {
      var before, e := events[..|events| - 1], events[|events| - 1];
      var s := Run(enabled, before);
      ArrivalsRecorded(enabled, before);
      RunSafe(enabled, before);
      assert Run(enabled, events) == Step(s, e);
      hide Run, Tied, Safe, Clock, StreamOf, StreamTimes;
      if i < |Arrivals(before)| {
        hide Arrivals, Step;
        TraceStep(events, i);
        RunTied(enabled, before, i);
        StepTied(s, e, i, Trace(before, i));
      } else {
        NewcomerIs(events, i);
        ArrivingTied(e.headers, e.policy, e.trusted, !s.active, s.now, Admit(s.diagnostics).ordinal, e.role);
        assert StreamOf([]) == [] && StreamTimes([]) == [] by { EmptyTrace(); }
      }
    }
  }

  lemma EmptyTrace()
    ensures StreamOf([]) == [] && StreamTimes([]) == []
  {
  }

  predicate Undisturbed(trace: seq<Timed>) {
    forall k :: 0 <= k < |trace| ==> !trace[k].event.ClientGone?
  }

  /** The turn to send came at time `at`, and the client had not gone before. */
  ghost predicate SentUndisturbed(trace: seq<Timed>, at: int) {
    exists k :: 0 <= k < |trace| && trace[k] == Timed(at, Turn(false, false)) && Undisturbed(trace[..k])
  }

  ghost predicate Calm(r: Request, trace: seq<Timed>) {
    && (Waiting(r) ==> Undisturbed(trace))
    && (r.forwarded.Some? ==> SentUndisturbed(trace, r.forwarded.value.0))
  }

  lemma SentStays(trace: seq<Timed>, last: Timed, at: int)
    ensures SentUndisturbed(trace, at) ==> SentUndisturbed(trace + [last], at)
    ensures Undisturbed(trace) && last == Timed(at, Turn(false, false)) ==> SentUndisturbed(trace + [last], at)
    ensures Undisturbed(trace) && !last.event.ClientGone? ==> Undisturbed(trace + [last])
  {
    var more := trace + [last];
    if SentUndisturbed(trace, at) {
      var k :| 0 <= k < |trace| && trace[k] == Timed(at, Turn(false, false)) && Undisturbed(trace[..k]);
      assert more[..k] == trace[..k] && more[k] == trace[k];
    }
    assert more[|trace|] == last && more[..|trace|] == trace;
  }

  lemma ReadCalm(r: Request, now: int, event: StreamEvent)
    requires r.phase.Receiving?
    ensures var r' := ReadEvent(r, now, event);
            r'.forwarded == r.forwarded && (r'.phase.Receiving? || r'.phase.Ready? || r'.phase.Finalizing?)
  {
    hide StrictStep, BodyOf, Expired;
  }

  /** Reading its body, or waiting its turn with it, and not aborted. */
  predicate Waiting(r: Request) {
    r.phase.Receiving? || (r.phase.Ready? && !r.aborted)
  }

  lemma LocalWaits(r: Request, now: int, e: LocalEvent)
    ensures var r' := LocalStep(r, now, e);
            && (Waiting(r') ==> Waiting(r) && !e.ClientGone?)
            && (r'.forwarded != r.forwarded ==>
                  Waiting(r) && e == Turn(false, false) && r'.forwarded.Some? && r'.forwarded.value.0 == now)
  {
    hide ReadEvent, TakeTurn, BodyOf, Expired;
    match e
    case Stream(event) =>
      if r.phase.Receiving? {
        ReadCalm(r, now, event);
      }
    case Turn(destroyed, fails) =>
      if r.phase.Ready? {
        TurnCalm(r, now, destroyed, fails);
      }
    case _ =>
  }

  lemma TurnCalm(r: Request, now: int, destroyed: bool, fails: bool)
    requires r.phase.Ready?
    ensures var r' := TakeTurn(r, now, destroyed, fails);
            && !Waiting(r')
            && (r'.forwarded != r.forwarded ==>
                  !r.aborted && !destroyed && !fails && r'.forwarded.Some? && r'.forwarded.value.0 == now)
  {
    hide BodyOf, Expired;
  }

  lemma LocalCalm(r: Request, now: int, e: LocalEvent, trace: seq<Timed>)
    requires Calm(r, trace)
    ensures Silent(e) ==> Calm(LocalStep(r, now, e), trace)
    ensures Calm(LocalStep(r, now, e), trace + [Timed(now, e)])
  {
    LocalWaits(r, now, e);
    hide LocalStep, Undisturbed, SentUndisturbed;
    SentStays(trace, Timed(now, e), now);
    if r.forwarded.Some? {
      SentStays(trace, Timed(now, e), r.forwarded.value.0);
    }
  }

  lemma {:induction false} RunCalm(enabled: bool, events: seq<Event>, i: nat)
    requires i < |Arrivals(events)| && |Arrivals(events)| == |Run(enabled, events).requests|
    ensures Calm(Run(enabled, events).requests[i], Trace(events, i))
  {
    if events != [] {
      var before, e := events[..|events| - 1], events[|events| - 1];
      var s := Run(enabled, before);
      ArrivalsRecorded(enabled, before);
      assert Run(enabled, events) == Step(s, e);
      hide Run, Calm, Clock;
      if i < |Arrivals(before)| {
        hide Arrivals, Step;
        TraceStep(events, i);
        RunCalm(enabled, before, i);
        StepCalm(s, e, i, Trace(before, i));
      } else {
        NewcomerIs(events, i);
        ArrivingCalm(e.headers, e.policy, e.trusted, !s.active, s.now, Admit(s.diagnostics).ordinal, e.role);
      }
    }
  }

  lemma StepCalm(s: Server, e: Event, i: nat, trace: seq<Timed>)
    requires i < |s.requests| && Calm(s.requests[i], trace)
    ensures i < |Step(s, e).requests|
    ensures Calm(Step(s, e).requests[i], trace + (if Telling(e, i) then [Timed(s.now, e.event)] else []))
  {
    hide LocalStep, Arriving, Observe, Leave, Close, Sender, Admit, Undisturbed, SentUndisturbed;
    assert trace + [] == trace;
    match e
    case Local(j, event) =>
      if j == i {
        LocalCalm(s.requests[i], s.now, event, trace);
      }
    case _ =>
  }

  lemma ArrivingCalm(headers: seq<Header>, policy: Policy, trusted: bool, owns: bool, now: int, ordinal: nat,
                     role: Role)
    ensures Calm(Arriving(headers, policy, trusted, owns, now, ordinal, role), [])
  {
    hide SourceBodyLength;
  }

  lemma WholeStream(n: nat, stream: seq<StreamEvent>, body: seq<byte>) returns (parts: seq<seq<byte>>)
    requires stream != [] && StrictRun(RequestFrame(n), stream[..|stream| - 1]).Reading?
    requires StrictRun(RequestFrame(n), stream) == Done(Resolved(body))
    ensures stream == AsEvents(parts) + [End(true, false)] && body == Concat(parts) && |body| == n
  {
    parts := StrictReading(RequestFrame(n), stream[..|stream| - 1]);
    assert stream == AsEvents(parts) + [stream[|stream| - 1]];
  }

  /**
   What goes upstream, over every run, told by events alone: only the request of a trusted owner, at a turn that it was
   given before its client went; with a body that its fields allow; which is the parts that its stream delivered first,
   up to a complete end without trailers; and none of these came an idle limit after the one before, or an absolute
   limit after the arrival.
   */
  lemma ForwardedOnly(enabled: bool, events: seq<Event>, i: nat) returns (parts: seq<seq<byte>>)
    requires i < |Arrivals(events)| && |Arrivals(events)| == |Run(enabled, events).requests|
    requires !Run(enabled, events).requests[i].outgoing.NotCreated?
    ensures var r, a, trace := Run(enabled, events).requests[i], Arrivals(events)[i], Trace(events, i);
            && r.owns && a.trusted && MayCarry(a.headers, a.policy, |Concat(parts)|)
            && r.forwarded.Some? && r.forwarded.value.1 == Concat(parts)
            && SentUndisturbed(trace, r.forwarded.value.0)
            && AsEvents(parts) + [End(true, false)] <= StreamOf(trace) && |parts| <= |StreamTimes(trace)|
            && Timely(a.policy, [a.at] + StreamTimes(trace)[..|parts|] + [r.forwarded.value.0])
  {
    RunSafe(enabled, events);
    ArrivalsRecorded(enabled, events);
    RunTied(enabled, events, i);
    RunCalm(enabled, events, i);
    var s, a := Run(enabled, events), Arrivals(events)[i];
    var r := s.requests[i];
    assert Recorded(r, a) && BodyKept(r, s.now);
    if !r.owns || !a.trusted {
      RefusedSendsNothing(enabled, events, i);
    }
    hide Run, Arrivals, Trace, Clock, SourceBodyLength, StrictRun, Timely, StreamOf, StreamTimes, MayCarry;
    parts := WholeStream(r.count, r.stream, r.forwarded.value.1);
    StrictAcceptsIff(a.headers, a.policy, r.count);
    var times := StreamTimes(Trace(events, i));
    assert |r.stamps| == |parts| + 1;
    assert r.stamps == [a.at] + times[..|parts|] by { StampsAre(r.stamps, times, |parts|); }
  }

  lemma StampsAre(stamps: seq<int>, times: seq<int>, n: nat)
    requires |stamps| == n + 1 && stamps[1..] <= times
    ensures n <= |times| && stamps == [stamps[0]] + times[..n]
  {
  }
}
