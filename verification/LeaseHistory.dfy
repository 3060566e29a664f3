/**
 Body leases told by what happened to the server: who is given one, what a leased request keeps, and that a whole and
 timely body is sent, whatever other requests do meanwhile.
 */
module LeaseHistory {
  import opened Common
  import opened BodyReaders
  import opened GenericLease

  /** The greatest time that the clock has shown. */
  function Clock(events: seq<Event>): int {
    if events == [] then 0
    else
      var before, e := Clock(events[..|events| - 1]), events[|events| - 1];
      if e.Tick? && e.time > before then e.time else before
  }

  datatype Arrival = Arrival(declared: Option<nat>, targetValid: bool, budget: nat, at: int)

  /** Every request that arrived, with the time of its arrival. */
  function Arrivals(events: seq<Event>): seq<Arrival> {
    if events == [] then []
    else
      var before, e := events[..|events| - 1], events[|events| - 1];
      Arrivals(before)
      + (if e.Arrives? then [Arrival(e.declared, e.targetValid, e.budget, Clock(before))] else [])
  }

  /** Events that say nothing about a body: the timer may look, and objects may close. */
  predicate Silent(e: LocalEvent) {
    e.DeadlineTimer? || e.RequestCloses? || e.ResponseCloses? || e.SocketCloses?
  }

  datatype Timed = Timed(at: int, event: LocalEvent)

  /** What happened to request `i` since it arrived, and when. */
  function Trace(events: seq<Event>, i: nat): seq<Timed> {
    if events == [] then []
    else
      var before, e := events[..|events| - 1], events[|events| - 1];
      Trace(before, i)
      + (if e.Local? && e.i == i < |Arrivals(before)| && !Silent(e.event) then [Timed(Clock(before), e.event)] else [])
  }

  ghost predicate Recorded(r: Request, a: Arrival) {
    r.declared == a.declared && r.deadline == a.at + a.budget
  }

  ghost predicate SameRecord(r: Request, r': Request) {
    r'.declared == r.declared && r'.deadline == r.deadline && r'.retained == r.retained
  }

  lemma AbortSameRecord(r: Request)
    ensures SameRecord(r, Abort(r)) && SameRecord(r, FailRequest(r))
  {
    hide BoundedRun;
  }

  lemma BodySameRecord(r: Request, now: int, event: StreamEvent, trusted: bool)
    ensures SameRecord(r, LocalStep(r, now, Stream(event))) && SameRecord(r, LocalStep(r, now, Fetch(trusted)))
  {
    hide BoundedRun, BoundedStep;
  }

  lemma LocalKeepsRecord(r: Request, now: int, e: LocalEvent)
    ensures SameRecord(r, LocalStep(r, now, e))
  {
    AbortSameRecord(r);
    AbortSameRecord(r.(aborted := true));
    hide BoundedRun, BoundedStep, Abort, FailRequest;
    match e
    case Stream(event) => BodySameRecord(r, now, event, false);
    case Fetch(trusted) => BodySameRecord(r, now, Errored, trusted);
    case _ =>
  }

  /** Requests are the arrivals, one for one and in order. */
  lemma {:induction false} ArrivalsRecorded(events: seq<Event>)
    ensures var s := Run(events);
            && s.now == Clock(events) && |s.requests| == |Arrivals(events)|
            && forall i :: 0 <= i < |s.requests| ==> Recorded(s.requests[i], Arrivals(events)[i])
  {
    if events != [] {
      var before, e := events[..|events| - 1], events[|events| - 1];
      var s := Run(before);
      ArrivalsRecorded(before);
      assert Run(events) == Step(s, e);
      hide Run, LocalStep, BoundedRun;
      if e.Local? && e.i < |s.requests| {
        LocalKeepsRecord(s.requests[e.i], s.now, e.event);
      }
    }
  }

  /**
   Who is given a lease, over every run: an arriving request if and only if fewer than eight earlier ones hold one; the
   counter then goes up by one, and otherwise stays; no earlier request is touched.
   */
  lemma LeaseGivenIff(events: seq<Event>, declared: Option<nat>, targetValid: bool, budget: nat)
    ensures var s, s' := Run(events), Run(events + [Arrives(declared, targetValid, budget)]);
            && |s'.requests| == |s.requests| + 1 && s'.requests[..|s.requests|] == s.requests
            && (s'.requests[|s.requests|].leased <==> Held(s.requests) < 8)
            && s'.active == s.active + (if s'.requests[|s.requests|].leased then 1 else 0)
  {
    RunSafe(events);
    RunMore(events, Arrives(declared, targetValid, budget));
    hide Run, BoundedStart, Kept;
  }

  /** What a request that was given a lease keeps reachable until it is released: a buffer for its body. */
  ghost predicate Buffered(r: Request, a: Arrival) {
    r.retained ==
    if !r.leased || r.phase.Released? || !a.targetValid || (a.declared.Some? && a.declared.value > 1048577) then 0
    else if a.declared.Some? && a.declared.value < 1048576 then a.declared.value
    else 1048576
  }

  lemma ArrivingBuffered(declared: Option<nat>, targetValid: bool, budget: nat, leased: bool, now: int)
    ensures Buffered(Arriving(declared, targetValid, budget, leased, now), Arrival(declared, targetValid, budget, now))
  {
  }

  lemma {:induction false} BuffersHeld(events: seq<Event>)
    ensures |Run(events).requests| == |Arrivals(events)|
    ensures forall i :: 0 <= i < |Arrivals(events)| ==> Buffered(Run(events).requests[i], Arrivals(events)[i])
  {
    if events != [] {
      var before, e := events[..|events| - 1], events[|events| - 1];
      var s := Run(before);
      BuffersHeld(before);
      ArrivalsRecorded(before);
      assert Run(events) == Step(s, e);
      hide Run, LocalStep, Arriving, Clock;
      match e
      case Arrives(declared, targetValid, budget) =>
        ArrivingBuffered(declared, targetValid, budget, s.active < MAX_LEASES, s.now);
      case Local(i, event) =>
        if i < |s.requests| {
          LocalKeepsRecord(s.requests[i], s.now, event);
          LocalKeepsLease(s.requests[i], s.now, event);
        }
      case _ =>
    }
  }

  // A whole body is sent.

  /** The parts of a body, delivered at whatever times. */
  ghost predicate Delivered(trace: seq<Timed>, parts: seq<seq<byte>>) {
    |trace| == |parts| && forall k :: 0 <= k < |parts| ==> trace[k].event == Stream(Data(Bytes(parts[k])))
  }

  /** How far the reading of a whole body has come: it goes on, has met the end, or the body was sent. */
  datatype Stage = Collecting(parts: seq<seq<byte>>) | Ended(parts: seq<seq<byte>>, trailers: bool)
                 | SentAt(parts: seq<seq<byte>>, trailers: bool, at: int)

  ghost predicate Reached(trace: seq<Timed>, stage: Stage) {
    match stage
    case Collecting(parts) => Delivered(trace, parts)
    case Ended(parts, trailers) =>
      && trace != [] && Delivered(trace[..|trace| - 1], parts)
      && trace[|trace| - 1].event == Stream(End(true, trailers))
    case SentAt(parts, trailers, at) =>
      && |trace| > 1 && Reached(trace[..|trace| - 1], Ended(parts, trailers))
      && trace[|trace| - 1] == Timed(at, Fetch(true))
  }

  ghost predicate InStage(r: Request, stage: Stage) {
    match stage
    case Collecting(parts) => r.phase.Reading? && !r.aborted && r.stream == AsEvents(parts)
    case Ended(parts, trailers) => r.phase.Reading? && !r.aborted && r.stream == AsEvents(parts) + [End(true, trailers)]
    case SentAt(parts, trailers, at) => r.sent == Some((at, Concat(parts))) && !r.phase.Reading?
  }

  /** The time by which a stage must be reached. */
  function StageTime(stage: Stage, now: int): int {
    match stage
    case Collecting(_) => now
    case Ended(_, _) => now
    case SentAt(_, _, at) => at
  }

  ghost predicate Fitting(a: Arrival, total: nat) {
    a.targetValid && total <= 1048576 && (a.declared.None? || a.declared.value == total)
  }

  /** As far as it was delivered, a body stays within bounds. */
  ghost predicate Within(a: Arrival, stage: Stage) {
    match stage
    case Collecting(parts) =>
      && a.targetValid && |Concat(parts)| <= 1048576
      && (a.declared.None? || |Concat(parts)| <= a.declared.value <= 1048576)
    case Ended(parts, _) => Fitting(a, |Concat(parts)|)
    case SentAt(parts, _, _) => Fitting(a, |Concat(parts)|)
  }

  lemma WithinStart(declared: Option<nat>, parts: seq<seq<byte>>)
    requires |Concat(parts)| <= 1048576 && (declared.None? || declared.value <= 1048576)
    ensures BoundedRun(declared, AsEvents(parts)) == Progress.Reading(Concat(parts))
  {
    BoundedFeed(declared, parts);
  }

  /** One more telling event takes the request to its next stage. */
  lemma NextPart(r: Request, now: int, a: Arrival, parts: seq<seq<byte>>)
    requires parts != [] && InStage(r, Collecting(parts[..|parts| - 1]))
    requires Recorded(r, a) && Within(a, Collecting(parts))
    ensures InStage(LocalStep(r, now, Stream(Data(Bytes(parts[|parts| - 1])))), Collecting(parts))
  {
    var before, last := parts[..|parts| - 1], Data(Bytes(parts[|parts| - 1]));
    assert Concat(parts) == Concat(before) + parts[|parts| - 1];
    WithinStart(r.declared, before);
    WithinStart(r.declared, parts);
    assert AsEvents(parts) == AsEvents(before) + [last];
    assert AsEvents(parts)[..|before|] == AsEvents(before);
    assert BoundedRun(r.declared, AsEvents(parts))
           == BoundedStep(r.declared, BoundedRun(r.declared, AsEvents(before)), last);
    hide BoundedRun, BoundedStep, Concat, AsEvents;
  }

  lemma NextEnd(r: Request, now: int, a: Arrival, parts: seq<seq<byte>>, trailers: bool)
    requires InStage(r, Collecting(parts)) && Recorded(r, a) && Within(a, Ended(parts, trailers))
    ensures InStage(LocalStep(r, now, Stream(End(true, trailers))), Ended(parts, trailers))
  {
    var events := AsEvents(parts) + [End(true, trailers)];
    assert events[..|events| - 1] == AsEvents(parts);
    BoundedChunkingInvariant(r.declared, parts, true, trailers);
    assert BoundedRun(r.declared, events)
           == BoundedStep(r.declared, BoundedRun(r.declared, AsEvents(parts)), End(true, trailers));
    hide BoundedRun, BoundedStep, Concat, AsEvents, BoundedVerdict;
  }

  lemma NextFetch(r: Request, now: int, a: Arrival, parts: seq<seq<byte>>, trailers: bool)
    requires InStage(r, Ended(parts, trailers)) && Recorded(r, a) && Within(a, Ended(parts, trailers))
    requires now < a.at + a.budget
    ensures InStage(LocalStep(r, now, Fetch(true)), SentAt(parts, trailers, now))
  {
    BoundedChunkingInvariant(r.declared, parts, true, trailers);
    hide BoundedRun, BoundedStep, Concat, AsEvents, BoundedVerdict;
  }

  /** What says nothing about the body changes nothing before the deadline, and nothing once the body is sent. */
  lemma SilentStays(r: Request, now: int, e: LocalEvent, stage: Stage)
    requires InStage(r, stage) && Silent(e) && (stage.SentAt? || now < r.deadline)
    ensures InStage(LocalStep(r, now, e), stage)
  {
    hide BoundedRun, Concat, AsEvents;
  }

  lemma ArrivingReads(declared: Option<nat>, targetValid: bool, budget: nat, now: int)
    requires targetValid && (declared.None? || declared.value <= 1048576)
    ensures InStage(Arriving(declared, targetValid, budget, true, now), Collecting([]))
  {
  }

  lemma ReleaseStays(r: Request, stage: Stage)
    requires InStage(r, stage) && CanRelease(r)
    ensures stage.SentAt? && InStage(r.(phase := Released, retained := 0), stage)
  {
  }

  /** A telling event follows the stage before; this is that stage. */
  ghost function Earlier(stage: Stage): Stage
    requires stage.Collecting? ==> stage.parts != []
  {
    match stage
    case Collecting(parts) => Collecting(parts[..|parts| - 1])
    case Ended(parts, _) => Collecting(parts)
    case SentAt(parts, trailers, _) => Ended(parts, trailers)
  }

  lemma EarlierReached(trace: seq<Timed>, last: Timed, stage: Stage, a: Arrival)
    requires Reached(trace + [last], stage) && Within(a, stage)
    ensures stage.Collecting? ==> stage.parts != []
    ensures Reached(trace, Earlier(stage)) && Within(a, Earlier(stage))
  {
    assert (trace + [last])[..|trace|] == trace && (trace + [last])[|trace|] == last;
    if stage.Collecting? {
      var parts := stage.parts;
      assert |Concat(parts[..|parts| - 1])| <= |Concat(parts)|;
      forall k | 0 <= k < |parts| - 1
        ensures trace[k].event == Stream(Data(Bytes(parts[..|parts| - 1][k])))
      {
        assert trace[k] == (trace + [last])[k];
      }
    }
    hide Concat;
  }

  lemma NextStage(r: Request, a: Arrival, trace: seq<Timed>, last: Timed, stage: Stage)
    requires Reached(trace + [last], stage) && Within(a, stage) && Recorded(r, a)
    requires stage.Collecting? ==> stage.parts != []
    requires InStage(r, Earlier(stage))
    requires StageTime(stage, last.at) < a.at + a.budget
    ensures InStage(LocalStep(r, last.at, last.event), stage)
  {
    assert (trace + [last])[|trace|] == last;
    hide LocalStep, Within, InStage, Concat;
    match stage
    case Collecting(parts) => NextPart(r, last.at, a, parts);
    case Ended(parts, trailers) => NextEnd(r, last.at, a, parts, trailers);
    case SentAt(parts, trailers, at) =>
      SentWithin(a, parts, trailers, at);
      NextFetch(r, last.at, a, parts, trailers);
  }

  lemma SentWithin(a: Arrival, parts: seq<seq<byte>>, trailers: bool, at: int)
    requires Within(a, SentAt(parts, trailers, at))
    ensures Within(a, Ended(parts, trailers))
  {
  }

  lemma StepKeepsLeased(s: Server, e: Event, i: nat)
    requires i < |s.requests|
    ensures |Step(s, e).requests| >= |s.requests| && Step(s, e).requests[i].leased == s.requests[i].leased
  {
    hide LocalStep;
    if e.Local? && e.i == i {
      LocalKeepsLease(s.requests[i], s.now, e.event);
    }
  }

  lemma {:induction false} NoTrace(events: seq<Event>, i: nat)
    requires i >= |Arrivals(events)|
    ensures Trace(events, i) == []
  {
    if events != [] {
      NoTrace(events[..|events| - 1], i);
    }
  }

  /** An event of another request, or one that says nothing, leaves the stage as it is. */
  lemma OtherStays(s: Server, e: Event, i: nat, stage: Stage)
    requires i < |s.requests| && InStage(s.requests[i], stage)
    requires e.Local? && e.i == i ==> Silent(e.event)
    requires stage.SentAt? || s.now < s.requests[i].deadline
    ensures i < |Step(s, e).requests| && InStage(Step(s, e).requests[i], stage)
  {
    hide LocalStep, InStage, CanRelease, Arriving;
    match e
    case Local(j, event) =>
      if j == i {
        SilentStays(s.requests[i], s.now, event, stage);
      }
    case Releases(j) =>
      if j == i && CanRelease(s.requests[i]) {
        ReleaseStays(s.requests[i], stage);
      }
    case _ =>
  }

  lemma {:induction false} StageReached(events: seq<Event>, i: nat, stage: Stage)
    requires i < |Arrivals(events)| && |Arrivals(events)| == |Run(events).requests|
    requires Run(events).requests[i].leased && Reached(Trace(events, i), stage) && Within(Arrivals(events)[i], stage)
    requires StageTime(stage, Clock(events)) < Arrivals(events)[i].at + Arrivals(events)[i].budget
    ensures InStage(Run(events).requests[i], stage)
    decreases |events|
  {
    if events != [] {
      var before, e := events[..|events| - 1], events[|events| - 1];
      var s, a := Run(before), Arrivals(events)[i];
      ArrivalsRecorded(before);
      assert Run(events) == Step(s, e);
      assert Clock(before) <= Clock(events);
      if i < |Arrivals(before)| {
        StepKeepsLeased(s, e, i);
        assert Arrivals(before)[i] == a && Recorded(s.requests[i], a);
        if e.Local? && e.i == i && !Silent(e.event) {
          var last := Timed(Clock(before), e.event);
          assert Trace(events, i) == Trace(before, i) + [last];
          hide Run, Trace, Arrivals, Clock, Reached, Within, InStage, LocalStep, Recorded;
          EarlierReached(Trace(before, i), last, stage, a);
          EarlierTime(stage, last, Trace(before, i));
          StageReached(before, i, Earlier(stage));
          NextStage(s.requests[i], a, Trace(before, i), last, stage);
        } else {
          assert Trace(events, i) == Trace(before, i);
          hide Run, Trace, Arrivals, Clock, Reached, Within, InStage, Step;
          StageReached(before, i, stage);
          OtherStays(s, e, i, stage);
        }
      } else {
        NoTrace(before, i);
        assert e.Arrives? && Trace(events, i) == [];
        hide Run, Trace, Clock, InStage, Arriving;
        assert stage == Collecting([]);
        ArrivingReads(e.declared, e.targetValid, e.budget, s.now);
      }
    }
  }

  lemma EarlierTime(stage: Stage, last: Timed, trace: seq<Timed>)
    requires Reached(trace + [last], stage) && (stage.Collecting? ==> stage.parts != [])
    ensures StageTime(Earlier(stage), last.at) == last.at == StageTime(stage, last.at)
  {
    assert (trace + [last])[|trace|] == last;
  }

  /**
   A whole and timely body is sent, over every run and whatever other requests do: if all that a leased request was
   told are the parts of a body, its complete end and the turn to fetch, by a trusted ingress and before its deadline,
   and the body has the declared length and at most 1 MiB, then the body that was sent is the parts put together.
   */
  lemma WholeBodySent(events: seq<Event>, i: nat, parts: seq<seq<byte>>, trailers: bool, at: int)
    requires i < |Arrivals(events)| && |Arrivals(events)| == |Run(events).requests| && Run(events).requests[i].leased
    requires Reached(Trace(events, i), SentAt(parts, trailers, at))
    requires Fitting(Arrivals(events)[i], |Concat(parts)|)
    requires at < Arrivals(events)[i].at + Arrivals(events)[i].budget
    ensures Run(events).requests[i].sent == Some((at, Concat(parts)))
  {
    StageReached(events, i, SentAt(parts, trailers, at));
  }

  ghost predicate SendsNothing(r: Request) {
    r.sent.None? && r.retained == 0 && (r.phase.Finalizing? || r.phase.Released?) && r.closeSocket
  }

  lemma LocalSendsNothing(r: Request, now: int, e: LocalEvent)
    requires SendsNothing(r)
    ensures SendsNothing(LocalStep(r, now, e))
  {
    hide BoundedRun, BoundedStep;
  }

  /** A request without a lease, or with an unusable target, or an over-long declared body, never sends anything. */
  lemma {:induction false} RefusedSendsNothing(events: seq<Event>, i: nat)
    requires i < |Arrivals(events)| && |Arrivals(events)| == |Run(events).requests|
    ensures var r, a := Run(events).requests[i], Arrivals(events)[i];
            !r.leased || !a.targetValid || (a.declared.Some? && a.declared.value > 1048577) ==> SendsNothing(r)
  {
    if events != [] {
      var before, e := events[..|events| - 1], events[|events| - 1];
      var s := Run(before);
      ArrivalsRecorded(before);
      assert Run(events) == Step(s, e);
      if i < |Arrivals(before)| {
        hide Run, LocalStep, Arriving;
        RefusedSendsNothing(before, i);
        StepKeepsLeased(s, e, i);
        if e.Local? && e.i == i && SendsNothing(s.requests[i]) {
          LocalSendsNothing(s.requests[i], s.now, e.event);
        }
      } else {
        hide Run, LocalStep;
      }
    }
  }

  /** A request that has not failed does not insist on its socket. */
  ghost predicate OnCourse(r: Request) {
    r.phase.Reading? || r.phase.Exchanging? ==> !r.closeSocket
  }

  lemma LocalOnCourse(r: Request, now: int, e: LocalEvent)
    requires OnCourse(r)
    ensures OnCourse(LocalStep(r, now, e))
  {
    hide BoundedRun, BoundedStep;
  }

  lemma {:induction false} RunOnCourse(events: seq<Event>)
    ensures forall i :: 0 <= i < |Run(events).requests| ==> OnCourse(Run(events).requests[i])
  {
    if events != [] {
      var before, e := events[..|events| - 1], events[|events| - 1];
      var s := Run(before);
      RunOnCourse(before);
      assert Run(events) == Step(s, e);
      hide Run, LocalStep;
      if e.Local? && e.i < |s.requests| {
        LocalOnCourse(s.requests[e.i], s.now, e.event);
      }
    }
  }

  /**
   When reading stops early: at once when the client goes, at the timer's first look after the deadline, and when the
   stream fails; the request's socket must then close.
   */
  lemma ReadingStops(events: seq<Event>, i: nat, event: StreamEvent)
    requires i < |Arrivals(events)| && |Arrivals(events)| == |Run(events).requests|
    requires var r := Run(events).requests[i]; r.phase.Reading? && BoundedRun(r.declared, r.stream).Reading?
    ensures var gone := Run(events + [Local(i, ClientGone)]).requests[i]; gone.phase.Finalizing? && gone.closeSocket
    ensures var late := Run(events + [Local(i, DeadlineTimer)]).requests[i];
            && (late.phase.Finalizing? <==> Clock(events) >= Arrivals(events)[i].at + Arrivals(events)[i].budget)
            && (late.phase.Finalizing? <==> late.closeSocket)
    ensures var r, next := Run(events).requests[i], Run(events + [Local(i, Stream(event))]).requests[i];
            var p := BoundedRun(r.declared, r.stream + [event]);
            if p.Done? && !p.outcome.Resolved? then next.phase.Finalizing? && next.closeSocket else next.phase.Reading?
  {
    ArrivalsRecorded(events);
    RunOnCourse(events);
    RunMore(events, Local(i, ClientGone));
    RunMore(events, Local(i, DeadlineTimer));
    RunMore(events, Local(i, Stream(event)));
    var r := Run(events).requests[i];
    assert Recorded(r, Arrivals(events)[i]) && OnCourse(r);
    assert (r.stream + [event])[..|r.stream|] == r.stream;
    assert BoundedRun(r.declared, r.stream + [event])
           == BoundedStep(r.declared, BoundedRun(r.declared, r.stream), event);
    hide Run, BoundedRun, BoundedStep;
  }

  /**
   A whole body is sent at its turn if and only if the ingress is trusted, the request not aborted, and time not up.
   */
  lemma FetchIff(events: seq<Event>, i: nat, trusted: bool)
    requires i < |Arrivals(events)| && |Arrivals(events)| == |Run(events).requests|
    requires var r := Run(events).requests[i]; r.phase.Reading? && BoundedRun(r.declared, r.stream).Done?
    ensures var r, next := Run(events).requests[i], Run(events + [Local(i, Fetch(trusted))]).requests[i];
            && (next.sent.Some? <==>
                  trusted && !r.aborted && Clock(events) < Arrivals(events)[i].at + Arrivals(events)[i].budget)
            && (if next.sent.Some? then next.phase.Exchanging? else next.phase.Finalizing? && next.closeSocket)
  {
    ArrivalsRecorded(events);
    RunSafe(events);
    RunMore(events, Local(i, Fetch(trusted)));
    assert Recorded(Run(events).requests[i], Arrivals(events)[i]) && Kept(Run(events).requests[i]);
    hide Run, BoundedRun;
  }

  lemma AbortAlone(r: Request, now: int)
    requires !r.phase.Released?
    ensures LocalStep(r, now, ClientGone).aborted
    ensures LocalStep(r, now, DeadlineTimer).aborted <==> r.aborted || now >= r.deadline
  {
    hide BoundedRun;
  }

  /** Until its release a request is aborted when its client goes, and by the timer once the deadline has passed. */
  lemma Aborts(events: seq<Event>, i: nat)
    requires i < |Arrivals(events)| && |Arrivals(events)| == |Run(events).requests|
    requires !Run(events).requests[i].phase.Released?
    ensures var gone, late := Run(events + [Local(i, ClientGone)]), Run(events + [Local(i, DeadlineTimer)]);
            && i < |gone.requests| && i < |late.requests|
            && gone.requests[i].aborted
            && (late.requests[i].aborted <==>
                  || Run(events).requests[i].aborted
                  || Clock(events) >= Arrivals(events)[i].at + Arrivals(events)[i].budget)
  {
    ArrivalsRecorded(events);
    RunMore(events, Local(i, ClientGone));
    RunMore(events, Local(i, DeadlineTimer));
    assert Recorded(Run(events).requests[i], Arrivals(events)[i]);
    hide Run, LocalStep;
    AbortAlone(Run(events).requests[i], Clock(events));
  }

  /**
   A request is released if and only if it is at its end, its request and its response have closed, and, if it failed,
   its socket has too; a lease goes back with it.
   */
  lemma ReleasedIff(events: seq<Event>, i: nat)
    requires i < |Run(events).requests| && !Run(events).requests[i].phase.Released?
    ensures var s, s' := Run(events), Run(events + [Releases(i)]);
            var r := s.requests[i];
            && |s'.requests| == |s.requests|
            && (s'.requests[i].phase.Released? <==>
                  r.phase.Finalizing? && r.requestClosed && r.responseClosed && (r.closeSocket ==> r.socketClosed))
            && s'.active == s.active - (if s'.requests[i].phase.Released? && r.leased then 1 else 0)
  {
    RunMore(events, Releases(i));
    hide Run;
  }

  lemma ExchangeAlone(r: Request, now: int)
    requires r.phase.Exchanging? && !r.closeSocket
    ensures var answered, failed := LocalStep(r, now, Answered), LocalStep(r, now, ExchangeFails);
            && answered.phase.Finalizing? && (answered.closeSocket <==> r.aborted || now >= r.deadline)
            && failed.phase.Finalizing? && failed.closeSocket
  {
  }

  /** How an exchange ends: in time, with the answer; otherwise as a failure, which closes the socket. */
  lemma ExchangeEnds(events: seq<Event>, i: nat)
    requires i < |Arrivals(events)| && |Arrivals(events)| == |Run(events).requests|
    requires Run(events).requests[i].phase.Exchanging?
    ensures var r := Run(events).requests[i];
            var answered, failed := Run(events + [Local(i, Answered)]), Run(events + [Local(i, ExchangeFails)]);
            && i < |answered.requests| && i < |failed.requests|
            && answered.requests[i].phase.Finalizing?
            && failed.requests[i].phase.Finalizing? && failed.requests[i].closeSocket
            && (answered.requests[i].closeSocket <==>
                  r.aborted || Clock(events) >= Arrivals(events)[i].at + Arrivals(events)[i].budget)
  {
    ArrivalsRecorded(events);
    RunOnCourse(events);
    RunMore(events, Local(i, Answered));
    RunMore(events, Local(i, ExchangeFails));
    assert OnCourse(Run(events).requests[i]) && Recorded(Run(events).requests[i], Arrivals(events)[i]);
    hide Run, LocalStep;
    ExchangeAlone(Run(events).requests[i], Clock(events));
  }
}
