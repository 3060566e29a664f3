/**
 The source-admission route of the packaged proxy, as a machine that any number of concurrent requests step: one
 request at a time owns the route, its body is read whole and in time before anything is sent upstream, and the
 route is handed on only when everything the owner holds has closed.
 */
module SourceAdmission {
  import opened Common
  import opened BodyReaders
  import opened HeaderFraming
  import opened SourceDiagnostics
  import DiagnosticWriter

  /** A connection object towards the upstream: the outgoing request or the incoming response. */
  datatype UpstreamObject = NotCreated | Open | Closed

  /**
   Where a request's handler stands: dropping the rest of a rejected body, reading the body, waiting a turn with the
   whole body, exchanging it with the upstream, waiting for the upstream objects to close, answering, waiting for its
   own request and socket to close, gone.
   */
  datatype Phase = Settling | Receiving | Ready | Forwarding | Closing(ok: bool) | Responding | Finalizing | Released

  /**
   One request. `stream` is what its body stream delivered while it was read, `stamps` the start of the request and
   the time of every chunk, `forwarded` the time and body of the upstream request, `retained` the size of the buffers
   it keeps reachable.
   */
  datatype Request = Request(
    headers: seq<Header>,
    policy: Policy,
    owns: bool,
    phase: Phase,
    startedAt: int,
    idleEnd: int,
    aborted: bool,
    count: nat,
    retained: nat,
    stream: seq<StreamEvent>,
    stamps: seq<int>,
    forwarded: Option<(int, seq<byte>)>,
    outgoing: UpstreamObject,
    incoming: UpstreamObject,
    requestClosed: bool,
    socketClosed: bool,
    ordinal: nat,
    role: Role)

  predicate IdleBound(p: Policy) {
    p.idleMs.Some? && p.idleMs.value != 0
  }

  function IdleSpan(p: Policy): int {
    if p.idleMs.Some? then p.idleMs.value else p.absoluteMs
  }

  predicate Expired(r: Request, now: int) {
    now >= r.startedAt + r.policy.absoluteMs || (IdleBound(r.policy) && now >= r.idleEnd)
  }

  /** The abort signal: it stops reading and dropping at once; later phases look at it when they go on. */
  function Abort(r: Request): Request {
    r.(aborted := true, phase := if r.phase.Receiving? || r.phase.Settling? then Finalizing else r.phase)
  }

  /** Progress on the request or the response, at time `now`. */
  function Touch(r: Request, now: int): Request {
    if Expired(r, now) then Abort(r) else r.(idleEnd := now + IdleSpan(r.policy))
  }

  function Arriving(headers: seq<Header>, policy: Policy, trusted: bool, owns: bool, now: int, ordinal: nat,
                    role: Role): Request
  {
    var framing := SourceBodyLength(headers, policy);
    var phase := if !owns || !trusted then Finalizing else if framing.Accepted? then Receiving else Settling;
    Request(headers, policy, owns, phase, now, now + IdleSpan(policy), false,
            if framing.Accepted? then framing.count else 0,
            if phase.Receiving? then framing.count else 0, [], [now], None,
            NotCreated, NotCreated, false, false, ordinal, role)
  }

  /** What may happen to one request alone. */
  datatype LocalEvent =
    | TimerFires
    | ClientGone
    | Stream(event: StreamEvent)
    | Dropped
    | DropEnds
    | Turn(destroyed: bool, fails: bool)
    | ResponseArrives
    | ResponseProgress
    | ExchangeEnds(ok: bool)
    | OutgoingCloses
    | IncomingCloses
    | UpstreamClosed(answered: bool)
    | AnswerEnds
    | RequestCloses

  function BodyOf(r: Request): Progress {
    StrictRun(RequestFrame(r.count), r.stream)
  }

  /** A chunk arrived and the reader wants more: either time is up, or the chunk is stamped. */
  function ChunkRead(r: Request, now: int, stream: seq<StreamEvent>): Request {
    if Expired(r, now) then Abort(r.(stream := stream))
    else r.(stream := stream, idleEnd := now + IdleSpan(r.policy), stamps := r.stamps + [now])
  }

  function ReadEvent(r: Request, now: int, event: StreamEvent): Request {
    var r' := r.(stream := r.stream + [event]);
    match StrictStep(RequestFrame(r.count), BodyOf(r), event)
    case Reading(_) => ChunkRead(r, now, r'.stream)
    case Done(Resolved(_)) => r'.(phase := Ready)
    case Done(_) => r'.(phase := Finalizing)
  }

  function TakeTurn(r: Request, now: int, destroyed: bool, fails: bool): Request {
    var body := BodyOf(r);
    if destroyed || r.aborted || Expired(r, now) || fails || !body.Done? || !body.outcome.Resolved?
    then r.(phase := Finalizing)
    else r.(phase := Forwarding, outgoing := Open, forwarded := Some((now, body.outcome.body)))
  }

  /** The response arrives: its body gets a buffer of its own. */
  function Answering(r: Request): Request {
    r.(incoming := Open, retained := r.retained + MAX_UPSTREAM_BODY_BYTES)
  }

  function LocalStep(r: Request, now: int, e: LocalEvent): Request {
    match e
    case TimerFires =>
      if Expired(r, now) && !r.phase.Finalizing? && !r.phase.Released? then Abort(r) else r
    case ClientGone =>
      if !r.phase.Finalizing? && !r.phase.Released? then Abort(r) else r
    case Stream(event) => if r.phase.Receiving? then ReadEvent(r, now, event) else r
    case Dropped => if r.phase.Settling? then Touch(r, now) else r
    case DropEnds => if r.phase.Settling? then r.(phase := Finalizing) else r
    case Turn(destroyed, fails) => if r.phase.Ready? then TakeTurn(r, now, destroyed, fails) else r
    case ResponseArrives =>
      if r.outgoing.Open? && r.incoming.NotCreated? then Touch(Answering(r), now) else r
    case ResponseProgress => if r.incoming.Open? then Touch(r, now) else r
    case ExchangeEnds(ok) => if r.phase.Forwarding? then r.(phase := Closing(ok && !r.aborted)) else r
    case OutgoingCloses => if r.outgoing.Open? then r.(outgoing := Closed) else r
    case IncomingCloses => if r.incoming.Open? then r.(incoming := Closed) else r
    case UpstreamClosed(answered) =>
      if r.phase.Closing? && r.outgoing.Closed? && !r.incoming.Open? then
        r.(phase := if r.phase.ok && !r.aborted && now < r.startedAt + r.policy.absoluteMs && answered
                    then Responding else Finalizing)
      else r
    case AnswerEnds => if r.phase.Responding? && r.socketClosed then r.(phase := Finalizing) else r
    case RequestCloses => r.(requestClosed := true)
  }

  /** The server's view: the clock, the ownership flag, every request so far, and the diagnostics. */
  datatype Server = Server(now: int, active: bool, requests: seq<Request>, diagnostics: Diagnostics)

  function Initial(enabled: bool): Server {
    Server(0, false, [], NoDiagnostics(enabled))
  }

  datatype Event =
    | Tick(time: int)
    | Arrives(headers: seq<Header>, policy: Policy, trusted: bool, role: Role)
    | Local(i: nat, event: LocalEvent)
    | SenderRecorded(i: nat, plausible: bool)
    | SocketCloses(i: nat)
    | Releases(i: nat)
    | ServerCloses
    | WriterFails

  predicate CanRelease(r: Request) {
    r.phase.Finalizing? && r.requestClosed && r.socketClosed
  }

  function Step(s: Server, e: Event): Server {
    match e
    case Tick(time) => if time > s.now then s.(now := time) else s
    case Arrives(headers, policy, trusted, role) =>
      if s.diagnostics.closing then s
      else
        var owns := !s.active;
        var d := Admit(s.diagnostics);
        var r := Arriving(headers, policy, trusted, owns, s.now, d.ordinal, role);
        s.(active := true, requests := s.requests + [r],
           diagnostics := Observe(d, if owns then Acquired else Denied, d.ordinal, role))
    case Local(i, event) =>
      if i < |s.requests| then s.(requests := s.requests[i := LocalStep(s.requests[i], s.now, event)]) else s
    case SenderRecorded(i, plausible) =>
      if i < |s.requests| && s.requests[i].phase.Ready? then s.(diagnostics := Sender(s.diagnostics, plausible)) else s
    case SocketCloses(i) =>
      if i < |s.requests| && !s.requests[i].socketClosed then
        var r := s.requests[i];
        s.(requests := s.requests[i := r.(socketClosed := true)],
           diagnostics := Observe(s.diagnostics, SocketClosed, r.ordinal, r.role))
      else s
    case Releases(i) =>
      if i < |s.requests| && CanRelease(s.requests[i]) then
        var r := s.requests[i];
        var d := if r.owns then Observe(s.diagnostics, OwnerReleased, r.ordinal, r.role) else s.diagnostics;
        s.(active := if r.owns then false else s.active,
           requests := s.requests[i := r.(phase := Released, retained := 0)], diagnostics := Leave(d))
      else s
    case ServerCloses => s.(diagnostics := Close(s.diagnostics))
    case WriterFails => s.(diagnostics := s.diagnostics.(overflow := true))
  }

  function Run(enabled: bool, events: seq<Event>): Server {
    if events == [] then Initial(enabled)
    else Step(Run(enabled, events[..|events| - 1]), events[|events| - 1])
  }

  /** Consecutive stamps are less than the idle limit apart and all lie within the absolute limit. */
  ghost predicate Timely(p: Policy, stamps: seq<int>) {
    && stamps != []
    && forall k :: 0 < k < |stamps| ==>
         && stamps[k - 1] <= stamps[k] < stamps[0] + p.absoluteMs
         && (IdleBound(p) ==> stamps[k] - stamps[k - 1] < p.idleMs.value)
  }

  ghost predicate OnTime(p: Policy, startedAt: int, stamps: seq<int>, idleEnd: int, now: int) {
    && Timely(p, stamps)
    && stamps[0] == startedAt
    && stamps[|stamps| - 1] <= now
    && (IdleBound(p) ==> idleEnd == stamps[|stamps| - 1] + p.idleMs.value)
  }

  ghost predicate UpstreamHeld(r: Request) {
    r.phase.Forwarding? || r.phase.Closing?
  }

  /** The most that a request may keep reachable: its own body and, once there is a response, the response's. */
  ghost function Allowance(r: Request): nat {
    if !r.owns || r.phase.Released? then 0
    else r.policy.maxBytes + (if r.incoming.NotCreated? then 0 else MAX_UPSTREAM_BODY_BYTES)
  }

  ghost predicate Ownership(r: Request) {
    && (r.outgoing.NotCreated? ==> r.incoming.NotCreated?)
    && (r.outgoing.Open? || r.incoming.Open? ==> UpstreamHeld(r))
    && (UpstreamHeld(r) ==> !r.outgoing.NotCreated?)
    && (r.phase.Settling? || r.phase.Receiving? || r.phase.Ready? ==> r.outgoing.NotCreated?)
    && (!r.owns ==> (r.phase.Finalizing? || r.phase.Released?) && r.outgoing.NotCreated?)
    && (r.phase.Released? ==> r.requestClosed && r.socketClosed)
    && r.retained <= Allowance(r)
  }

  /** `body` is the whole of a stream with the length that the headers declare. */
  ghost predicate Whole(headers: seq<Header>, p: Policy, count: nat, stream: seq<StreamEvent>, body: seq<byte>) {
    && SourceBodyLength(headers, p) == Accepted(count)
    && StrictRun(RequestFrame(count), stream) == Done(Resolved(body))
  }

  ghost predicate Unfinished(headers: seq<Header>, p: Policy, count: nat, stream: seq<StreamEvent>) {
    && SourceBodyLength(headers, p) == Accepted(count)
    && StrictRun(RequestFrame(count), stream).Reading?
  }

  ghost predicate SentInTime(p: Policy, startedAt: int, stamps: seq<int>, at: int) {
    stamps != [] && stamps[0] == startedAt && Timely(p, stamps + [at])
  }

  ghost predicate BodyKept(r: Request, now: int) {
    && (r.phase.Receiving? ==> Unfinished(r.headers, r.policy, r.count, r.stream) && !r.aborted)
    && (r.phase.Ready? ==> exists body :: Whole(r.headers, r.policy, r.count, r.stream, body))
    && (r.phase.Receiving? || r.phase.Ready? ==> OnTime(r.policy, r.startedAt, r.stamps, r.idleEnd, now))
    && (!r.outgoing.NotCreated? ==>
          && r.forwarded.Some?
          && Whole(r.headers, r.policy, r.count, r.stream, r.forwarded.value.1)
          && SentInTime(r.policy, r.startedAt, r.stamps, r.forwarded.value.0))
  }

  lemma ArrivingKept(headers: seq<Header>, policy: Policy, trusted: bool, owns: bool, now: int, ordinal: nat,
                     role: Role)
    ensures var r := Arriving(headers, policy, trusted, owns, now, ordinal, role); Ownership(r) && BodyKept(r, now)
  {
    LengthWithinPolicy(headers, policy);
    hide SourceBodyLength;
  }

  lemma LengthWithinPolicy(headers: seq<Header>, policy: Policy)
    ensures SourceBodyLength(headers, policy).Accepted? ==> SourceBodyLength(headers, policy).count <= policy.maxBytes
  {
  }

  lemma LaterKept(r: Request, now: int, later: int)
    requires BodyKept(r, now) && now <= later
    ensures BodyKept(r, later)
  {
    hide SourceBodyLength, Whole, Timely;
  }

  lemma TimelyNext(r: Request, now: int)
    requires OnTime(r.policy, r.startedAt, r.stamps, r.idleEnd, now) && !Expired(r, now)
    ensures Timely(r.policy, r.stamps + [now])
    ensures OnTime(r.policy, r.startedAt, r.stamps + [now], now + IdleSpan(r.policy), now)
    ensures SentInTime(r.policy, r.startedAt, r.stamps, now)
  {
  }

  lemma ReadOn(r: Request, event: StreamEvent)
    requires Unfinished(r.headers, r.policy, r.count, r.stream)
    ensures var p, stream := StrictStep(RequestFrame(r.count), BodyOf(r), event), r.stream + [event];
            && (p.Reading? ==> Unfinished(r.headers, r.policy, r.count, stream))
            && (p.Done? && p.outcome.Resolved? ==> Whole(r.headers, r.policy, r.count, stream, p.outcome.body))
  {
    hide SourceBodyLength, StrictStep;
    assert (r.stream + [event])[..|r.stream|] == r.stream;
  }

  lemma ChunkKept(r: Request, now: int, stream: seq<StreamEvent>)
    requires r.phase.Receiving? && Ownership(r) && BodyKept(r, now)
    requires Unfinished(r.headers, r.policy, r.count, stream)
    ensures var r' := ChunkRead(r, now, stream);
            Ownership(r') && BodyKept(r', now) && r'.owns == r.owns && !r'.phase.Released?
  {
    hide Unfinished, Whole, OnTime, SentInTime;
    if !Expired(r, now) {
      TimelyNext(r, now);
    }
  }

  lemma ReadingEndsKept(r: Request, now: int, stream: seq<StreamEvent>, whole: bool, body: seq<byte>)
    requires r.phase.Receiving? && Ownership(r) && BodyKept(r, now)
    requires whole ==> Whole(r.headers, r.policy, r.count, stream, body)
    ensures var r' := r.(stream := stream, phase := if whole then Ready else Finalizing);
            Ownership(r') && BodyKept(r', now)
  {
    hide Unfinished, Whole, OnTime, SentInTime;
  }

  lemma ReadKept(r: Request, now: int, event: StreamEvent)
    requires r.phase.Receiving? && Ownership(r) && BodyKept(r, now)
    ensures var r' := ReadEvent(r, now, event);
            Ownership(r') && BodyKept(r', now) && r'.owns == r.owns && !r'.phase.Released?
  {
    assert Unfinished(r.headers, r.policy, r.count, r.stream);
    hide StrictStep, BodyOf, Whole, Unfinished, BodyKept, Ownership, ChunkRead, OnTime, SentInTime;
    ReadOn(r, event);
    var p, stream := StrictStep(RequestFrame(r.count), BodyOf(r), event), r.stream + [event];
    if p.Reading? {
      ChunkKept(r, now, stream);
    } else {
      ReadingEndsKept(r, now, stream, p.outcome.Resolved?, if p.outcome.Resolved? then p.outcome.body else []);
    }
  }

  lemma TurnKept(r: Request, now: int, destroyed: bool, fails: bool)
    requires r.phase.Ready? && Ownership(r) && BodyKept(r, now)
    ensures var r' := TakeTurn(r, now, destroyed, fails);
            Ownership(r') && BodyKept(r', now) && r'.owns == r.owns && !r'.phase.Released?
  {
    var body :| Whole(r.headers, r.policy, r.count, r.stream, body);
    assert BodyOf(r) == Done(Resolved(body));
    hide SourceBodyLength, StrictRun, Whole, OnTime, SentInTime;
    if !Expired(r, now) {
      TimelyNext(r, now);
    }
  }

  lemma AbortKept(r: Request, now: int)
    requires Ownership(r) && BodyKept(r, now)
    ensures Ownership(Abort(r)) && BodyKept(Abort(r), now)
    ensures Abort(r).owns == r.owns && Abort(r).phase.Released? == r.phase.Released?
  {
    hide Whole, Unfinished, OnTime, SentInTime;
  }

  lemma TouchKept(r: Request, now: int)
    requires Ownership(r) && BodyKept(r, now) && !r.phase.Receiving? && !r.phase.Ready?
    ensures Ownership(Touch(r, now)) && BodyKept(Touch(r, now), now)
    ensures Touch(r, now).owns == r.owns && Touch(r, now).phase.Released? == r.phase.Released?
  {
    hide Whole, Unfinished, OnTime, SentInTime, Expired;
  }

  /** One request's own events keep what concerns it alone, and never give away or take ownership. */
  lemma LocalKept(r: Request, now: int, e: LocalEvent)
    requires Ownership(r) && BodyKept(r, now)
    ensures var r' := LocalStep(r, now, e);
            Ownership(r') && BodyKept(r', now) && r'.owns == r.owns && r'.phase.Released? == r.phase.Released?
  {
    hide Whole, Unfinished, OnTime, SentInTime, ReadEvent, TakeTurn, Expired, Touch, Abort;
    AbortKept(r, now);
    match e
    case Dropped =>
      if r.phase.Settling? {
        TouchKept(r, now);
      }
    case ResponseArrives =>
      if r.outgoing.Open? && r.incoming.NotCreated? {
        TouchKept(Answering(r), now);
      }
    case ResponseProgress =>
      if r.incoming.Open? {
        TouchKept(r, now);
      }
    case Stream(event) =>
      if r.phase.Receiving? {
        ReadKept(r, now, event);
      }
    case Turn(destroyed, fails) =>
      if r.phase.Ready? {
        TurnKept(r, now, destroyed, fails);
      }
    case _ =>
  }

  /** The request that holds the route. */
  ghost predicate Holds(r: Request) {
    r.owns && !r.phase.Released?
  }

  function Unreleased(requests: seq<Request>): nat {
    if requests == [] then 0
    else Unreleased(requests[..|requests| - 1]) + (if requests[|requests| - 1].phase.Released? then 0 else 1)
  }

  lemma {:induction false} UnreleasedUpdate(requests: seq<Request>, i: nat, r: Request)
    requires i < |requests|
    ensures Unreleased(requests[i := r]) ==
            Unreleased(requests) - (if requests[i].phase.Released? then 0 else 1) + (if r.phase.Released? then 0 else 1)
  {
    var init := requests[..|requests| - 1];
    if i < |init| {
      UnreleasedUpdate(init, i, r);
      assert requests[i := r][..|requests| - 1] == init[i := r];
    } else {
      assert requests[i := r][..|requests| - 1] == init;
    }
  }

  /** The server-wide safety invariant. */
  ghost predicate Safe(s: Server) {
    && (forall i :: 0 <= i < |s.requests| ==> Ownership(s.requests[i]) && BodyKept(s.requests[i], s.now))
    && (forall i, j :: 0 <= i < |s.requests| && 0 <= j < |s.requests| && Holds(s.requests[i]) && Holds(s.requests[j])
          ==> i == j)
    && (s.active <==> exists i :: 0 <= i < |s.requests| && Holds(s.requests[i]))
  }

  lemma ReplaceSafe(s: Server, i: nat, r: Request, active: bool)
    requires Safe(s) && i < |s.requests| && Ownership(r) && BodyKept(r, s.now)
    requires Holds(r) ==> Holds(s.requests[i])
    requires active == (s.active && (Holds(s.requests[i]) ==> Holds(r)))
    ensures Safe(s.(requests := s.requests[i := r], active := active))
  {
    hide Ownership, BodyKept;
    var requests := s.requests[i := r];
    if active {
      var j :| 0 <= j < |s.requests| && Holds(s.requests[j]);
      assert Holds(requests[j]);
    }
    if j :| 0 <= j < |requests| && Holds(requests[j]) {
      assert Holds(s.requests[j]);
    }
  }

  lemma StepSafe(s: Server, e: Event)
    requires Safe(s)
    ensures Safe(Step(s, e))
  {
    hide Ownership, BodyKept, Observe, Admit, Leave, Close, Sender, LocalStep;
    match e
    case Tick(time) =>
      forall i | 0 <= i < |s.requests| && time > s.now
        ensures BodyKept(s.requests[i], time)
      {
        LaterKept(s.requests[i], s.now, time);
      }
    case Arrives(headers, policy, trusted, role) =>
      if !s.diagnostics.closing {
        ArrivesSafe(s, headers, policy, trusted, role);
      }
    case Local(i, event) =>
      if i < |s.requests| {
        LocalKept(s.requests[i], s.now, event);
        ReplaceSafe(s, i, LocalStep(s.requests[i], s.now, event), s.active);
      }
    case SocketCloses(i) =>
      if i < |s.requests| {
        var r := s.requests[i];
        SocketKept(r, s.now);
        ReplaceSafe(s, i, r.(socketClosed := true), s.active);
      }
    case Releases(i) =>
      if i < |s.requests| && CanRelease(s.requests[i]) {
        var r := s.requests[i];
        ReleaseKept(r, s.now);
        ReplaceSafe(s, i, r.(phase := Released, retained := 0), if r.owns then false else s.active);
      }
    case _ =>
  }

  lemma SocketKept(r: Request, now: int)
    requires Ownership(r) && BodyKept(r, now)
    ensures Ownership(r.(socketClosed := true)) && BodyKept(r.(socketClosed := true), now)
  {
    hide Whole, Unfinished, OnTime, SentInTime;
  }

  lemma ReleaseKept(r: Request, now: int)
    requires Ownership(r) && BodyKept(r, now) && CanRelease(r)
    ensures Ownership(r.(phase := Released, retained := 0)) && BodyKept(r.(phase := Released, retained := 0), now)
  {
    hide Whole, Unfinished, OnTime, SentInTime;
  }

  lemma ArrivesSafe(s: Server, headers: seq<Header>, policy: Policy, trusted: bool, role: Role)
    requires Safe(s) && !s.diagnostics.closing
    ensures Safe(Step(s, Arrives(headers, policy, trusted, role)))
  {
    hide Ownership, BodyKept, Observe, Admit, SourceBodyLength;
    var owns := !s.active;
    var r := Arriving(headers, policy, trusted, owns, s.now, Admit(s.diagnostics).ordinal, role);
    ArrivingKept(headers, policy, trusted, owns, s.now, Admit(s.diagnostics).ordinal, role);
    var requests := s.requests + [r];
    assert Holds(r) <==> owns;
    if owns {
      assert Holds(requests[|s.requests|]);
    } else {
      var i :| 0 <= i < |s.requests| && Holds(s.requests[i]);
      assert Holds(requests[i]);
    }
  }

  lemma {:induction false} RunSafe(enabled: bool, events: seq<Event>)
    ensures Safe(Run(enabled, events))
  {
    if events != [] {
      RunSafe(enabled, events[..|events| - 1]);
      hide Safe;
      StepSafe(Run(enabled, events[..|events| - 1]), events[|events| - 1]);
    }
  }

  /**
   Ownership, over every interleaving of any number of requests: the flag is set exactly while one request holds the
   route; at most one outgoing request is open; a request is released only when it, its socket and its upstream objects
   have closed; a request that was turned away does not reach the upstream.
   */
  lemma OneOwner(enabled: bool, events: seq<Event>)
    ensures var s := Run(enabled, events);
            && (s.active <==> exists i :: 0 <= i < |s.requests| && Holds(s.requests[i]))
            && (forall i, j :: 0 <= i < j < |s.requests| ==> !(Holds(s.requests[i]) && Holds(s.requests[j])))
            && (forall i, j :: 0 <= i < j < |s.requests| ==>
                  !(s.requests[i].outgoing.Open? && s.requests[j].outgoing.Open?))
            && (forall i :: 0 <= i < |s.requests| && s.requests[i].phase.Released? ==>
                  && s.requests[i].requestClosed && s.requests[i].socketClosed
                  && !s.requests[i].outgoing.Open? && !s.requests[i].incoming.Open?)
            && (forall i :: 0 <= i < |s.requests| && !s.requests[i].owns ==> s.requests[i].outgoing.NotCreated?)
  {
    RunSafe(enabled, events);
    var s := Run(enabled, events);
    hide Run, BodyKept;
    forall i | 0 <= i < |s.requests|
      ensures s.requests[i].outgoing.Open? ==> Holds(s.requests[i])
    {
      assert Ownership(s.requests[i]);
    }
  }

  function Retained(requests: seq<Request>): nat {
    if requests == [] then 0 else Retained(requests[..|requests| - 1]) + requests[|requests| - 1].retained
  }

  lemma {:induction false} RetainedByHolder(requests: seq<Request>, i: nat)
    requires forall j :: 0 <= j < |requests| && j != i ==> requests[j].retained == 0
    ensures Retained(requests) == if i < |requests| then requests[i].retained else 0
  {
    if requests != [] {
      RetainedByHolder(requests[..|requests| - 1], i);
    }
  }

  /**
   Memory, over every run: all requests together keep no more body bytes reachable than the policy of the one owner
   allows plus one response buffer, and none while the route is free; a request that was turned away keeps none.
   */
  lemma MemoryBounded(enabled: bool, events: seq<Event>)
    ensures var s := Run(enabled, events);
            && (!s.active ==> Retained(s.requests) == 0)
            && (forall i :: 0 <= i < |s.requests| && Holds(s.requests[i]) ==>
                  Retained(s.requests) == s.requests[i].retained
                  <= s.requests[i].policy.maxBytes + MAX_UPSTREAM_BODY_BYTES)
            && (forall i :: 0 <= i < |s.requests| && !s.requests[i].owns ==> s.requests[i].retained == 0)
  {
    RunSafe(enabled, events);
    var s := Run(enabled, events);
    hide Run, BodyKept;
    forall i | 0 <= i < |s.requests|
      ensures s.requests[i].retained <= Allowance(s.requests[i])
    {
      assert Ownership(s.requests[i]);
    }
    if i :| 0 <= i < |s.requests| && Holds(s.requests[i]) {
      RetainedByHolder(s.requests, i);
    } else {
      RetainedByHolder(s.requests, |s.requests|);
    }
  }

  /**
   Nothing is sent upstream before the body is whole and in time: whenever an outgoing request exists, its body is the
   concatenation of chunks that the stream delivered and then ended, complete and without trailers, with exactly the
   length that the headers declare; and from the request's start over every chunk to the outgoing request no two steps
   were an idle limit apart, nor any an absolute limit after the start.
   */
  lemma UpstreamOnlyWholeAndTimely(enabled: bool, events: seq<Event>, i: nat) returns (parts: seq<seq<byte>>)
    requires i < |Run(enabled, events).requests|
    requires !Run(enabled, events).requests[i].outgoing.NotCreated?
    ensures var r := Run(enabled, events).requests[i];
            && r.forwarded.Some?
            && AsEvents(parts) + [End(true, false)] <= r.stream
            && r.forwarded.value.1 == Concat(parts)
            && SourceBodyLength(r.headers, r.policy) == Accepted(|Concat(parts)|)
            && r.stamps != [] && r.stamps[0] == r.startedAt
            && Timely(r.policy, r.stamps + [r.forwarded.value.0])
  {
    RunSafe(enabled, events);
    var s := Run(enabled, events);
    var r := s.requests[i];
    assert BodyKept(r, s.now);
    hide Run, SourceBodyLength;
    var trailers;
    parts, trailers := StrictResolvesOnlyWhole(RequestFrame(r.count), r.stream, r.forwarded.value.1);
  }

  // The route is never lost.

  /** What ends a request's work whatever it is doing: its client goes and what it waits for ends. */
  const WORK_ENDS: seq<LocalEvent> := [ClientGone, DropEnds, Turn(true, false), ExchangeEnds(false)]

  /** What it holds closes. */
  const HOLDINGS_CLOSE: seq<LocalEvent> := [OutgoingCloses, IncomingCloses, UpstreamClosed(false), RequestCloses]

  function LocalRun(r: Request, now: int, events: seq<LocalEvent>): Request
    decreases |events|
  {
    if events == [] then r else LocalRun(LocalStep(r, now, events[0]), now, events[1..])
  }

  function StepAll(s: Server, events: seq<Event>): Server
    decreases |events|
  {
    if events == [] then s else StepAll(Step(s, events[0]), events[1..])
  }

  function At(i: nat, events: seq<LocalEvent>): seq<Event> {
    seq(|events|, k requires 0 <= k < |events| => Local(i, events[k]))
  }

  lemma {:induction false} RunThenStepAll(enabled: bool, events: seq<Event>, more: seq<Event>)
    ensures StepAll(Run(enabled, events), more) == Run(enabled, events + more)
    decreases |more|
  {
    if more == [] {
      assert events + more == events;
    } else {
      var next := events + [more[0]];
      assert next[..|next| - 1] == events;
      RunThenStepAll(enabled, next, more[1..]);
      assert next + more[1..] == events + more;
    }
  }

  lemma {:induction false} LocalRunAt(s: Server, i: nat, events: seq<LocalEvent>)
    requires i < |s.requests|
    ensures StepAll(s, At(i, events)) == s.(requests := s.requests[i := LocalRun(s.requests[i], s.now, events)])
    decreases |events|
  {
    if events == [] {
      assert s.requests[i := s.requests[i]] == s.requests;
    } else {
      assert At(i, events)[1..] == At(i, events[1..]);
      var r := LocalStep(s.requests[i], s.now, events[0]);
      LocalRunAt(s.(requests := s.requests[i := r]), i, events[1..]);
      var r' := LocalRun(r, s.now, events[1..]);
      assert s.requests[i := r][i := r'] == s.requests[i := r'];
    }
  }

  lemma {:induction false} LocalRunSplit(r: Request, now: int, a: seq<LocalEvent>, b: seq<LocalEvent>)
    ensures LocalRun(r, now, a + b) == LocalRun(LocalRun(r, now, a), now, b)
    decreases |a|
  {
    hide LocalStep;
    if a == [] {
      assert a + b == b;
    } else {
      LocalRunSplit(LocalStep(r, now, a[0]), now, a[1..], b);
      assert (a + b)[1..] == a[1..] + b && (a + b)[0] == a[0];
    }
  }

  lemma LocalRunOne(r: Request, now: int, e: LocalEvent, rest: seq<LocalEvent>)
    ensures LocalRun(r, now, [e] + rest) == LocalRun(LocalStep(r, now, e), now, rest)
  {
    hide LocalStep;
    assert ([e] + rest)[1..] == rest;
  }

  lemma WorkEnds(r: Request, now: int)
    requires Ownership(r) && !r.phase.Released?
    ensures var r' := LocalRun(r, now, WORK_ENDS);
            && (r'.phase.Closing? || r'.phase.Responding? || r'.phase.Finalizing?)
            && (r'.phase.Closing? ==> !r'.outgoing.NotCreated?) && r'.owns == r.owns
  {
    hide ReadEvent, Touch, Expired, StrictRun, StrictStep;
    var r1 := LocalStep(r, now, ClientGone);
    var r2 := LocalStep(r1, now, DropEnds);
    var r3 := LocalStep(r2, now, Turn(true, false));
    var r4 := LocalStep(r3, now, ExchangeEnds(false));
    assert r1.owns == r.owns && !r1.phase.Receiving? && !r1.phase.Settling? && !r1.phase.Released?;
    assert UpstreamHeld(r1) ==> !r1.outgoing.NotCreated?;
    assert r2 == r1;
    assert !r3.phase.Ready? && r3.owns == r.owns;
    assert UpstreamHeld(r3) ==> UpstreamHeld(r1) && r3.outgoing == r1.outgoing;
    hide LocalStep;
    LocalRunOne(r, now, ClientGone, [DropEnds, Turn(true, false), ExchangeEnds(false)]);
    LocalRunOne(r1, now, DropEnds, [Turn(true, false), ExchangeEnds(false)]);
    LocalRunOne(r2, now, Turn(true, false), [ExchangeEnds(false)]);
    LocalRunOne(r3, now, ExchangeEnds(false), []);
    assert LocalRun(r, now, WORK_ENDS) == r4;
  }

  lemma ObjectsClose(r: Request, now: int)
    ensures var r' := LocalStep(LocalStep(r, now, OutgoingCloses), now, IncomingCloses);
            && !r'.outgoing.Open? && !r'.incoming.Open? && r'.phase == r.phase && r'.owns == r.owns
            && (!r.outgoing.NotCreated? ==> r'.outgoing.Closed?)
  {
  }

  lemma AnswerCloses(r: Request, now: int)
    requires r.phase.Closing? || r.phase.Responding? || r.phase.Finalizing?
    requires r.phase.Closing? ==> r.outgoing.Closed? && !r.incoming.Open?
    ensures var r' := LocalStep(LocalStep(r, now, UpstreamClosed(false)), now, RequestCloses);
            (r'.phase.Responding? || r'.phase.Finalizing?) && r'.requestClosed && r'.owns == r.owns
  {
  }

  lemma HoldingsClose(r: Request, now: int)
    requires r.phase.Closing? || r.phase.Responding? || r.phase.Finalizing?
    requires r.phase.Closing? ==> !r.outgoing.NotCreated?
    ensures var r' := LocalRun(r, now, HOLDINGS_CLOSE);
            (r'.phase.Responding? || r'.phase.Finalizing?) && r'.requestClosed && r'.owns == r.owns
  {
    hide LocalStep;
    var r1 := LocalStep(r, now, OutgoingCloses);
    var r2 := LocalStep(r1, now, IncomingCloses);
    var r3 := LocalStep(r2, now, UpstreamClosed(false));
    ObjectsClose(r, now);
    AnswerCloses(r2, now);
    LocalRunOne(r, now, OutgoingCloses, [IncomingCloses, UpstreamClosed(false), RequestCloses]);
    LocalRunOne(r1, now, IncomingCloses, [UpstreamClosed(false), RequestCloses]);
    LocalRunOne(r2, now, UpstreamClosed(false), [RequestCloses]);
    LocalRunOne(r3, now, RequestCloses, []);
    assert LocalRun(r, now, HOLDINGS_CLOSE) == LocalStep(r3, now, RequestCloses);
  }

  /** After the endings a request waits for nothing but its socket. */
  lemma EndingsEnd(r: Request, now: int)
    requires Ownership(r) && !r.phase.Released?
    ensures var r' := LocalRun(r, now, WORK_ENDS + HOLDINGS_CLOSE);
            (r'.phase.Responding? || r'.phase.Finalizing?) && r'.requestClosed && r'.owns == r.owns
  {
    hide LocalRun, Ownership;
    LocalRunSplit(r, now, WORK_ENDS, HOLDINGS_CLOSE);
    WorkEnds(r, now);
    HoldingsClose(LocalRun(r, now, WORK_ENDS), now);
  }

  /**
   Wherever the machine stands, the owner can end: with its client gone and what it holds closed, the route is free
   again after finitely many steps, none of them a new request or a timer.
   */
  lemma RouteComesFree(enabled: bool, events: seq<Event>) returns (more: seq<Event>)
    ensures !Run(enabled, events + more).active
    ensures forall k :: 0 <= k < |more| ==> more[k].Local? || more[k].SocketCloses? || more[k].Releases?
  {
    var s := Run(enabled, events);
    RunSafe(enabled, events);
    if !s.active {
      more := [];
      assert events + more == events;
    } else {
      var i :| 0 <= i < |s.requests| && Holds(s.requests[i]);
      var endings := WORK_ENDS + HOLDINGS_CLOSE;
      more := At(i, endings) + SocketAndRelease(i);
      hide Run;
      assert Ownership(s.requests[i]);
      EndingsEnd(s.requests[i], s.now);
      LocalRunAt(s, i, endings);
      var t := StepAll(s, At(i, endings));
      hide Observe, Leave, LocalRun, LocalStep, BodyKept, Ownership;
      StepAllSplit(s, At(i, endings), SocketAndRelease(i));
      FreedAtLast(t, i);
      RunThenStepAll(enabled, events, more);
    }
  }

  function SocketAndRelease(i: nat): seq<Event> {
    [SocketCloses(i), Local(i, AnswerEnds), Releases(i)]
  }

  /** With its socket closed, a request that is answered or done can be released. */
  lemma SocketEndsAnswer(r: Request, now: int)
    requires r.phase.Responding? || r.phase.Finalizing?
    requires r.requestClosed && r.socketClosed
    ensures CanRelease(LocalStep(r, now, AnswerEnds)) && LocalStep(r, now, AnswerEnds).owns == r.owns
  {
  }

  lemma FreedAtLast(t: Server, i: nat)
    requires i < |t.requests| && t.requests[i].requestClosed && t.requests[i].owns
    requires t.requests[i].phase.Responding? || t.requests[i].phase.Finalizing?
    ensures !StepAll(t, SocketAndRelease(i)).active
  {
    hide Observe, Leave, LocalStep, CanRelease, StepAll;
    var r := t.requests[i].(socketClosed := true);
    var u := Step(t, SocketCloses(i));
    assert u.now == t.now && |u.requests| == |t.requests| && u.requests[i] == r;
    SocketEndsAnswer(r, t.now);
    var v := Step(u, Local(i, AnswerEnds));
    assert v.requests[i] == LocalStep(r, t.now, AnswerEnds) && |v.requests| == |t.requests|;
    assert !Step(v, Releases(i)).active;
    hide Step;
    ThreeSteps(t, SocketCloses(i), Local(i, AnswerEnds), Releases(i));
  }

  lemma ThreeSteps(s: Server, a: Event, b: Event, c: Event)
    ensures StepAll(s, [a, b, c]) == Step(Step(Step(s, a), b), c)
  {
    hide Step;
    assert [a, b, c][1..] == [b, c] && [b, c][1..] == [c] && [c][1..] == [];
    assert StepAll(Step(s, a), [b, c]) == StepAll(Step(Step(s, a), b), [c]);
    assert StepAll(Step(Step(s, a), b), [c]) == StepAll(Step(Step(Step(s, a), b), c), []);
  }

  lemma {:induction false} StepAllSplit(s: Server, a: seq<Event>, b: seq<Event>)
    ensures StepAll(s, a + b) == StepAll(StepAll(s, a), b)
    decreases |a|
  {
    if a == [] {
      assert a + b == b;
    } else {
      StepAllSplit(Step(s, a[0]), a[1..], b);
      assert (a + b)[1..] == a[1..] + b;
    }
  }

  // The diagnostics of the route.

  /** Every request has logged a line of its own, so that the numbers of requests never run ahead of those of lines. */
  ghost predicate Paced(d: Diagnostics) {
    d.enabled && !d.overflow ==> d.ordinal <= d.sequence
  }

  ghost predicate LogSafe(s: Server) {
    && Orderly(s.diagnostics)
    && (s.diagnostics.enabled ==> s.diagnostics.handlers == Unreleased(s.requests))
    && Paced(s.diagnostics) && s.diagnostics.ordinal <= MAX_ORDINARY + 1
    && (forall i :: 0 <= i < |s.requests| ==> s.requests[i].ordinal <= s.diagnostics.ordinal)
  }

  lemma {:induction false} UnreleasedPositive(requests: seq<Request>, i: nat)
    requires i < |requests| && !requests[i].phase.Released?
    ensures Unreleased(requests) > 0
  {
    if i < |requests| - 1 {
      UnreleasedPositive(requests[..|requests| - 1], i);
    }
  }

  /** What a request's own events never change. */
  ghost predicate SameIdentity(r: Request, r': Request) {
    && r'.ordinal == r.ordinal && r'.role == r.role && r'.owns == r.owns && r'.socketClosed == r.socketClosed
    && r'.phase.Released? == r.phase.Released?
  }

  lemma TouchKeepsIdentity(r: Request, now: int)
    ensures SameIdentity(r, Abort(r)) && SameIdentity(r, Touch(r, now)) && SameIdentity(r, Touch(Answering(r), now))
  {
    hide Expired;
  }

  lemma ReadKeepsIdentity(r: Request, now: int, event: StreamEvent)
    requires r.phase.Receiving?
    ensures SameIdentity(r, ReadEvent(r, now, event))
  {
    hide Expired, StrictStep, BodyOf;
  }

  lemma TurnKeepsIdentity(r: Request, now: int, destroyed: bool, fails: bool)
    requires r.phase.Ready?
    ensures SameIdentity(r, TakeTurn(r, now, destroyed, fails))
  {
    hide Expired, BodyOf;
  }

  lemma LocalKeepsIdentity(r: Request, now: int, e: LocalEvent)
    ensures SameIdentity(r, LocalStep(r, now, e))
  {
    hide ReadEvent, TakeTurn, Touch, Abort, Answering, Expired;
    TouchKeepsIdentity(r, now);
    match e
    case Stream(event) =>
      if r.phase.Receiving? {
        ReadKeepsIdentity(r, now, event);
      }
    case Turn(destroyed, fails) =>
      if r.phase.Ready? {
        TurnKeepsIdentity(r, now, destroyed, fails);
      }
    case _ =>
  }

  lemma ArrivesLogSafe(s: Server, headers: seq<Header>, policy: Policy, trusted: bool, role: Role)
    requires LogSafe(s) && !s.diagnostics.closing
    ensures LogSafe(Step(s, Arrives(headers, policy, trusted, role)))
    ensures Step(s, Arrives(headers, policy, trusted, role)).diagnostics.enabled == s.diagnostics.enabled
  {
    hide Lifetimes, Numbered, RetireLast, Retired, SourceBodyLength;
    var d := s.diagnostics;
    var admitted := Admit(d);
    assert Orderly(admitted);
    assert d.enabled && !d.overflow ==> admitted.ordinal <= d.sequence + 1;
    hide Orderly;
    ObserveOrderly(admitted, if !s.active then Acquired else Denied, admitted.ordinal, role);
    hide Observe;
    var r := Arriving(headers, policy, trusted, !s.active, s.now, admitted.ordinal, role);
    assert r.ordinal == admitted.ordinal && !r.phase.Released?;
    assert (s.requests + [r])[..|s.requests|] == s.requests;
    hide Arriving;
  }

  lemma StepLogSafe(s: Server, e: Event)
    requires Safe(s) && LogSafe(s)
    ensures LogSafe(Step(s, e))
    ensures Step(s, e).diagnostics.enabled == s.diagnostics.enabled
  {
    hide Lifetimes, Numbered, RetireLast, BodyKept, SourceBodyLength, LocalStep, Observe;
    var d := s.diagnostics;
    match e
    case Arrives(headers, policy, trusted, role) =>
      if !d.closing {
        ArrivesLogSafe(s, headers, policy, trusted, role);
      }
    case Local(i, event) =>
      if i < |s.requests| {
        LocalLogSafe(s, i, event);
      }
    case SenderRecorded(i, plausible) =>
      if i < |s.requests| && s.requests[i].phase.Ready? {
        UnreleasedPositive(s.requests, i);
        SenderOrderly(d, plausible);
      }
    case SocketCloses(i) =>
      if i < |s.requests| && !s.requests[i].socketClosed {
        assert Ownership(s.requests[i]);
        SocketLogSafe(s, i);
      }
    case Releases(i) =>
      if i < |s.requests| && CanRelease(s.requests[i]) {
        ReleaseLogSafe(s, i);
      }
    case ServerCloses =>
      if !d.closing {
        RetireIfDoneOrderly(d.(closing := true));
      }
    case _ =>
  }

  lemma LocalLogSafe(s: Server, i: nat, event: LocalEvent)
    requires LogSafe(s) && i < |s.requests|
    ensures LogSafe(Step(s, Local(i, event)))
  {
    hide LocalStep, Orderly, Unreleased;
    LocalKeepsIdentity(s.requests[i], s.now, event);
    UnreleasedUpdate(s.requests, i, LocalStep(s.requests[i], s.now, event));
  }

  lemma SocketLogSafe(s: Server, i: nat)
    requires LogSafe(s) && i < |s.requests| && !s.requests[i].socketClosed && Ownership(s.requests[i])
    ensures LogSafe(Step(s, SocketCloses(i)))
    ensures Step(s, SocketCloses(i)).diagnostics.enabled == s.diagnostics.enabled
  {
    hide Lifetimes, Numbered, RetireLast;
    var d, r := s.diagnostics, s.requests[i];
    UnreleasedPositive(s.requests, i);
    assert Orderly(d) && (d.enabled ==> !Retired(d.log));
    hide Orderly, Retired, Unreleased;
    ObserveOrderly(d, SocketClosed, r.ordinal, r.role);
    UnreleasedUpdate(s.requests, i, r.(socketClosed := true));
    hide Observe;
  }

  lemma ReleaseLogSafe(s: Server, i: nat)
    requires LogSafe(s) && i < |s.requests| && CanRelease(s.requests[i])
    ensures LogSafe(Step(s, Releases(i)))
    ensures Step(s, Releases(i)).diagnostics.enabled == s.diagnostics.enabled
  {
    hide Lifetimes, Numbered, RetireLast;
    var r := s.requests[i];
    UnreleasedPositive(s.requests, i);
    UnreleasedUpdate(s.requests, i, r.(phase := Released, retained := 0));
    ObserveOrderly(s.diagnostics, OwnerReleased, r.ordinal, r.role);
    var d := if r.owns then Observe(s.diagnostics, OwnerReleased, r.ordinal, r.role) else s.diagnostics;
    hide Retired, Observe;
    if d.enabled {
      RetireIfDoneOrderly(d.(handlers := d.handlers - 1));
    }
  }

  lemma {:induction false} RunLogSafe(enabled: bool, events: seq<Event>)
    ensures LogSafe(Run(enabled, events)) && Run(enabled, events).diagnostics.enabled == enabled
  {
    if events != [] {
      var before := events[..|events| - 1];
      RunSafe(enabled, before);
      RunLogSafe(enabled, before);
      hide Safe, LogSafe;
      StepLogSafe(Run(enabled, before), events[|events| - 1]);
    }
  }

  /**
   Over every run the lifetime lines are numbered 1 to n without a gap, with n at most 513; an overflow line is number
   513, and so the last one; and the call that retires the writer is the last thing the writer hears, at a time when
   the server has closed and every handler has finished.
   */
  lemma LifetimeLinesOrdered(enabled: bool, events: seq<Event>)
    ensures var s := Run(enabled, events);
            var log, lines := s.diagnostics.log, Lifetimes(s.diagnostics.log);
            && Numbered(lines)
            && (forall i :: 0 <= i < |lines| && lines[i].phase.Overflow? ==> lines[i].sequence == 513 == |lines|)
            && (forall i :: 0 <= i < |log| && log[i].Retire? ==> i == |log| - 1)
            && (Retired(log) ==> s.diagnostics.closing && (enabled ==> Unreleased(s.requests) == 0))
  {
    RunLogSafe(enabled, events);
  }

  /**
   As long as no sender record is written, every lifetime line is accepted by the writer unless a native write failed
   before: whatever the native side does in between, its limits are never the reason. The writer may have heard any
   first part of the log.
   */
  lemma LifetimeLinesAccepted(events: seq<Event>, writer: seq<DiagnosticWriter.Event>)
    requires var log := Run(true, events).diagnostics.log;
             (forall i :: 0 <= i < |log| ==> !log[i].SenderLine?) && DiagnosticWriter.Told(writer) <= Spoken(log)
    requires writer != [] && writer[|writer| - 1].Write?
    requires !DiagnosticWriter.Run(DiagnosticWriter.Initial(true), writer[..|writer| - 1]).failed
    ensures DiagnosticWriter.Admits(DiagnosticWriter.Run(DiagnosticWriter.Initial(true), writer[..|writer| - 1]),
                                    writer[|writer| - 1].line)
  {
    RunLogSafe(true, events);
    var d := Run(true, events).diagnostics;
    assert Orderly(d);
    hide *;
    OrderlyFitsWriter(d);
    DiagnosticWriter.AcceptsWithinLimits(Spoken(d.log), writer);
  }
}
