/**
 Requests with a body on all other API routes: at most eight of them hold a body lease at a time, each buffers at
 most one MiB, and a lease is given back exactly once, when everything it pays for has closed.
 */
module GenericLease {
  import opened Common
  import opened BodyReaders

  const MAX_LEASES: nat := 8

  datatype Phase = Reading | Exchanging | Finalizing | Released

  /** `retained` is the size of the body buffer that the lease keeps reachable; `sent` the body given upstream. */
  datatype Request = Request(
    leased: bool,
    declared: Option<nat>,
    phase: Phase,
    deadline: int,
    aborted: bool,
    stream: seq<StreamEvent>,
    retained: nat,
    sent: Option<(int, seq<byte>)>,
    closeSocket: bool,
    requestClosed: bool,
    responseClosed: bool,
    socketClosed: bool)

  datatype Server = Server(now: int, active: int, requests: seq<Request>)

  function BufferSize(declared: Option<nat>): nat {
    if declared.None? then MAX_REQUEST_BODY_BYTES else Min(declared.value, MAX_REQUEST_BODY_BYTES)
  }

  /** The failure path of the handler: the socket must close before the lease goes back. */
  function FailRequest(r: Request): Request {
    r.(phase := Finalizing, closeSocket := true)
  }

  function Arriving(declared: Option<nat>, targetValid: bool, budget: nat, leased: bool, now: int): Request {
    var r := Request(leased, declared, Phase.Reading, now + budget, false, [], 0, None, false, false, false, false);
    if !leased || !targetValid || BoundedStart(declared).Done? then FailRequest(r)
    else r.(retained := BufferSize(declared))
  }

  datatype LocalEvent =
    | DeadlineTimer
    | ClientGone
    | Stream(event: StreamEvent)
    | Fetch(trusted: bool)
    | Answered
    | ExchangeFails
    | RequestCloses
    | ResponseCloses
    | SocketCloses

  /** The abort signal: it stops the reader at once and the exchange when it next looks. */
  function Abort(r: Request): Request {
    var r' := r.(aborted := true);
    if r.phase.Reading? && BoundedRun(r.declared, r.stream).Reading? then FailRequest(r') else r'
  }

  function LocalStep(r: Request, now: int, e: LocalEvent): Request {
    match e
    case DeadlineTimer => if now >= r.deadline && !r.phase.Released? then Abort(r) else r
    case ClientGone => if !r.phase.Released? then Abort(r) else r
    case Stream(event) =>
      if r.phase.Reading? then
        var p := BoundedStep(r.declared, BoundedRun(r.declared, r.stream), event);
        var r' := r.(stream := r.stream + [event]);
        if p.Done? && !p.outcome.Resolved? then FailRequest(r') else r'
      else r
    case Fetch(trusted) =>
      var p := BoundedRun(r.declared, r.stream);
      if r.phase.Reading? && p.Done? then
        if p.outcome.Resolved? && now < r.deadline && !r.aborted && trusted
        then r.(phase := Exchanging, sent := Some((now, p.outcome.body)))
        else FailRequest(r)
      else r
    case Answered =>
      if !r.phase.Exchanging? then r
      else if now < r.deadline && !r.aborted then r.(phase := Finalizing)
      else FailRequest(r.(aborted := true))
    case ExchangeFails => if r.phase.Exchanging? then FailRequest(r) else r
    case RequestCloses => r.(requestClosed := true)
    case ResponseCloses => r.(responseClosed := true)
    case SocketCloses => r.(socketClosed := true)
  }

  datatype Event =
    | Tick(time: int)
    | Arrives(declared: Option<nat>, targetValid: bool, budget: nat)
    | Local(i: nat, event: LocalEvent)
    | Releases(i: nat)

  predicate CanRelease(r: Request) {
    r.phase.Finalizing? && r.requestClosed && r.responseClosed && (r.closeSocket ==> r.socketClosed)
  }

  function Step(s: Server, e: Event): Server {
    match e
    case Tick(time) => if time > s.now then s.(now := time) else s
    case Arrives(declared, targetValid, budget) =>
      var leased := s.active < MAX_LEASES;
      s.(active := if leased then s.active + 1 else s.active,
         requests := s.requests + [Arriving(declared, targetValid, budget, leased, s.now)])
    case Local(i, event) =>
      if i < |s.requests| then s.(requests := s.requests[i := LocalStep(s.requests[i], s.now, event)]) else s
    case Releases(i) =>
      if i < |s.requests| && CanRelease(s.requests[i]) then
        var r := s.requests[i];
        s.(active := if r.leased then s.active - 1 else s.active,
           requests := s.requests[i := r.(phase := Released, retained := 0)])
      else s
  }

  function Run(events: seq<Event>): Server {
    if events == [] then Server(0, 0, []) else Step(Run(events[..|events| - 1]), events[|events| - 1])
  }

  ghost predicate Holds(r: Request) {
    r.leased && !r.phase.Released?
  }

  ghost function Held(requests: seq<Request>): nat {
    if requests == [] then 0
    else Held(requests[..|requests| - 1]) + (if Holds(requests[|requests| - 1]) then 1 else 0)
  }

  function Retained(requests: seq<Request>): nat {
    if requests == [] then 0 else Retained(requests[..|requests| - 1]) + requests[|requests| - 1].retained
  }

  lemma {:induction false} HeldUpdate(requests: seq<Request>, i: nat, r: Request)
    requires i < |requests|
    ensures Held(requests[i := r]) ==
            Held(requests) - (if Holds(requests[i]) then 1 else 0) + (if Holds(r) then 1 else 0)
  {
    var init := requests[..|requests| - 1];
    if i < |init| {
      HeldUpdate(init, i, r);
      assert requests[i := r][..|requests| - 1] == init[i := r];
    } else {
      assert requests[i := r][..|requests| - 1] == init;
    }
  }

  /** What holds of every request by itself. */
  ghost predicate Kept(r: Request) {
    && r.retained <= (if Holds(r) then MAX_REQUEST_BODY_BYTES else 0)
    && (r.phase.Reading? ==>
          && r.leased && r.sent.None?
          && (BoundedRun(r.declared, r.stream).Done? ==> BoundedRun(r.declared, r.stream).outcome.Resolved?))
    && (r.phase.Released? ==> r.requestClosed && r.responseClosed && (r.closeSocket ==> r.socketClosed))
    && (r.sent.Some? ==>
          && r.leased && r.sent.value.0 < r.deadline
          && BoundedRun(r.declared, r.stream) == Done(Resolved(r.sent.value.1)))
  }

  lemma StreamKept(r: Request, now: int, event: StreamEvent)
    requires Kept(r) && r.phase.Reading?
    ensures var r' := LocalStep(r, now, Stream(event)); Kept(r') && Holds(r') == Holds(r)
  {
    assert (r.stream + [event])[..|r.stream|] == r.stream;
    assert BoundedRun(r.declared, r.stream + [event])
           == BoundedStep(r.declared, BoundedRun(r.declared, r.stream), event);
    hide BoundedRun, BoundedStep;
  }

  /** An event of one request keeps what concerns it alone, and its lease. */
  lemma LocalKept(r: Request, now: int, e: LocalEvent)
    requires Kept(r)
    ensures Kept(LocalStep(r, now, e)) && Holds(LocalStep(r, now, e)) == Holds(r)
  {
    hide BoundedRun, BoundedStep;
    match e
    case Stream(event) =>
      if r.phase.Reading? {
        StreamKept(r, now, event);
      }
    case _ =>
  }

  ghost predicate Safe(s: Server) {
    && (forall i :: 0 <= i < |s.requests| ==> Kept(s.requests[i]))
    && s.active == Held(s.requests) <= MAX_LEASES
  }

  lemma StepSafe(s: Server, e: Event)
    requires Safe(s)
    ensures Safe(Step(s, e))
  {
    hide LocalStep, BoundedRun, BoundedStep;
    match e
    case Tick(time) =>
    case Arrives(declared, targetValid, budget) =>
      var r := Arriving(declared, targetValid, budget, s.active < MAX_LEASES, s.now);
      ArrivingKept(declared, targetValid, budget, s.active < MAX_LEASES, s.now);
      hide Kept, Arriving;
      assert (s.requests + [r])[..|s.requests|] == s.requests;
    case Local(i, event) =>
      if i < |s.requests| {
        LocalKept(s.requests[i], s.now, event);
        HeldUpdate(s.requests, i, LocalStep(s.requests[i], s.now, event));
        hide Kept, Holds;
      }
    case Releases(i) =>
      if i < |s.requests| && CanRelease(s.requests[i]) {
        HeldUpdate(s.requests, i, s.requests[i].(phase := Released, retained := 0));
      }
  }

  lemma ArrivingKept(declared: Option<nat>, targetValid: bool, budget: nat, leased: bool, now: int)
    ensures Kept(Arriving(declared, targetValid, budget, leased, now))
    ensures Holds(Arriving(declared, targetValid, budget, leased, now)) == leased
  {
  }

  lemma {:induction false} RunSafe(events: seq<Event>)
    ensures Safe(Run(events))
  {
    if events != [] {
      RunSafe(events[..|events| - 1]);
      hide Safe;
      StepSafe(Run(events[..|events| - 1]), events[|events| - 1]);
    }
  }

  lemma {:induction false} RetainedBound(requests: seq<Request>)
    requires forall i :: 0 <= i < |requests| ==> Kept(requests[i])
    ensures Retained(requests) <= Held(requests) * MAX_REQUEST_BODY_BYTES
  {
    if requests != [] {
      hide BoundedRun;
      RetainedBound(requests[..|requests| - 1]);
      assert Kept(requests[|requests| - 1]);
    }
  }

  /**
   Conservation, over every run: the counter equals the number of leased requests not yet released and never leaves
   0..8; body buffers kept reachable never exceed eight MiB in all, and a request without a lease keeps none.
   */
  lemma LeasesConserved(events: seq<Event>)
    ensures var s := Run(events);
            && s.active == Held(s.requests) && 0 <= s.active <= MAX_LEASES
            && Retained(s.requests) <= MAX_LEASES * MAX_REQUEST_BODY_BYTES
            && (forall i :: 0 <= i < |s.requests| && !Holds(s.requests[i]) ==> s.requests[i].retained == 0)
  {
    RunSafe(events);
    var s := Run(events);
    hide Run, BoundedRun;
    RetainedBound(s.requests);
    forall i | 0 <= i < |s.requests| && !Holds(s.requests[i])
      ensures s.requests[i].retained == 0
    {
      assert Kept(s.requests[i]);
    }
  }

  /**
   One step: the counter goes down by exactly one when a leased request is released, which needs its request and
   response, and after a failure its socket, to have closed; no other event lowers it, and no request is released twice.
   */
  lemma StepReturns(events: seq<Event>, e: Event)
    ensures var s, s' := Run(events), Step(Run(events), e);
            && (s'.active < s.active ==>
                  && e.Releases? && e.i < |s.requests| && s'.active == s.active - 1
                  && s.requests[e.i].leased && CanRelease(s.requests[e.i]) && s'.requests[e.i].phase.Released?)
            && (e.Releases? && e.i < |s.requests| && CanRelease(s.requests[e.i]) ==>
                  s'.active == s.active - (if s.requests[e.i].leased then 1 else 0) && Step(s', e) == s')
            && (forall i :: 0 <= i < |s.requests| && s.requests[i].phase.Released? ==> s'.requests[i].phase.Released?)
  {
    hide Run, BoundedRun, BoundedStep;
  }

  /** Did event number `k` lower the counter? */
  ghost predicate Lowers(events: seq<Event>, k: nat)
    requires k < |events|
  {
    Run(events[..k + 1]).active < Run(events[..k]).active
  }

  /** How often the counter went down. */
  ghost function Returns(events: seq<Event>): nat {
    if events == [] then 0
    else Returns(events[..|events| - 1]) + (if Lowers(events, |events| - 1) then 1 else 0)
  }

  /** How often it went down for request `i`. */
  ghost function ReturnsOf(events: seq<Event>, i: nat): nat {
    if events == [] then 0
    else
      ReturnsOf(events[..|events| - 1], i)
      + (if Lowers(events, |events| - 1) && events[|events| - 1] == Releases(i) then 1 else 0)
  }

  function Leased(requests: seq<Request>): nat {
    if requests == [] then 0
    else Leased(requests[..|requests| - 1]) + (if requests[|requests| - 1].leased then 1 else 0)
  }

  ghost predicate Gone(requests: seq<Request>, i: nat) {
    i < |requests| && requests[i].leased && requests[i].phase.Released?
  }

  lemma {:induction false} LeasedUpdate(requests: seq<Request>, i: nat, r: Request)
    requires i < |requests| && r.leased == requests[i].leased
    ensures Leased(requests[i := r]) == Leased(requests)
  {
    var init := requests[..|requests| - 1];
    if i < |init| {
      LeasedUpdate(init, i, r);
      assert requests[i := r][..|requests| - 1] == init[i := r];
    } else {
      assert requests[i := r][..|requests| - 1] == init;
    }
  }

  ghost predicate SameLease(r: Request, r': Request) {
    r'.leased == r.leased && (r'.phase.Released? <==> r.phase.Released?)
  }

  lemma AbortKeepsLease(r: Request)
    ensures SameLease(r, Abort(r))
    ensures !r.phase.Released? ==> SameLease(r, FailRequest(r))
  {
    hide BoundedRun;
  }

  lemma StreamKeepsLease(r: Request, now: int, event: StreamEvent)
    ensures SameLease(r, LocalStep(r, now, Stream(event)))
  {
    hide BoundedRun, BoundedStep;
  }

  lemma FetchKeepsLease(r: Request, now: int, trusted: bool)
    ensures SameLease(r, LocalStep(r, now, Fetch(trusted)))
  {
    hide BoundedRun, BoundedStep;
  }

  lemma LocalKeepsLease(r: Request, now: int, e: LocalEvent)
    ensures SameLease(r, LocalStep(r, now, e))
  {
    AbortKeepsLease(r);
    AbortKeepsLease(r.(aborted := true));
    hide BoundedRun, BoundedStep, Abort, FailRequest;
    match e
    case Stream(event) => StreamKeepsLease(r, now, event);
    case Fetch(trusted) => FetchKeepsLease(r, now, trusted);
    case _ =>
  }

  /** What one step does to the leases that were ever given, and to those that are gone. */
  ghost predicate LeasesStepped(s: Server, s': Server, returned: bool, e: Event, i: nat) {
    && Leased(s'.requests) - s'.active == Leased(s.requests) - s.active + (if returned then 1 else 0)
    && (Gone(s'.requests, i) <==> Gone(s.requests, i) || (returned && e == Releases(i)))
    && !(Gone(s.requests, i) && returned && e == Releases(i))
  }

  lemma LocalLeases(s: Server, j: nat, event: LocalEvent, i: nat)
    requires j < |s.requests|
    ensures LeasesStepped(s, Step(s, Local(j, event)), false, Local(j, event), i)
  {
    hide LocalStep, Leased;
    LocalKeepsLease(s.requests[j], s.now, event);
    LeasedUpdate(s.requests, j, LocalStep(s.requests[j], s.now, event));
  }

  lemma ReleaseLeases(s: Server, j: nat, i: nat)
    requires j < |s.requests| && CanRelease(s.requests[j])
    ensures LeasesStepped(s, Step(s, Releases(j)), s.requests[j].leased, Releases(j), i)
  {
    hide Leased;
    LeasedUpdate(s.requests, j, s.requests[j].(phase := Released, retained := 0));
  }

  lemma ArriveLeases(s: Server, declared: Option<nat>, targetValid: bool, budget: nat, i: nat)
    ensures var e := Arrives(declared, targetValid, budget); LeasesStepped(s, Step(s, e), false, e, i)
  {
    var r := Arriving(declared, targetValid, budget, s.active < MAX_LEASES, s.now);
    assert r.leased == (s.active < MAX_LEASES) && !r.phase.Released?;
    hide Arriving;
    assert (s.requests + [r])[..|s.requests|] == s.requests;
  }

  lemma StepLeases(s: Server, e: Event, i: nat)
    ensures LeasesStepped(s, Step(s, e), Step(s, e).active < s.active, e, i)
  {
    hide LocalStep, Leased, Gone, Arriving, CanRelease, LeasesStepped;
    match e
    case Tick(_) => NothingReturned(s, Step(s, e), e, i);
    case Arrives(declared, targetValid, budget) => ArriveLeases(s, declared, targetValid, budget, i);
    case Local(j, event) =>
      if j < |s.requests| {
        LocalLeases(s, j, event, i);
      } else {
        NothingReturned(s, Step(s, e), e, i);
      }
    case Releases(j) =>
      if j < |s.requests| && CanRelease(s.requests[j]) {
        ReleaseLeases(s, j, i);
      } else {
        NothingReturned(s, Step(s, e), e, i);
      }
  }

  lemma NothingReturned(s: Server, s': Server, e: Event, i: nat)
    requires s'.requests == s.requests && s'.active == s.active
    ensures LeasesStepped(s, s', false, e, i)
  {
  }

  /**
   Returned once, over every run: the leases ever given are those still counted and those returned; each return is the
   release of a leased request that everything it pays for has closed behind; and a lease is returned exactly once if
   its request was released and not at all before.
   */
  lemma {:induction false} ReturnedOnce(events: seq<Event>, i: nat)
    ensures var s := Run(events);
            && s.active + Returns(events) == Leased(s.requests)
            && ReturnsOf(events, i) == (if Gone(s.requests, i) then 1 else 0)
    ensures forall k :: 0 <= k < |events| ==> (Lowers(events, k) ==> ReleasesLease(events, k))
  {
    if events != [] {
      var before, e := events[..|events| - 1], events[|events| - 1];
      ReturnedOnce(before, i);
      assert Run(events) == Step(Run(before), e);
      assert events[..|events|] == events;
      hide Run, Leased, Gone, Step;
      StepLeases(Run(before), e, i);
      forall k | 0 <= k < |events|
        ensures Lowers(events, k) ==> ReleasesLease(events, k)
      {
        LowersByRelease(events, k);
      }
      hide ReleasesLease;
    }
  }

  /** Event number `k` releases a leased request that everything it pays for has closed behind. */
  ghost predicate ReleasesLease(events: seq<Event>, k: nat)
    requires k < |events|
  {
    var s, e := Run(events[..k]), events[k];
    e.Releases? && e.i < |s.requests| && s.requests[e.i].leased && CanRelease(s.requests[e.i])
  }

  lemma LowersByRelease(events: seq<Event>, k: nat)
    requires k < |events|
    ensures Lowers(events, k) ==> ReleasesLease(events, k)
  {
    assert events[..k + 1] == events[..k] + [events[k]];
    RunMore(events[..k], events[k]);
    hide Run, Step;
    StepReturns(events[..k], events[k]);
  }

  function LocalRun(r: Request, now: int, locals: seq<LocalEvent>): Request {
    if locals == [] then r else LocalStep(LocalRun(r, now, locals[..|locals| - 1]), now, locals[|locals| - 1])
  }

  function At(i: nat, locals: seq<LocalEvent>): seq<Event> {
    seq(|locals|, k requires 0 <= k < |locals| => Local(i, locals[k]))
  }

  lemma RunMore(events: seq<Event>, e: Event)
    ensures Run(events + [e]) == Step(Run(events), e)
  {
    assert (events + [e])[..|events|] == events;
  }

  lemma {:induction false} RunLocals(events: seq<Event>, i: nat, locals: seq<LocalEvent>)
    requires i < |Run(events).requests|
    ensures var s := Run(events);
            Run(events + At(i, locals)) == s.(requests := s.requests[i := LocalRun(s.requests[i], s.now, locals)])
  {
    hide LocalStep, Run;
    if locals == [] {
      assert events + At(i, locals) == events;
      assert Run(events).requests[i := Run(events).requests[i]] == Run(events).requests;
    } else {
      var before, e := locals[..|locals| - 1], locals[|locals| - 1];
      RunLocals(events, i, before);
      assert events + At(i, locals) == (events + At(i, before)) + [Local(i, e)];
      RunMore(events + At(i, before), Local(i, e));
    }
  }

  lemma LocalRunMore(r: Request, now: int, locals: seq<LocalEvent>, e: LocalEvent)
    ensures LocalRun(r, now, locals + [e]) == LocalStep(LocalRun(r, now, locals), now, e)
  {
    hide LocalStep;
    assert (locals + [e])[..|locals|] == locals;
  }

  /** The client goes: the request stops reading, or has its whole body. */
  lemma ClientGoes(r: Request, now: int)
    requires Kept(r) && !r.phase.Released?
    ensures var r' := LocalStep(r, now, ClientGone);
            && r'.leased == r.leased && !r'.phase.Released? && r'.aborted
            && (r'.phase.Reading? ==> BoundedRun(r'.declared, r'.stream).Done?)
  {
    hide BoundedRun, BoundedStep;
  }

  lemma FetchEnds(r: Request, now: int)
    requires !r.phase.Released? && (r.phase.Reading? ==> BoundedRun(r.declared, r.stream).Done?)
    ensures var r' := LocalStep(LocalStep(r, now, Fetch(false)), now, ExchangeFails);
            r'.phase.Finalizing? && r'.leased == r.leased
  {
    hide BoundedRun, BoundedStep;
  }

  lemma WorkEnds(r: Request, now: int)
    requires Kept(r) && !r.phase.Released?
    ensures var r' := LocalStep(LocalStep(LocalStep(r, now, ClientGone), now, Fetch(false)), now, ExchangeFails);
            r'.phase.Finalizing? && r'.leased == r.leased
  {
    hide LocalStep, BoundedRun, Kept;
    ClientGoes(r, now);
    FetchEnds(LocalStep(r, now, ClientGone), now);
  }

  lemma AllCloses(r: Request, now: int)
    requires r.phase.Finalizing?
    ensures var r' := LocalStep(LocalStep(LocalStep(r, now, RequestCloses), now, ResponseCloses), now, SocketCloses);
            CanRelease(r') && r'.leased == r.leased
  {
  }

  lemma Ends(r: Request, now: int) returns (locals: seq<LocalEvent>)
    requires Kept(r) && !r.phase.Released?
    ensures CanRelease(LocalRun(r, now, locals)) && LocalRun(r, now, locals).leased == r.leased
  {
    WorkEnds(r, now);
    AllCloses(LocalStep(LocalStep(LocalStep(r, now, ClientGone), now, Fetch(false)), now, ExchangeFails), now);
    assert LocalRun(r, now, []) == r;
    hide LocalStep, LocalRun, Kept, CanRelease;
    LocalRunMore(r, now, [], ClientGone);
    LocalRunMore(r, now, [] + [ClientGone], Fetch(false));
    LocalRunMore(r, now, [] + [ClientGone] + [Fetch(false)], ExchangeFails);
    locals := [] + [ClientGone] + [Fetch(false)] + [ExchangeFails];
    LocalRunMore(r, now, locals, RequestCloses);
    LocalRunMore(r, now, locals + [RequestCloses], ResponseCloses);
    LocalRunMore(r, now, locals + [RequestCloses] + [ResponseCloses], SocketCloses);
    locals := locals + [RequestCloses] + [ResponseCloses] + [SocketCloses];
  }

  /**
   No lease is lost: wherever the machine stands, a request that has not been released can be, by events of its own
   alone; its lease, if it has one, is then free again, and no other request is touched.
   */
  lemma LeaseComesBack(events: seq<Event>, i: nat) returns (more: seq<Event>)
    requires i < |Run(events).requests| && !Run(events).requests[i].phase.Released?
    ensures forall k :: 0 <= k < |more| ==> (more[k].Local? || more[k].Releases?) && more[k].i == i
    ensures var s, s' := Run(events), Run(events + more);
            && |s'.requests| == |s.requests| && s'.requests[i].phase.Released?
            && s'.active == s.active - (if Holds(s.requests[i]) then 1 else 0)
            && (forall j :: 0 <= j < |s.requests| && j != i ==> s'.requests[j] == s.requests[j])
  {
    RunSafe(events);
    var s := Run(events);
    assert Kept(s.requests[i]);
    hide Run, Kept, CanRelease;
    var locals := Ends(s.requests[i], s.now);
    RunLocals(events, i, locals);
    RunMore(events + At(i, locals), Releases(i));
    more := At(i, locals) + [Releases(i)];
    assert events + more == (events + At(i, locals)) + [Releases(i)];
  }

  /** A body is sent upstream only by a request with a lease, whole, within the limit, and before the deadline. */
  lemma SentWholeAndLeased(events: seq<Event>, i: nat) returns (parts: seq<seq<byte>>, trailers: bool)
    requires i < |Run(events).requests| && Run(events).requests[i].sent.Some?
    ensures var r := Run(events).requests[i];
            && r.leased && r.sent.value.0 < r.deadline
            && AsEvents(parts) + [End(true, trailers)] <= r.stream
            && r.sent.value.1 == Concat(parts) && |Concat(parts)| <= MAX_REQUEST_BODY_BYTES
            && (r.declared.None? || r.declared.value == |Concat(parts)|)
  {
    RunSafe(events);
    var r := Run(events).requests[i];
    assert Kept(r);
    hide Run;
    parts, trailers := BoundedResolvesOnlyWhole(r.declared, r.stream, r.sent.value.1);
  }
}
