/**
 The home dashboard's numbers: services listed once each, the fleet split into buckets, and the ports that running
 services listen on.
 */
module DashboardMetrics {
  import opened Common

  datatype Status = Running | Available | Degraded | OtherStatus

  /** `port` is absent unless it is an integer; `listens` is false for labels that name no service endpoint. */
  datatype Endpoint = Endpoint(port: Option<int>, bind: Option<string>, listens: bool)

  datatype Id = Id(text: string)

  datatype Service = Service(id: Id, name: string, status: Status, endpoints: seq<Endpoint>)

  function IdsOf(services: seq<Service>): set<Id> {
    if services == [] then {} else IdsOf(services[..|services| - 1]) + {services[|services| - 1].id}
  }

  lemma {:induction false} IdsOfMembers(services: seq<Service>, id: Id)
    ensures id in IdsOf(services) <==> exists i :: 0 <= i < |services| && services[i].id == id
  {
    if services != [] {
      IdsOfMembers(services[..|services| - 1], id);
      if i :| 0 <= i < |services| && services[i].id == id {
        assert i < |services| - 1 ==> services[..|services| - 1][i].id == id;
      }
    }
  }

  /** The services with the first record of every id, in order of appearance. */
  function FirstById(services: seq<Service>): seq<Service> {
    if services == [] then []
    else
      var kept, last := FirstById(services[..|services| - 1]), services[|services| - 1];
      if last.id in IdsOf(kept) then kept else kept + [last]
  }

  /** Record number `k` is the first one of its id. */
  ghost predicate FirstAt(all: seq<Service>, k: nat) {
    k < |all| && forall i :: 0 <= i < k ==> all[i].id != all[k].id
  }

  /** `kept` holds the records at the positions `at`, which are the first ones of their ids, all of them, in order. */
  ghost predicate KeptAt(all: seq<Service>, kept: seq<Service>, at: seq<nat>) {
    && |at| == |kept|
    && (forall i, j :: 0 <= i < j < |at| ==> at[i] < at[j])
    && (forall i :: 0 <= i < |at| ==> FirstAt(all, at[i]) && kept[i] == all[at[i]])
    && (forall k :: FirstAt(all, k) ==> k in at)
  }

  ghost predicate FirstRecords(all: seq<Service>, kept: seq<Service>) {
    exists at :: KeptAt(all, kept, at)
  }

  lemma FirstByIdStep(all: seq<Service>, k: nat)
    requires k < |all|
    ensures var kept := FirstById(all[..k]);
            && FirstById(all[..k + 1]) == (if all[k].id in IdsOf(kept) then kept else kept + [all[k]])
            && IdsOf(kept + [all[k]]) == IdsOf(kept) + {all[k].id}
  {
    var kept := FirstById(all[..k]);
    assert all[..k + 1][..k] == all[..k];
    assert (kept + [all[k]])[..|kept|] == kept;
  }

  method KeepFirst(all: seq<Service>) returns (services: seq<Service>)
    ensures services == FirstById(all) && FirstRecords(all, services)
  {
    var seen: set<Id> := {};
    services := [];
    for k := 0 to |all|
      invariant services == FirstById(all[..k])
      invariant seen == IdsOf(services)
    {
      hide FirstById, IdsOf;
      FirstByIdStep(all, k);
      if all[k].id !in seen {
        seen := seen + {all[k].id};
        services := services + [all[k]];
      }
    }
    assert all[..|all|] == all;
    FirstWins(all);
  }

  method ListDashboardServices(favorites: seq<Service>, others: seq<Service>, problems: seq<Service>)
    returns (services: seq<Service>)
    ensures services == FirstById(favorites + others + problems)
    ensures FirstRecords(favorites + others + problems, services)
  {
    services := KeepFirst(favorites + others + problems);
  }

  ghost predicate DistinctIds(services: seq<Service>) {
    forall i, j :: 0 <= i < j < |services| ==> services[i].id != services[j].id
  }

  lemma {:induction false} DistinctCount(services: seq<Service>)
    requires DistinctIds(services)
    ensures |services| == |IdsOf(services)|
  {
    if services != [] {
      var init := services[..|services| - 1];
      DistinctCount(init);
      IdsOfMembers(init, services[|services| - 1].id);
    }
  }

  lemma {:induction false} FirstByIdDistinct(services: seq<Service>)
    ensures DistinctIds(FirstById(services)) && IdsOf(FirstById(services)) == IdsOf(services)
  {
    if services != [] {
      var init, last := services[..|services| - 1], services[|services| - 1];
      FirstByIdDistinct(init);
      var kept := FirstById(init);
      IdsOfMembers(kept, last.id);
      assert (kept + [last])[..|kept|] == kept;
    }
  }

  lemma FirstsBefore(all: seq<Service>, n: nat)
    requires n < |all|
    ensures forall k: nat :: k < n ==> (FirstAt(all, k) <==> FirstAt(all[..n], k))
  {
  }

  /** One more record is dropped if its id is known, and kept, last, if it is not. */
  lemma KeptAtStep(all: seq<Service>, n: nat, kept: seq<Service>, at: seq<nat>)
    requires n + 1 == |all| && KeptAt(all[..n], kept, at)
    ensures FirstAt(all, n) ==> KeptAt(all, kept + [all[n]], at + [n])
    ensures !FirstAt(all, n) ==> KeptAt(all, kept, at)
  {
    FirstsBefore(all, n);
    assert forall i :: 0 <= i < |at| ==> FirstAt(all[..n], at[i]) && at[i] < n && kept[i] == all[at[i]];
    forall k: nat | FirstAt(all, k)
      ensures k in at || k == n
    {
      assert k < n ==> FirstAt(all[..n], k);
    }
    hide FirstAt;
    assert forall i :: 0 <= i < |at| ==> (at + [n])[i] == at[i];
    forall k: nat | FirstAt(all, k)
      ensures k in at + [n]
    {
    }
  }

  /** The record that is kept of an id is the first one, and the kept ones stay in order. */
  lemma {:induction false} FirstWins(all: seq<Service>)
    ensures FirstRecords(all, FirstById(all))
  {
    if all == [] {
      assert KeptAt(all, FirstById(all), []);
    } else {
      var n := |all| - 1;
      FirstWins(all[..n]);
      var kept := FirstById(all[..n]);
      var at :| KeptAt(all[..n], kept, at);
      FirstByIdDistinct(all[..n]);
      NewIffFirst(all, n);
      hide IdsOf, KeptAt, FirstAt;
      KeptAtStep(all, n, kept, at);
    }
  }

  lemma NewIffFirst(all: seq<Service>, n: nat)
    requires n < |all|
    ensures all[n].id !in IdsOf(all[..n]) <==> FirstAt(all, n)
  {
    IdsOfMembers(all[..n], all[n].id);
    hide IdsOf;
    assert forall i :: 0 <= i < n ==> all[..n][i] == all[i];
  }

  /** Listing keeps every id, and each only once. */
  lemma FirstByIdOnce(services: seq<Service>)
    ensures IdsOf(FirstById(services)) == IdsOf(services)
    ensures DistinctIds(FirstById(services)) && |FirstById(services)| == |IdsOf(services)|
  {
    FirstByIdDistinct(services);
    DistinctCount(FirstById(services));
  }

  // The fleet mix.

  datatype Bucket = InRunning | InAvailable | InStopped | InDegraded | InCrashed

  /** A service that the metrics report as crashed counts as crashed whatever its status says. */
  function BucketOf(s: Service, crashed: set<Id>): Bucket {
    if s.id in crashed then InCrashed
    else match s.status
      case Running => InRunning
      case Available => InAvailable
      case Degraded => InDegraded
      case OtherStatus => InStopped
  }

  /** The ids in a bucket. */
  function InBucket(services: seq<Service>, crashed: set<Id>, bucket: Bucket): set<Id> {
    if services == [] then {}
    else
      var last := services[|services| - 1];
      InBucket(services[..|services| - 1], crashed, bucket)
      + (if BucketOf(last, crashed) == bucket then {last.id} else {})
  }

  datatype FleetMix = FleetMix(running: nat, available: nat, stopped: nat, degraded: nat, crashed: nat, total: nat)

  function CountBucket(services: seq<Service>, crashed: set<Id>, bucket: Bucket): nat {
    if services == [] then 0
    else
      CountBucket(services[..|services| - 1], crashed, bucket)
      + (if BucketOf(services[|services| - 1], crashed) == bucket then 1 else 0)
  }

  method CountFleet(services: seq<Service>, crashed: set<Id>) returns (mix: FleetMix)
    ensures mix == FleetMix(CountBucket(services, crashed, InRunning), CountBucket(services, crashed, InAvailable),
                            CountBucket(services, crashed, InStopped), CountBucket(services, crashed, InDegraded),
                            CountBucket(services, crashed, InCrashed), |services|)
  {
    var running, available, stopped, degraded, dead := 0, 0, 0, 0, 0;
    for i := 0 to |services|
      invariant running == CountBucket(services[..i], crashed, InRunning)
      invariant available == CountBucket(services[..i], crashed, InAvailable)
      invariant stopped == CountBucket(services[..i], crashed, InStopped)
      invariant degraded == CountBucket(services[..i], crashed, InDegraded)
      invariant dead == CountBucket(services[..i], crashed, InCrashed)
    {
      var service := services[i];
      assert services[..i + 1][..i] == services[..i];
      if service.id in crashed {
        dead := dead + 1;
        continue;
      }
      if service.status == Running {
        running := running + 1;
        continue;
      }
      if service.status == Available {
        available := available + 1;
        continue;
      }
      if service.status == Degraded {
        degraded := degraded + 1;
        continue;
      }
      stopped := stopped + 1;
    }
    assert services[..|services|] == services;
    mix := FleetMix(running, available, stopped, degraded, dead, |services|);
  }

  lemma {:induction false} CountsDistinct(services: seq<Service>, crashed: set<Id>, bucket: Bucket)
    requires DistinctIds(services)
    ensures CountBucket(services, crashed, bucket) == |InBucket(services, crashed, bucket)|
  {
    if services != [] {
      var init, last := services[..|services| - 1], services[|services| - 1];
      CountsDistinct(init, crashed, bucket);
      InBucketListed(init, crashed, bucket);
      IdsOfMembers(init, last.id);
    }
  }

  lemma {:induction false} InBucketListed(services: seq<Service>, crashed: set<Id>, bucket: Bucket)
    ensures InBucket(services, crashed, bucket) <= IdsOf(services)
    ensures bucket.InCrashed? ==> InBucket(services, crashed, bucket) == IdsOf(services) * crashed
  {
    if services != [] {
      InBucketListed(services[..|services| - 1], crashed, bucket);
    }
  }

  lemma {:induction false} BucketsSum(services: seq<Service>, crashed: set<Id>)
    ensures CountBucket(services, crashed, InRunning) + CountBucket(services, crashed, InAvailable)
            + CountBucket(services, crashed, InStopped) + CountBucket(services, crashed, InDegraded)
            + CountBucket(services, crashed, InCrashed) == |services|
  {
    if services != [] {
      BucketsSum(services[..|services| - 1], crashed);
    }
  }

  /**
   However often a service appears in the summary, the five buckets add up to the number of distinct ids, each bucket
   counts the distinct ids it holds, and the crashed bucket holds exactly the listed ids flagged as crashed.
   */
  lemma FleetConserved(all: seq<Service>, crashed: set<Id>)
    ensures var services := FirstById(all);
            && CountBucket(services, crashed, InRunning) + CountBucket(services, crashed, InAvailable)
               + CountBucket(services, crashed, InStopped) + CountBucket(services, crashed, InDegraded)
               + CountBucket(services, crashed, InCrashed) == |IdsOf(all)|
            && (forall b :: CountBucket(services, crashed, b) == |InBucket(services, crashed, b)|)
            && CountBucket(services, crashed, InCrashed) == |IdsOf(all) * crashed|
  {
    var services := FirstById(all);
    FirstByIdOnce(all);
    BucketsSum(services, crashed);
    hide FirstById;
    forall b
      ensures CountBucket(services, crashed, b) == |InBucket(services, crashed, b)|
    {
      CountsDistinct(services, crashed, b);
    }
    InBucketListed(services, crashed, InCrashed);
  }

  /** The ids of the services that are not reported as crashed and have this status. */
  ghost function WithStatus(services: seq<Service>, crashed: set<Id>, status: Status): set<Id> {
    set s | s in services && s.id !in crashed && s.status == status :: s.id
  }

  lemma {:induction false} BucketsAre(services: seq<Service>, crashed: set<Id>)
    ensures InBucket(services, crashed, InRunning) == WithStatus(services, crashed, Running)
    ensures InBucket(services, crashed, InAvailable) == WithStatus(services, crashed, Available)
    ensures InBucket(services, crashed, InDegraded) == WithStatus(services, crashed, Degraded)
    ensures InBucket(services, crashed, InStopped) == WithStatus(services, crashed, OtherStatus)
  {
    if services != [] {
      var init, last := services[..|services| - 1], services[|services| - 1];
      BucketsAre(init, crashed);
      forall status
        ensures WithStatus(services, crashed, status) ==
                WithStatus(init, crashed, status)
                + (if last.id !in crashed && last.status == status then {last.id} else {})
      {
        StatusStep(services, crashed, status);
      }
      hide WithStatus;
    }
  }

  lemma StatusStep(services: seq<Service>, crashed: set<Id>, status: Status)
    requires services != []
    ensures var init, last := services[..|services| - 1], services[|services| - 1];
            WithStatus(services, crashed, status) ==
            WithStatus(init, crashed, status) + (if last.id !in crashed && last.status == status then {last.id} else {})
  {
    var init, last := services[..|services| - 1], services[|services| - 1];
    assert services == init + [last];
    forall s
      ensures s in services <==> s in init || s == last
    {
    }
  }

  /** What the metrics report of one service. */
  datatype Metrics = Metrics(serviceId: Id, crashedLast: bool, running: Option<bool>)

  function CrashedIds(metrics: seq<Metrics>): (ids: set<Id>)
    ensures forall id :: id in ids <==>
      exists k :: 0 <= k < |metrics| && metrics[k].serviceId == id && metrics[k].crashedLast
                  && metrics[k].running.Some? && !metrics[k].running.value
  {
    set m | m in metrics && m.crashedLast && m.running == Some(false) :: m.serviceId
  }

  /** `metrics` is absent when they could not be fetched. */
  method DeriveFleetMix(favorites: seq<Service>, others: seq<Service>, problems: seq<Service>,
                        metrics: Option<seq<Metrics>>)
    returns (mix: FleetMix)
    ensures var all, crashed := favorites + others + problems, if metrics.Some? then CrashedIds(metrics.value) else {};
            && mix.running == |WithStatus(FirstById(all), crashed, Running)|
            && mix.available == |WithStatus(FirstById(all), crashed, Available)|
            && mix.stopped == |WithStatus(FirstById(all), crashed, OtherStatus)|
            && mix.degraded == |WithStatus(FirstById(all), crashed, Degraded)|
            && mix.crashed == |IdsOf(all) * crashed|
            && mix.running + mix.available + mix.stopped + mix.degraded + mix.crashed == mix.total == |IdsOf(all)|
  {
    ghost var all := favorites + others + problems;
    var services := ListDashboardServices(favorites, others, problems);
    var crashed := if metrics.Some? then CrashedIds(metrics.value) else {};
    mix := CountFleet(services, crashed);
    FirstByIdOnce(all);
    FleetConserved(all, crashed);
    BucketsAre(services, crashed);
  }

  // The listen ports.

  datatype ListenPort = ListenPort(port: int, bind: string, serviceId: Id, serviceName: string)

  predicate OperatorListen(e: Endpoint) {
    e.port.Some? && e.port.value > 0 && e.listens
  }

  function Entry(s: Service, e: Endpoint): ListenPort
    requires OperatorListen(e)
  {
    ListenPort(e.port.value, if e.bind.Some? then e.bind.value else "unknown", s.id, s.name)
  }

  /** What the first `n` endpoints of a service contribute, if it runs. */
  function ServiceListings(s: Service, n: nat): seq<ListenPort>
    requires n <= |s.endpoints|
  {
    if n == 0 || !s.status.Running? then []
    else ServiceListings(s, n - 1) + (if OperatorListen(s.endpoints[n - 1]) then [Entry(s, s.endpoints[n - 1])] else [])
  }

  /** Every operator-facing listen of every running service, in order of appearance. */
  function Listings(services: seq<Service>): seq<ListenPort> {
    if services == [] then []
    else
      var last := services[|services| - 1];
      Listings(services[..|services| - 1]) + ServiceListings(last, |last.endpoints|)
  }

  /** `e` is the first listing of its port. */
  ghost predicate FirstListing(listings: seq<ListenPort>, e: ListenPort) {
    exists k :: 0 <= k < |listings| && listings[k] == e && forall i :: 0 <= i < k ==> listings[i].port != e.port
  }

  ghost predicate StrictlySorted(ports: seq<ListenPort>) {
    forall i, j :: 0 <= i < j < |ports| ==> ports[i].port < ports[j].port
  }

  /** The table of ports: sorted, and holding exactly the first listing of every port. */
  ghost predicate PortTable(listings: seq<ListenPort>, ports: seq<ListenPort>) {
    && StrictlySorted(ports)
    && forall e :: e in ports <==> FirstListing(listings, e)
  }

  function InsertPort(e: ListenPort, ports: seq<ListenPort>): (r: seq<ListenPort>)
    ensures multiset(r) == multiset(ports) + multiset{e}
  {
    if ports == [] || ports[|ports| - 1].port <= e.port then ports + [e]
    else
      assert ports == ports[..|ports| - 1] + [ports[|ports| - 1]];
      InsertPort(e, ports[..|ports| - 1]) + [ports[|ports| - 1]]
  }

  function SortPorts(ports: seq<ListenPort>): (r: seq<ListenPort>)
    ensures multiset(r) == multiset(ports)
  {
    if ports == [] then []
    else
      assert ports == ports[..|ports| - 1] + [ports[|ports| - 1]];
      InsertPort(ports[|ports| - 1], SortPorts(ports[..|ports| - 1]))
  }

  lemma {:induction false} InsertStrict(e: ListenPort, ports: seq<ListenPort>)
    requires StrictlySorted(ports) && forall i :: 0 <= i < |ports| ==> ports[i].port != e.port
    ensures StrictlySorted(InsertPort(e, ports))
  {
    if ports != [] && ports[|ports| - 1].port > e.port {
      var init, last := ports[..|ports| - 1], ports[|ports| - 1];
      InsertStrict(e, init);
      var r := InsertPort(e, init);
      forall i | 0 <= i < |r|
        ensures r[i].port < last.port
      {
        assert r[i] in multiset(r);
        assert r[i] == e || r[i] in init;
      }
    }
  }

  lemma {:induction false} SortStrict(ports: seq<ListenPort>)
    requires forall i, j :: 0 <= i < j < |ports| ==> ports[i].port != ports[j].port
    ensures StrictlySorted(SortPorts(ports))
  {
    if ports != [] {
      var init, last := ports[..|ports| - 1], ports[|ports| - 1];
      SortStrict(init);
      var sorted := SortPorts(init);
      forall i | 0 <= i < |sorted|
        ensures sorted[i].port != last.port
      {
        assert sorted[i] in multiset(sorted);
        assert sorted[i] in init;
      }
      InsertStrict(last, sorted);
    }
  }

  /** The ports collected so far, first listing first. */
  ghost predicate Collected(listings: seq<ListenPort>, entries: seq<ListenPort>, byPort: set<int>) {
    && (forall e :: e in entries <==> FirstListing(listings, e))
    && (forall i, j :: 0 <= i < j < |entries| ==> entries[i].port != entries[j].port)
    && (forall p :: p in byPort <==> exists k :: 0 <= k < |listings| && listings[k].port == p)
  }

  lemma FirstListingAppend(listings: seq<ListenPort>, last: ListenPort, e: ListenPort)
    ensures FirstListing(listings + [last], e) <==>
            || FirstListing(listings, e)
            || (e == last && forall k :: 0 <= k < |listings| ==> listings[k].port != last.port)
  {
    var all := listings + [last];
    if FirstListing(listings, e) {
      var k :| 0 <= k < |listings| && listings[k] == e && forall i :: 0 <= i < k ==> listings[i].port != e.port;
      assert all[k] == e;
    }
    if e == last && forall k :: 0 <= k < |listings| ==> listings[k].port != last.port {
      assert all[|listings|] == e;
    }
    if FirstListing(all, e) {
      var k :| 0 <= k < |all| && all[k] == e && forall i :: 0 <= i < k ==> all[i].port != e.port;
      if k < |listings| {
        assert listings[k] == e;
      }
      assert forall i :: 0 <= i < k ==> all[i] == listings[i];
    }
  }

  lemma CollectOne(listings: seq<ListenPort>, entries: seq<ListenPort>, byPort: set<int>, e: ListenPort)
    requires Collected(listings, entries, byPort)
    ensures Collected(listings + [e], if e.port in byPort then entries else entries + [e], byPort + {e.port})
  {
    var all, entries' := listings + [e], if e.port in byPort then entries else entries + [e];
    forall x
      ensures x in entries' <==> FirstListing(all, x)
    {
      FirstListingAppend(listings, e, x);
    }
    forall p
      ensures p in byPort + {e.port} <==> exists k :: 0 <= k < |all| && all[k].port == p
    {
      if p in byPort {
        var k :| 0 <= k < |listings| && listings[k].port == p;
        assert all[k].port == p;
      }
      assert all[|listings|].port == e.port;
    }
    forall i | 0 <= i < |entries| && e.port !in byPort
      ensures entries[i].port != e.port
    {
      assert entries[i] in entries;
      var k :| 0 <= k < |listings| && listings[k] == entries[i];
      assert listings[k].port in byPort;
    }
  }

  /** Endpoint `k` of service `i` is an operator-facing listen of a running service, and `e` is its entry. */
  ghost predicate ListsAt(services: seq<Service>, i: nat, k: nat, e: ListenPort) {
    && i < |services| && services[i].status == Running && k < |services[i].endpoints|
    && var p := services[i].endpoints[k];
       && p.port == Some(e.port) && e.port > 0 && p.listens
       && e.bind == (if p.bind.Some? then p.bind.value else "unknown")
       && e.serviceId == services[i].id && e.serviceName == services[i].name
  }

  predicate Sooner(i: nat, k: nat, n: nat, m: nat) {
    i < n || (i == n && k < m)
  }

  /** Is the port listed before endpoint `m` of service `n`? */
  ghost predicate TakenBefore(services: seq<Service>, n: nat, m: nat, port: int) {
    exists i: nat, k: nat, e :: Sooner(i, k, n, m) && ListsAt(services, i, k, e) && e.port == port
  }

  /** `e` is the entry of the first endpoint, before endpoint `m` of service `n`, that listens on its port. */
  ghost predicate OwnsPort(services: seq<Service>, n: nat, m: nat, e: ListenPort) {
    exists i: nat, k: nat :: Sooner(i, k, n, m) && ListsAt(services, i, k, e) && !TakenBefore(services, i, k, e.port)
  }

  lemma TakenStep(services: seq<Service>, n: nat, m: nat, port: int)
    ensures TakenBefore(services, n, m + 1, port) <==>
            TakenBefore(services, n, m, port) || exists e :: ListsAt(services, n, m, e) && e.port == port
  {
    hide ListsAt;
    if TakenBefore(services, n, m + 1, port) {
      var i: nat, k: nat, e :| Sooner(i, k, n, m + 1) && ListsAt(services, i, k, e) && e.port == port;
      assert Sooner(i, k, n, m) || (i == n && k == m);
    }
    if TakenBefore(services, n, m, port) {
      var i: nat, k: nat, e :| Sooner(i, k, n, m) && ListsAt(services, i, k, e) && e.port == port;
      assert Sooner(i, k, n, m + 1);
    }
    if e :| ListsAt(services, n, m, e) && e.port == port {
      assert Sooner(n, m, n, m + 1);
    }
  }

  lemma OwnsStep(services: seq<Service>, n: nat, m: nat, e: ListenPort)
    ensures OwnsPort(services, n, m + 1, e) <==>
            OwnsPort(services, n, m, e) || (ListsAt(services, n, m, e) && !TakenBefore(services, n, m, e.port))
  {
    hide ListsAt, TakenBefore;
    if OwnsPort(services, n, m + 1, e) {
      var i: nat, k: nat :| Sooner(i, k, n, m + 1) && ListsAt(services, i, k, e)
        && !TakenBefore(services, i, k, e.port);
      assert Sooner(i, k, n, m) || (i == n && k == m);
    }
    if OwnsPort(services, n, m, e) {
      var i: nat, k: nat :| Sooner(i, k, n, m) && ListsAt(services, i, k, e) && !TakenBefore(services, i, k, e.port);
      assert Sooner(i, k, n, m + 1);
    }
    assert Sooner(n, m, n, m + 1);
  }

  ghost predicate Taken(listings: seq<ListenPort>, port: int) {
    exists j :: 0 <= j < |listings| && listings[j].port == port
  }

  /** The listings so far, endpoint by endpoint, take and own exactly these ports. */
  ghost predicate ListedUpTo(services: seq<Service>, n: nat, m: nat, listings: seq<ListenPort>) {
    && (forall port :: Taken(listings, port) <==> TakenBefore(services, n, m, port))
    && (forall e :: FirstListing(listings, e) <==> OwnsPort(services, n, m, e))
  }

  lemma EntryIs(services: seq<Service>, n: nat, m: nat, e: ListenPort)
    requires n < |services| && m < |services[n].endpoints|
    ensures var s := services[n];
            ListsAt(services, n, m, e) <==>
            s.status.Running? && OperatorListen(s.endpoints[m]) && e == Entry(s, s.endpoints[m])
  {
  }

  lemma EndpointStep(services: seq<Service>, n: nat, m: nat, listings: seq<ListenPort>)
    requires n < |services| && m < |services[n].endpoints| && ListedUpTo(services, n, m, listings)
    ensures var s := services[n];
            var more := if s.status.Running? && OperatorListen(s.endpoints[m]) then [Entry(s, s.endpoints[m])] else [];
            ListedUpTo(services, n, m + 1, listings + more)
  {
    var s := services[n];
    var more := if s.status.Running? && OperatorListen(s.endpoints[m]) then [Entry(s, s.endpoints[m])] else [];
    var all := listings + more;
    hide ListsAt, TakenBefore, OwnsPort, FirstListing, OperatorListen, Entry;
    forall port
      ensures Taken(all, port) <==> TakenBefore(services, n, m + 1, port)
    {
      TakenStep(services, n, m, port);
      PortIn(listings, more, port);
      forall e
        ensures ListsAt(services, n, m, e) <==> more == [e]
      {
        EntryIs(services, n, m, e);
      }
      assert more != [] ==> more == [more[0]];
    }
    forall e
      ensures FirstListing(all, e) <==> OwnsPort(services, n, m + 1, e)
    {
      OwnsStep(services, n, m, e);
      EntryIs(services, n, m, e);
      if more != [] {
        FirstListingAppend(listings, more[0], e);
        assert more == [more[0]];
      } else {
        assert all == listings;
      }
    }
  }

  lemma PortIn(listings: seq<ListenPort>, more: seq<ListenPort>, port: int)
    ensures Taken(listings + more, port) <==> Taken(listings, port) || Taken(more, port)
  {
    var all := listings + more;
    if j :| 0 <= j < |listings| && listings[j].port == port {
      assert all[j].port == port;
    }
    if j :| 0 <= j < |more| && more[j].port == port {
      assert all[|listings| + j].port == port;
    }
    if j :| 0 <= j < |all| && all[j].port == port {
      assert j < |listings| ==> listings[j].port == port;
      assert j >= |listings| ==> more[j - |listings|].port == port;
    }
  }

  lemma {:induction false} ServiceListed(services: seq<Service>, n: nat, m: nat, before: seq<ListenPort>)
    requires n < |services| && m <= |services[n].endpoints| && ListedUpTo(services, n, 0, before)
    ensures ListedUpTo(services, n, m, before + ServiceListings(services[n], m))
  {
    hide ListedUpTo, OperatorListen, Entry;
    if m == 0 {
      assert before + [] == before;
    } else {
      ServiceListed(services, n, m - 1, before);
      EndpointStep(services, n, m - 1, before + ServiceListings(services[n], m - 1));
      var s := services[n];
      var more := if s.status.Running? && OperatorListen(s.endpoints[m - 1]) then [Entry(s, s.endpoints[m - 1])]
                  else [];
      assert !s.status.Running? ==> ServiceListings(s, m - 1) == [] == more;
      assert (before + ServiceListings(s, m - 1)) + more == before + (ServiceListings(s, m - 1) + more);
    }
  }

  /** A service has no endpoints beyond its own. */
  lemma SoonerNext(services: seq<Service>, n: nat, i: nat, k: nat, e: ListenPort)
    requires n < |services| && ListsAt(services, i, k, e)
    ensures Sooner(i, k, n + 1, 0) <==> Sooner(i, k, n, |services[n].endpoints|)
  {
  }

  lemma TakenNext(services: seq<Service>, n: nat, port: int)
    requires n < |services|
    ensures TakenBefore(services, n + 1, 0, port) <==> TakenBefore(services, n, |services[n].endpoints|, port)
  {
    hide ListsAt, Sooner;
    var m := |services[n].endpoints|;
    if TakenBefore(services, n + 1, 0, port) {
      var i: nat, k: nat, e :| Sooner(i, k, n + 1, 0) && ListsAt(services, i, k, e) && e.port == port;
      SoonerNext(services, n, i, k, e);
    }
    if TakenBefore(services, n, m, port) {
      var i: nat, k: nat, e :| Sooner(i, k, n, m) && ListsAt(services, i, k, e) && e.port == port;
      SoonerNext(services, n, i, k, e);
    }
  }

  lemma OwnsNext(services: seq<Service>, n: nat, e: ListenPort)
    requires n < |services|
    ensures OwnsPort(services, n + 1, 0, e) <==> OwnsPort(services, n, |services[n].endpoints|, e)
  {
    hide ListsAt, Sooner, TakenBefore;
    var m := |services[n].endpoints|;
    if OwnsPort(services, n + 1, 0, e) {
      var i: nat, k: nat :| Sooner(i, k, n + 1, 0) && ListsAt(services, i, k, e)
        && !TakenBefore(services, i, k, e.port);
      SoonerNext(services, n, i, k, e);
    }
    if OwnsPort(services, n, m, e) {
      var i: nat, k: nat :| Sooner(i, k, n, m) && ListsAt(services, i, k, e) && !TakenBefore(services, i, k, e.port);
      SoonerNext(services, n, i, k, e);
    }
  }

  lemma NextService(services: seq<Service>, n: nat, listings: seq<ListenPort>)
    requires n < |services| && ListedUpTo(services, n, |services[n].endpoints|, listings)
    ensures ListedUpTo(services, n + 1, 0, listings)
  {
    hide FirstListing, TakenBefore, OwnsPort, Taken;
    forall port
      ensures Taken(listings, port) <==> TakenBefore(services, n + 1, 0, port)
    {
      TakenNext(services, n, port);
    }
    forall e
      ensures FirstListing(listings, e) <==> OwnsPort(services, n + 1, 0, e)
    {
      OwnsNext(services, n, e);
    }
  }

  lemma {:induction false} AllListed(services: seq<Service>, n: nat)
    requires n <= |services|
    ensures ListedUpTo(services, n, 0, Listings(services[..n]))
  {
    if n > 0 {
      AllListed(services, n - 1);
      ServiceListed(services, n - 1, |services[n - 1].endpoints|, Listings(services[..n - 1]));
      assert services[..n][..n - 1] == services[..n - 1];
      hide ListedUpTo, ServiceListings;
      NextService(services, n - 1, Listings(services[..n]));
    }
  }

  /**
   An entry is a first listing if and only if no endpoint before its own, in any running service, listens on its port.
   */
  lemma FirstListingIff(services: seq<Service>, e: ListenPort)
    ensures FirstListing(Listings(services), e) <==> OwnsPort(services, |services|, 0, e)
  {
    AllListed(services, |services|);
    hide FirstListing, OwnsPort, TakenBefore;
    assert services[..|services|] == services;
  }

  method UniqueListenPorts(services: seq<Service>) returns (ports: seq<ListenPort>)
    ensures PortTable(Listings(services), ports)
    ensures StrictlySorted(ports) && forall e :: e in ports <==> OwnsPort(services, |services|, 0, e)
  {
    var entries: seq<ListenPort> := [];
    var byPort: set<int> := {};
    ghost var listings: seq<ListenPort> := [];
    for i := 0 to |services|
      invariant listings == Listings(services[..i])
      invariant Collected(listings, entries, byPort)
    {
      hide Collected;
      var service := services[i];
      assert services[..i + 1][..i] == services[..i];
      ghost var before := listings;
      if service.status.Running? {
        for k := 0 to |service.endpoints|
          invariant listings == before + ServiceListings(service, k)
          invariant Collected(listings, entries, byPort)
        {
          var endpoint := service.endpoints[k];
          if OperatorListen(endpoint) {
            var entry := Entry(service, endpoint);
            CollectOne(listings, entries, byPort, entry);
            listings := listings + [entry];
            if entry.port !in byPort {
              entries := entries + [entry];
            }
            byPort := byPort + {entry.port};
          }
        }
      }
    }
    assert services[..|services|] == services;
    ports := SortPorts(entries);
    TableOf(listings, entries, byPort);
    TableOwners(services, ports);
  }

  lemma TableOf(listings: seq<ListenPort>, entries: seq<ListenPort>, byPort: set<int>)
    requires Collected(listings, entries, byPort)
    ensures PortTable(listings, SortPorts(entries))
  {
    SortStrict(entries);
    forall e
      ensures e in SortPorts(entries) <==> e in entries
    {
      assert e in multiset(SortPorts(entries)) <==> e in multiset(entries);
    }
  }

  lemma TableOwners(services: seq<Service>, ports: seq<ListenPort>)
    requires PortTable(Listings(services), ports)
    ensures StrictlySorted(ports) && forall e :: e in ports <==> OwnsPort(services, |services|, 0, e)
  {
    hide FirstListing, OwnsPort, Listings;
    forall e
      ensures e in ports <==> OwnsPort(services, |services|, 0, e)
    {
      FirstListingIff(services, e);
    }
  }

  /** The table is determined by the listings. */
  lemma {:induction false} TableUnique(listings: seq<ListenPort>, a: seq<ListenPort>, b: seq<ListenPort>)
    requires PortTable(listings, a) && PortTable(listings, b)
    ensures a == b
  {
    SameElementsSorted(a, b);
  }

  lemma {:induction false} SameElementsSorted(a: seq<ListenPort>, b: seq<ListenPort>)
    requires StrictlySorted(a) && StrictlySorted(b) && forall e :: e in a <==> e in b
    ensures a == b
  {
    if a != [] {
      assert a[|a| - 1] in b;
      assert b[|b| - 1] in a;
      var x, y := a[|a| - 1], b[|b| - 1];
      assert x == y;
      var a', b' := a[..|a| - 1], b[..|b| - 1];
      forall e
        ensures e in a' <==> e in b'
      {
        assert a == a' + [x] && b == b' + [y];
        assert e in a <==> e in b;
        assert x !in a' && y !in b';
      }
      SameElementsSorted(a', b');
      assert a == a' + [x] && b == b' + [y];
    } else {
      HeadIn(b);
    }
  }

  lemma HeadIn(ports: seq<ListenPort>)
    ensures ports == [] || ports[0] in ports
  {
  }

  /** Records with the same id are the same record. */
  ghost predicate DuplicatesAgree(services: seq<Service>) {
    forall i, j :: 0 <= i < |services| && 0 <= j < |services| && services[i].id == services[j].id ==>
      services[i] == services[j]
  }

  lemma {:induction false} ListingsInclude(services: seq<Service>, i: nat, e: ListenPort)
    requires i < |services| && e in ServiceListings(services[i], |services[i].endpoints|)
    ensures e in Listings(services)
  {
    if i < |services| - 1 {
      ListingsInclude(services[..|services| - 1], i, e);
    }
  }

  /** Repeating listings that are already there changes no first listing. */
  lemma {:induction false} RepeatedListings(listings: seq<ListenPort>, more: seq<ListenPort>, e: ListenPort)
    requires forall x :: x in more ==> x in listings
    ensures FirstListing(listings + more, e) <==> FirstListing(listings, e)
  {
    if more != [] {
      var init, last := more[..|more| - 1], more[|more| - 1];
      assert more == init + [last];
      RepeatedListings(listings, init, e);
      assert listings + more == (listings + init) + [last];
      FirstListingAppend(listings + init, last, e);
      assert last in listings;
      var k :| 0 <= k < |listings| && listings[k] == last;
      assert (listings + init)[k] == last;
    } else {
      assert listings + more == listings;
    }
  }

  /** The first listings after more of the same are the same. */
  lemma {:induction false} SameFirstAppend(a: seq<ListenPort>, b: seq<ListenPort>, more: seq<ListenPort>, e: ListenPort)
    requires forall x :: FirstListing(a, x) <==> FirstListing(b, x)
    ensures FirstListing(a + more, e) <==> FirstListing(b + more, e)
  {
    if more == [] {
      assert a + more == a && b + more == b;
    } else {
      var init, last := more[..|more| - 1], more[|more| - 1];
      assert a + more == (a + init) + [last] && b + more == (b + init) + [last];
      forall x
        ensures FirstListing(a + init, x) <==> FirstListing(b + init, x)
      {
        SameFirstAppend(a, b, init, x);
      }
      FirstListingAppend(a + init, last, e);
      FirstListingAppend(b + init, last, e);
      SamePorts(a + init, b + init, last.port);
    }
  }

  lemma SamePorts(a: seq<ListenPort>, b: seq<ListenPort>, p: int)
    requires forall x :: FirstListing(a, x) <==> FirstListing(b, x)
    ensures (exists k :: 0 <= k < |a| && a[k].port == p) <==> (exists k :: 0 <= k < |b| && b[k].port == p)
  {
    if k :| 0 <= k < |a| && a[k].port == p {
      var e := FirstOfPort(a, p);
      assert FirstListing(b, e);
    }
    if k :| 0 <= k < |b| && b[k].port == p {
      var e := FirstOfPort(b, p);
      assert FirstListing(a, e);
    }
  }

  lemma {:induction false} FirstOfPort(a: seq<ListenPort>, p: int) returns (e: ListenPort)
    requires exists k :: 0 <= k < |a| && a[k].port == p
    ensures FirstListing(a, e) && e.port == p
  {
    var k :| 0 <= k < |a| && a[k].port == p;
    while exists i :: 0 <= i < k && a[i].port == p
      invariant 0 <= k < |a| && a[k].port == p
      decreases k
    {
      var i :| 0 <= i < k && a[i].port == p;
      k := i;
    }
    e := a[k];
  }

  /** A service that is listed already adds nothing. */
  lemma KnownRepeats(kept: seq<Service>, i: nat, e: ListenPort)
    requires i < |kept|
    ensures var more := ServiceListings(kept[i], |kept[i].endpoints|);
            FirstListing(Listings(kept) + more, e) <==> FirstListing(Listings(kept), e)
  {
    var more := ServiceListings(kept[i], |kept[i].endpoints|);
    hide FirstListing, ServiceListings, Listings;
    forall x | x in more
      ensures x in Listings(kept)
    {
      ListingsInclude(kept, i, x);
    }
    RepeatedListings(Listings(kept), more, e);
  }

  /** A last record whose id is known is one of the kept ones. */
  lemma LastIsKept(services: seq<Service>) returns (i: nat)
    requires services != [] && DuplicatesAgree(services)
    requires services[|services| - 1].id in IdsOf(FirstById(services[..|services| - 1]))
    ensures var kept := FirstById(services[..|services| - 1]); i < |kept| && kept[i] == services[|services| - 1]
  {
    var init, last := services[..|services| - 1], services[|services| - 1];
    var kept := FirstById(init);
    hide FirstById;
    IdsOfMembers(kept, last.id);
    i :| 0 <= i < |kept| && kept[i].id == last.id;
    KeptIsListed(init, i);
    var k :| 0 <= k < |init| && init[k] == kept[i];
    assert services[k] == kept[i];
  }

  lemma LastListings(services: seq<Service>)
    requires services != []
    ensures var init, last := services[..|services| - 1], services[|services| - 1];
            var kept, more := FirstById(init), ServiceListings(last, |last.endpoints|);
            && Listings(services) == Listings(init) + more
            && Listings(FirstById(services)) == Listings(kept) + (if last.id in IdsOf(kept) then [] else more)
  {
    var kept, last := FirstById(services[..|services| - 1]), services[|services| - 1];
    assert (kept + [last])[..|kept|] == kept;
    assert Listings(kept) + [] == Listings(kept);
  }

  lemma AgreeBefore(services: seq<Service>)
    requires services != [] && DuplicatesAgree(services)
    ensures DuplicatesAgree(services[..|services| - 1])
  {
  }

  /**
   When records with the same id agree, listing every service once before collecting ports changes no first listing of
   a port.
   */
  lemma {:induction false} DedupeKeepsPorts(services: seq<Service>, e: ListenPort)
    requires DuplicatesAgree(services)
    ensures FirstListing(Listings(FirstById(services)), e) <==> FirstListing(Listings(services), e)
  {
    if services != [] {
      var init, last := services[..|services| - 1], services[|services| - 1];
      var kept, more := FirstById(init), ServiceListings(last, |last.endpoints|);
      hide FirstById, FirstListing, ServiceListings, Listings, IdsOf, DuplicatesAgree;
      AgreeBefore(services);
      LastListings(services);
      forall x
        ensures FirstListing(Listings(kept), x) <==> FirstListing(Listings(init), x)
      {
        DedupeKeepsPorts(init, x);
      }
      SameFirstAppend(Listings(kept), Listings(init), more, e);
      if last.id in IdsOf(kept) {
        var i := LastIsKept(services);
        KnownRepeats(kept, i, e);
        assert Listings(kept) + [] == Listings(kept);
      }
    } else {
      assert FirstById(services) == services;
    }
  }

  /** The two tables are one. */
  lemma DedupeSameTable(services: seq<Service>, a: seq<ListenPort>, b: seq<ListenPort>)
    requires DuplicatesAgree(services)
    requires PortTable(Listings(FirstById(services)), a) && PortTable(Listings(services), b)
    ensures a == b
  {
    forall e
      ensures FirstListing(Listings(FirstById(services)), e) <==> FirstListing(Listings(services), e)
    {
      DedupeKeepsPorts(services, e);
    }
    hide DuplicatesAgree, FirstListing, Listings, FirstById;
    TableUnique(Listings(services), a, b);
  }

  lemma {:induction false} KeptIsListed(services: seq<Service>, i: nat)
    requires i < |FirstById(services)|
    ensures exists k :: 0 <= k < |services| && services[k] == FirstById(services)[i]
  {
    var init, last := services[..|services| - 1], services[|services| - 1];
    if i < |FirstById(init)| {
      KeptIsListed(init, i);
      var k :| 0 <= k < |init| && init[k] == FirstById(init)[i];
      assert services[k] == FirstById(init)[i];
    } else {
      assert services[|services| - 1] == last;
    }
  }
}
