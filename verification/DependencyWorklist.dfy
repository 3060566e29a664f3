/**
 The worklist of the automatic layout: it counts, for every visible service, the dependency entries that still wait
 for their service, and gives every service it can resolve a depth.
 */
module DependencyWorklist {
  import opened DependencyGraph

  /** Every service counts the dependency entries that name a pending service. */
  ghost predicate CountsPending(g: Graph, incoming: map<Id, int>, pending: set<Id>) {
    && incoming.Keys == g.Keys
    && (forall v :: v in g ==> incoming[v] == CountIn(g[v], |g[v]|, pending))
  }

  /** `next` lists every dependent of `u` once for each of its dependency entries that names `u`. */
  ghost predicate ListsDependents(g: Graph, next: seq<Id>, u: Id) {
    && (forall k :: 0 <= k < |next| ==> next[k] in g)
    && (forall v :: v in g ==> Times(next, |next|, v) == Times(g[v], |g[v]|, u))
  }

  ghost predicate OutgoingLists(g: Graph, outgoing: map<Id, seq<Id>>) {
    && outgoing.Keys == g.Keys
    && (forall u :: u in g ==> ListsDependents(g, outgoing[u], u))
  }

  ghost predicate ListedFor(g: Graph, entered: map<Id, nat>, outgoing: map<Id, seq<Id>>, u: Id, v: Id)
    requires outgoing.Keys == g.Keys == entered.Keys && u in g && v in g && entered[v] <= |g[v]|
  {
    Times(outgoing[u], |outgoing[u]|, v) == Times(g[v], entered[v], u)
  }

  ghost predicate CountedFor(g: Graph, entered: map<Id, nat>, incoming: map<Id, int>, v: Id)
    requires incoming.Keys == g.Keys == entered.Keys && v in g && entered[v] <= |g[v]|
  {
    incoming[v] == CountIn(g[v], entered[v], g.Keys)
  }

  ghost predicate Inside(g: Graph, next: seq<Id>) {
    forall k :: 0 <= k < |next| ==> next[k] in g
  }

  /** The edge tables once the first `entered[v]` dependency entries of every service `v` are entered. */
  ghost predicate Tables(g: Graph, entered: map<Id, nat>, outgoing: map<Id, seq<Id>>, incoming: map<Id, int>) {
    && outgoing.Keys == g.Keys == incoming.Keys == entered.Keys
    && (forall v :: v in g ==> entered[v] <= |g[v]|)
    && (forall v :: v in g ==> CountedFor(g, entered, incoming, v))
    && (forall u, v :: u in g && v in g ==> ListedFor(g, entered, outgoing, u, v))
    && (forall u :: u in g ==> Inside(g, outgoing[u]))
  }

  lemma TablesStart(g: Graph, outgoing: map<Id, seq<Id>>, incoming: map<Id, int>)
    requires outgoing.Keys == g.Keys == incoming.Keys
    requires forall v :: v in g ==> outgoing[v] == [] && incoming[v] == 0
    ensures Tables(g, map v | v in g :: 0, outgoing, incoming)
  {
  }

  lemma TablesComplete(g: Graph, entered: map<Id, nat>, outgoing: map<Id, seq<Id>>, incoming: map<Id, int>)
    requires Tables(g, entered, outgoing, incoming) && forall v :: v in g ==> entered[v] == |g[v]|
    ensures OutgoingLists(g, outgoing) && CountsPending(g, incoming, g.Keys)
  {
    hide Times, CountIn;
    forall v | v in g
      ensures incoming[v] == CountIn(g[v], |g[v]|, g.Keys)
    {
      assert CountedFor(g, entered, incoming, v);
    }
    forall u | u in g
      ensures ListsDependents(g, outgoing[u], u)
    {
      assert Inside(g, outgoing[u]);
      forall v | v in g
        ensures Times(outgoing[u], |outgoing[u]|, v) == Times(g[v], |g[v]|, u)
      {
        assert ListedFor(g, entered, outgoing, u, v);
      }
    }
  }

  lemma CountAppend(g: Graph, entered: map<Id, nat>, incoming: map<Id, int>, v: Id, w: Id)
    requires incoming.Keys == g.Keys == entered.Keys
    requires v in g && entered[v] < |g[v]| && w in g && entered[w] <= |g[w]| && CountedFor(g, entered, incoming, w)
    ensures CountedFor(g, entered[v := entered[v] + 1],
                       if g[v][entered[v]] in g then incoming[v := incoming[v] + 1] else incoming, w)
  {
  }

  lemma ListedAppend(g: Graph, entered: map<Id, nat>, outgoing: map<Id, seq<Id>>, v: Id, x: Id, w: Id)
    requires outgoing.Keys == g.Keys == entered.Keys
    requires v in g && entered[v] < |g[v]|
    requires x in g && w in g && entered[w] <= |g[w]| && ListedFor(g, entered, outgoing, x, w)
    ensures var u := g[v][entered[v]];
            ListedFor(g, entered[v := entered[v] + 1],
                      if u in g then outgoing[u := outgoing[u] + [v]] else outgoing, x, w)
  {
    TimesAppend(outgoing[x], |outgoing[x]|, v, w);
  }

  lemma EnterEntry(g: Graph, entered: map<Id, nat>, outgoing: map<Id, seq<Id>>, incoming: map<Id, int>, v: Id)
    requires Tables(g, entered, outgoing, incoming) && v in g && entered[v] < |g[v]|
    ensures var u := g[v][entered[v]];
            Tables(g, entered[v := entered[v] + 1],
                   if u in g then outgoing[u := outgoing[u] + [v]] else outgoing,
                   if u in g then incoming[v := incoming[v] + 1] else incoming)
  {
    hide ListedFor, CountedFor;
    var u, entered' := g[v][entered[v]], entered[v := entered[v] + 1];
    var outgoing' := if u in g then outgoing[u := outgoing[u] + [v]] else outgoing;
    var incoming' := if u in g then incoming[v := incoming[v] + 1] else incoming;
    forall x, w | x in g && w in g
      ensures ListedFor(g, entered', outgoing', x, w)
    {
      assert ListedFor(g, entered, outgoing, x, w);
      ListedAppend(g, entered, outgoing, v, x, w);
    }
    forall w | w in g
      ensures CountedFor(g, entered', incoming', w)
    {
      assert CountedFor(g, entered, incoming, w);
      CountAppend(g, entered, incoming, v, w);
    }
    forall x | x in g
      ensures Inside(g, outgoing'[x])
    {
      assert Inside(g, outgoing[x]);
    }
  }

  method EmptyTables(services: seq<Service>) returns (outgoing: map<Id, seq<Id>>, incoming: map<Id, int>)
    ensures forall i :: 0 <= i < |services| ==> services[i].id in outgoing
    ensures forall v :: v in outgoing ==> exists i :: 0 <= i < |services| && services[i].id == v
    ensures incoming.Keys == outgoing.Keys
    ensures forall v :: v in outgoing ==> outgoing[v] == [] && incoming[v] == 0
  {
    outgoing, incoming := map[], map[];
    for i := 0 to |services|
      invariant forall j :: 0 <= j < i ==> services[j].id in outgoing
      invariant forall v :: v in outgoing ==> exists j :: 0 <= j < i && services[j].id == v
      invariant incoming.Keys == outgoing.Keys
      invariant forall v :: v in outgoing ==> outgoing[v] == [] && incoming[v] == 0
    {
      outgoing := outgoing[services[i].id := []];
      incoming := incoming[services[i].id := 0];
    }
  }

  /** All entries of the services before number `i`, and `k` entries of number `i`, are entered. */
  ghost predicate EnteredUpTo(services: seq<Service>, entered: map<Id, nat>, i: nat, k: nat) {
    forall j :: 0 <= j < |services| ==>
      services[j].id in entered
      && entered[services[j].id] == if j < i then |services[j].dependencies| else if j == i then k else 0
  }

  ghost predicate BuildingEdges(services: seq<Service>, g: Graph, entered: map<Id, nat>,
                                outgoing: map<Id, seq<Id>>, incoming: map<Id, int>, i: nat, k: nat)
  {
    UniqueIds(services) && g == GraphOf(services) && Tables(g, entered, outgoing, incoming)
    && EnteredUpTo(services, entered, i, k)
  }

  lemma BuildStep(services: seq<Service>, g: Graph, entered: map<Id, nat>,
                  outgoing: map<Id, seq<Id>>, incoming: map<Id, int>, i: nat, k: nat)
    requires BuildingEdges(services, g, entered, outgoing, incoming, i, k)
    requires i < |services| && k < |services[i].dependencies|
    ensures outgoing.Keys == g.Keys && services[i].id in incoming && services[i].id in entered
    ensures var v, u := services[i].id, services[i].dependencies[k];
            BuildingEdges(services, g, entered[v := entered[v] + 1],
                          if u in g then outgoing[u := outgoing[u] + [v]] else outgoing,
                          if u in g then incoming[v := incoming[v] + 1] else incoming, i, k + 1)
  {
    hide ListedFor, CountedFor, Inside, GraphOf, EnteredUpTo, UniqueIds;
    GraphAt(services, i);
    EnteredStep(services, entered, i, k);
    EnterEntry(g, entered, outgoing, incoming, services[i].id);
  }

  lemma EnteredStep(services: seq<Service>, entered: map<Id, nat>, i: nat, k: nat)
    requires UniqueIds(services) && EnteredUpTo(services, entered, i, k)
    requires i < |services| && k < |services[i].dependencies|
    ensures services[i].id in entered && entered[services[i].id] == k
    ensures EnteredUpTo(services, entered[services[i].id := k + 1], i, k + 1)
  {
    forall j | 0 <= j < |services| && j != i
      ensures services[j].id != services[i].id
    {
    }
  }

  lemma BuildNext(services: seq<Service>, g: Graph, entered: map<Id, nat>,
                  outgoing: map<Id, seq<Id>>, incoming: map<Id, int>, i: nat)
    requires i < |services| && BuildingEdges(services, g, entered, outgoing, incoming, i, |services[i].dependencies|)
    ensures BuildingEdges(services, g, entered, outgoing, incoming, i + 1, 0)
  {
  }

  lemma NothingEntered(services: seq<Service>, entered: map<Id, nat>)
    requires forall i :: 0 <= i < |services| ==> services[i].id in entered
    requires forall v :: v in entered ==> entered[v] == 0
    ensures EnteredUpTo(services, entered, 0, 0)
  {
  }

  lemma BuildStart(services: seq<Service>, g: Graph, outgoing: map<Id, seq<Id>>, incoming: map<Id, int>)
    requires UniqueIds(services) && g == GraphOf(services)
    requires forall i :: 0 <= i < |services| ==> services[i].id in outgoing
    requires forall v :: v in outgoing ==> exists i :: 0 <= i < |services| && services[i].id == v
    requires incoming.Keys == outgoing.Keys
    requires forall v :: v in outgoing ==> outgoing[v] == [] && incoming[v] == 0
    ensures BuildingEdges(services, g, map v | v in g :: 0, outgoing, incoming, 0, 0)
  {
    hide GraphOf, Tables, EnteredUpTo;
    GraphOfUnique(services);
    forall v
      ensures v in outgoing <==> v in g
    {
      if v in g {
        var i :| 0 <= i < |services| && services[i].id == v;
      }
    }
    NothingEntered(services, map v | v in g :: 0);
    TablesStart(g, outgoing, incoming);
  }

  lemma BuildDone(services: seq<Service>, g: Graph, entered: map<Id, nat>,
                  outgoing: map<Id, seq<Id>>, incoming: map<Id, int>)
    requires BuildingEdges(services, g, entered, outgoing, incoming, |services|, 0)
    ensures OutgoingLists(g, outgoing) && CountsPending(g, incoming, g.Keys)
  {
    hide ListedFor, CountedFor, Inside, GraphOf, OutgoingLists, CountsPending;
    GraphOfUnique(services);
    forall v | v in g
      ensures entered[v] == |g[v]|
    {
      var j :| 0 <= j < |services| && services[j].id == v;
    }
    TablesComplete(g, entered, outgoing, incoming);
  }

  /** The edge tables: the dependents of every service, and how many entries each service waits for. */
  method BuildEdges(services: seq<Service>) returns (outgoing: map<Id, seq<Id>>, incoming: map<Id, int>)
    requires UniqueIds(services)
    ensures OutgoingLists(GraphOf(services), outgoing)
    ensures CountsPending(GraphOf(services), incoming, GraphOf(services).Keys)
  {
    hide *;
    ghost var g := GraphOf(services);
    outgoing, incoming := EmptyTables(services);
    ghost var entered: map<Id, nat> := map v | v in g :: 0;
    BuildStart(services, g, outgoing, incoming);
    for i := 0 to |services|
      invariant BuildingEdges(services, g, entered, outgoing, incoming, i, 0)
    {
      var service := services[i];
      for k := 0 to |service.dependencies|
        invariant BuildingEdges(services, g, entered, outgoing, incoming, i, k)
      {
        var dependency := service.dependencies[k];
        BuildStep(services, g, entered, outgoing, incoming, i, k);
        if dependency in outgoing {
          outgoing := outgoing[dependency := outgoing[dependency] + [service.id]];
          incoming := incoming[service.id := incoming[service.id] + 1];
        }
        entered := entered[service.id := entered[service.id] + 1];
      }
      BuildNext(services, g, entered, outgoing, incoming, i);
    }
    BuildDone(services, g, entered, outgoing, incoming);
  }

  ghost predicate NoRepeats(s: seq<Id>) {
    forall i, j :: 0 <= i < j < |s| ==> s[i] != s[j]
  }

  /** The queue holds, once each, the ids that were enqueued and not yet dequeued. */
  ghost predicate Queued(queue: seq<Id>, dequeued: set<Id>, enqueued: set<Id>) {
    && NoRepeats(queue)
    && dequeued <= enqueued
    && (forall v :: v in queue <==> v in enqueued && v !in dequeued)
  }

  /** The ids ever enqueued are exactly those without a pending entry. */
  ghost predicate EnqueuedAtZero(g: Graph, incoming: map<Id, int>, enqueued: set<Id>) {
    && enqueued <= g.Keys == incoming.Keys
    && (forall v :: v in g ==> (v in enqueued <==> incoming[v] == 0))
  }

  ghost predicate Parent(g: Graph, depth: map<Id, int>, processed: set<Id>, u: Id, v: Id)
    requires depth.Keys == g.Keys
  {
    u in processed && Edge(g, u, v) && depth[v] == depth[u] + 1
  }

  /** A depth above zero is one more than the depth of some processed dependency. */
  ghost predicate DepthWitnessed(g: Graph, depth: map<Id, int>, processed: set<Id>) {
    && depth.Keys == g.Keys
    && (forall v :: v in g ==> depth[v] >= 0)
    && (forall v :: v in g && depth[v] > 0 ==> exists u :: Parent(g, depth, processed, u, v))
  }

  ghost predicate DepthGrows(g: Graph, depth: map<Id, int>, processed: set<Id>) {
    && depth.Keys == g.Keys
    && (forall u, v :: u in processed && Edge(g, u, v) ==> depth[u] < depth[v])
  }

  /** The worklist invariant, over the ids dequeued so far. */
  ghost predicate Worklist(g: Graph, queue: seq<Id>, incoming: map<Id, int>, depth: map<Id, int>,
                           dequeued: set<Id>, enqueued: set<Id>)
  {
    && Queued(queue, dequeued, enqueued)
    && CountsPending(g, incoming, g.Keys - (dequeued - {EMPTY_ID}))
    && EnqueuedAtZero(g, incoming, enqueued)
    && DepthWitnessed(g, depth, dequeued - {EMPTY_ID})
    && DepthGrows(g, depth, dequeued - {EMPTY_ID})
  }

  function Max(a: int, b: int): int {
    if a < b then b else a
  }

  /** The counts once the first `k` dependents of `current` have lost one pending entry each. */
  ghost predicate CountsRelaxing(g: Graph, incoming: map<Id, int>, pending: set<Id>, next: seq<Id>, k: nat) {
    && k <= |next|
    && incoming.Keys == g.Keys
    && (forall v :: v in g ==> incoming[v] == CountIn(g[v], |g[v]|, pending) - Times(next, k, v))
  }

  ghost predicate DepthRelaxing(g: Graph, depth: map<Id, int>, processed: set<Id>, current: Id,
                                next: seq<Id>, k: nat)
  {
    && k <= |next|
    && current in g
    && DepthWitnessed(g, depth, processed + {current})
    && DepthGrows(g, depth, processed)
    && (forall i :: 0 <= i < k ==> next[i] in g && depth[current] < depth[next[i]])
  }

  /** Everything the loop over `outgoing[current]` keeps. */
  ghost predicate Relaxing(g: Graph, next: seq<Id>, k: nat, current: Id, dequeued: set<Id>, enqueued: set<Id>,
                           queue: seq<Id>, incoming: map<Id, int>, depth: map<Id, int>)
  {
    && ListsDependents(g, next, current)
    && current in dequeued && current != EMPTY_ID
    && Queued(queue, dequeued, enqueued)
    && EnqueuedAtZero(g, incoming, enqueued)
    && CountsRelaxing(g, incoming, g.Keys - (dequeued - {current, EMPTY_ID}), next, k)
    && DepthRelaxing(g, depth, dequeued - {current, EMPTY_ID}, current, next, k)
  }

  lemma RelaxStart(g: Graph, next: seq<Id>, current: Id, queue: seq<Id>, incoming: map<Id, int>, depth: map<Id, int>,
                   dequeued: set<Id>, enqueued: set<Id>)
    requires current != EMPTY_ID && ListsDependents(g, next, current)
    requires Worklist(g, [current] + queue, incoming, depth, dequeued, enqueued)
    ensures current in depth
    ensures Relaxing(g, next, 0, current, dequeued + {current}, enqueued, queue, incoming, depth)
  {
    hide CountIn, Edge, Parent, NoRepeats;
    HeadQueued(current, queue, dequeued, enqueued);
    assert dequeued + {current} - {current, EMPTY_ID} == dequeued - {EMPTY_ID};
    MoreParents(g, depth, dequeued - {EMPTY_ID}, dequeued - {EMPTY_ID} + {current});
  }

  lemma RelaxStep(g: Graph, next: seq<Id>, k: nat, current: Id, queue: seq<Id>, incoming: map<Id, int>,
                  depth: map<Id, int>, dequeued: set<Id>, enqueued: set<Id>)
    requires Relaxing(g, next, k, current, dequeued, enqueued, queue, incoming, depth) && k < |next|
    ensures next[k] in depth && next[k] in incoming && current in depth && next[k] != current
    ensures var incoming' := incoming[next[k] := incoming[next[k]] - 1];
            var ready := incoming'[next[k]] <= 0;
            Relaxing(g, next, k + 1, current, dequeued, if ready then enqueued + {next[k]} else enqueued,
                     if ready then queue + [next[k]] else queue, incoming',
                     depth[next[k] := Max(depth[next[k]], depth[current] + 1)])
  {
    hide CountIn, Times, Edge, Parent, DepthGrows, DepthWitnessed, ListsDependents;
    RelaxCounts(g, incoming, g.Keys - (dequeued - {current, EMPTY_ID}), next, k, current);
    RelaxDepth(g, depth, dequeued - {current, EMPTY_ID}, current, next, k, enqueued);
  }

  /** One dequeued service: every service that lists it loses one pending entry per listing. */
  method Relax(ghost g: Graph, next: seq<Id>, current: Id, queue0: seq<Id>,
               incoming0: map<Id, int>, depth0: map<Id, int>,
               ghost dequeued: set<Id>, ghost enqueued0: set<Id>)
    returns (queue: seq<Id>, incoming: map<Id, int>, depth: map<Id, int>, ghost enqueued: set<Id>)
    requires current != EMPTY_ID && ListsDependents(g, next, current)
    requires Worklist(g, [current] + queue0, incoming0, depth0, dequeued, enqueued0)
    ensures Worklist(g, queue, incoming, depth, dequeued + {current}, enqueued)
  {
    hide *;
    queue, incoming, depth, enqueued := queue0, incoming0, depth0, enqueued0;
    RelaxStart(g, next, current, queue, incoming, depth, dequeued, enqueued);
    var currentDepth := depth[current];
    for k := 0 to |next|
      invariant Relaxing(g, next, k, current, dequeued + {current}, enqueued, queue, incoming, depth)
      invariant current in depth && depth[current] == currentDepth
    {
      var nextId := next[k];
      RelaxStep(g, next, k, current, queue, incoming, depth, dequeued + {current}, enqueued);
      depth := depth[nextId := Max(depth[nextId], currentDepth + 1)];
      incoming := incoming[nextId := incoming[nextId] - 1];
      if incoming[nextId] <= 0 {
        queue := queue + [nextId];
        enqueued := enqueued + {nextId};
      }
    }
    RelaxDone(g, next, current, queue, incoming, depth, dequeued + {current}, enqueued);
  }

  lemma MoreParents(g: Graph, depth: map<Id, int>, processed: set<Id>, processed': set<Id>)
    requires DepthWitnessed(g, depth, processed) && processed <= processed'
    ensures DepthWitnessed(g, depth, processed')
  {
    forall v | v in g && depth[v] > 0
      ensures exists u :: Parent(g, depth, processed', u, v)
    {
      var u :| Parent(g, depth, processed, u, v);
      assert Parent(g, depth, processed', u, v);
    }
  }

  lemma RelaxCounts(g: Graph, incoming: map<Id, int>, pending: set<Id>, next: seq<Id>, k: nat, current: Id)
    requires k < |next| && ListsDependents(g, next, current) && current in pending
    requires CountsRelaxing(g, incoming, pending, next, k)
    ensures next[k] in g && incoming[next[k]] > 0
    ensures CountsRelaxing(g, incoming[next[k] := incoming[next[k]] - 1], pending, next, k + 1)
  {
    var v := next[k];
    CountInRemove(g[v], |g[v]|, pending, current);
    TimesMonotone(next, k + 1, |next|, v);
  }

  lemma ListedIsEdge(g: Graph, next: seq<Id>, current: Id, k: nat)
    requires current in g && k < |next| && ListsDependents(g, next, current)
    ensures Edge(g, current, next[k])
  {
    TimesPositive(next, |next|, next[k]);
    TimesPositive(g[next[k]], |g[next[k]]|, current);
  }

  lemma RaiseGrows(g: Graph, depth: map<Id, int>, processed: set<Id>, v: Id, d: int)
    requires DepthGrows(g, depth, processed) && v in g && v !in processed && depth[v] <= d
    ensures DepthGrows(g, depth[v := d], processed)
  {
    hide Edge;
    assert depth[v := d].Keys == g.Keys;
  }

  lemma RaiseWitnessed(g: Graph, depth: map<Id, int>, processed: set<Id>, v: Id, d: int, parent: Id)
    requires DepthWitnessed(g, depth, processed) && v in g && v !in processed
    requires parent in processed && parent in g && Edge(g, parent, v) && (d == depth[v] || d == depth[parent] + 1)
    ensures DepthWitnessed(g, depth[v := d], processed)
  {
    hide Edge;
    var depth' := depth[v := d];
    assert depth'.Keys == g.Keys;
    forall w | w in g && depth'[w] > 0
      ensures exists u :: Parent(g, depth', processed, u, w)
    {
      if w == v && d != depth[v] {
        assert Parent(g, depth', processed, parent, v);
      } else {
        var u :| Parent(g, depth, processed, u, w);
        assert Parent(g, depth', processed, u, w);
      }
    }
  }

  lemma RelaxDepth(g: Graph, depth: map<Id, int>, processed: set<Id>, current: Id, next: seq<Id>,
                   k: nat, settled: set<Id>)
    requires k < |next| && DepthRelaxing(g, depth, processed, current, next, k) && ListsDependents(g, next, current)
    requires processed + {current} <= settled && next[k] !in settled
    ensures next[k] in depth && current in depth
    ensures DepthRelaxing(g, depth[next[k] := Max(depth[next[k]], depth[current] + 1)], processed, current, next, k + 1)
  {
    var v := next[k];
    ListedIsEdge(g, next, current, k);
    hide Edge, Times, DepthGrows, DepthWitnessed, Parent;
    DepthKeys(g, depth, processed + {current}, current, v);
    var d := Max(depth[v], depth[current] + 1);
    RaiseGrows(g, depth, processed, v, d);
    RaiseWitnessed(g, depth, processed + {current}, v, d, current);
  }

  lemma DepthKeys(g: Graph, depth: map<Id, int>, processed: set<Id>, u: Id, v: Id)
    requires DepthWitnessed(g, depth, processed) && Edge(g, u, v)
    ensures depth.Keys == g.Keys && u in g && v in g && depth[u] >= 0
  {
  }

  lemma RelaxDone(g: Graph, next: seq<Id>, current: Id, queue: seq<Id>, incoming: map<Id, int>, depth: map<Id, int>,
                  dequeued: set<Id>, enqueued: set<Id>)
    requires Relaxing(g, next, |next|, current, dequeued, enqueued, queue, incoming, depth)
    ensures Worklist(g, queue, incoming, depth, dequeued, enqueued)
  {
    hide CountIn, Times, Parent, Queued, EnqueuedAtZero;
    var processed := dequeued - {current, EMPTY_ID};
    assert processed + {current} == dequeued - {EMPTY_ID};
    assert g.Keys - processed - {current} == g.Keys - (dequeued - {EMPTY_ID});
    forall v | v in g
      ensures incoming[v] == CountIn(g[v], |g[v]|, g.Keys - (dequeued - {EMPTY_ID}))
      ensures Edge(g, current, v) ==> depth[current] < depth[v]
    {
      CountInRemove(g[v], |g[v]|, g.Keys - processed, current);
      TimesPositive(g[v], |g[v]|, current);
      TimesPositive(next, |next|, v);
    }
  }

  /** `order` lists the members of `dequeued`, each once. */
  ghost predicate Lists(order: seq<Id>, dequeued: set<Id>) {
    NoRepeats(order) && forall v :: v in order <==> v in dequeued
  }

  /** What the first pass over the services has collected after `i` of them. */
  ghost predicate ReadyUpTo(services: seq<Service>, incoming: map<Id, int>, i: nat, enqueued: set<Id>,
                            depth: map<Id, int>)
  {
    && i <= |services|
    && (forall j :: 0 <= j < |services| ==> services[j].id in incoming)
    && (forall j :: 0 <= j < i ==>
          services[j].id in depth && (services[j].id in enqueued <==> incoming[services[j].id] == 0))
    && (forall v :: v in depth ==> depth[v] == 0 && exists j :: 0 <= j < i && services[j].id == v)
    && (forall v :: v in enqueued ==> v in depth)
  }

  lemma ReadyNext(services: seq<Service>, incoming: map<Id, int>, i: nat, enqueued: set<Id>, depth: map<Id, int>)
    requires UniqueIds(services) && i < |services| && ReadyUpTo(services, incoming, i, enqueued, depth)
    ensures var id := services[i].id;
            && id in incoming && id !in enqueued
            && ReadyUpTo(services, incoming, i + 1, if incoming[id] == 0 then enqueued + {id} else enqueued,
                         depth[id := 0])
  {
    forall v | v in depth
      ensures v != services[i].id && exists j :: 0 <= j < i + 1 && services[j].id == v
    {
      var j :| 0 <= j < i && services[j].id == v;
    }
  }

  lemma ReadyAll(services: seq<Service>, incoming: map<Id, int>, enqueued: set<Id>, depth: map<Id, int>)
    requires UniqueIds(services) && incoming.Keys == GraphOf(services).Keys
    requires ReadyUpTo(services, incoming, |services|, enqueued, depth)
    ensures EnqueuedAtZero(GraphOf(services), incoming, enqueued)
    ensures depth.Keys == GraphOf(services).Keys && forall v :: v in depth ==> depth[v] == 0
  {
    hide GraphOf, UniqueIds;
    GraphOfUnique(services);
    forall v | v in GraphOf(services)
      ensures v in depth && (v in enqueued <==> incoming[v] == 0)
    {
      var j :| 0 <= j < |services| && services[j].id == v;
    }
  }

  lemma ReadyNone(services: seq<Service>, incoming: map<Id, int>)
    requires UniqueIds(services) && incoming.Keys == GraphOf(services).Keys
    ensures ReadyUpTo(services, incoming, 0, {}, map[])
  {
    hide GraphOf;
    GraphOfUnique(services);
  }

  method ReadyServices(services: seq<Service>, ghost g: Graph, incoming: map<Id, int>)
    returns (queue: seq<Id>, depth: map<Id, int>, ghost enqueued: set<Id>)
    requires UniqueIds(services) && g == GraphOf(services) && incoming.Keys == g.Keys
    ensures Queued(queue, {}, enqueued)
    ensures EnqueuedAtZero(g, incoming, enqueued)
    ensures depth.Keys == g.Keys && forall v :: v in depth ==> depth[v] == 0
  {
    hide ReadyUpTo, GraphOf, UniqueIds;
    queue, depth, enqueued := [], map[], {};
    ReadyNone(services, incoming);
    for i := 0 to |services|
      invariant Queued(queue, {}, enqueued)
      invariant ReadyUpTo(services, incoming, i, enqueued, depth)
    {
      var id := services[i].id;
      ReadyNext(services, incoming, i, enqueued, depth);
      if incoming[id] == 0 {
        queue := queue + [id];
        enqueued := enqueued + {id};
      }
      depth := depth[id := 0];
    }
    ReadyAll(services, incoming, enqueued, depth);
  }

  lemma WorklistStart(g: Graph, queue: seq<Id>, incoming: map<Id, int>, depth: map<Id, int>, enqueued: set<Id>)
    requires Queued(queue, {}, enqueued)
    requires CountsPending(g, incoming, g.Keys) && EnqueuedAtZero(g, incoming, enqueued)
    requires depth.Keys == g.Keys && forall v :: v in depth ==> depth[v] == 0
    ensures Worklist(g, queue, incoming, depth, {}, enqueued) && Lists([], {})
  {
    hide CountIn, Edge, Parent, Queued, EnqueuedAtZero;
    assert g.Keys - ({} - {EMPTY_ID}) == g.Keys;
  }

  lemma CountsDomain(g: Graph, incoming: map<Id, int>)
    requires CountsPending(g, incoming, g.Keys)
    ensures incoming.Keys == g.Keys
  {
  }

  lemma DependentsListed(g: Graph, outgoing: map<Id, seq<Id>>, u: Id)
    requires OutgoingLists(g, outgoing) && u in g
    ensures u in outgoing && ListsDependents(g, outgoing[u], u)
  {
  }

  lemma SkipEmptyId(g: Graph, queue: seq<Id>, incoming: map<Id, int>, depth: map<Id, int>,
                    dequeued: set<Id>, enqueued: set<Id>)
    requires Worklist(g, [EMPTY_ID] + queue, incoming, depth, dequeued, enqueued)
    ensures Worklist(g, queue, incoming, depth, dequeued + {EMPTY_ID}, enqueued)
  {
    hide CountsPending, EnqueuedAtZero, DepthWitnessed, DepthGrows;
    assert dequeued + {EMPTY_ID} - {EMPTY_ID} == dequeued - {EMPTY_ID};
    HeadQueued(EMPTY_ID, queue, dequeued, enqueued);
  }

  lemma HeadQueued(current: Id, queue: seq<Id>, dequeued: set<Id>, enqueued: set<Id>)
    requires Queued([current] + queue, dequeued, enqueued)
    ensures current in enqueued && current !in dequeued
    ensures Queued(queue, dequeued + {current}, enqueued)
  {
    assert ([current] + queue)[0] == current;
    assert forall i :: 0 <= i < |queue| ==> queue[i] == ([current] + queue)[i + 1];
    forall v
      ensures v in [current] + queue <==> v == current || v in queue
    {
    }
  }

  lemma ListsOneMore(order: seq<Id>, dequeued: set<Id>, current: Id)
    requires Lists(order, dequeued) && current !in dequeued
    ensures Lists(order + [current], dequeued + {current})
  {
    forall v
      ensures v in order + [current] <==> v in order || v == current
    {
    }
  }

  /** The head of the queue is a visible service that was not dequeued before. */
  lemma HeadIsNew(g: Graph, current: Id, queue: seq<Id>, incoming: map<Id, int>, depth: map<Id, int>,
                  order: seq<Id>, dequeued: set<Id>, enqueued: set<Id>)
    requires Worklist(g, [current] + queue, incoming, depth, dequeued, enqueued) && Lists(order, dequeued)
    ensures current in g && current !in dequeued && |g.Keys - (dequeued + {current})| < |g.Keys - dequeued|
    ensures Lists(order + [current], dequeued + {current})
  {
    hide CountsPending, DepthWitnessed, DepthGrows, NoRepeats;
    HeadQueued(current, queue, dequeued, enqueued);
    assert g.Keys - (dequeued + {current}) == g.Keys - dequeued - {current};
    ListsOneMore(order, dequeued, current);
  }

  lemma WorklistEmpty(g: Graph, incoming: map<Id, int>, depth: map<Id, int>, dequeued: set<Id>, enqueued: set<Id>)
    requires Worklist(g, [], incoming, depth, dequeued, enqueued)
    ensures Worklist(g, [], incoming, depth, dequeued, dequeued)
  {
    hide CountsPending, DepthWitnessed, DepthGrows, NoRepeats;
    forall v | v in enqueued
      ensures v in dequeued
    {
      assert v !in [];
    }
    assert dequeued == enqueued;
  }

  /** The services that the worklist dequeued and did not skip. */
  ghost function Open(g: Graph): set<Id> {
    set u | u in g && !Blocked(g, u) && u != EMPTY_ID
  }

  lemma SettledRanked(g: Graph, incoming: map<Id, int>, depth: map<Id, int>, dequeued: set<Id>)
    requires Worklist(g, [], incoming, depth, dequeued, dequeued)
    ensures Ranked(g, dequeued, depth)
    ensures HeldBack(g, g.Keys - dequeued)
  {
    hide Queued, DepthWitnessed;
    var pending := g.Keys - (dequeued - {EMPTY_ID});
    forall u, v | Edge(g, u, v) && v in dequeued
      ensures u in dequeued && u != EMPTY_ID && depth[u] < depth[v]
    {
      CountInPositive(g[v], |g[v]|, pending);
      assert u !in pending;
    }
    forall v | v in g.Keys - dequeued
      ensures exists u :: Edge(g, u, v) && (u == EMPTY_ID || u in g.Keys - dequeued)
    {
      CountInPositive(g[v], |g[v]|, pending);
      var i :| 0 <= i < |g[v]| && g[v][i] in pending;
      assert Edge(g, g[v][i], v);
    }
  }

  /**
   When the worklist ends, a service still waits for an entry exactly when it is reachable, along at least one
   edge, from a cycle or from the skipped empty id; every other service was dequeued.
   */
  lemma UnresolvedIsBlocked(g: Graph, incoming: map<Id, int>, depth: map<Id, int>, dequeued: set<Id>, v: Id)
    requires Worklist(g, [], incoming, depth, dequeued, dequeued) && v in g
    ensures incoming[v] > 0 <==> Blocked(g, v)
    ensures v in dequeued <==> !Blocked(g, v)
  {
    hide Blocked, Ranked, HeldBack, Queued, DepthWitnessed, DepthGrows;
    SettledRanked(g, incoming, depth, dequeued);
    if v in dequeued {
      SettledIsNotBlocked(g, dequeued, depth, v);
    } else {
      HeldBackIsBlocked(g, g.Keys - dequeued, v);
    }
  }

  /** The entries a service no longer waits for are exactly those that name a processed service. */
  lemma {:induction false} EntriesSplit(entries: seq<Id>, n: nat, visible: set<Id>, processed: set<Id>)
    requires n <= |entries| && processed <= visible
    ensures CountIn(entries, n, visible) == CountIn(entries, n, visible - processed) + CountIn(entries, n, processed)
  {
    if n > 0 {
      EntriesSplit(entries, n - 1, visible, processed);
    }
  }

  lemma {:induction false} DepthAlongWalk(g: Graph, depth: map<Id, int>, processed: set<Id>, v: Id, p: seq<Id>, i: nat)
    requires DepthGrows(g, depth, processed) && WalkTo(g, processed, v, p) && i < |p|
    requires forall u :: u in g ==> depth[u] >= 0
    ensures depth[p[i]] >= i
  {
    if i > 0 {
      DepthAlongWalk(g, depth, processed, v, p, i - 1);
      assert Edge(g, p[i - 1], p[i]);
    }
  }

  lemma {:induction false} WalkOfDepth(g: Graph, depth: map<Id, int>, processed: set<Id>, v: Id) returns (p: seq<Id>)
    requires DepthWitnessed(g, depth, processed) && v in g
    ensures WalkTo(g, processed, v, p) && |p| - 1 == depth[v]
    decreases depth[v]
  {
    if depth[v] == 0 {
      p := [v];
    } else {
      var u :| Parent(g, depth, processed, u, v);
      var q := WalkOfDepth(g, depth, processed, u);
      WalkExtend(g, q, v);
      p := q + [v];
    }
  }

  lemma DepthIsLongest(g: Graph, depth: map<Id, int>, processed: set<Id>, v: Id)
    requires DepthWitnessed(g, depth, processed) && DepthGrows(g, depth, processed) && v in g
    ensures LongestThrough(g, processed, v, depth[v])
  {
    hide DepthGrows, Walk, Through;
    var w := WalkOfDepth(g, depth, processed, v);
    forall p | WalkTo(g, processed, v, p)
      ensures |p| - 1 <= depth[v]
    {
      WalkEnds(g, processed, v, p);
      DepthAlongWalk(g, depth, processed, v, p, |p| - 1);
    }
  }

  lemma WalkEnds(g: Graph, through: set<Id>, v: Id, p: seq<Id>)
    requires WalkTo(g, through, v, p)
    ensures |p| > 0 && p[|p| - 1] == v
  {
  }

  /** Every walk to a resolved service runs through resolved services. */
  lemma ResolvedLongest(g: Graph, depth: map<Id, int>, dequeued: set<Id>, v: Id)
    requires Ranked(g, dequeued, depth) && v in dequeued && LongestThrough(g, dequeued - {EMPTY_ID}, v, depth[v])
    ensures LongestPath(g, v, depth[v])
  {
    var processed, d := dequeued - {EMPTY_ID}, depth[v];
    hide Walk, Ranked;
    forall p | WalkTo(g, g.Keys, v, p)
      ensures WalkTo(g, processed, v, p)
    {
      WalkEnds(g, g.Keys, v, p);
      forall i | 0 <= i < |p| - 1
        ensures p[i] in processed
      {
        WalkIntoSettled(g, dequeued, depth, p, i);
      }
    }
    var p :| WalkTo(g, processed, v, p) && |p| - 1 == d;
    WalkInside(g, p);
    assert WalkTo(g, g.Keys, v, p);
  }

  lemma WalkInside(g: Graph, p: seq<Id>)
    requires Walk(g, p)
    ensures Through(p, g.Keys)
  {
  }

  lemma OpenIsProcessed(g: Graph, incoming: map<Id, int>, depth: map<Id, int>, dequeued: set<Id>)
    requires Worklist(g, [], incoming, depth, dequeued, dequeued)
    ensures Open(g) == dequeued - {EMPTY_ID}
    ensures forall v :: v in g ==> (incoming[v] > 0 <==> Blocked(g, v)) && (v in dequeued <==> !Blocked(g, v))
    ensures dequeued <= g.Keys == incoming.Keys == depth.Keys
  {
    hide Blocked, Queued, DepthWitnessed, DepthGrows;
    DepthDomain(g, incoming, depth, dequeued);
    forall v | v in g
      ensures (incoming[v] > 0 <==> Blocked(g, v)) && (v in dequeued <==> !Blocked(g, v))
    {
      UnresolvedIsBlocked(g, incoming, depth, dequeued, v);
    }
  }

  lemma DepthDomain(g: Graph, incoming: map<Id, int>, depth: map<Id, int>, dequeued: set<Id>)
    requires Worklist(g, [], incoming, depth, dequeued, dequeued)
    ensures depth.Keys == g.Keys == incoming.Keys && forall v :: v in g ==> depth[v] >= 0
    ensures DepthWitnessed(g, depth, dequeued - {EMPTY_ID}) && DepthGrows(g, depth, dequeued - {EMPTY_ID})
  {
  }

  lemma ListedAreUnblocked(g: Graph, incoming: map<Id, int>, depth: map<Id, int>, order: seq<Id>, dequeued: set<Id>)
    requires Worklist(g, [], incoming, depth, dequeued, dequeued) && Lists(order, dequeued)
    ensures forall v :: v in order <==> v in g && !Blocked(g, v)
    ensures forall v :: v in g ==> v in incoming && (incoming[v] > 0 <==> Blocked(g, v))
  {
    hide Worklist, Blocked, NoRepeats, Open;
    OpenIsProcessed(g, incoming, depth, dequeued);
  }

  /**
   Accounting: what a service still waits for, and its entries that name a service the worklist processed, make up all
   its entries, repetitions included; every processed entry was taken off exactly once.
   */
  lemma EntriesAccounted(g: Graph, incoming: map<Id, int>, depth: map<Id, int>, dequeued: set<Id>, v: Id)
    requires Worklist(g, [], incoming, depth, dequeued, dequeued) && v in g
    ensures v in incoming
            && incoming[v] + CountIn(g[v], |g[v]|, Open(g)) == CountIn(g[v], |g[v]|, g.Keys)
  {
    OpenIsProcessed(g, incoming, depth, dequeued);
    hide Open, Blocked, CountIn, Queued, DepthWitnessed, DepthGrows;
    EntriesSplit(g[v], |g[v]|, g.Keys, Open(g));
    assert g.Keys - (dequeued - {EMPTY_ID}) == g.Keys - Open(g);
  }

  /**
   The worklist. `order` is the order in which services leave the queue: each service that is not blocked leaves it
   once, and no other does. In the end the services that still wait for an entry are exactly the blocked ones.
   */
  method ResolveLayers(services: seq<Service>)
    returns (incoming: map<Id, int>, depth: map<Id, int>, ghost order: seq<Id>, ghost dequeued: set<Id>)
    requires UniqueIds(services)
    ensures Worklist(GraphOf(services), [], incoming, depth, dequeued, dequeued)
    ensures Lists(order, dequeued)
    ensures forall v :: v in order <==> v in GraphOf(services) && !Blocked(GraphOf(services), v)
    ensures forall v :: v in GraphOf(services) ==> v in incoming && (incoming[v] > 0 <==> Blocked(GraphOf(services), v))
  {
    hide *;
    ghost var g := GraphOf(services);
    var outgoing;
    outgoing, incoming := BuildEdges(services);
    CountsDomain(g, incoming);
    var queue;
    ghost var enqueued;
    queue, depth, enqueued := ReadyServices(services, g, incoming);
    order, dequeued := [], {};
    WorklistStart(g, queue, incoming, depth, enqueued);
    while queue != []
      invariant Worklist(g, queue, incoming, depth, dequeued, enqueued)
      invariant Lists(order, dequeued)
      decreases |g.Keys - dequeued|
    {
      var current := queue[0];
      assert queue == [current] + queue[1..];
      queue := queue[1..];
      HeadIsNew(g, current, queue, incoming, depth, order, dequeued, enqueued);
      if current != EMPTY_ID {
        DependentsListed(g, outgoing, current);
        var next := outgoing[current];
        queue, incoming, depth, enqueued := Relax(g, next, current, queue, incoming, depth, dequeued, enqueued);
      } else {
        SkipEmptyId(g, queue, incoming, depth, dequeued, enqueued);
      }
      order, dequeued := order + [current], dequeued + {current};
    }
    WorklistEmpty(g, incoming, depth, dequeued, enqueued);
    ListedAreUnblocked(g, incoming, depth, order, dequeued);
  }
}
