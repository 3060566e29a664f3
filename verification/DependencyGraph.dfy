/**
 The visible part of the service dependency graph: services, dependency edges, walks and cycles,
 and the facts about walks that the layered layout rests on.
 */
module DependencyGraph {

  /** A service identifier. */
  datatype Id = Id(text: string)

  /** The one identifier that the worklist's test for a missing entry also catches. */
  const EMPTY_ID := Id("")

  /** A visible service. An entry of `dependencies` may repeat and may name an invisible service. */
  datatype Service = Service(id: Id, dependencies: seq<Id>)

  /** Every visible id with its dependency entries. */
  type Graph = map<Id, seq<Id>>

  ghost predicate UniqueIds(services: seq<Service>) {
    forall i, j :: 0 <= i < j < |services| ==> services[i].id != services[j].id
  }

  ghost function GraphOf(services: seq<Service>): Graph {
    if services == [] then map[]
    else GraphOf(services[..|services| - 1])[services[|services| - 1].id := services[|services| - 1].dependencies]
  }

  /** With distinct ids, the graph holds exactly the services, each with its own entries. */
  lemma {:induction false} GraphOfUnique(services: seq<Service>)
    requires UniqueIds(services)
    ensures forall i :: 0 <= i < |services| ==>
      services[i].id in GraphOf(services) && GraphOf(services)[services[i].id] == services[i].dependencies
    ensures forall v :: v in GraphOf(services) ==> exists i :: 0 <= i < |services| && services[i].id == v
  {
    if services != [] {
      var init := services[..|services| - 1];
      GraphOfUnique(init);
      assert services[|services| - 1].id !in GraphOf(init);
      forall v | v in GraphOf(init)
        ensures exists i :: 0 <= i < |services| && services[i].id == v
      {
        var i :| 0 <= i < |init| && init[i].id == v;
        assert services[i].id == v;
      }
    }
  }

  lemma GraphAt(services: seq<Service>, i: nat)
    requires UniqueIds(services) && i < |services|
    ensures services[i].id in GraphOf(services) && GraphOf(services)[services[i].id] == services[i].dependencies
  {
    GraphOfUnique(services);
  }

  /** How many of the first `n` entries are `x`. */
  ghost function Times(entries: seq<Id>, n: nat, x: Id): nat
    requires n <= |entries|
  {
    if n == 0 then 0 else Times(entries, n - 1, x) + (if entries[n - 1] == x then 1 else 0)
  }

  /** How many of the first `n` entries lie in `within`, counted with repetition. */
  ghost function CountIn(entries: seq<Id>, n: nat, within: set<Id>): nat
    requires n <= |entries|
  {
    if n == 0 then 0 else CountIn(entries, n - 1, within) + (if entries[n - 1] in within then 1 else 0)
  }

  lemma {:induction false} TimesAppend(entries: seq<Id>, n: nat, x: Id, y: Id)
    requires n <= |entries|
    ensures Times(entries + [x], n, y) == Times(entries, n, y)
  {
    if n > 0 {
      TimesAppend(entries, n - 1, x, y);
    }
  }

  lemma {:induction false} TimesMonotone(entries: seq<Id>, m: nat, n: nat, x: Id)
    requires m <= n <= |entries|
    ensures Times(entries, m, x) <= Times(entries, n, x)
    decreases n
  {
    if m < n {
      TimesMonotone(entries, m, n - 1, x);
    }
  }

  lemma {:induction false} TimesPositive(entries: seq<Id>, n: nat, x: Id)
    requires n <= |entries|
    ensures Times(entries, n, x) > 0 <==> exists i :: 0 <= i < n && entries[i] == x
  {
    if n > 0 {
      TimesPositive(entries, n - 1, x);
    }
  }

  lemma {:induction false} CountInRemove(entries: seq<Id>, n: nat, within: set<Id>, u: Id)
    requires n <= |entries| && u in within
    ensures CountIn(entries, n, within) == CountIn(entries, n, within - {u}) + Times(entries, n, u)
  {
    if n > 0 {
      CountInRemove(entries, n - 1, within, u);
    }
  }

  lemma {:induction false} CountInPositive(entries: seq<Id>, n: nat, within: set<Id>)
    requires n <= |entries|
    ensures CountIn(entries, n, within) > 0 <==> exists i :: 0 <= i < n && entries[i] in within
  {
    if n > 0 {
      CountInPositive(entries, n - 1, within);
    }
  }

  /** An edge runs from a dependency to the service that depends on it. */
  ghost predicate Edge(g: Graph, u: Id, v: Id) {
    u in g && v in g && u in g[v]
  }

  /** A walk along edges, dependency first; a single service is a walk of no edges. */
  ghost predicate Walk(g: Graph, p: seq<Id>) {
    && |p| > 0
    && (forall i :: 0 <= i < |p| ==> p[i] in g)
    && (forall i :: 0 <= i < |p| - 1 ==> Edge(g, p[i], p[i + 1]))
  }

  ghost predicate OnCycle(g: Graph, s: Id) {
    exists p :: Walk(g, p) && |p| > 1 && p[0] == s && p[|p| - 1] == s
  }

  /**
   The worklist skips a service whose id is the empty string, so such a service holds back its dependents
   as a cycle does.
   */
  ghost predicate Obstacle(g: Graph, s: Id) {
    s == EMPTY_ID || OnCycle(g, s)
  }

  /** Reachable by at least one edge from a cycle (or from the skipped empty id). */
  ghost predicate Blocked(g: Graph, v: Id) {
    exists p :: Walk(g, p) && |p| > 1 && p[|p| - 1] == v && Obstacle(g, p[0])
  }

  /** All services of `p` before its last one belong to `through`. */
  ghost predicate Through(p: seq<Id>, through: set<Id>) {
    forall i :: 0 <= i < |p| - 1 ==> p[i] in through
  }

  ghost predicate WalkTo(g: Graph, through: set<Id>, v: Id, p: seq<Id>) {
    Walk(g, p) && p[|p| - 1] == v && Through(p, through)
  }

  /** `d` is the greatest number of edges of a walk to `v` that runs through `through`. */
  ghost predicate LongestThrough(g: Graph, through: set<Id>, v: Id, d: int) {
    && (exists p :: WalkTo(g, through, v, p) && |p| - 1 == d)
    && (forall p :: WalkTo(g, through, v, p) ==> |p| - 1 <= d)
  }

  /** `d` is the number of edges of the longest dependency path that ends at `v`. */
  ghost predicate LongestPath(g: Graph, v: Id, d: int) {
    LongestThrough(g, g.Keys, v, d)
  }

  lemma WalkSuffix(g: Graph, p: seq<Id>, i: nat)
    requires Walk(g, p) && i < |p|
    ensures Walk(g, p[i..]) && p[i..][|p| - i - 1] == p[|p| - 1]
  {
    var q := p[i..];
    forall k | 0 <= k < |q| - 1
      ensures Edge(g, q[k], q[k + 1])
    {
      assert Edge(g, p[i + k], p[i + k + 1]);
    }
  }

  lemma WalkPrefix(g: Graph, p: seq<Id>, n: nat)
    requires Walk(g, p) && 0 < n <= |p|
    ensures Walk(g, p[..n])
  {
    var q := p[..n];
    forall k | 0 <= k < |q| - 1
      ensures Edge(g, q[k], q[k + 1])
    {
      assert Edge(g, p[k], p[k + 1]);
    }
  }

  lemma WalkExtend(g: Graph, p: seq<Id>, v: Id)
    requires Walk(g, p) && Edge(g, p[|p| - 1], v)
    ensures Walk(g, p + [v])
  {
    var q := p + [v];
    forall k | 0 <= k < |q| - 1
      ensures Edge(g, q[k], q[k + 1])
    {
      if k < |p| - 1 {
        assert Edge(g, p[k], p[k + 1]);
      }
    }
  }

  /** Pigeonhole: a sequence longer than the set it draws from repeats an element. */
  lemma {:induction false} Repeats(p: seq<Id>, s: set<Id>) returns (i: nat, j: nat)
    requires |p| > |s| && forall k :: 0 <= k < |p| ==> p[k] in s
    ensures i < j < |p| && p[i] == p[j]
  {
    var last := p[|p| - 1];
    if k :| 0 <= k < |p| - 1 && p[k] == last {
      i, j := k, |p| - 1;
    } else {
      i, j := Repeats(p[..|p| - 1], s - {last});
    }
  }

  /** Every member of `stuck` has a predecessor that is stuck as well, or is the skipped empty id. */
  ghost predicate HeldBack(g: Graph, stuck: set<Id>) {
    && stuck <= g.Keys
    && (forall v :: v in stuck ==> exists u :: Edge(g, u, v) && (u == EMPTY_ID || u in stuck))
  }

  /** Walking backwards inside a held-back set goes on for ever or meets the empty id. */
  lemma {:induction false} WalkBack(g: Graph, stuck: set<Id>, v: Id, n: nat) returns (p: seq<Id>)
    requires HeldBack(g, stuck) && v in stuck
    ensures Walk(g, p) && p[|p| - 1] == v
    ensures (|p| > 1 && p[0] == EMPTY_ID) || (|p| == n + 1 && p[0] in stuck)
  {
    if n == 0 {
      p := [v];
    } else {
      var q := WalkBack(g, stuck, v, n - 1);
      if |q| > 1 && q[0] == EMPTY_ID {
        p := q;
      } else {
        var u :| Edge(g, u, q[0]) && (u == EMPTY_ID || u in stuck);
        p := [u] + q;
        forall k | 0 <= k < |p| - 1
          ensures Edge(g, p[k], p[k + 1])
        {
          if k > 0 {
            assert Edge(g, q[k - 1], q[k]);
          }
        }
      }
    }
  }

  lemma HeldBackIsBlocked(g: Graph, stuck: set<Id>, v: Id)
    requires HeldBack(g, stuck) && v in stuck
    ensures Blocked(g, v)
  {
    var p := WalkBack(g, stuck, v, |g.Keys|);
    if !(|p| > 1 && p[0] == EMPTY_ID) {
      var i, j := Repeats(p, g.Keys);
      WalkSuffix(g, p, i);
      var q := p[i..];
      WalkPrefix(g, q, j - i + 1);
      assert q[..j - i + 1][0] == p[i] && q[..j - i + 1][j - i] == p[j];
      assert OnCycle(g, p[i]);
      assert q[0] == p[i];
    }
  }

  /** `rank` grows along every edge into `settled`, and `settled` is closed under predecessors. */
  ghost predicate Ranked(g: Graph, settled: set<Id>, rank: map<Id, int>) {
    && settled <= g.Keys == rank.Keys
    && (forall u, v :: Edge(g, u, v) && v in settled ==> u in settled && u != EMPTY_ID && rank[u] < rank[v])
  }

  lemma {:induction false} WalkIntoSettled(g: Graph, settled: set<Id>, rank: map<Id, int>, p: seq<Id>, i: nat)
    requires Ranked(g, settled, rank) && Walk(g, p) && p[|p| - 1] in settled && i < |p|
    ensures p[i] in settled && (i < |p| - 1 ==> p[i] != EMPTY_ID)
    ensures rank[p[|p| - 1]] >= rank[p[i]] + (|p| - 1 - i)
    decreases |p| - i
  {
    if i < |p| - 1 {
      WalkIntoSettled(g, settled, rank, p, i + 1);
      assert Edge(g, p[i], p[i + 1]);
    }
  }

  lemma SettledIsNotBlocked(g: Graph, settled: set<Id>, rank: map<Id, int>, v: Id)
    requires Ranked(g, settled, rank) && v in settled
    ensures !Blocked(g, v)
  {
    forall p | Walk(g, p) && |p| > 1 && p[|p| - 1] == v
      ensures !Obstacle(g, p[0])
    {
      WalkIntoSettled(g, settled, rank, p, 0);
      if OnCycle(g, p[0]) {
        var c :| Walk(g, c) && |c| > 1 && c[0] == p[0] && c[|c| - 1] == p[0];
        WalkIntoSettled(g, settled, rank, c, 0);
      }
    }
  }
}
