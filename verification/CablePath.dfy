/** The cable graph: the adjacency index, breadth-first path resolution and the drawn topology. */
module CablePath {
  import opened Common

  type DeviceId = string

  datatype InterfaceRecord = InterfaceRecord(deviceId: DeviceId, name: Option<string>)
  datatype LinkRecord = LinkRecord(id: string, interfaceAId: string, interfaceBId: string)
  datatype DeviceRecord = DeviceRecord(
    id: DeviceId, hostname: Option<string>, managementIp: Option<string>, platform: Option<string>)

  datatype Neighbor = Neighbor(device: DeviceId, localIf: string, remoteIf: string)
  datatype CableHop = CableHop(deviceId: DeviceId, hostname: string, interface: Option<string>)
  datatype GraphNode = GraphNode(id: string, caption: string, kind: string)
  datatype GraphEdge = GraphEdge(
    id: string, source: DeviceId, target: DeviceId, interfaceA: Option<string>, interfaceB: Option<string>)

  // ---------------------------------------------------------------- the graph

  /** Both ends of the link are known interfaces. */
  predicate Resolved(link: LinkRecord, ifaces: map<string, InterfaceRecord>) {
    link.interfaceAId in ifaces && link.interfaceBId in ifaces
  }

  /** The link is a cable from `u` to `n.device`, leaving `u` on `n.localIf`, entering on `n.remoteIf`. */
  predicate Joins(link: LinkRecord, ifaces: map<string, InterfaceRecord>, u: DeviceId, n: Neighbor) {
    Resolved(link, ifaces) &&
    var a, b := ifaces[link.interfaceAId], ifaces[link.interfaceBId];
    var nameA, nameB := OrElse(a.name, ""), OrElse(b.name, "");
    || (a.deviceId == u && n == Neighbor(b.deviceId, nameA, nameB))
    || (b.deviceId == u && n == Neighbor(a.deviceId, nameB, nameA))
  }

  ghost predicate Cabled(links: seq<LinkRecord>, ifaces: map<string, InterfaceRecord>, u: DeviceId, n: Neighbor) {
    exists k :: 0 <= k < |links| && Joins(links[k], ifaces, u, n)
  }

  ghost predicate Adjacent(links: seq<LinkRecord>, ifaces: map<string, InterfaceRecord>, u: DeviceId, v: DeviceId) {
    exists localIf, remoteIf :: Cabled(links, ifaces, u, Neighbor(v, localIf, remoteIf))
  }

  ghost predicate IsPath(links: seq<LinkRecord>, ifaces: map<string, InterfaceRecord>,
                         p: seq<DeviceId>, start: DeviceId, goal: DeviceId) {
    && |p| > 0 && p[0] == start && p[|p| - 1] == goal
    && forall k :: 0 <= k < |p| - 1 ==> Adjacent(links, ifaces, p[k], p[k + 1])
  }

  ghost predicate Reachable(links: seq<LinkRecord>, ifaces: map<string, InterfaceRecord>,
                            start: DeviceId, goal: DeviceId) {
    exists p :: IsPath(links, ifaces, p, start, goal)
  }

  function Label(devices: map<DeviceId, DeviceRecord>, id: DeviceId): string {
    if id in devices then OrElse(devices[id].hostname, id) else id
  }

  /** A device is shown by its hostname, or by its identifier when it is not known or has none. */
  lemma LabelIs(devices: map<DeviceId, DeviceRecord>, id: DeviceId, name: string)
    requires name != ""
    ensures id in devices && devices[id].hostname == Some(name) ==> Label(devices, id) == name
    ensures id !in devices || devices[id].hostname in {None, Some("")} ==> Label(devices, id) == id
  {
  }

  /** A hop list from start to goal along real cables, each later hop naming its ingress interface. */
  ghost predicate IsRoute(links: seq<LinkRecord>, ifaces: map<string, InterfaceRecord>,
                          devices: map<DeviceId, DeviceRecord>,
                          hops: seq<CableHop>, start: DeviceId, goal: DeviceId) {
    && |hops| > 0
    && hops[0].deviceId == start && hops[0].interface == None
    && hops[|hops| - 1].deviceId == goal
    && (forall k :: 0 <= k < |hops| ==> hops[k].hostname == Label(devices, hops[k].deviceId))
    && (forall k :: 0 < k < |hops| ==> Ingress(links, ifaces, hops[k - 1], hops[k]))
    && (forall j, k :: 0 <= j < k < |hops| ==> hops[j].deviceId != hops[k].deviceId)
  }

  /** `hop` names the interface on which some cable from `from` enters it. */
  ghost predicate Ingress(links: seq<LinkRecord>, ifaces: map<string, InterfaceRecord>,
                          from: CableHop, hop: CableHop) {
    && hop.interface.Some?
    && exists localIf :: Cabled(links, ifaces, from.deviceId, Neighbor(hop.deviceId, localIf, hop.interface.value))
  }

  /** What the resolver answers: nothing when unreachable, otherwise a route no path is shorter than. */
  ghost predicate IsAnswer(links: seq<LinkRecord>, ifaces: map<string, InterfaceRecord>,
                           devices: map<DeviceId, DeviceRecord>,
                           hops: seq<CableHop>, start: DeviceId, goal: DeviceId) {
    && (hops != [] <==> Reachable(links, ifaces, start, goal))
    && (hops != [] ==> IsRoute(links, ifaces, devices, hops, start, goal))
    && forall p :: IsPath(links, ifaces, p, start, goal) ==> |hops| <= |p|
  }

  // ---------------------------------------------------------------- the adjacency index

  function At(adjacency: map<DeviceId, seq<Neighbor>>, u: DeviceId): seq<Neighbor> {
    if u in adjacency then adjacency[u] else []
  }

  method BuildAdjacency(links: seq<LinkRecord>, ifaces: map<string, InterfaceRecord>)
    returns (adjacency: map<DeviceId, seq<Neighbor>>)
    ensures forall u, n :: n in At(adjacency, u) <==> Cabled(links, ifaces, u, n)
  {
    adjacency := map[];
    for i := 0 to |links|
      invariant forall u, n :: n in At(adjacency, u) <==> Cabled(links[..i], ifaces, u, n)
    {
      ghost var before := adjacency;
      var link := links[i];
      if link.interfaceAId in ifaces && link.interfaceBId in ifaces {
        var a, b := ifaces[link.interfaceAId], ifaces[link.interfaceBId];
        var da, db := a.deviceId, b.deviceId;
        adjacency := adjacency[da := At(adjacency, da) + [Neighbor(db, OrElse(a.name, ""), OrElse(b.name, ""))]];
        adjacency := adjacency[db := At(adjacency, db) + [Neighbor(da, OrElse(b.name, ""), OrElse(a.name, ""))]];
      }
      forall u, n
        ensures n in At(adjacency, u) <==> Cabled(links[..i + 1], ifaces, u, n)
      {
        assert n in At(adjacency, u) <==> n in At(before, u) || Joins(link, ifaces, u, n);
        CabledSnoc(links, i, ifaces, u, n);
      }
    }
    assert links[..|links|] == links;
  }

  lemma CabledSnoc(links: seq<LinkRecord>, i: nat, ifaces: map<string, InterfaceRecord>, u: DeviceId, n: Neighbor)
    requires i < |links|
    ensures Cabled(links[..i + 1], ifaces, u, n) <==> Cabled(links[..i], ifaces, u, n) || Joins(links[i], ifaces, u, n)
  {
    if Cabled(links[..i], ifaces, u, n) {
      var k :| 0 <= k < i && Joins(links[..i][k], ifaces, u, n);
      assert Joins(links[..i + 1][k], ifaces, u, n);
    }
    if Joins(links[i], ifaces, u, n) {
      assert Joins(links[..i + 1][i], ifaces, u, n);
    }
    if Cabled(links[..i + 1], ifaces, u, n) {
      var k :| 0 <= k < i + 1 && Joins(links[..i + 1][k], ifaces, u, n);
      if k < i { assert Joins(links[..i][k], ifaces, u, n); }
    }
  }

  // ---------------------------------------------------------------- breadth-first search

  /** How a device was first reached. */
  datatype Visit = Start | Via(from: DeviceId, localIf: string, remoteIf: string)

  /** The parent pointers form a tree rooted at start; `dist` is the depth in it. */
  ghost predicate IsTree(links: seq<LinkRecord>, ifaces: map<string, InterfaceRecord>, start: DeviceId,
                         prev: map<DeviceId, Visit>, dist: map<DeviceId, nat>) {
    && prev.Keys == dist.Keys
    && start in prev && dist[start] == 0
    && forall v {:trigger IsReached(links, ifaces, start, prev, dist, v)} ::
         v in prev ==> IsReached(links, ifaces, start, prev, dist, v)
  }

  /** `v` is the root, or one level below the device it was reached from, by a real cable. */
  ghost predicate IsReached(links: seq<LinkRecord>, ifaces: map<string, InterfaceRecord>, start: DeviceId,
                            prev: map<DeviceId, Visit>, dist: map<DeviceId, nat>, v: DeviceId)
    requires v in prev && prev.Keys == dist.Keys
  {
    match prev[v]
    case Start => v == start && dist[v] == 0
    case Via(from, localIf, remoteIf) =>
      && from in prev
      && dist[v] == dist[from] + 1
      && Cabled(links, ifaces, from, Neighbor(v, localIf, remoteIf))
  }

  /** Every visited device is either finished or waiting, exactly once, in the queue. */
  ghost predicate IsPartition(visited: set<DeviceId>, done: set<DeviceId>, queue: seq<DeviceId>) {
    && (forall v :: v in visited <==> v in done || v in queue)
    && (forall v :: v in queue ==> v !in done)
    && (forall i, j :: 0 <= i < j < |queue| ==> queue[i] != queue[j])
  }

  /** The queue is ordered by depth and spans at most the two levels d and d + 1. */
  ghost predicate IsLayered(dist: map<DeviceId, nat>, queue: seq<DeviceId>, d: nat) {
    && (forall v :: v in queue ==> v in dist && d <= dist[v])
    && (forall v :: v in dist ==> dist[v] <= d + 1)
    && (forall i, j :: 0 <= i < j < |queue| ==> dist[queue[i]] <= dist[queue[j]])
  }

  /** All cables out of finished devices have been followed. */
  ghost predicate IsClosed(links: seq<LinkRecord>, ifaces: map<string, InterfaceRecord>,
                           dist: map<DeviceId, nat>, done: set<DeviceId>) {
    forall u, v :: u in done && Adjacent(links, ifaces, u, v) ==> u in dist && v in dist && dist[v] <= dist[u] + 1
  }

  /** Along any path, either its end has been reached at no greater depth, or the queue head is shallower. */
  lemma {:induction false} FrontierCutsPaths(
      links: seq<LinkRecord>, ifaces: map<string, InterfaceRecord>, start: DeviceId,
      dist: map<DeviceId, nat>, done: set<DeviceId>, queue: seq<DeviceId>, p: seq<DeviceId>, x: DeviceId)
    requires start in dist && dist[start] == 0
    requires IsPartition(dist.Keys, done, queue) && IsClosed(links, ifaces, dist, done)
    requires queue != [] ==> queue[0] in dist && IsLayered(dist, queue, dist[queue[0]])
    requires IsPath(links, ifaces, p, start, x)
    ensures (x in dist && dist[x] < |p|) || (queue != [] && dist[queue[0]] < |p| - 1)
    decreases |p|
  {
    if |p| > 1 {
      var q := p[..|p| - 1];
      var y := q[|q| - 1];
      forall k | 0 <= k < |q| - 1 ensures Adjacent(links, ifaces, q[k], q[k + 1]) {
        assert Adjacent(links, ifaces, p[k], p[k + 1]);
      }
      FrontierCutsPaths(links, ifaces, start, dist, done, queue, q, y);
      assert Adjacent(links, ifaces, p[|p| - 2], p[|p| - 1]);
      if y in done {
        assert x in dist && dist[x] <= dist[y] + 1;
      }
    }
  }

  /** When the queue has run dry, no path leads to a device that is not finished. */
  lemma NoPathOutside(links: seq<LinkRecord>, ifaces: map<string, InterfaceRecord>, start: DeviceId,
                      dist: map<DeviceId, nat>, done: set<DeviceId>, p: seq<DeviceId>, goal: DeviceId)
    requires start in dist && dist[start] == 0
    requires IsPartition(dist.Keys, done, []) && IsClosed(links, ifaces, dist, done) && goal !in done
    ensures !IsPath(links, ifaces, p, start, goal)
  {
    if IsPath(links, ifaces, p, start, goal) {
      FrontierCutsPaths(links, ifaces, start, dist, done, [], p, goal);
    }
  }

  /** The devices a search can ever visit. */
  function Universe(ifaces: map<string, InterfaceRecord>, start: DeviceId): set<DeviceId> {
    {start} + set i | i in ifaces :: ifaces[i].deviceId
  }

  lemma AdjacentInUniverse(links: seq<LinkRecord>, ifaces: map<string, InterfaceRecord>, start: DeviceId,
                           u: DeviceId, n: Neighbor)
    requires Cabled(links, ifaces, u, n)
    ensures n.device in Universe(ifaces, start)
  {
    var k :| 0 <= k < |links| && Joins(links[k], ifaces, u, n);
    assert ifaces[links[k].interfaceAId].deviceId in Universe(ifaces, start);
    assert ifaces[links[k].interfaceBId].deviceId in Universe(ifaces, start);
  }

  lemma TreeGrows(links: seq<LinkRecord>, ifaces: map<string, InterfaceRecord>, start: DeviceId,
                  prev: map<DeviceId, Visit>, dist: map<DeviceId, nat>, u: DeviceId, n: Neighbor)
    requires IsTree(links, ifaces, start, prev, dist)
    requires u in prev && n.device !in prev && Cabled(links, ifaces, u, n)
    ensures IsTree(links, ifaces, start, prev[n.device := Via(u, n.localIf, n.remoteIf)], dist[n.device := dist[u] + 1])
  {
    var prev', dist' := prev[n.device := Via(u, n.localIf, n.remoteIf)], dist[n.device := dist[u] + 1];
    forall v | v in prev' ensures IsReached(links, ifaces, start, prev', dist', v) {
      assert v == n.device || IsReached(links, ifaces, start, prev, dist, v);
    }
  }

  lemma LayersGrow(dist: map<DeviceId, nat>, queue: seq<DeviceId>, d: nat, v: DeviceId)
    requires IsLayered(dist, queue, d) && v !in dist
    ensures IsLayered(dist[v := d + 1], queue + [v], d)
  {
  }

  lemma PartitionGrows(visited: set<DeviceId>, done: set<DeviceId>, queue: seq<DeviceId>, v: DeviceId)
    requires IsPartition(visited, done, queue) && v !in visited
    ensures IsPartition(visited + {v}, done, queue + [v])
  {
  }

  /** What the search keeps while it follows the cables out of a device at depth `d`. */
  ghost predicate IsSearching(links: seq<LinkRecord>, ifaces: map<string, InterfaceRecord>, start: DeviceId,
                              prev: map<DeviceId, Visit>, dist: map<DeviceId, nat>,
                              done: set<DeviceId>, queue: seq<DeviceId>, d: nat) {
    && IsTree(links, ifaces, start, prev, dist)
    && IsPartition(prev.Keys, done, queue)
    && IsLayered(dist, queue, d)
    && prev.Keys <= Universe(ifaces, start)
  }

  lemma SearchGrows(links: seq<LinkRecord>, ifaces: map<string, InterfaceRecord>, start: DeviceId,
                    prev: map<DeviceId, Visit>, dist: map<DeviceId, nat>, done: set<DeviceId>, queue: seq<DeviceId>,
                    u: DeviceId, n: Neighbor)
    requires u in dist && IsSearching(links, ifaces, start, prev, dist, done, queue, dist[u])
    requires n.device !in prev && Cabled(links, ifaces, u, n)
    ensures IsSearching(links, ifaces, start, prev[n.device := Via(u, n.localIf, n.remoteIf)],
                        dist[n.device := dist[u] + 1], done, queue + [n.device], dist[u])
  {
    AdjacentInUniverse(links, ifaces, start, u, n);
    TreeGrows(links, ifaces, start, prev, dist, u, n);
    LayersGrow(dist, queue, dist[u], n.device);
    PartitionGrows(prev.Keys, done, queue, n.device);
    assert prev[n.device := Via(u, n.localIf, n.remoteIf)].Keys == prev.Keys + {n.device};
  }

  /** Depths once found do not change. */
  ghost predicate Extends(dist0: map<DeviceId, nat>, dist: map<DeviceId, nat>) {
    dist0.Keys <= dist.Keys && forall v :: v in dist0 ==> dist[v] == dist0[v]
  }

  ghost predicate AllReached(neighbors: seq<Neighbor>, i: nat, dist: map<DeviceId, nat>)
    requires i <= |neighbors|
  {
    forall k :: 0 <= k < i ==> neighbors[k].device in dist
  }

  lemma PartitionPops(visited: set<DeviceId>, done: set<DeviceId>, queue: seq<DeviceId>)
    requires IsPartition(visited, done, queue) && queue != []
    ensures queue[0] in visited && queue[0] !in done && queue[0] !in queue[1..]
    ensures IsPartition(visited, done + {queue[0]}, queue[1..])
  {
    assert queue == [queue[0]] + queue[1..];
  }

  lemma LayersPop(dist: map<DeviceId, nat>, queue: seq<DeviceId>, d: nat)
    requires IsLayered(dist, queue, d) && queue != []
    ensures IsLayered(dist, queue[1..], d)
  {
  }

  lemma LayersRebase(dist: map<DeviceId, nat>, queue: seq<DeviceId>, d: nat)
    requires IsLayered(dist, queue, d) && queue != []
    ensures IsLayered(dist, queue, dist[queue[0]])
  {
    forall v | v in queue ensures v in dist && dist[queue[0]] <= dist[v] {
      var k :| 0 <= k < |queue| && queue[k] == v;
      assert k == 0 || dist[queue[0]] <= dist[queue[k]];
    }
    assert d <= dist[queue[0]];
  }

  /** Once every cable out of `current` has been followed, it counts as finished. */
  lemma ClosedGrows(links: seq<LinkRecord>, ifaces: map<string, InterfaceRecord>,
                    dist0: map<DeviceId, nat>, dist: map<DeviceId, nat>, done: set<DeviceId>,
                    current: DeviceId, neighbors: seq<Neighbor>)
    requires forall n :: n in neighbors <==> Cabled(links, ifaces, current, n)
    requires IsClosed(links, ifaces, dist0, done - {current})
    requires Extends(dist0, dist) && current in dist && forall v :: v in dist ==> dist[v] <= dist[current] + 1
    requires AllReached(neighbors, |neighbors|, dist)
    ensures IsClosed(links, ifaces, dist, done)
  {
    forall u, v | u in done && Adjacent(links, ifaces, u, v)
      ensures u in dist && v in dist && dist[v] <= dist[u] + 1
    {
      if u == current {
        var localIf, remoteIf :| Cabled(links, ifaces, u, Neighbor(v, localIf, remoteIf));
        assert Neighbor(v, localIf, remoteIf) in neighbors;
      } else {
        assert u in done - {current};
        assert u in dist0 && v in dist0;
      }
    }
  }

  /** Follows every cable out of `current`: the inner loop of the search. */
  method Expand(links: seq<LinkRecord>, ifaces: map<string, InterfaceRecord>, start: DeviceId,
                neighbors: seq<Neighbor>, current: DeviceId,
                prev0: map<DeviceId, Visit>, queue0: seq<DeviceId>,
                ghost dist0: map<DeviceId, nat>, ghost done: set<DeviceId>)
    returns (prev: map<DeviceId, Visit>, queue: seq<DeviceId>, ghost dist: map<DeviceId, nat>)
    requires forall n :: n in neighbors <==> Cabled(links, ifaces, current, n)
    requires current in done && current in dist0 && current !in queue0
    requires IsSearching(links, ifaces, start, prev0, dist0, done, queue0, dist0[current])
    requires IsClosed(links, ifaces, dist0, done - {current})
    ensures current in dist && IsSearching(links, ifaces, start, prev, dist, done, queue, dist[current])
    ensures IsClosed(links, ifaces, dist, done)
  {
    prev, queue, dist := prev0, queue0, dist0;
    for i := 0 to |neighbors|
      invariant current in dist && IsSearching(links, ifaces, start, prev, dist, done, queue, dist[current])
      invariant Extends(dist0, dist) && AllReached(neighbors, i, dist)
    {
      ghost var before := dist;
      prev, queue, dist := Reach(links, ifaces, start, neighbors[i], current, prev, queue, dist, done);
      StillReached(neighbors, i, dist0, before, dist);
    }
    ClosedGrows(links, ifaces, dist0, dist, done, current, neighbors);
  }

  lemma StillReached(neighbors: seq<Neighbor>, i: nat, dist0: map<DeviceId, nat>, before: map<DeviceId, nat>,
                     dist: map<DeviceId, nat>)
    requires i < |neighbors| && Extends(dist0, before) && Extends(before, dist)
    requires AllReached(neighbors, i, before) && neighbors[i].device in dist
    ensures Extends(dist0, dist) && AllReached(neighbors, i + 1, dist)
  {
  }

  /** Follows one cable: a device not seen before is entered below `current` and queued. */
  method Reach(links: seq<LinkRecord>, ifaces: map<string, InterfaceRecord>, start: DeviceId,
               n: Neighbor, current: DeviceId, prev0: map<DeviceId, Visit>, queue0: seq<DeviceId>,
               ghost dist0: map<DeviceId, nat>, ghost done: set<DeviceId>)
    returns (prev: map<DeviceId, Visit>, queue: seq<DeviceId>, ghost dist: map<DeviceId, nat>)
    requires Cabled(links, ifaces, current, n)
    requires current in dist0 && IsSearching(links, ifaces, start, prev0, dist0, done, queue0, dist0[current])
    ensures current in dist && IsSearching(links, ifaces, start, prev, dist, done, queue, dist[current])
    ensures Extends(dist0, dist) && n.device in dist
  {
    prev, queue, dist := prev0, queue0, dist0;
    if n.device !in prev {
      SearchGrows(links, ifaces, start, prev, dist, done, queue, current, n);
      prev := prev[n.device := Via(current, n.localIf, n.remoteIf)];
      dist := dist[n.device := dist[current] + 1];
      queue := queue + [n.device];
    }
  }

  /** The queue loop: returns the parent pointers once the goal is popped or the queue runs dry. */
  method Search(links: seq<LinkRecord>, ifaces: map<string, InterfaceRecord>, start: DeviceId, goal: DeviceId)
    returns (prev: map<DeviceId, Visit>, ghost dist: map<DeviceId, nat>)
    requires start != goal
    ensures IsTree(links, ifaces, start, prev, dist)
    ensures Reachable(links, ifaces, start, goal) ==> goal in prev
    ensures goal in prev ==> forall p :: IsPath(links, ifaces, p, start, goal) ==> dist[goal] < |p|
  {
    var adjacency := BuildAdjacency(links, ifaces);
    var queue := [start];
    prev := map[start := Start];
    dist := map[start := 0];
    ghost var done: set<DeviceId> := {};
    while queue != []
      invariant IsTree(links, ifaces, start, prev, dist)
      invariant IsPartition(prev.Keys, done, queue)
      invariant IsClosed(links, ifaces, dist, done)
      invariant queue != [] ==> IsLayered(dist, queue, dist[queue[0]])
      invariant prev.Keys <= Universe(ifaces, start)
      invariant goal !in done
      decreases |Universe(ifaces, start) - done|
    {
      var current := queue[0];
      if current == goal {
        forall p | IsPath(links, ifaces, p, start, goal) ensures dist[goal] < |p| {
          FrontierCutsPaths(links, ifaces, start, dist, done, queue, p, goal);
        }
        return;
      }
      PartitionPops(prev.Keys, done, queue);
      LayersPop(dist, queue, dist[current]);
      assert done + {current} - {current} == done;
      SmallerSubset(Universe(ifaces, start) - (done + {current}), Universe(ifaces, start) - done, current);
      done := done + {current};
      queue := queue[1..];
      prev, queue, dist := Expand(links, ifaces, start, At(adjacency, current), current, prev, queue, dist, done);
      if queue != [] {
        LayersRebase(dist, queue, dist[current]);
      }
    }
    forall p ensures !IsPath(links, ifaces, p, start, goal) {
      NoPathOutside(links, ifaces, start, dist, done, p, goal);
    }
  }

  lemma SmallerSubset<T>(a: set<T>, b: set<T>, x: T)
    requires a <= b && x in b && x !in a
    ensures |a| < |b|
  {
    assert a + (b - a - {x}) + {x} == b;
  }

  // ---------------------------------------------------------------- resolve

  method Resolve(fromDeviceId: DeviceId, toDeviceId: DeviceId, devices: map<DeviceId, DeviceRecord>,
                 links: seq<LinkRecord>, ifaces: map<string, InterfaceRecord>)
    returns (hops: seq<CableHop>)
    ensures IsAnswer(links, ifaces, devices, hops, fromDeviceId, toDeviceId)
  {
    var start, goal := fromDeviceId, toDeviceId;
    if start == goal {
      hops := [CableHop(start, Label(devices, start), None)];
      assert IsPath(links, ifaces, [start], start, goal);
      return;
    }
    ghost var dist;
    var prev;
    prev, dist := Search(links, ifaces, start, goal);
    if goal !in prev {
      return [];
    }
    hops := WalkBack(links, ifaces, devices, start, goal, prev, dist);
    RouteIsPath(links, ifaces, devices, hops, start, goal);
  }

  /** Walks the parent pointers from the goal and turns the list around. */
  method WalkBack(links: seq<LinkRecord>, ifaces: map<string, InterfaceRecord>, devices: map<DeviceId, DeviceRecord>,
                  start: DeviceId, goal: DeviceId, prev: map<DeviceId, Visit>, ghost dist: map<DeviceId, nat>)
    returns (hops: seq<CableHop>)
    requires goal in prev && IsTree(links, ifaces, start, prev, dist)
    ensures IsRoute(links, ifaces, devices, hops, start, goal)
    ensures |hops| == dist[goal] + 1
  {
    var hopsRev: seq<CableHop> := [];
    var cursor := Some(goal);
    while cursor.Some?
      invariant cursor.Some? ==> cursor.value in prev
      invariant TreeRoute(links, ifaces, devices, start, prev, dist, goal)
             == (if cursor.Some? then TreeRoute(links, ifaces, devices, start, prev, dist, cursor.value) else [])
                + Reversed(hopsRev)
      decreases if cursor.Some? then dist[cursor.value] + 1 else 0
    {
      assert IsReached(links, ifaces, start, prev, dist, cursor.value);
      var meta := prev[cursor.value];
      var hop := CableHop(cursor.value, Label(devices, cursor.value), if meta.Via? then Some(meta.remoteIf) else None);
      assert Reversed(hopsRev + [hop]) == [hop] + Reversed(hopsRev);
      hopsRev := hopsRev + [hop];
      cursor := if meta.Via? then Some(meta.from) else None;
    }
    hops := Reversed(hopsRev);
    assert hops == [] + hops;
    TreeRouteIsRoute(links, ifaces, devices, start, prev, dist, goal);
  }

  /** The route from the root of the tree to `v`. */
  ghost function TreeRoute(links: seq<LinkRecord>, ifaces: map<string, InterfaceRecord>,
                           devices: map<DeviceId, DeviceRecord>, start: DeviceId,
                           prev: map<DeviceId, Visit>, dist: map<DeviceId, nat>, v: DeviceId): seq<CableHop>
    requires IsTree(links, ifaces, start, prev, dist) && v in prev
    decreases dist[v]
  {
    assert IsReached(links, ifaces, start, prev, dist, v);
    match prev[v]
    case Start => [CableHop(v, Label(devices, v), None)]
    case Via(from, _, remoteIf) =>
      TreeRoute(links, ifaces, devices, start, prev, dist, from) + [CableHop(v, Label(devices, v), Some(remoteIf))]
  }

  lemma {:induction false} TreeRouteIsRoute(
      links: seq<LinkRecord>, ifaces: map<string, InterfaceRecord>, devices: map<DeviceId, DeviceRecord>,
      start: DeviceId, prev: map<DeviceId, Visit>, dist: map<DeviceId, nat>, v: DeviceId)
    requires IsTree(links, ifaces, start, prev, dist) && v in prev
    ensures var hops := TreeRoute(links, ifaces, devices, start, prev, dist, v);
            && |hops| == dist[v] + 1
            && (forall k :: 0 <= k < |hops| ==> hops[k].deviceId in dist && dist[hops[k].deviceId] == k)
            && IsRoute(links, ifaces, devices, hops, start, v)
    decreases dist[v]
  {
    assert IsReached(links, ifaces, start, prev, dist, v);
    if prev[v].Via? {
      var from := prev[v].from;
      var init := TreeRoute(links, ifaces, devices, start, prev, dist, from);
      TreeRouteIsRoute(links, ifaces, devices, start, prev, dist, from);
      var hops := init + [CableHop(v, Label(devices, v), Some(prev[v].remoteIf))];
      assert Ingress(links, ifaces, hops[|hops| - 2], hops[|hops| - 1]);
      forall k | 0 < k < |hops| ensures Ingress(links, ifaces, hops[k - 1], hops[k]) {
        if k < |init| { assert Ingress(links, ifaces, init[k - 1], init[k]); }
      }
      forall j, k | 0 <= j < k < |hops| ensures hops[j].deviceId != hops[k].deviceId {
        assert dist[hops[j].deviceId] == j && dist[hops[k].deviceId] == k;
      }
    }
  }

  function Reversed<T>(s: seq<T>): (r: seq<T>)
    ensures |r| == |s| && forall k :: 0 <= k < |s| ==> r[k] == s[|s| - 1 - k]
  {
    if s == [] then [] else Reversed(s[1..]) + [s[0]]
  }

  ghost function DevicesOf(hops: seq<CableHop>): seq<DeviceId> {
    seq(|hops|, k requires 0 <= k < |hops| => hops[k].deviceId)
  }

  /** A route is a path: the devices on it are joined by cables. */
  lemma RouteIsPath(links: seq<LinkRecord>, ifaces: map<string, InterfaceRecord>,
                    devices: map<DeviceId, DeviceRecord>, hops: seq<CableHop>, start: DeviceId, goal: DeviceId)
    requires IsRoute(links, ifaces, devices, hops, start, goal)
    ensures IsPath(links, ifaces, DevicesOf(hops), start, goal)
  {
    var p := DevicesOf(hops);
    forall k | 0 <= k < |p| - 1 ensures Adjacent(links, ifaces, p[k], p[k + 1]) {
      assert Ingress(links, ifaces, hops[k], hops[k + 1]);
    }
  }

  // ---------------------------------------------------------------- symmetry

  lemma CabledSymmetric(links: seq<LinkRecord>, ifaces: map<string, InterfaceRecord>, u: DeviceId, n: Neighbor)
    requires Cabled(links, ifaces, u, n)
    ensures Cabled(links, ifaces, n.device, Neighbor(u, n.remoteIf, n.localIf))
  {
    var k :| 0 <= k < |links| && Joins(links[k], ifaces, u, n);
    assert Joins(links[k], ifaces, n.device, Neighbor(u, n.remoteIf, n.localIf));
  }

  lemma PathReversed(links: seq<LinkRecord>, ifaces: map<string, InterfaceRecord>,
                     p: seq<DeviceId>, start: DeviceId, goal: DeviceId)
    requires IsPath(links, ifaces, p, start, goal)
    ensures IsPath(links, ifaces, Reversed(p), goal, start)
  {
    var r := Reversed(p);
    forall k | 0 <= k < |r| - 1 ensures Adjacent(links, ifaces, r[k], r[k + 1]) {
      var j := |p| - 2 - k;
      assert Adjacent(links, ifaces, p[j], p[j + 1]);
      var localIf, remoteIf :| Cabled(links, ifaces, p[j], Neighbor(p[j + 1], localIf, remoteIf));
      CabledSymmetric(links, ifaces, p[j], Neighbor(p[j + 1], localIf, remoteIf));
    }
  }

  /** Resolving in either direction finds a route or none, with the same number of hops. */
  lemma HopCountSymmetric(links: seq<LinkRecord>, ifaces: map<string, InterfaceRecord>,
                          devices: map<DeviceId, DeviceRecord>,
                          there: seq<CableHop>, back: seq<CableHop>, start: DeviceId, goal: DeviceId)
    requires IsAnswer(links, ifaces, devices, there, start, goal)
    requires IsAnswer(links, ifaces, devices, back, goal, start)
    ensures |there| == |back|
  {
    NoLonger(links, ifaces, devices, there, back, start, goal);
    NoLonger(links, ifaces, devices, back, there, goal, start);
  }

  lemma NoLonger(links: seq<LinkRecord>, ifaces: map<string, InterfaceRecord>,
                 devices: map<DeviceId, DeviceRecord>,
                 there: seq<CableHop>, back: seq<CableHop>, start: DeviceId, goal: DeviceId)
    requires IsAnswer(links, ifaces, devices, there, start, goal)
    requires IsAnswer(links, ifaces, devices, back, goal, start)
    ensures |there| <= |back|
  {
    if back == [] {
      if there != [] {
        RouteIsPath(links, ifaces, devices, there, start, goal);
        PathReversed(links, ifaces, DevicesOf(there), start, goal);
        assert Reachable(links, ifaces, goal, start);
      }
    } else {
      RouteIsPath(links, ifaces, devices, back, goal, start);
      PathReversed(links, ifaces, DevicesOf(back), goal, start);
    }
  }

  // ---------------------------------------------------------------- the drawn topology

  /** The edges the map shows, one per link whose two ends are known, in link order. */
  function DrawnEdges(links: seq<LinkRecord>, ifaces: map<string, InterfaceRecord>): seq<GraphEdge> {
    if links == [] then []
    else
      var rest, link := DrawnEdges(links[..|links| - 1], ifaces), links[|links| - 1];
      if Resolved(link, ifaces) then rest + [Draw(link, ifaces)] else rest
  }

  function Draw(link: LinkRecord, ifaces: map<string, InterfaceRecord>): GraphEdge
    requires Resolved(link, ifaces)
  {
    var a, b := ifaces[link.interfaceAId], ifaces[link.interfaceBId];
    GraphEdge(link.id, a.deviceId, b.deviceId, a.name, b.name)
  }

  /** How many of the links have two known ends. */
  function KnownLinks(links: seq<LinkRecord>, ifaces: map<string, InterfaceRecord>): nat {
    if links == [] then 0
    else
      var link := links[|links| - 1];
      KnownLinks(links[..|links| - 1], ifaces)
      + if link.interfaceAId in ifaces && link.interfaceBId in ifaces then 1 else 0
  }

  /**
   * The link at `k`, if its ends are known, is drawn as the edge whose place is the number of such links before it, from
   * the device of its first interface to that of its second; there are no other edges.
   */
  lemma {:induction false} EdgesFollowLinks(links: seq<LinkRecord>, ifaces: map<string, InterfaceRecord>, k: nat)
    requires k < |links| && links[k].interfaceAId in ifaces && links[k].interfaceBId in ifaces
    ensures var a, b := ifaces[links[k].interfaceAId], ifaces[links[k].interfaceBId];
            && KnownLinks(links[..k], ifaces) < |DrawnEdges(links, ifaces)| == KnownLinks(links, ifaces)
            && DrawnEdges(links, ifaces)[KnownLinks(links[..k], ifaces)]
               == GraphEdge(links[k].id, a.deviceId, b.deviceId, a.name, b.name)
  {
    var n := |links| - 1;
    EdgeCount(links[..n], ifaces);
    if k < n {
      EdgesFollowLinks(links[..n], ifaces, k);
      assert links[..n][..k] == links[..k];
    }
  }

  lemma {:induction false} EdgeCount(links: seq<LinkRecord>, ifaces: map<string, InterfaceRecord>)
    ensures |DrawnEdges(links, ifaces)| == KnownLinks(links, ifaces)
  {
    if links != [] { EdgeCount(links[..|links| - 1], ifaces); }
  }

  method Build(devices: seq<DeviceRecord>, links: seq<LinkRecord>, ifaces: map<string, InterfaceRecord>)
    returns (nodes: seq<GraphNode>, edges: seq<GraphEdge>)
    ensures |nodes| == |devices|
    ensures forall k :: 0 <= k < |devices| ==>
              nodes[k] == GraphNode(devices[k].id,
                                    OrElse(devices[k].hostname, OrElse(devices[k].managementIp, devices[k].id)),
                                    OrElse(devices[k].platform, "unknown"))
    ensures edges == DrawnEdges(links, ifaces)
  {
    nodes := seq(|devices|, k requires 0 <= k < |devices| =>
      var d := devices[k];
      GraphNode(d.id, OrElse(d.hostname, OrElse(d.managementIp, d.id)), OrElse(d.platform, "unknown")));
    edges := [];
    for i := 0 to |links|
      invariant edges == DrawnEdges(links[..i], ifaces)
    {
      assert links[..i + 1][..i] == links[..i];
      var link := links[i];
      if link.interfaceAId in ifaces && link.interfaceBId in ifaces {
        var a, b := ifaces[link.interfaceAId], ifaces[link.interfaceBId];
        edges := edges + [GraphEdge(link.id, a.deviceId, b.deviceId, a.name, b.name)];
      }
    }
    assert links[..|links|] == links;
  }

  /** The edge can be walked from `u` to `v`, entering `v` on `ingress`. */
  predicate Walkable(e: GraphEdge, u: DeviceId, v: DeviceId, ingress: string) {
    || (e.source == u && e.target == v && OrElse(e.interfaceB, "") == ingress)
    || (e.target == u && e.source == v && OrElse(e.interfaceA, "") == ingress)
  }

  /** The resolver's graph and the drawn graph have the same cables. */
  lemma {:induction false} DrawnIffCabled(links: seq<LinkRecord>, ifaces: map<string, InterfaceRecord>,
                                          u: DeviceId, v: DeviceId, ingress: string)
    ensures (exists e :: e in DrawnEdges(links, ifaces) && Walkable(e, u, v, ingress))
       <==> (exists localIf :: Cabled(links, ifaces, u, Neighbor(v, localIf, ingress)))
  {
    if links != [] {
      var n := |links| - 1;
      var init, link := links[..n], links[n];
      DrawnIffCabled(init, ifaces, u, v, ingress);
      assert links[..n + 1] == links;
      forall localIf
        ensures Cabled(links, ifaces, u, Neighbor(v, localIf, ingress))
           <==> Cabled(init, ifaces, u, Neighbor(v, localIf, ingress)) || Joins(link, ifaces, u, Neighbor(v, localIf, ingress))
      {
        CabledSnoc(links, n, ifaces, u, Neighbor(v, localIf, ingress));
      }
      if Resolved(link, ifaces) {
        var e := Draw(link, ifaces);
        assert e in DrawnEdges(links, ifaces);
        if Walkable(e, u, v, ingress) {
          var localIf := if e.source == u && e.target == v && OrElse(e.interfaceB, "") == ingress
                         then OrElse(e.interfaceA, "") else OrElse(e.interfaceB, "");
          assert Joins(link, ifaces, u, Neighbor(v, localIf, ingress));
        }
        forall localIf | Joins(link, ifaces, u, Neighbor(v, localIf, ingress)) ensures Walkable(e, u, v, ingress) {
        }
      }
    }
  }

  /** Every hop of a resolved route runs along an edge of the drawn map that bears the hop's interface name. */
  lemma RouteIsDrawn(links: seq<LinkRecord>, ifaces: map<string, InterfaceRecord>,
                     devices: map<DeviceId, DeviceRecord>, hops: seq<CableHop>,
                     start: DeviceId, goal: DeviceId, k: nat)
    requires IsRoute(links, ifaces, devices, hops, start, goal)
    requires 0 < k < |hops|
    ensures hops[k].interface.Some?
    ensures exists e :: e in DrawnEdges(links, ifaces) &&
                        Walkable(e, hops[k - 1].deviceId, hops[k].deviceId, hops[k].interface.value)
  {
    assert Ingress(links, ifaces, hops[k - 1], hops[k]);
    DrawnIffCabled(links, ifaces, hops[k - 1].deviceId, hops[k].deviceId, hops[k].interface.value);
  }
}
