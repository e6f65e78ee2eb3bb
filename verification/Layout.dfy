/** The hierarchical layout: devices in ranks by role, packed into columns by name, with their degrees. */
module Layout {
  import opened Common
  import DeviceIdentity

  // ---------------------------------------------------------------- devices and edges

  datatype Card = Card(id: string, hostname: Option<string>, networkRole: Option<string>, role: Option<string>)

  datatype Edge = Edge(source: string, target: string)

  datatype Cluster = Collapse | Expand

  datatype Meta = Meta(rank: nat, layer: string, column: nat, columnsInLayer: nat, degree: nat, cluster: Cluster)

  const UNKNOWN_RANK: nat := 5
  const RANK_COUNT: nat := 7

  function RankOfRole(role: string): (rank: nat)
    ensures rank < RANK_COUNT
  {
    if role == "firewall" then 0
    else if role == "router" then 1
    else if role == "core" then 2
    else if role == "distribution" then 3
    else if role == "access" then 4
    else if role == "wireless" then 5
    else if role == "server" || role == "storage" then 6
    else UNKNOWN_RANK
  }

  function RoleOf(card: Card): string { OrElse(card.networkRole, OrElse(card.role, "unknown")) }

  type Cards = map<string, Card>

  function RankOf(cards: Cards, id: string): (rank: nat)
    ensures rank < RANK_COUNT
  {
    if id in cards then RankOfRole(DeviceIdentity.Lower(RoleOf(cards[id]))) else UNKNOWN_RANK
  }

  function NameOf(cards: Cards, id: string): string {
    DeviceIdentity.Lower(if id in cards then OrElse(cards[id].hostname, id) else id)
  }

  // ---------------------------------------------------------------- sorting by name

  /** Text compared character by character. */
  predicate AtMost(a: string, b: string) {
    a == "" || (b != "" && (a[0] < b[0] || (a[0] == b[0] && AtMost(a[1..], b[1..]))))
  }

  /** Up to some place the texts agree, and there the first one ends or has the smaller character. */
  predicate AgreeThenLess(a: string, b: string, k: nat) {
    k <= |a| && k <= |b| && a[..k] == b[..k] && (k == |a| || (k < |b| && a[k] < b[k]))
  }

  lemma {:induction false} AtMostIsLexicographic(a: string, b: string)
    ensures AtMost(a, b) <==> exists k: nat :: AgreeThenLess(a, b, k)
  {
    if a == "" {
      assert AgreeThenLess(a, b, 0);
    } else if b != "" {
      AtMostIsLexicographic(a[1..], b[1..]);
      if a[0] == b[0] && AtMost(a[1..], b[1..]) {
        var k: nat :| AgreeThenLess(a[1..], b[1..], k);
        assert a[..k + 1] == [a[0]] + a[1..][..k] && b[..k + 1] == [b[0]] + b[1..][..k];
        assert AgreeThenLess(a, b, k + 1);
      }
      if a[0] < b[0] { assert AgreeThenLess(a, b, 0); }
      if k: nat :| AgreeThenLess(a, b, k) {
        if k > 0 {
          assert a[0] == a[..k][0] == b[..k][0] == b[0];
          assert a[1..][..k - 1] == a[..k][1..] && b[1..][..k - 1] == b[..k][1..];
          assert AgreeThenLess(a[1..], b[1..], k - 1);
        }
      }
    }
  }

  lemma {:induction false} AtMostIsTotal(a: string, b: string)
    ensures AtMost(a, b) || AtMost(b, a)
    ensures AtMost(a, a)
  {
    if a != "" {
      AtMostIsTotal(a[1..], if b == "" then "" else b[1..]);
    }
  }

  lemma {:induction false} AtMostIsTransitive(a: string, b: string, c: string)
    requires AtMost(a, b) && AtMost(b, c)
    ensures AtMost(a, c)
  {
    if a != "" && a[0] == b[0] == c[0] {
      AtMostIsTransitive(a[1..], b[1..], c[1..]);
    }
  }

  /** Into a sorted list, behind all entries whose name is not greater. */
  function Inserted(cards: Cards, sorted: seq<string>, id: string): seq<string> {
    if sorted == [] then [id]
    else
      var n := |sorted| - 1;
      if AtMost(NameOf(cards, sorted[n]), NameOf(cards, id)) then sorted + [id]
      else Inserted(cards, sorted[..n], id) + [sorted[n]]
  }

  /** The stable sort by name. */
  function SortedByName(cards: Cards, ids: seq<string>): seq<string> {
    if ids == [] then [] else Inserted(cards, SortedByName(cards, ids[..|ids| - 1]), ids[|ids| - 1])
  }

  ghost predicate InNameOrder(cards: Cards, ids: seq<string>) {
    forall i, j :: 0 <= i < j < |ids| ==> AtMost(NameOf(cards, ids[i]), NameOf(cards, ids[j]))
  }

  function WithName(cards: Cards, ids: seq<string>, name: string): seq<string> {
    if ids == [] then []
    else
      WithName(cards, ids[..|ids| - 1], name) + IfNamed(cards, ids[|ids| - 1], name)
  }

  lemma {:induction false} InsertedIsOrdered(cards: Cards, sorted: seq<string>, id: string)
    requires InNameOrder(cards, sorted)
    ensures InNameOrder(cards, Inserted(cards, sorted, id))
    ensures multiset(Inserted(cards, sorted, id)) == multiset(sorted) + multiset{id}
    ensures |Inserted(cards, sorted, id)| == |sorted| + 1
  {
    if sorted != [] {
      var n := |sorted| - 1;
      var last := sorted[n];
      assert sorted == sorted[..n] + [last];
      if AtMost(NameOf(cards, last), NameOf(cards, id)) {
        SnocIsOrdered(cards, sorted, id);
      } else {
        AtMostIsTotal(NameOf(cards, last), NameOf(cards, id));
        InsertedIsOrdered(cards, sorted[..n], id);
        InsertedBelow(cards, sorted[..n], id, last);
      }
    }
  }

  lemma SnocIsOrdered(cards: Cards, sorted: seq<string>, id: string)
    requires sorted != [] && InNameOrder(cards, sorted)
    requires AtMost(NameOf(cards, sorted[|sorted| - 1]), NameOf(cards, id))
    ensures InNameOrder(cards, sorted + [id])
  {
    forall i | 0 <= i < |sorted| ensures AtMost(NameOf(cards, sorted[i]), NameOf(cards, id)) {
      if i < |sorted| - 1 {
        AtMostIsTransitive(NameOf(cards, sorted[i]), NameOf(cards, sorted[|sorted| - 1]), NameOf(cards, id));
      }
    }
  }

  /** Everything up to an upper bound stays below it after an insertion below it. */
  lemma InsertedBelow(cards: Cards, init: seq<string>, id: string, last: string)
    requires InNameOrder(cards, init + [last]) && InNameOrder(cards, Inserted(cards, init, id))
    requires multiset(Inserted(cards, init, id)) == multiset(init) + multiset{id}
    requires AtMost(NameOf(cards, id), NameOf(cards, last))
    ensures InNameOrder(cards, Inserted(cards, init, id) + [last])
  {
    var grown := Inserted(cards, init, id);
    forall i | 0 <= i < |grown| ensures AtMost(NameOf(cards, grown[i]), NameOf(cards, last)) {
      assert grown[i] in multiset(grown);
      if grown[i] != id {
        assert grown[i] in multiset(init);
        var j :| 0 <= j < |init| && init[j] == grown[i];
        assert (init + [last])[j] == grown[i] && (init + [last])[|init|] == last;
      }
    }
  }

  function IfNamed(cards: Cards, id: string, name: string): seq<string> {
    if NameOf(cards, id) == name then [id] else []
  }

  lemma WithNameSnoc(cards: Cards, ids: seq<string>, id: string, name: string)
    ensures WithName(cards, ids + [id], name) == WithName(cards, ids, name) + IfNamed(cards, id, name)
  {
    assert (ids + [id])[..|ids|] == ids;
  }

  lemma {:induction false} InsertedIsStable(cards: Cards, sorted: seq<string>, id: string, name: string)
    ensures WithName(cards, Inserted(cards, sorted, id), name)
            == WithName(cards, sorted, name) + IfNamed(cards, id, name)
  {
    if sorted == [] {
      WithNameSnoc(cards, [], id, name);
      assert [] + [id] == [id];
    } else {
      var n := |sorted| - 1;
      var init, last := sorted[..n], sorted[n];
      if AtMost(NameOf(cards, last), NameOf(cards, id)) {
        WithNameSnoc(cards, sorted, id, name);
      } else {
        AtMostIsTotal(NameOf(cards, id), NameOf(cards, last));
        InsertedIsStable(cards, init, id, name);
        WithNameSnoc(cards, Inserted(cards, init, id), last, name);
        Swapped(WithName(cards, init, name), IfNamed(cards, id, name), IfNamed(cards, last, name));
      }
    }
  }

  lemma Swapped(xs: seq<string>, ys: seq<string>, zs: seq<string>)
    requires ys == [] || zs == []
    ensures xs + ys + zs == xs + zs + ys
  {
  }

  /** Sorting orders by name, keeps every entry, and keeps entries of equal name in their order. */
  lemma {:induction false} SortIsStableByName(cards: Cards, ids: seq<string>)
    ensures InNameOrder(cards, SortedByName(cards, ids))
    ensures multiset(SortedByName(cards, ids)) == multiset(ids) && |SortedByName(cards, ids)| == |ids|
    ensures forall name :: WithName(cards, SortedByName(cards, ids), name) == WithName(cards, ids, name)
  {
    if ids != [] {
      var init, last := ids[..|ids| - 1], ids[|ids| - 1];
      assert ids == init + [last];
      SortIsStableByName(cards, init);
      InsertedIsOrdered(cards, SortedByName(cards, init), last);
      forall name ensures WithName(cards, SortedByName(cards, ids), name) == WithName(cards, ids, name) {
        InsertedIsStable(cards, SortedByName(cards, init), last, name);
      }
    }
  }

  // ---------------------------------------------------------------- layers

  function IdsOf(devices: seq<Card>): seq<string> {
    if devices == [] then []
    else
      var before, id := IdsOf(devices[..|devices| - 1]), devices[|devices| - 1].id;
      if id in before then before else before + [id]
  }

  function CardsOf(devices: seq<Card>): Cards {
    if devices == [] then map[]
    else CardsOf(devices[..|devices| - 1])[devices[|devices| - 1].id := devices[|devices| - 1]]
  }

  function Bucket(cards: Cards, ids: seq<string>, rank: nat): seq<string> {
    if ids == [] then []
    else
      var id := ids[|ids| - 1];
      Bucket(cards, ids[..|ids| - 1], rank) + if RankOf(cards, id) == rank then [id] else []
  }

  /** A layer: the devices of one rank by name. */
  function Layer(cards: Cards, ids: seq<string>, rank: nat): seq<string> {
    SortedByName(cards, Bucket(cards, ids, rank))
  }

  ghost predicate Distinct(ids: seq<string>) {
    forall i, j :: 0 <= i < j < |ids| ==> ids[i] != ids[j]
  }

  lemma {:induction false} BucketHolds(cards: Cards, ids: seq<string>, rank: nat)
    ensures forall id :: id in Bucket(cards, ids, rank) <==> id in ids && RankOf(cards, id) == rank
    ensures Distinct(ids) ==> Distinct(Bucket(cards, ids, rank))
  {
    if ids != [] {
      var init, last := ids[..|ids| - 1], ids[|ids| - 1];
      assert ids == init + [last];
      BucketHolds(cards, init, rank);
      if Distinct(ids) && RankOf(cards, last) == rank {
        assert last !in init;
      }
    }
  }

  lemma DistinctIffCountedOnce(ids: seq<string>)
    ensures Distinct(ids) <==> forall id :: multiset(ids)[id] <= 1
  {
    if Distinct(ids) {
      forall id ensures multiset(ids)[id] <= 1 { CountedOnce(ids, id); }
    } else {
      var i, j :| 0 <= i < j < |ids| && ids[i] == ids[j];
      assert ids == ids[..i] + [ids[i]] + ids[i + 1..j] + [ids[j]] + ids[j + 1..];
      assert multiset(ids)[ids[i]] >= 2;
    }
  }

  lemma {:induction false} CountedOnce(ids: seq<string>, id: string)
    requires Distinct(ids)
    ensures multiset(ids)[id] <= 1
  {
    if ids != [] {
      var init, last := ids[..|ids| - 1], ids[|ids| - 1];
      assert ids == init + [last];
      CountedOnce(init, id);
      if id == last { assert id !in multiset(init); }
    }
  }

  /** A layer holds exactly the devices of its rank, each once, in name order. */
  lemma LayerHolds(cards: Cards, ids: seq<string>, rank: nat)
    requires Distinct(ids)
    ensures var layer := Layer(cards, ids, rank);
            && Distinct(layer) && InNameOrder(cards, layer)
            && forall id :: id in layer <==> id in ids && RankOf(cards, id) == rank
  {
    var bucket, layer := Bucket(cards, ids, rank), Layer(cards, ids, rank);
    BucketHolds(cards, ids, rank);
    SortIsStableByName(cards, bucket);
    DistinctIffCountedOnce(bucket);
    DistinctIffCountedOnce(layer);
    forall id ensures id in layer <==> id in bucket {
      assert id in layer <==> id in multiset(layer);
      assert id in bucket <==> id in multiset(bucket);
    }
  }

  /** Devices come in the order in which their identifiers first occur. */
  lemma {:induction false} IdsKeepOrder(devices: seq<Card>, more: seq<Card>)
    ensures IdsOf(devices) <= IdsOf(devices + more)
  {
    if more == [] {
      assert devices + more == devices;
    } else {
      IdsKeepOrder(devices, more[..|more| - 1]);
      assert (devices + more)[..|devices + more| - 1] == devices + more[..|more| - 1];
    }
  }

  /** Of several devices of one identifier, the last one counts. */
  lemma {:induction false} CardIsLast(devices: seq<Card>, k: nat)
    requires k < |devices| && forall j :: k < j < |devices| ==> devices[j].id != devices[k].id
    ensures devices[k].id in CardsOf(devices) && CardsOf(devices)[devices[k].id] == devices[k]
  {
    if k < |devices| - 1 { CardIsLast(devices[..|devices| - 1], k); }
  }

  lemma {:induction false} IdsAreDistinct(devices: seq<Card>)
    ensures Distinct(IdsOf(devices))
    ensures forall id :: id in IdsOf(devices) <==> id in CardsOf(devices)
  {
    if devices != [] { IdsAreDistinct(devices[..|devices| - 1]); }
  }

  // ---------------------------------------------------------------- degrees

  function Degree(edges: seq<Edge>, id: string): nat {
    if edges == [] then 0
    else
      var edge := edges[|edges| - 1];
      Degree(edges[..|edges| - 1], id) + (if edge.source == id then 1 else 0) + (if edge.target == id then 1 else 0)
  }

  function Sources(edges: seq<Edge>, id: string): set<nat> { set k: nat | k < |edges| && edges[k].source == id }
  function TargetsAt(edges: seq<Edge>, id: string): set<nat> { set k: nat | k < |edges| && edges[k].target == id }

  lemma SourcesSnoc(edges: seq<Edge>, edge: Edge, id: string)
    ensures |Sources(edges + [edge], id)| == |Sources(edges, id)| + if edge.source == id then 1 else 0
  {
    assert Sources(edges + [edge], id) == Sources(edges, id) + if edge.source == id then {|edges|} else {};
  }

  lemma TargetsSnoc(edges: seq<Edge>, edge: Edge, id: string)
    ensures |TargetsAt(edges + [edge], id)| == |TargetsAt(edges, id)| + if edge.target == id then 1 else 0
  {
    assert TargetsAt(edges + [edge], id) == TargetsAt(edges, id) + if edge.target == id then {|edges|} else {};
  }

  /** The degree counts the edges that start at the device and those that end there. */
  lemma {:induction false} DegreeCountsEnds(edges: seq<Edge>, id: string)
    ensures Degree(edges, id) == |Sources(edges, id)| + |TargetsAt(edges, id)|
  {
    if edges == [] {
      assert Sources(edges, id) == {} && TargetsAt(edges, id) == {};
    } else {
      var init, last := edges[..|edges| - 1], edges[|edges| - 1];
      DegreeCountsEnds(init, id);
      SourcesSnoc(init, last, id);
      TargetsSnoc(init, last, id);
      assert init + [last] == edges;
    }
  }

  function DegreeSum(edges: seq<Edge>, ids: seq<string>): nat {
    if ids == [] then 0 else DegreeSum(edges, ids[..|ids| - 1]) + Degree(edges, ids[|ids| - 1])
  }

  /** How many edge ends are at one of the devices. */
  function KnownEnds(edges: seq<Edge>, ids: seq<string>): nat {
    if edges == [] then 0
    else
      var edge := edges[|edges| - 1];
      KnownEnds(edges[..|edges| - 1], ids) + (if edge.source in ids then 1 else 0) + (if edge.target in ids then 1 else 0)
  }

  lemma {:induction false} OneMoreEdge(edges: seq<Edge>, edge: Edge, ids: seq<string>)
    requires Distinct(ids)
    ensures DegreeSum(edges + [edge], ids)
            == DegreeSum(edges, ids) + (if edge.source in ids then 1 else 0) + (if edge.target in ids then 1 else 0)
  {
    if ids != [] {
      var init, last := ids[..|ids| - 1], ids[|ids| - 1];
      assert ids == init + [last] && last !in init;
      OneMoreEdge(edges, edge, init);
      assert (edges + [edge])[..|edges|] == edges;
    }
  }

  /** The degrees add up to the edge ends at known devices: twice the number of edges when all ends are known. */
  lemma {:induction false} DegreesAddUp(edges: seq<Edge>, ids: seq<string>)
    requires Distinct(ids)
    ensures DegreeSum(edges, ids) == KnownEnds(edges, ids)
    ensures (forall k :: 0 <= k < |edges| ==> edges[k].source in ids && edges[k].target in ids)
            <==> DegreeSum(edges, ids) == 2 * |edges|
    ensures DegreeSum(edges, ids) <= 2 * |edges|
  {
    if edges == [] {
      NoEdges(ids);
    } else {
      var init, last := edges[..|edges| - 1], edges[|edges| - 1];
      assert edges == init + [last];
      DegreesAddUp(init, ids);
      OneMoreEdge(init, last, ids);
    }
  }

  lemma {:induction false} NoEdges(ids: seq<string>)
    ensures DegreeSum([], ids) == 0
  {
    if ids != [] { NoEdges(ids[..|ids| - 1]); }
  }

  // ---------------------------------------------------------------- the assignment

  function ClusterOf(degree: nat, rank: nat): Cluster { if degree <= 1 && rank >= 5 then Collapse else Expand }

  /** A device's data: its slot is its place in the layer of its rank. */
  ghost predicate PlacedAt(cards: Cards, ids: seq<string>, edges: seq<Edge>, meta: map<string, Meta>, id: string)
    requires id in meta && id in cards
  {
    var rank, degree := RankOf(cards, id), Degree(edges, id);
    var layer := Layer(cards, ids, rank);
    meta[id].column < |layer| && layer[meta[id].column] == id
    && meta[id] == Meta(rank, RoleOf(cards[id]), meta[id].column, |layer|, degree, ClusterOf(degree, rank))
  }

  ghost predicate Placed(cards: Cards, ids: seq<string>, edges: seq<Edge>, meta: map<string, Meta>) {
    && (forall id :: id in meta <==> id in ids) && (forall id :: id in ids ==> id in cards)
    && forall id :: id in ids ==> PlacedAt(cards, ids, edges, meta, id)
  }

  method Index(devices: seq<Card>) returns (ids: seq<string>, cards: Cards)
    ensures ids == IdsOf(devices) && cards == CardsOf(devices)
  {
    ids, cards := [], map[];
    for i := 0 to |devices|
      invariant ids == IdsOf(devices[..i]) && cards == CardsOf(devices[..i])
    {
      assert devices[..i + 1][..i] == devices[..i];
      IdsAreDistinct(devices[..i]);
      if devices[i].id !in cards { ids := ids + [devices[i].id]; }
      cards := cards[devices[i].id := devices[i]];
    }
    assert devices[..|devices|] == devices;
  }

  function Held(buckets: map<nat, seq<string>>, rank: nat): seq<string> {
    if rank in buckets then buckets[rank] else []
  }

  lemma BucketSnoc(cards: Cards, ids: seq<string>, id: string, rank: nat)
    ensures Bucket(cards, ids + [id], rank) == Bucket(cards, ids, rank) + if RankOf(cards, id) == rank then [id] else []
  {
    assert (ids + [id])[..|ids|] == ids;
  }

  lemma OneMoreHeld(buckets: map<nat, seq<string>>, cards: Cards, ids: seq<string>, id: string)
    requires forall r :: Held(buckets, r) == Bucket(cards, ids, r)
    ensures var rank := RankOf(cards, id);
            forall r :: Held(buckets[rank := Held(buckets, rank) + [id]], r) == Bucket(cards, ids + [id], r)
  {
    var rank := RankOf(cards, id);
    forall r: nat ensures Held(buckets[rank := Held(buckets, rank) + [id]], r) == Bucket(cards, ids + [id], r) {
      BucketSnoc(cards, ids, id, r);
      assert Bucket(cards, ids, r) + [] == Bucket(cards, ids, r);
    }
  }

  method FillBuckets(ids: seq<string>, cards: Cards) returns (buckets: map<nat, seq<string>>)
    ensures forall r :: Held(buckets, r) == Bucket(cards, ids, r)
  {
    buckets := map[];
    for i := 0 to |ids|
      invariant forall r :: Held(buckets, r) == Bucket(cards, ids[..i], r)
    {
      assert ids[..i + 1] == ids[..i] + [ids[i]];
      OneMoreHeld(buckets, cards, ids[..i], ids[i]);
      var rank := RankOf(cards, ids[i]);
      var bucket := if rank in buckets then buckets[rank] else [];
      buckets := buckets[rank := bucket + [ids[i]]];
    }
    assert ids[..|ids|] == ids;
  }

  /** Packs one layer into columns. */
  method PackLayer(cards: Cards, rank: nat, layer: seq<string>, meta0: map<string, Meta>)
    returns (meta: map<string, Meta>)
    requires Distinct(layer) && forall id :: id in layer ==> id in cards
    ensures forall id :: id in meta <==> id in meta0 || id in layer
    ensures forall id :: id in meta0 && id !in layer ==> meta[id] == meta0[id]
    ensures forall c :: 0 <= c < |layer| ==>
              meta[layer[c]] == Meta(rank, RoleOf(cards[layer[c]]), c, |layer|, 0, Expand)
  {
    meta := meta0;
    for column := 0 to |layer|
      invariant forall id :: id in meta <==> id in meta0 || id in layer[..column]
      invariant forall id :: id in meta0 && id !in layer ==> meta[id] == meta0[id]
      invariant forall c :: 0 <= c < column ==>
                  meta[layer[c]] == Meta(rank, RoleOf(cards[layer[c]]), c, |layer|, 0, Expand)
    {
      var id := layer[column];
      meta := meta[id := Meta(rank, RoleOf(cards[id]), column, |layer|, 0, Expand)];
      assert layer[..column + 1] == layer[..column] + [id];
    }
    assert layer[..|layer|] == layer;
  }

  method CountDegrees(ids: seq<string>, edges: seq<Edge>) returns (degree: map<string, nat>)
    ensures forall id :: id in degree <==> id in ids
    ensures forall id :: id in ids ==> degree[id] == Degree(edges, id)
  {
    degree := map id | id in ids :: 0;
    for i := 0 to |edges|
      invariant forall id :: id in degree <==> id in ids
      invariant forall id :: id in ids ==> degree[id] == Degree(edges[..i], id)
    {
      assert edges[..i + 1][..i] == edges[..i];
      var source, target := edges[i].source, edges[i].target;
      if source in degree { degree := degree[source := degree[source] + 1]; }
      if target in degree { degree := degree[target := degree[target] + 1]; }
    }
    assert edges[..|edges|] == edges;
  }

  /** A device of a packed layer, before its degree is known. */
  ghost predicate PackedAt(cards: Cards, ids: seq<string>, meta: map<string, Meta>, id: string)
    requires id in meta && id in cards
  {
    var rank := RankOf(cards, id);
    var layer := Layer(cards, ids, rank);
    meta[id].column < |layer| && layer[meta[id].column] == id
    && meta[id] == Meta(rank, RoleOf(cards[id]), meta[id].column, |layer|, 0, Expand)
  }

  method PackLayers(ids: seq<string>, cards: Cards) returns (meta: map<string, Meta>)
    requires Distinct(ids) && forall id :: id in ids ==> id in cards
    ensures forall id :: id in meta <==> id in ids
    ensures forall id :: id in ids ==> PackedAt(cards, ids, meta, id)
  {
    var buckets := FillBuckets(ids, cards);
    meta := map[];
    for rank := 0 to RANK_COUNT
      invariant forall id :: id in meta <==> id in ids && RankOf(cards, id) < rank
      invariant forall id :: id in meta ==> PackedAt(cards, ids, meta, id)
    {
      var layer := SortedByName(cards, Held(buckets, rank));
      LayerHolds(cards, ids, rank);
      ghost var before := meta;
      meta := PackLayer(cards, rank, layer, meta);
      forall id | id in meta ensures PackedAt(cards, ids, meta, id) {
        if id in layer {
          var c :| 0 <= c < |layer| && layer[c] == id;
        } else {
          assert PackedAt(cards, ids, before, id);
        }
      }
    }
  }

  function WithDegree(meta: Meta, degree: nat): Meta {
    meta.(degree := degree, cluster := ClusterOf(degree, meta.rank))
  }

  method AddDegrees(ids: seq<string>, packed: map<string, Meta>, degree: map<string, nat>)
    returns (meta: map<string, Meta>)
    requires Distinct(ids) && forall id :: id in ids ==> id in packed && id in degree
    ensures forall id :: id in meta <==> id in packed
    ensures forall id :: id in ids ==> meta[id] == WithDegree(packed[id], degree[id])
  {
    meta := packed;
    for i := 0 to |ids|
      invariant forall id :: id in meta <==> id in packed
      invariant forall k :: 0 <= k < i ==> meta[ids[k]] == WithDegree(packed[ids[k]], degree[ids[k]])
      invariant forall k :: i <= k < |ids| ==> meta[ids[k]] == packed[ids[k]]
    {
      meta := meta[ids[i] := WithDegree(meta[ids[i]], degree[ids[i]])];
    }
  }

  method Assign(devices: seq<Card>, edges: seq<Edge>) returns (meta: map<string, Meta>)
    ensures Placed(CardsOf(devices), IdsOf(devices), edges, meta)
  {
    var ids, cards := Index(devices);
    IdsAreDistinct(devices);
    var packed := PackLayers(ids, cards);
    var degree := CountDegrees(ids, edges);
    meta := AddDegrees(ids, packed, degree);
    forall id | id in ids ensures PlacedAt(cards, ids, edges, meta, id) {
      assert PackedAt(cards, ids, packed, id);
    }
  }

  // ---------------------------------------------------------------- what a device's own fields decide

  predicate Missing(field: Option<string>) { field in {None, Some("")} }

  /** The layer is the network role, else the role, else "unknown"; sorting goes by the hostname, else the identifier. */
  ghost predicate FollowsFields(card: Card, layer: string, name: string) {
    && (!Missing(card.networkRole) ==> card.networkRole == Some(layer))
    && (Missing(card.networkRole) && !Missing(card.role) ==> card.role == Some(layer))
    && (Missing(card.networkRole) && Missing(card.role) ==> layer == "unknown")
    && name == DeviceIdentity.Lower(if Missing(card.hostname) then card.id else card.hostname.value)
  }

  lemma CardDecides(cards: Cards, card: Card)
    requires card.id in cards && cards[card.id] == card
    ensures FollowsFields(card, RoleOf(card), NameOf(cards, card.id))
  {
  }

  lemma LayerAt(cards: Cards, ids: seq<string>, edges: seq<Edge>, meta: map<string, Meta>, id: string)
    requires Placed(cards, ids, edges, meta) && id in ids
    ensures id in meta && id in cards && meta[id].layer == RoleOf(cards[id])
  {
    assert PlacedAt(cards, ids, edges, meta, id);
  }

  lemma FieldsDecide(devices: seq<Card>, edges: seq<Edge>, meta: map<string, Meta>, k: nat)
    requires Placed(CardsOf(devices), IdsOf(devices), edges, meta)
    requires k < |devices| && forall j :: k < j < |devices| ==> devices[j].id != devices[k].id
    ensures var card := devices[k];
            card.id in meta && FollowsFields(card, meta[card.id].layer, NameOf(CardsOf(devices), card.id))
  {
    CardIsLast(devices, k);
    IdsAreDistinct(devices);
    LayerAt(CardsOf(devices), IdsOf(devices), edges, meta, devices[k].id);
    CardDecides(CardsOf(devices), devices[k]);
  }

  /** The rank goes by the layer in lower case; leaves of the two last ranks collapse. */
  lemma LayerDecidesRank(devices: seq<Card>, edges: seq<Edge>, meta: map<string, Meta>, id: string)
    requires Placed(CardsOf(devices), IdsOf(devices), edges, meta) && id in meta
    ensures var m := meta[id];
            var role := DeviceIdentity.Lower(m.layer);
            && m.rank == (match role
                          case "firewall" => 0
                          case "router" => 1
                          case "core" => 2
                          case "distribution" => 3
                          case "access" => 4
                          case "server" => 6
                          case "storage" => 6
                          case _ => 5)
            && m.degree == Degree(edges, id)
            && (m.cluster == Collapse <==> m.rank in {5, 6} && m.degree in {0, 1})
  {
    assert PlacedAt(CardsOf(devices), IdsOf(devices), edges, meta, id);
  }

  // ---------------------------------------------------------------- what the packing promises

  /** No two devices share a slot. */
  lemma SlotsAreUnique(devices: seq<Card>, edges: seq<Edge>, meta: map<string, Meta>, a: string, b: string)
    requires Placed(CardsOf(devices), IdsOf(devices), edges, meta) && a in meta && b in meta
    requires meta[a].rank == meta[b].rank && meta[a].column == meta[b].column
    ensures a == b
  {
    assert PlacedAt(CardsOf(devices), IdsOf(devices), edges, meta, a);
    assert PlacedAt(CardsOf(devices), IdsOf(devices), edges, meta, b);
  }

  /** Every column below the layer's width is taken by a device of that rank, and no other column is. */
  lemma ColumnsAreFilled(devices: seq<Card>, edges: seq<Edge>, meta: map<string, Meta>, id: string, column: nat)
    requires Placed(CardsOf(devices), IdsOf(devices), edges, meta) && id in meta
    ensures column < meta[id].columnsInLayer
            <==> exists other :: other in meta && meta[other].rank == meta[id].rank && meta[other].column == column
  {
    var cards, ids := CardsOf(devices), IdsOf(devices);
    assert PlacedAt(cards, ids, edges, meta, id);
    IdsAreDistinct(devices);
    var layer := Layer(cards, ids, meta[id].rank);
    LayerHolds(cards, ids, meta[id].rank);
    if column < |layer| {
      var other := layer[column];
      assert other in layer;
      assert PlacedAt(cards, ids, edges, meta, other);
      var k := meta[other].column;
      assert layer[k] == other;
      assert k == column;
    }
    forall other | other in meta && meta[other].rank == meta[id].rank ensures meta[other].column < |layer| {
      assert PlacedAt(cards, ids, edges, meta, other);
    }
  }

  /** Within a layer, columns follow the names. */
  lemma ColumnsFollowNames(devices: seq<Card>, edges: seq<Edge>, meta: map<string, Meta>, a: string, b: string)
    requires Placed(CardsOf(devices), IdsOf(devices), edges, meta) && a in meta && b in meta
    requires meta[a].rank == meta[b].rank && meta[a].column < meta[b].column
    ensures AtMost(NameOf(CardsOf(devices), a), NameOf(CardsOf(devices), b))
  {
    var cards, ids := CardsOf(devices), IdsOf(devices);
    assert PlacedAt(cards, ids, edges, meta, a);
    assert PlacedAt(cards, ids, edges, meta, b);
    IdsAreDistinct(devices);
    LayerHolds(cards, ids, meta[a].rank);
  }

  function MetaDegreeSum(meta: map<string, Meta>, ids: seq<string>): nat
    requires forall id :: id in ids ==> id in meta
  {
    if ids == [] then 0
    else
      assert ids[|ids| - 1] in ids && forall id :: id in ids[..|ids| - 1] ==> id in ids;
      MetaDegreeSum(meta, ids[..|ids| - 1]) + meta[ids[|ids| - 1]].degree
  }

  lemma {:induction false} MetaDegreesAre(
    cards: Cards, all: seq<string>, edges: seq<Edge>, meta: map<string, Meta>, ids: seq<string>)
    requires Placed(cards, all, edges, meta) && forall id :: id in ids ==> id in all
    ensures MetaDegreeSum(meta, ids) == DegreeSum(edges, ids)
  {
    if ids != [] {
      var init, last := ids[..|ids| - 1], ids[|ids| - 1];
      assert ids == init + [last];
      MetaDegreesAre(cards, all, edges, meta, init);
      assert PlacedAt(cards, all, edges, meta, last);
    }
  }

  /** The degrees handed out add up to the edge ends at known devices. */
  lemma LayoutConservesEdgeEnds(devices: seq<Card>, edges: seq<Edge>, meta: map<string, Meta>)
    requires Placed(CardsOf(devices), IdsOf(devices), edges, meta)
    ensures MetaDegreeSum(meta, IdsOf(devices)) == KnownEnds(edges, IdsOf(devices))
    ensures MetaDegreeSum(meta, IdsOf(devices)) == 2 * |edges|
            <==> forall k :: 0 <= k < |edges| ==>
                   edges[k].source in IdsOf(devices) && edges[k].target in IdsOf(devices)
  {
    IdsAreDistinct(devices);
    DegreesAddUp(edges, IdsOf(devices));
    MetaDegreesAre(CardsOf(devices), IdsOf(devices), edges, meta, IdsOf(devices));
  }
}
