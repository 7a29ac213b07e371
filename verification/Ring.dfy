/** Consistent hashing (internal/gateway/ring.go) and the operator tools built on it
    (internal/ops/rebalance.go, internal/ops/simulate.go). */
module Ring {
  import opened Bytes

  datatype NodeConfig = NodeConfig(id: string, url: string, weight: int)

  datatype Point = Point(hash: u64, node: string)

  /** FNV-1a of "id:i" and of a key; never looked into. */
  datatype Hashing = Hashing(point: (string, nat) -> u64, key: bytes -> u64)

  const DEFAULT_VIRTUAL_NODES := 128

  function PointCount(n: NodeConfig, virtualNodes: int): (c: nat)
    ensures c > 0
  {
    var v := if virtualNodes <= 0 then DEFAULT_VIRTUAL_NODES else virtualNodes;
    var w := if n.weight <= 0 then 1 else n.weight;
    Positive(v, w);
    v * w
  }

  lemma Positive(v: int, w: int)
    requires v > 0 && w > 0
    ensures v * w > 0
  {
  }

  /** The first c points of a node. */
  function NodePoints(h: Hashing, id: string, c: nat): (ps: seq<Point>)
    ensures |ps| == c && forall p :: p in ps ==> p.node == id
  {
    if c == 0 then [] else NodePoints(h, id, c - 1) + [Point(h.point(id, c - 1), id)]
  }

  function PointsOf(h: Hashing, nodes: seq<NodeConfig>, virtualNodes: int): seq<Point> {
    if nodes == [] then []
    else
      var n := nodes[|nodes| - 1];
      PointsOf(h, nodes[..|nodes| - 1], virtualNodes) + NodePoints(h, n.id, PointCount(n, virtualNodes))
  }

  lemma {:induction false} PointMember(h: Hashing, nodes: seq<NodeConfig>, virtualNodes: int, p: Point)
    ensures p in PointsOf(h, nodes, virtualNodes)
        <==> exists n :: n in nodes && p in NodePoints(h, n.id, PointCount(n, virtualNodes))
  {
    if nodes != [] {
      PointMember(h, nodes[..|nodes| - 1], virtualNodes, p);
      assert nodes == nodes[..|nodes| - 1] + [nodes[|nodes| - 1]];
    }
  }

  lemma {:induction false} NodePointsAre(h: Hashing, id: string, c: nat, p: Point)
    ensures p in NodePoints(h, id, c) <==> exists i: nat :: i < c && p == Point(h.point(id, i), id)
  {
    if c > 0 {
      NodePointsAre(h, id, c - 1, p);
      if p == Point(h.point(id, c - 1), id) { assert p in NodePoints(h, id, c); }
    }
  }

  lemma OneNode(h: Hashing, n: NodeConfig, virtualNodes: int)
    ensures |PointsOf(h, [n], virtualNodes)| == PointCount(n, virtualNodes)
  {
    assert [n][..0] == [];
    assert PointsOf(h, [], virtualNodes) == [];
    assert PointsOf(h, [n], virtualNodes) == [] + NodePoints(h, n.id, PointCount(n, virtualNodes));
  }

  /** A node of weight w has w times the virtual nodes of one of weight 1; zero and below mean 1 and 128. */
  lemma WeightedPoints(h: Hashing, n: NodeConfig, virtualNodes: int)
    ensures virtualNodes > 0 && n.weight > 0 ==> |PointsOf(h, [n], virtualNodes)| == virtualNodes * n.weight
    ensures virtualNodes > 0 && n.weight <= 0 ==> |PointsOf(h, [n], virtualNodes)| == virtualNodes
    ensures virtualNodes <= 0 && n.weight > 0 ==> |PointsOf(h, [n], virtualNodes)| == 128 * n.weight
    ensures virtualNodes <= 0 && n.weight <= 0 ==> |PointsOf(h, [n], virtualNodes)| == 128
  {
    hide PointsOf;
    OneNode(h, n, virtualNodes);
  }

  /** Each node has its own points, numbered from 0, whatever other nodes there are. */
  lemma {:induction false} PointIff(h: Hashing, nodes: seq<NodeConfig>, virtualNodes: int, p: Point)
    ensures p in PointsOf(h, nodes, virtualNodes)
        <==> exists n, i: nat ::
               n in nodes && i < |PointsOf(h, [n], virtualNodes)| && p == Point(h.point(n.id, i), n.id)
  {
    PointMember(h, nodes, virtualNodes, p);
    hide PointsOf, NodePoints, PointCount;
    forall n: NodeConfig
      ensures p in NodePoints(h, n.id, PointCount(n, virtualNodes))
         <==> exists i: nat :: i < |PointsOf(h, [n], virtualNodes)| && p == Point(h.point(n.id, i), n.id)
    {
      OneNode(h, n, virtualNodes);
      NodePointsAre(h, n.id, PointCount(n, virtualNodes), p);
    }
  }

  // ---- the ring ----

  ghost predicate SortedRing(ring: seq<Point>) {
    forall i, j :: 0 <= i < j < |ring| ==> ring[i].hash <= ring[j].hash
  }

  /** sort.Slice is not stable: any sorted permutation of the points may come out. */
  ghost predicate IsRing(ring: seq<Point>, points: seq<Point>) {
    SortedRing(ring) && multiset(ring) == multiset(points)
  }

  /** Clockwise distance on the circle of uint64 hashes. */
  function Distance(from: u64, to: u64): u64 {
    if to >= from then to - from else to - from + U64_SIZE
  }

  /** No point lies strictly between the key and p, going clockwise. */
  ghost predicate Closest(points: seq<Point>, key: u64, p: Point) {
    p in points && forall q :: q in points ==> Distance(key, p.hash) <= Distance(key, q.hash)
  }

  /** Validation: non-empty and pairwise distinct IDs and URLs. */
  ghost predicate ValidNodes(nodes: seq<NodeConfig>) {
    && nodes != []
    && (forall i :: 0 <= i < |nodes| ==> nodes[i].id != "" && nodes[i].url != "")
    && (forall i, j :: 0 <= i < j < |nodes| ==> nodes[i].id != nodes[j].id && nodes[i].url != nodes[j].url)
  }

  method ValidateNodes(nodes: seq<NodeConfig>) returns (ok: bool)
    ensures ok <==> ValidNodes(nodes)
  {
    if nodes == [] { return false; }
    var ids: set<string>, urls: set<string> := {}, {};
    for i := 0 to |nodes|
      invariant forall j :: 0 <= j < i ==> nodes[j].id != "" && nodes[j].url != ""
      invariant forall j, k :: 0 <= j < k < i ==> nodes[j].id != nodes[k].id && nodes[j].url != nodes[k].url
      invariant forall s :: s in ids <==> exists j :: 0 <= j < i && nodes[j].id == s
      invariant forall s :: s in urls <==> exists j :: 0 <= j < i && nodes[j].url == s
    {
      var n := nodes[i];
      if n.id == "" || n.url == "" || n.id in ids || n.url in urls { return false; }
      ids, urls := ids + {n.id}, urls + {n.url};
    }
    return true;
  }

  /** One insertion of the sort. */
  method Insert(ring: seq<Point>, p: Point) returns (r: seq<Point>)
    requires SortedRing(ring)
    ensures SortedRing(r) && multiset(r) == multiset(ring) + multiset{p}
  {
    var i := |ring|;
    while i > 0 && ring[i - 1].hash > p.hash
      invariant 0 <= i <= |ring|
      invariant forall j :: i <= j < |ring| ==> p.hash <= ring[j].hash
    {
      i := i - 1;
    }
    r := ring[..i] + [p] + ring[i..];
    Inserted(ring, p, i);
  }

  lemma Inserted(ring: seq<Point>, p: Point, i: nat)
    requires SortedRing(ring) && i <= |ring|
    requires forall j :: i <= j < |ring| ==> p.hash <= ring[j].hash
    requires i > 0 ==> ring[i - 1].hash <= p.hash
    ensures SortedRing(ring[..i] + [p] + ring[i..])
    ensures multiset(ring[..i] + [p] + ring[i..]) == multiset(ring) + multiset{p}
  {
    InsertedSorted(ring, p, i);
    InsertedElements(ring[..i], ring[i..], p);
    assert ring == ring[..i] + ring[i..];
  }

  lemma InsertedElements(a: seq<Point>, b: seq<Point>, p: Point)
    ensures multiset(a + [p] + b) == multiset(a + b) + multiset{p}
  {
  }

  lemma InsertedSorted(ring: seq<Point>, p: Point, i: nat)
    requires SortedRing(ring) && i <= |ring|
    requires forall j :: i <= j < |ring| ==> p.hash <= ring[j].hash
    requires i > 0 ==> ring[i - 1].hash <= p.hash
    ensures SortedRing(ring[..i] + [p] + ring[i..])
  {
    var r := ring[..i] + [p] + ring[i..];
    forall a, b | 0 <= a < b < |r| ensures r[a].hash <= r[b].hash {
      if a == i {
        assert r[b] == ring[b - 1];
      } else if b == i {
        assert r[a] == ring[a];
      } else {
        var c, d := if a < i then a else a - 1, if b < i then b else b - 1;
        assert r[a] == ring[c] && r[b] == ring[d];
      }
    }
  }

  /** newHashRing. */
  method NewHashRing(h: Hashing, nodes: seq<NodeConfig>, virtualNodes: int) returns (ring: Option<seq<Point>>)
    ensures ring.Some? <==> ValidNodes(nodes)
    ensures ring.Some? ==> IsRing(ring.value, PointsOf(h, nodes, virtualNodes)) && ring.value != []
  {
    var ok := ValidateNodes(nodes);
    if !ok { return None; }
    hide ValidNodes;
    var points: seq<Point> := [];
    for n := 0 to |nodes|
      invariant points == PointsOf(h, nodes[..n], virtualNodes) && (n > 0 ==> points != [])
    {
      assert nodes[..n + 1][..n] == nodes[..n] && nodes[..n + 1][n] == nodes[n];
      var count := PointCount(nodes[n], virtualNodes);
      ghost var start := points;
      for i := 0 to count
        invariant points == start + NodePoints(h, nodes[n].id, i)
      {
        points := points + [Point(h.point(nodes[n].id, i), nodes[n].id)];
      }
    }
    assert nodes[..|nodes|] == nodes;
    var sorted: seq<Point> := [];
    for i := 0 to |points|
      invariant SortedRing(sorted) && multiset(sorted) == multiset(points[..i])
    {
      assert points[..i + 1] == points[..i] + [points[i]];
      sorted := Insert(sorted, points[i]);
    }
    assert points[..|points|] == points;
    assert points[0] in multiset(sorted);
    return Some(sorted);
  }

  /** nodeForKey's binary search with wrap-around finds a clockwise-closest point. */
  method NodeForKey(h: Hashing, ring: seq<Point>, key: bytes) returns (p: Option<Point>)
    requires SortedRing(ring) && ring != []
    ensures p.None? <==> key == []
    ensures p.Some? ==> Closest(ring, h.key(key), p.value)
  {
    if key == [] { return None; }
    var k := h.key(key);
    var lo, hi := 0, |ring|;
    while lo < hi
      invariant 0 <= lo <= hi <= |ring|
      invariant forall i :: 0 <= i < lo ==> ring[i].hash < k
      invariant forall i :: hi <= i < |ring| ==> k <= ring[i].hash
    {
      var mid := (lo + hi) / 2;
      if ring[mid].hash >= k { hi := mid; } else { lo := mid + 1; }
    }
    var at := if lo >= |ring| then 0 else lo;
    forall q | q in ring ensures Distance(k, ring[at].hash) <= Distance(k, q.hash) {
      var i :| 0 <= i < |ring| && ring[i] == q;
    }
    return Some(ring[at]);
  }

  // ---- ownership does not depend on the sort ----

  /** Points of different nodes never share a hash. */
  ghost predicate NoCollision(points: seq<Point>) {
    forall p, q :: p in points && q in points && p.hash == q.hash ==> p.node == q.node
  }

  lemma DistanceInjective(k: u64, a: u64, b: u64)
    requires Distance(k, a) == Distance(k, b)
    ensures a == b
  {
  }

  lemma SameElements(ring: seq<Point>, points: seq<Point>, p: Point)
    requires multiset(ring) == multiset(points)
    ensures p in ring <==> p in points
  {
    assert p in ring <==> p in multiset(ring);
    assert p in points <==> p in multiset(points);
  }

  lemma ClosestInPoints(ring: seq<Point>, points: seq<Point>, k: u64, p: Point)
    requires IsRing(ring, points) && Closest(ring, k, p)
    ensures Closest(points, k, p)
  {
    SameElements(ring, points, p);
    forall q | q in points ensures Distance(k, p.hash) <= Distance(k, q.hash) { SameElements(ring, points, q); }
  }

  /** Without collisions a key has one owner, whatever order the sort left equal hashes in. */
  lemma OwnerUnique(points: seq<Point>, k: u64, p: Point, q: Point)
    requires NoCollision(points) && Closest(points, k, p) && Closest(points, k, q)
    ensures p.node == q.node
  {
    DistanceInjective(k, p.hash, q.hash);
  }

  /** And that is exactly when: every key has one owner if and only if no two nodes share a hash. */
  lemma OwnerUniqueIff(points: seq<Point>)
    ensures NoCollision(points)
        <==> forall k, p, q :: Closest(points, k, p) && Closest(points, k, q) ==> p.node == q.node
  {
    if NoCollision(points) {
      forall k, p, q | Closest(points, k, p) && Closest(points, k, q) ensures p.node == q.node {
        OwnerUnique(points, k, p, q);
      }
    } else {
      var p, q :| p in points && q in points && p.hash == q.hash && p.node != q.node;
      assert Closest(points, p.hash, p) && Closest(points, p.hash, q);
    }
  }

  /** Two nodes that share a hash: both orders are sorted permutations, and they disagree on the owner. */
  lemma CollisionIsAmbiguous(a: Point, b: Point)
    requires a.hash == b.hash && a.node != b.node
    ensures IsRing([a, b], [a, b]) && IsRing([b, a], [a, b])
    ensures Closest([a, b], a.hash, a) && Closest([b, a], a.hash, b)
  {
    assert [b, a] == [b] + [a];
    assert multiset([b, a]) == multiset{a, b};
  }
}
