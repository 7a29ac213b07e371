/** The operator's planning tools (internal/ops/rebalance.go, internal/ops/simulate.go): routing before
    and after a change of the node set, and the minimal movement consistent hashing promises. */
module Operations {
  import opened Bytes
  import opened Ring

  // ---- minimal movement ----

  function Keep(nodes: seq<NodeConfig>, removed: set<string>): seq<NodeConfig> {
    if nodes == [] then []
    else
      var n := nodes[|nodes| - 1];
      Keep(nodes[..|nodes| - 1], removed) + if n.id in removed then [] else [n]
  }

  lemma {:induction false} KeepMember(nodes: seq<NodeConfig>, removed: set<string>, n: NodeConfig)
    ensures n in Keep(nodes, removed) <==> n in nodes && n.id !in removed
  {
    if nodes != [] {
      KeepMember(nodes[..|nodes| - 1], removed, n);
      assert nodes == nodes[..|nodes| - 1] + [nodes[|nodes| - 1]];
    }
  }

  ghost predicate HasId(nodes: seq<NodeConfig>, id: string) {
    exists i :: 0 <= i < |nodes| && nodes[i].id == id
  }

  /** The points of the kept nodes are the current points that belong to no removed node. */
  lemma KeptPoint(h: Hashing, nodes: seq<NodeConfig>, removed: set<string>, v: int, p: Point)
    ensures p in PointsOf(h, Keep(nodes, removed), v) <==> p in PointsOf(h, nodes, v) && p.node !in removed
  {
    PointMember(h, nodes, v, p);
    PointMember(h, Keep(nodes, removed), v, p);
    forall n ensures n in Keep(nodes, removed) <==> n in nodes && n.id !in removed { KeepMember(nodes, removed, n); }
  }

  /** The planned ring is the kept points and those of the added nodes. */
  lemma PlannedPoint(h: Hashing, kept: seq<NodeConfig>, added: seq<NodeConfig>, v: int, q: Point)
    ensures q in PointsOf(h, kept, v) ==> q in PointsOf(h, kept + added, v)
    ensures q in PointsOf(h, kept + added, v) ==> q in PointsOf(h, kept, v) || HasId(added, q.node)
  {
    PointMember(h, kept, v, q);
    PointMember(h, kept + added, v, q);
    if n :| n in kept && q in NodePoints(h, n.id, PointCount(n, v)) {
      assert n in kept + added;
    } else if n :| n in kept + added && q in NodePoints(h, n.id, PointCount(n, v)) {
      var i :| 0 <= i < |added| && added[i] == n;
      assert HasId(added, q.node);
    }
  }

  /** Removing and adding nodes re-routes a key only away from a removed node or onto an added one,
      and every key of a removed node does move unless the node is added back. Only the nodes that
      stay need distinct hashes. */
  lemma MinimalMovement(h: Hashing, nodes: seq<NodeConfig>, removed: set<string>, added: seq<NodeConfig>, v: int,
                        k: u64, p: Point, q: Point)
    requires Closest(PointsOf(h, nodes, v), k, p) && Closest(PointsOf(h, Keep(nodes, removed) + added, v), k, q)
    requires NoCollision(PointsOf(h, Keep(nodes, removed), v))
    ensures p.node != q.node ==> p.node in removed || HasId(added, q.node)
    ensures p.node in removed && !HasId(added, p.node) ==> p.node != q.node
  {
    hide PointsOf, Keep;
    var kept := Keep(nodes, removed);
    KeptPoint(h, nodes, removed, v, p);
    KeptPoint(h, nodes, removed, v, q);
    PlannedPoint(h, kept, added, v, p);
    PlannedPoint(h, kept, added, v, q);
    if p.node !in removed && !HasId(added, q.node) { DistanceInjective(k, p.hash, q.hash); }
  }

  /** Exactly when: a key of a node that stays keeps its node, whatever the sorts do with equal hashes,
      if and only if no two nodes that stay share a hash. */
  lemma StayingKeysStayIff(h: Hashing, nodes: seq<NodeConfig>, removed: set<string>, v: int)
    ensures NoCollision(PointsOf(h, Keep(nodes, removed), v))
        <==> forall k, p, q ::
               (Closest(PointsOf(h, nodes, v), k, p) && p.node !in removed
                && Closest(PointsOf(h, Keep(nodes, removed), v), k, q)) ==> p.node == q.node
  {
    hide PointsOf, Keep;
    var all, kept := PointsOf(h, nodes, v), PointsOf(h, Keep(nodes, removed), v);
    forall p ensures p in kept <==> p in all && p.node !in removed { KeptPoint(h, nodes, removed, v, p); }
    if NoCollision(kept) {
      forall k, p, q | Closest(all, k, p) && p.node !in removed && Closest(kept, k, q) ensures p.node == q.node {
        DistanceInjective(k, p.hash, q.hash);
      }
    } else {
      var p, q :| p in kept && q in kept && p.hash == q.hash && p.node != q.node;
      assert Closest(all, p.hash, p) && Closest(kept, p.hash, q);
    }
  }

  // ---- routing ----

  /** Some ring of these nodes, whatever the sort did, routes the key to the node. */
  ghost predicate Owns(h: Hashing, nodes: seq<NodeConfig>, v: int, key: bytes, id: string) {
    exists p :: Closest(PointsOf(h, nodes, v), h.key(key), p) && p.node == id
  }

  /** An empty key has no node; any other is routed to its owner. */
  ghost predicate RoutedTo(h: Hashing, nodes: seq<NodeConfig>, v: int, key: bytes, id: string) {
    if key == [] then id == "" else Owns(h, nodes, v, key, id)
  }

  // ---- PlanManualRebalance ----

  datatype Movement = Movement(key: bytes, from: string, to: string, moved: bool)

  datatype PlanError = InvalidSimulation | UnknownNode | NoHealthyNodes | InvalidConfig

  datatype PlanResult = Plan(movements: seq<Movement>, moved: nat, stable: nat) | PlanFailed(err: PlanError)

  function CountMoved(ms: seq<Movement>): nat {
    if ms == [] then 0 else CountMoved(ms[..|ms| - 1]) + if ms[|ms| - 1].moved then 1 else 0
  }

  lemma {:induction false} CountBound(ms: seq<Movement>)
    ensures CountMoved(ms) <= |ms|
  {
    if ms != [] { CountBound(ms[..|ms| - 1]); }
  }

  /** The node a route leads to; an empty key has none. */
  function NameOf(p: Option<Point>): string {
    if p.Some? then p.value.node else ""
  }

  /** What a plan promises of one movement. */
  ghost predicate Minimal(m: Movement, removed: set<string>, added: seq<NodeConfig>) {
    && (m.moved <==> m.from != m.to)
    && (m.moved ==> m.from in removed || HasId(added, m.to))
    && (m.key != [] && m.from in removed && !HasId(added, m.from) ==> m.moved)
  }

  function IdsOf(nodes: seq<NodeConfig>): set<string> {
    set n | n in nodes :: n.id
  }

  function SetOf(ids: seq<string>): set<string> {
    set id | id in ids
  }

  method PlanManualRebalance(h: Hashing, nodes: seq<NodeConfig>, v: int, removedIds: seq<string>,
                             added: seq<NodeConfig>, keys: seq<bytes>) returns (r: PlanResult)
    ensures r == PlanFailed(InvalidSimulation) <==> keys == []
    ensures r == PlanFailed(UnknownNode)
            <==> keys != [] && exists i :: 0 <= i < |removedIds| && removedIds[i] !in IdsOf(nodes)
    ensures r.Plan? <==> keys != [] && (forall i :: 0 <= i < |removedIds| ==> removedIds[i] in IdsOf(nodes))
                         && ValidNodes(nodes) && ValidNodes(Keep(nodes, SetOf(removedIds)) + added)
    ensures r == PlanFailed(NoHealthyNodes)
            <==> keys != [] && (forall i :: 0 <= i < |removedIds| ==> removedIds[i] in IdsOf(nodes))
                 && Keep(nodes, SetOf(removedIds)) + added == []
    ensures r.Plan? ==> |r.movements| == |keys| && r.moved == CountMoved(r.movements) && r.moved + r.stable == |keys|
    ensures r.Plan? ==>
              forall i :: 0 <= i < |keys| ==>
                && r.movements[i].key == keys[i] && (r.movements[i].moved <==> r.movements[i].from != r.movements[i].to)
                && RoutedTo(h, nodes, v, keys[i], r.movements[i].from)
                && RoutedTo(h, Keep(nodes, SetOf(removedIds)) + added, v, keys[i], r.movements[i].to)
    ensures r.Plan? && NoCollision(PointsOf(h, Keep(nodes, SetOf(removedIds)), v)) ==>
              forall i :: 0 <= i < |keys| ==> Minimal(r.movements[i], SetOf(removedIds), added)
  {
    if keys == [] { return PlanFailed(InvalidSimulation); }
    var removed: set<string> := {};
    for i := 0 to |removedIds|
      invariant forall j :: 0 <= j < i ==> removedIds[j] in IdsOf(nodes)
      invariant removed == SetOf(removedIds[..i])
    {
      if removedIds[i] !in IdsOf(nodes) { return PlanFailed(UnknownNode); }
      assert removedIds[..i + 1] == removedIds[..i] + [removedIds[i]];
      removed := removed + {removedIds[i]};
    }
    assert removedIds[..|removedIds|] == removedIds;
    var planned := Keep(nodes, removed) + added;
    if planned == [] { return PlanFailed(NoHealthyNodes); }
    var current := NewHashRing(h, nodes, v);
    if current.None? { return PlanFailed(InvalidConfig); }
    var next := NewHashRing(h, planned, v);
    if next.None? { return PlanFailed(InvalidConfig); }
    hide PointsOf, Keep, ValidNodes, RoutedTo, NoCollision, Minimal;
    var movements, moved := Movements(h, nodes, v, removed, added, current.value, next.value, keys);
    CountBound(movements);
    return Plan(movements, moved, |keys| - moved);
  }

  /** One sample key routed before and after. */
  method Reroute(h: Hashing, nodes: seq<NodeConfig>, v: int, removed: set<string>, added: seq<NodeConfig>,
                 current: seq<Point>, next: seq<Point>, key: bytes) returns (m: Movement)
    requires IsRing(current, PointsOf(h, nodes, v)) && current != []
    requires IsRing(next, PointsOf(h, Keep(nodes, removed) + added, v)) && next != []
    ensures m.key == key && (m.moved <==> m.from != m.to)
    ensures RoutedTo(h, nodes, v, key, m.from) && RoutedTo(h, Keep(nodes, removed) + added, v, key, m.to)
    ensures NoCollision(PointsOf(h, Keep(nodes, removed), v)) ==> Minimal(m, removed, added)
  {
    var from := NodeForKey(h, current, key);
    var to := NodeForKey(h, next, key);
    m := Movement(key, NameOf(from), NameOf(to), NameOf(from) != NameOf(to));
    RingRoutes(h, nodes, v, current, key, from);
    RingRoutes(h, Keep(nodes, removed) + added, v, next, key, to);
    hide NoCollision, Closest, HasId, IsRing, PointsOf, Keep, Minimal, RoutedTo;
    if NoCollision(PointsOf(h, Keep(nodes, removed), v)) {
      RoutesMinimal(h, nodes, v, removed, added, current, next, from, to, m);
    }
  }

  /** What NodeForKey finds on any ring of the nodes is an owner. */
  lemma RingRoutes(h: Hashing, nodes: seq<NodeConfig>, v: int, ring: seq<Point>, key: bytes, p: Option<Point>)
    requires IsRing(ring, PointsOf(h, nodes, v)) && (p.None? <==> key == [])
    requires p.Some? ==> Closest(ring, h.key(key), p.value)
    ensures RoutedTo(h, nodes, v, key, NameOf(p))
  {
    hide IsRing, Closest, PointsOf;
    if p.Some? { ClosestInPoints(ring, PointsOf(h, nodes, v), h.key(key), p.value); }
  }

  /** The loop over the sample keys. */
  method Movements(h: Hashing, nodes: seq<NodeConfig>, v: int, removed: set<string>, added: seq<NodeConfig>,
                   current: seq<Point>, next: seq<Point>, keys: seq<bytes>) returns (ms: seq<Movement>, moved: nat)
    requires IsRing(current, PointsOf(h, nodes, v)) && current != []
    requires IsRing(next, PointsOf(h, Keep(nodes, removed) + added, v)) && next != []
    ensures |ms| == |keys| && moved == CountMoved(ms)
    ensures forall i :: 0 <= i < |keys| ==>
              && ms[i].key == keys[i] && (ms[i].moved <==> ms[i].from != ms[i].to)
              && RoutedTo(h, nodes, v, keys[i], ms[i].from)
              && RoutedTo(h, Keep(nodes, removed) + added, v, keys[i], ms[i].to)
    ensures NoCollision(PointsOf(h, Keep(nodes, removed), v)) ==>
              forall i :: 0 <= i < |ms| ==> Minimal(ms[i], removed, added)
  {
    hide NoCollision, HasId, IsRing, PointsOf, Keep, Minimal, CountMoved, RoutedTo;
    ms, moved := [], 0;
    CountAppend([], Movement([], "", "", false));
    for i := 0 to |keys|
      invariant |ms| == i && moved == CountMoved(ms)
      invariant forall j :: 0 <= j < i ==>
                  && ms[j].key == keys[j] && (ms[j].moved <==> ms[j].from != ms[j].to)
                  && RoutedTo(h, nodes, v, keys[j], ms[j].from)
                  && RoutedTo(h, Keep(nodes, removed) + added, v, keys[j], ms[j].to)
      invariant NoCollision(PointsOf(h, Keep(nodes, removed), v)) ==>
                  forall j :: 0 <= j < |ms| ==> Minimal(ms[j], removed, added)
    {
      var m := Reroute(h, nodes, v, removed, added, current, next, keys[i]);
      CountAppend(ms, m);
      if m.moved { moved := moved + 1; }
      ms := ms + [m];
    }
  }

  ghost function Marked(ms: seq<Movement>): set<nat> {
    set i: nat | i < |ms| && ms[i].moved
  }

  /** The count is the number of movements that are marked. */
  lemma {:induction false} CountMovedIs(ms: seq<Movement>)
    ensures CountMoved(ms) == |Marked(ms)|
  {
    if ms == [] {
      assert Marked(ms) == {};
    } else {
      CountMovedIs(ms[..|ms| - 1]);
      MarkedLast(ms);
      hide Marked;
    }
  }

  lemma MarkedLast(ms: seq<Movement>)
    requires ms != []
    ensures var n := |ms| - 1;
            n !in Marked(ms[..n]) && Marked(ms) == Marked(ms[..n]) + if ms[n].moved then {n} else {}
  {
  }

  lemma CountAppend(ms: seq<Movement>, m: Movement)
    ensures CountMoved([]) == 0 && CountMoved(ms + [m]) == CountMoved(ms) + if m.moved then 1 else 0
  {
    assert (ms + [m])[..|ms|] == ms;
  }

  lemma RoutesMinimal(h: Hashing, nodes: seq<NodeConfig>, v: int, removed: set<string>, added: seq<NodeConfig>,
                      current: seq<Point>, next: seq<Point>, from: Option<Point>, to: Option<Point>, m: Movement)
    requires IsRing(current, PointsOf(h, nodes, v)) && IsRing(next, PointsOf(h, Keep(nodes, removed) + added, v))
    requires NoCollision(PointsOf(h, Keep(nodes, removed), v))
             && m == Movement(m.key, NameOf(from), NameOf(to), NameOf(from) != NameOf(to))
    requires (from.None? <==> m.key == []) && (to.None? <==> m.key == [])
    requires m.key != [] ==> Closest(current, h.key(m.key), from.value) && Closest(next, h.key(m.key), to.value)
    ensures Minimal(m, removed, added)
  {
    hide IsRing, Closest, NoCollision;
    if m.key != [] {
      var k := h.key(m.key);
      ClosestInPoints(current, PointsOf(h, nodes, v), k, from.value);
      ClosestInPoints(next, PointsOf(h, Keep(nodes, removed) + added, v), k, to.value);
      MinimalMovement(h, nodes, removed, added, v, k, from.value, to.value);
    }
  }

  // ---- SimulateFailure ----

  datatype Impact = Impact(key: bytes, original: string, next: string, moved: bool, unavailable: bool)

  datatype Simulation =
    | Simulation(affected: seq<Impact>, unaffected: seq<Impact>, moved: nat, unavailable: nat)
    | SimulationFailed(err: PlanError)

  /** RouteKey and RouteKeyWithAvailableNodes both build a ring for the one key they route. */
  method RouteOn(h: Hashing, nodes: seq<NodeConfig>, v: int, key: bytes) returns (p: Option<Point>)
    ensures p.Some? <==> key != [] && ValidNodes(nodes)
    ensures p.Some? ==> Closest(PointsOf(h, nodes, v), h.key(key), p.value)
  {
    hide ValidNodes, PointsOf, Closest;
    if key == [] { return None; }
    var ring := NewHashRing(h, nodes, v);
    if ring.None? { return None; }
    p := NodeForKey(h, ring.value, key);
    ClosestInPoints(ring.value, PointsOf(h, nodes, v), h.key(key), p.value);
  }

  /** The healthy nodes, in configuration order. */
  method Healthy(nodes: seq<NodeConfig>, down: set<string>) returns (up: seq<NodeConfig>)
    ensures up == Keep(nodes, down)
  {
    up := [];
    for i := 0 to |nodes|
      invariant up == Keep(nodes[..i], down)
    {
      assert nodes[..i + 1][..i] == nodes[..i] && nodes[..i + 1][i] == nodes[i];
      if nodes[i].id !in down { up := up + [nodes[i]]; }
    }
    assert nodes[..|nodes|] == nodes;
  }

  /** What a simulation says of one key: the node it is routed to now, the one it is routed to without the
      nodes that are down, and whether it moves although its node is up. */
  ghost predicate Tells(h: Hashing, nodes: seq<NodeConfig>, v: int, down: set<string>, key: bytes, x: Impact) {
    var up := Keep(nodes, down);
    && x.key == key
    && (x.unavailable <==> key == [] || !ValidNodes(nodes) || !ValidNodes(up))
    && (if key == [] || !ValidNodes(nodes) then x.original == "" else Owns(h, nodes, v, key, x.original))
    && (if x.unavailable then x.next == "" else Owns(h, up, v, key, x.next))
    && (x.moved <==> !x.unavailable && x.original !in down && x.next != x.original)
  }

  /** Down, re-routed or not routable at all. */
  predicate Hit(down: set<string>, x: Impact) {
    x.unavailable || x.original in down || x.next != x.original
  }

  method Assess(h: Hashing, nodes: seq<NodeConfig>, v: int, down: set<string>, up: seq<NodeConfig>, key: bytes)
    returns (impact: Impact, affected: bool)
    requires up == Keep(nodes, down)
    ensures Tells(h, nodes, v, down, key, impact) && (affected <==> Hit(down, impact))
    ensures NoCollision(PointsOf(h, up, v)) ==>
              !impact.moved && (impact.unavailable || (affected <==> impact.original in down))
  {
    hide ValidNodes, PointsOf, Keep, NoCollision, Closest;
    var original := RouteOn(h, nodes, v, key);
    if original.None? { return Impact(key, "", "", false, true), true; }
    var from := original.value.node;
    assert Owns(h, nodes, v, key, from);
    var next := RouteOn(h, up, v, key);
    if next.None? { return Impact(key, from, "", false, true), true; }
    var to := next.value.node;
    assert Owns(h, up, v, key, to);
    assert up == up + [];
    if NoCollision(PointsOf(h, up, v)) {
      MinimalMovement(h, nodes, down, [], v, h.key(key), original.value, next.value);
    }
    affected := from in down || to != from;
    impact := Impact(key, from, to, from !in down && to != from, false);
  }

  function CountIf(xs: seq<Impact>, moved: bool): nat {
    if xs == [] then 0
    else
      var x := xs[|xs| - 1];
      CountIf(xs[..|xs| - 1], moved) + if (if moved then !x.unavailable && x.moved else x.unavailable) then 1 else 0
  }

  lemma {:induction false} NoneMoved(xs: seq<Impact>)
    requires forall i :: 0 <= i < |xs| ==> !xs[i].moved
    ensures CountIf(xs, true) == 0
  {
    if xs != [] { NoneMoved(xs[..|xs| - 1]); }
  }

  ghost predicate Counts(x: Impact, moved: bool) {
    if moved then !x.unavailable && x.moved else x.unavailable
  }

  ghost function Counted(xs: seq<Impact>, moved: bool): set<nat> {
    set i: nat | i < |xs| && Counts(xs[i], moved)
  }

  lemma CountedLast(xs: seq<Impact>, moved: bool)
    requires xs != []
    ensures var n := |xs| - 1;
            && n !in Counted(xs[..n], moved)
            && Counted(xs, moved) == Counted(xs[..n], moved) + if Counts(xs[n], moved) then {n} else {}
  {
    hide Counts;
  }

  /** The two counts are the numbers of keys that move and of those that cannot be routed. */
  lemma {:induction false} CountIfIs(xs: seq<Impact>, moved: bool)
    ensures CountIf(xs, moved) == |Counted(xs, moved)|
  {
    if xs == [] {
      assert Counted(xs, moved) == {};
    } else {
      CountIfIs(xs[..|xs| - 1], moved);
      CountedLast(xs, moved);
      hide Counted;
    }
  }

  /** The impacts that are hit, or those that are not, in their order. */
  ghost function Those(xs: seq<Impact>, down: set<string>, hit: bool): seq<Impact> {
    if xs == [] then []
    else
      var x := xs[|xs| - 1];
      Those(xs[..|xs| - 1], down, hit) + if Hit(down, x) == hit then [x] else []
  }

  function KeysOf(xs: seq<Impact>): (keys: seq<bytes>)
    ensures |keys| == |xs| && forall i :: 0 <= i < |xs| ==> keys[i] == xs[i].key
  {
    seq(|xs|, i requires 0 <= i < |xs| => xs[i].key)
  }

  /** Every key is listed exactly once, on the one list or the other. */
  lemma {:induction false} EachOnce(xs: seq<Impact>, down: set<string>)
    ensures multiset(KeysOf(Those(xs, down, true))) + multiset(KeysOf(Those(xs, down, false))) == multiset(KeysOf(xs))
    ensures |Those(xs, down, true)| + |Those(xs, down, false)| == |xs|
  {
    if xs != [] {
      var n := |xs| - 1;
      EachOnce(xs[..n], down);
      KeysGrow(Those(xs[..n], down, Hit(down, xs[n])), xs[n]);
      KeysGrow(xs[..n], xs[n]);
      assert xs == xs[..n] + [xs[n]];
      var hit := Hit(down, xs[n]);
      assert Those(xs, down, hit) == Those(xs[..n], down, hit) + [xs[n]];
      assert Those(xs, down, !hit) == Those(xs[..n], down, !hit) + [];
      hide KeysOf, Those, Hit;
      assert Those(xs, down, !hit) == Those(xs[..n], down, !hit);
      if hit { assert Those(xs, down, true) == Those(xs[..n], down, true) + [xs[n]]; }
    }
  }

  lemma KeysGrow(xs: seq<Impact>, x: Impact)
    ensures multiset(KeysOf(xs + [x])) == multiset(KeysOf(xs)) + multiset{x.key}
  {
    assert KeysOf(xs + [x]) == KeysOf(xs) + [x.key];
  }

  lemma {:induction false} ThoseAre(xs: seq<Impact>, down: set<string>, hit: bool, x: Impact)
    ensures x in Those(xs, down, hit) <==> x in xs && Hit(down, x) == hit
  {
    if xs != [] {
      ThoseAre(xs[..|xs| - 1], down, hit, x);
      assert xs == xs[..|xs| - 1] + [xs[|xs| - 1]];
    }
  }

  /** A sample key whose every owner is down is listed as affected, as is one that cannot be routed. */
  lemma DownKeyIsAffected(h: Hashing, nodes: seq<NodeConfig>, v: int, down: set<string>, keys: seq<bytes>,
                          xs: seq<Impact>, i: nat)
    requires |xs| == |keys| && i < |keys| && Tells(h, nodes, v, down, keys[i], xs[i])
    requires forall id :: Owns(h, nodes, v, keys[i], id) ==> id in down
    ensures xs[i] in Those(xs, down, true) && xs[i].key == keys[i]
  {
    hide Owns, ValidNodes, Keep;
    ThoseAre(xs, down, true, xs[i]);
  }

  /** SimulateFailure: each sample key is told of once, in order, as affected or as unaffected. Without
      collisions among the healthy nodes no key whose node is up is ever re-routed, so MovedKeys is 0 and
      the affected keys are those of the down nodes. */
  method SimulateFailure(h: Hashing, nodes: seq<NodeConfig>, v: int, downIds: seq<string>, keys: seq<bytes>)
    returns (r: Simulation, ghost xs: seq<Impact>)
    ensures r == SimulationFailed(InvalidSimulation) <==> keys == []
    ensures r == SimulationFailed(UnknownNode)
            <==> keys != [] && exists i :: 0 <= i < |downIds| && downIds[i] !in IdsOf(nodes)
    ensures r.Simulation? <==> keys != [] && forall i :: 0 <= i < |downIds| ==> downIds[i] in IdsOf(nodes)
    ensures r.Simulation? ==>
              && |xs| == |keys| && (forall i :: 0 <= i < |keys| ==> Tells(h, nodes, v, SetOf(downIds), keys[i], xs[i]))
              && r.affected == Those(xs, SetOf(downIds), true) && r.unaffected == Those(xs, SetOf(downIds), false)
              && multiset(KeysOf(r.affected)) + multiset(KeysOf(r.unaffected)) == multiset(keys)
    ensures r.Simulation? ==> r.moved == CountIf(r.affected, true) && r.unavailable == CountIf(r.affected, false)
    ensures r.Simulation? && NoCollision(PointsOf(h, Keep(nodes, SetOf(downIds)), v)) ==>
              && r.moved == 0
              && forall x :: x in r.affected ==> x.unavailable || x.original in SetOf(downIds)
  {
    hide PointsOf, NoCollision, Keep, ValidNodes, CountIf, Tells, Those, Hit;
    xs := [];
    if keys == [] { return SimulationFailed(InvalidSimulation), []; }
    var down: set<string> := {};
    for i := 0 to |downIds|
      invariant forall j :: 0 <= j < i ==> downIds[j] in IdsOf(nodes)
      invariant down == SetOf(downIds[..i])
    {
      if downIds[i] !in IdsOf(nodes) { return SimulationFailed(UnknownNode), []; }
      assert downIds[..i + 1] == downIds[..i] + [downIds[i]];
      down := down + {downIds[i]};
    }
    assert downIds[..|downIds|] == downIds;
    var up := Healthy(nodes, down);
    var affected, unaffected, all := Assessments(h, nodes, v, down, up, keys);
    xs := all;
    EachOnce(xs, down);
    TellKeys(h, nodes, v, down, keys, xs);
    var moved, unavailable := Tally(affected);
    if NoCollision(PointsOf(h, up, v)) { NoneMoved(affected); }
    return Simulation(affected, unaffected, moved, unavailable), xs;
  }

  lemma TellKeys(h: Hashing, nodes: seq<NodeConfig>, v: int, down: set<string>, keys: seq<bytes>, xs: seq<Impact>)
    requires |xs| == |keys| && forall i :: 0 <= i < |keys| ==> Tells(h, nodes, v, down, keys[i], xs[i])
    ensures KeysOf(xs) == keys
  {
    hide Owns, ValidNodes, Keep;
  }

  method Assessments(h: Hashing, nodes: seq<NodeConfig>, v: int, down: set<string>, up: seq<NodeConfig>,
                     keys: seq<bytes>)
    returns (affected: seq<Impact>, unaffected: seq<Impact>, ghost xs: seq<Impact>)
    requires up == Keep(nodes, down)
    ensures |xs| == |keys| && forall i :: 0 <= i < |keys| ==> Tells(h, nodes, v, down, keys[i], xs[i])
    ensures affected == Those(xs, down, true) && unaffected == Those(xs, down, false)
    ensures NoCollision(PointsOf(h, up, v)) ==>
              forall x :: x in affected ==> !x.moved && (x.unavailable || x.original in down)
  {
    hide PointsOf, NoCollision, Keep, ValidNodes, Tells, Hit;
    affected, unaffected, xs := [], [], [];
    for n := 0 to |keys|
      invariant |xs| == n && forall i :: 0 <= i < n ==> Tells(h, nodes, v, down, keys[i], xs[i])
      invariant affected == Those(xs, down, true) && unaffected == Those(xs, down, false)
      invariant NoCollision(PointsOf(h, up, v)) ==>
                  forall x :: x in affected ==> !x.moved && (x.unavailable || x.original in down)
    {
      var impact, hit := Assess(h, nodes, v, down, up, keys[n]);
      assert (xs + [impact])[..n] == xs;
      xs := xs + [impact];
      if hit { affected := affected + [impact]; } else { unaffected := unaffected + [impact]; }
    }
  }

  /** The counting loop over the affected keys. */
  method Tally(xs: seq<Impact>) returns (moved: nat, unavailable: nat)
    ensures moved == CountIf(xs, true) && unavailable == CountIf(xs, false)
  {
    moved, unavailable := 0, 0;
    for i := 0 to |xs|
      invariant moved == CountIf(xs[..i], true) && unavailable == CountIf(xs[..i], false)
    {
      assert xs[..i + 1][..i] == xs[..i] && xs[..i + 1][i] == xs[i];
      if xs[i].unavailable { unavailable := unavailable + 1; } else if xs[i].moved { moved := moved + 1; }
    }
    assert xs[..|xs|] == xs;
  }

  /** Without the condition it can fail: a and b share a hash, and removing c lets the sort put b
      where a stood, so a key of the healthy node a is re-routed. */
  lemma CollisionMovesHealthyKey(a: Point, b: Point, c: Point)
    requires a.hash == b.hash < c.hash && a.node != b.node && c.node != a.node && c.node != b.node
    ensures IsRing([a, b, c], [a, b, c]) && IsRing([b, a], [a, b])
    ensures Closest([a, b, c], a.hash, a) && Closest([b, a], a.hash, b)
  {
    CollisionIsAmbiguous(a, b);
  }
}
