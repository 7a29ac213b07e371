/** The in-process replicated store (internal/replica/store.go over internal/replica/log.go): writes go
    to a shared log and the leader, and ReplicateAll drives every unpaused follower to the commit index,
    over any number of crashes that leave the APPLIED files behind what was applied. */
module Replica {
  import opened Bytes
  import opened Journal
  import opened Replication

  /** `entry` carries operation, key and value; the log numbers it. */
  datatype Operation = Operation(index: nat, entry: Entry)

  ghost function Entries(ops: seq<Operation>): (es: seq<Entry>)
    ensures |es| == |ops| && forall i :: 0 <= i < |ops| ==> es[i] == ops[i].entry
  {
    seq(|ops|, i requires 0 <= i < |ops| => ops[i].entry)
  }

  // ---- the log ----

  /** Records are numbered from 1 without gaps and are puts or deletes. */
  ghost predicate Numbered(ops: seq<Operation>) {
    forall i :: 0 <= i < |ops| ==> ops[i].index == i + 1 && !ops[i].entry.op.OpOther?
  }

  /** operationsAfter: a linear filter with an optional limit; on a numbered log it is a slice. */
  method OperationsAfter(ops: seq<Operation>, after: nat, limit: int) returns (r: seq<Operation>)
    requires Numbered(ops) && after <= |ops|
    ensures r == if limit > 0 && after + limit < |ops| then ops[after..after + limit] else ops[after..]
  {
    r := [];
    for i := 0 to |ops|
      invariant r == if i <= after then [] else ops[after..i]
      invariant limit > 0 ==> |r| < limit
    {
      if ops[i].index <= after { continue; }
      r := r + [ops[i]];
      if limit > 0 && |r| >= limit { return; }
    }
  }

  /** ops is what operationsAfter offers a follower that stands at `start`. */
  ghost predicate Offers(log: seq<Operation>, start: nat, limit: nat, ops: seq<Operation>) {
    && start <= |log| && |ops| == Min(limit, |log| - start)
    && forall c :: 0 <= c < |ops| ==> ops[c] == log[start + c] && ops[c].index == start + c + 1
  }

  method NextOps(log: seq<Operation>, start: nat, limit: nat) returns (ops: seq<Operation>)
    requires Numbered(log) && start <= |log| && limit > 0
    ensures Offers(log, start, limit, ops)
  {
    ops := OperationsAfter(log, start, limit);
  }

  /** The loop over the offer goes on exactly while the turn is not over. */
  lemma InTurn(log: seq<Operation>, start: nat, limit: nat, ops: seq<Operation>, commit: nat, count: nat)
    requires Offers(log, start, limit, ops) && start <= commit <= |log| && count <= Min(limit, commit - start)
    ensures count < |ops| && ops[count].index <= commit <==> count < Min(limit, commit - start)
    ensures count < Min(limit, commit - start) ==>
              && count < |ops| && start + count < commit
              && ops[count] == log[start + count] && ops[count].index == start + count + 1
  {
  }

  // ---- lag ----

  /** One replica: its engine's data, the applied index in memory and in its APPLIED file, and its
      settings. maxApply > 0 is a SetFollowerLag limit; otherwise it is one operation per call. */
  datatype Node = Node(data: Data, applied: nat, saved: nat, paused: bool, maxApply: int)

  function PerCall(n: Node): (limit: nat)
    ensures limit > 0
  {
    if n.maxApply > 0 then n.maxApply else 1
  }

  /** SetFollowerLag documents zero and below as unlimited; a turn over two operations applies one. */
  lemma ZeroLagIsOne(n: Node, log: seq<Operation>, i: nat, unsaved: Oracle)
    requires n.maxApply <= 0 && n.applied == 0 && Numbered(log) && |log| == 2
    ensures Min(PerCall(n), |log| - n.applied) == 1
    ensures AfterOps(log, i, n, unsaved, Min(PerCall(n), |log|)).applied == 1
  {
  }

  ghost function Lag(nodes: seq<Node>, leader: nat, commit: nat): nat
    requires forall i :: 0 <= i < |nodes| ==> nodes[i].applied <= commit
  {
    if nodes == [] then 0
    else
      var i := |nodes| - 1;
      Lag(nodes[..i], leader, commit) + if i == leader || nodes[i].paused then 0 else commit - nodes[i].applied
  }

  lemma {:induction false} LagZero(nodes: seq<Node>, leader: nat, commit: nat, i: nat)
    requires forall i :: 0 <= i < |nodes| ==> nodes[i].applied <= commit
    requires i < |nodes| && i != leader && !nodes[i].paused
    ensures Lag(nodes, leader, commit) >= commit - nodes[i].applied
    decreases |nodes|
  {
    if i < |nodes| - 1 { LagZero(nodes[..|nodes| - 1], leader, commit, i); }
  }

  /** Advancing one unpaused follower lowers the total by exactly that much. */
  lemma {:induction false} LagUpdate(nodes: seq<Node>, leader: nat, commit: nat, i: nat, n: Node)
    requires forall i :: 0 <= i < |nodes| ==> nodes[i].applied <= commit
    requires i < |nodes| && i != leader && !nodes[i].paused && !n.paused && nodes[i].applied <= n.applied <= commit
    ensures Lag(nodes[i := n], leader, commit) == Lag(nodes, leader, commit) - (n.applied - nodes[i].applied)
    decreases |nodes|
  {
    var last := |nodes| - 1;
    if i < last {
      LagUpdate(nodes[..last], leader, commit, i, n);
      assert nodes[i := n][..last] == nodes[..last][i := n];
    } else {
      assert nodes[i := n][..last] == nodes[..last];
    }
  }

  // ---- the store ----

  /** Where one write stops; the last is a crash between the COMMIT file and the indexes in memory. */
  datatype WriteIO = AllOk | LogFails | LeaderFails | CommitFails | DiesCommitted

  /** An oracle per replica and operation index: does applying it fail, is its APPLIED save lost? */
  type Oracle = (nat, nat) -> bool

  /** The operations that reached the leader's engine. */
  ghost function Reached(ops: seq<Operation>, onLeader: seq<bool>): seq<Operation>
    requires |onLeader| == |ops|
  {
    if ops == [] then []
    else
      var n := |ops| - 1;
      Reached(ops[..n], onLeader[..n]) + if onLeader[n] then [ops[n]] else []
  }

  /** A follower that once had applied the first h operations and now stands at `applied`: every key
      that none of the operations in between touches has its final value. */
  ghost predicate CopyOk(log: seq<Operation>, data: Data, applied: nat, h: nat) {
    Tracks(Entries(log), data, applied, h)
  }

  /** Within what it once applied, and within the committed log. */
  ghost predicate NodeOk(log: seq<Operation>, commit: nat, n: Node, h: nat) {
    n.saved <= n.applied <= h <= commit <= |log| && CopyOk(log, n.data, n.applied, h)
  }

  /** applyOp, the applied index, and its best-effort save. */
  function ApplyOp(n: Node, op: Operation, saves: bool): Node {
    n.(data := Apply(n.data, op.entry), applied := op.index, saved := if saves then op.index else n.saved)
  }

  /** A follower after the next `count` operations of the log. */
  function AfterOps(log: seq<Operation>, i: nat, n: Node, unsaved: Oracle, count: nat): (m: Node)
    requires Numbered(log) && n.applied + count <= |log|
    ensures m.applied == n.applied + count && m.paused == n.paused && m.maxApply == n.maxApply
  {
    if count == 0 then n
    else
      var op := log[n.applied + count - 1];
      ApplyOp(AfterOps(log, i, n, unsaved, count - 1), op, !unsaved(i, op.index))
  }

  /** Applying, or applying again, keeps a follower in order. */
  lemma {:induction false} AfterOpsOk(log: seq<Operation>, commit: nat, i: nat, n: Node, unsaved: Oracle, count: nat,
                                      h: nat)
    requires Numbered(log) && NodeOk(log, commit, n, h) && n.applied + count <= commit
    ensures NodeOk(log, commit, AfterOps(log, i, n, unsaved, count),
                   if n.applied + count <= h then h else n.applied + count)
  {
    hide Apply, CopyOk;
    if count > 0 {
      AfterOpsOk(log, commit, i, n, unsaved, count - 1, h);
      var before := AfterOps(log, i, n, unsaved, count - 1);
      FollowerApplies(log, before.data, before.applied, if before.applied <= h then h else before.applied);
    }
  }

  /** The APPLIED file of m names the last of the operations since n whose save was not lost. */
  ghost predicate LastSaved(i: nat, unsaved: Oracle, n: Node, m: Node) {
    && (m.saved == n.saved || (n.applied < m.saved <= m.applied && !unsaved(i, m.saved)))
    && forall s :: n.applied < s <= m.applied && !unsaved(i, s) ==> s <= m.saved
  }

  lemma {:induction false} SavesLast(log: seq<Operation>, i: nat, n: Node, unsaved: Oracle, count: nat)
    requires Numbered(log) && n.applied + count <= |log|
    ensures LastSaved(i, unsaved, n, AfterOps(log, i, n, unsaved, count))
  {
    hide Apply;
    if count > 0 { SavesLast(log, i, n, unsaved, count - 1); }
  }

  /** One follower's turn: the next operations, up to its limit and the commit index, or until one fails. */
  method TakeTurn(log: seq<Operation>, commit: nat, i: nat, node: Node, fails: Oracle, unsaved: Oracle)
    returns (n: Node, count: nat, ok: bool)
    requires Numbered(log) && node.applied <= commit <= |log|
    ensures node.applied + count <= commit && n == AfterOps(log, i, node, unsaved, count)
    ensures ok ==> count == Min(PerCall(node), commit - node.applied)
    ensures !ok ==> count < Min(PerCall(node), commit - node.applied) && fails(i, node.applied + count + 1)
  {
    hide Offers, PerCall, ApplyOp;
    var limit, start := PerCall(node), node.applied;
    var ops := NextOps(log, start, limit);
    n, count := node, 0;
    while count < |ops| && ops[count].index <= commit
      invariant count <= Min(limit, commit - start) && n == AfterOps(log, i, node, unsaved, count)
      decreases |ops| - count
    {
      InTurn(log, start, limit, ops, commit, count);
      var op := ops[count];
      if fails(i, op.index) { return n, count, false; }
      n := ApplyOp(n, op, !unsaved(i, op.index));
      count := count + 1;
    }
    InTurn(log, start, limit, ops, commit, count);
    return n, count, true;
  }

  class Store {
    const leader: nat
    var nodes: seq<Node>
    var log: seq<Operation>
    var commit: nat
    var commitFile: nat
    var closed: bool
    ghost var onLeader: seq<bool>
    ghost var high: seq<nat>

    ghost predicate Valid()
      reads this
    {
      && leader < |nodes| == |high| && Numbered(log) && commit <= commitFile <= |log| && |onLeader| == |log|
      && (forall i :: 0 <= i < |nodes| ==> nodes[i].saved <= nodes[i].applied <= high[i] <= commit)
      && (forall i :: 0 <= i < |nodes| && i != leader ==> CopyOk(log, nodes[i].data, nodes[i].applied, high[i]))
      && nodes[leader].data == Fold(Entries(Reached(log, onLeader)))
    }

    /** A first open: empty log, empty replicas. */
    constructor (replicas: nat, leader: nat)
      requires leader < replicas
      ensures Valid() && !closed && this.leader == leader && log == [] && commit == 0 && |nodes| == replicas
      ensures forall i :: 0 <= i < replicas ==> nodes[i] == Node(map[], 0, 0, false, 0)
    {
      this.leader, log, commit, commitFile, closed, onLeader := leader, [], 0, 0, false, [];
      nodes := seq(replicas, _ => Node(map[], 0, 0, false, 0));
      high := seq(replicas, _ => 0);
      new;
      assert Entries([]) == [];
      TracksFresh(Entries(log));
    }

    /** A process dies between any two steps and the store is opened again: the commit index comes from
        COMMIT, every applied index from its file, and the settings are gone. */
    method Reopen()
      requires Valid()
      modifies `nodes, `commit, `closed
      ensures Valid() && !closed && commit == commitFile && |nodes| == |old(nodes)|
      ensures forall i :: 0 <= i < |nodes| ==>
                nodes[i] == Node(old(nodes)[i].data, old(nodes)[i].saved, old(nodes)[i].saved, false, 0)
    {
      hide Fold, Reached, Tracks, CopyOk;
      var handles: seq<Node> := [];
      for i := 0 to |nodes|
        invariant Valid() && |handles| == i && nodes == old(nodes) && commitFile == old(commitFile)
        invariant forall j :: 0 <= j < i ==> handles[j] == Node(nodes[j].data, nodes[j].saved, nodes[j].saved, false, 0)
        invariant forall j :: 0 <= j < i && j != leader ==> CopyOk(log, handles[j].data, handles[j].applied, high[j])
      {
        var n := nodes[i];
        if i != leader { FollowerRestarts(log, n, high[i]); }
        handles := handles + [Node(n.data, n.saved, n.saved, false, 0)];
      }
      nodes, commit, closed := handles, commitFile, false;
    }

    /** Put and Delete: log, leader engine, COMMIT file, then the indexes in memory. */
    method Write(put: bool, key: bytes, value: bytes, io: WriteIO, saved: bool) returns (index: Option<nat>)
      requires Valid()
      modifies this
      ensures Valid() && closed == old(closed)
      ensures index.Some? <==> key != [] && !closed && io.AllOk?
      ensures index.Some? ==> index.value == commit == commitFile == |log| == |old(log)| + 1
      ensures index.None? ==> commit == old(commit)
      ensures key != [] && !closed && !io.LogFails? ==>
                && var e := Entry(0, if put then OpPut else OpDelete, key, value, 0);
                && log == old(log) + [Operation(|old(log)| + 1, e)]
                && onLeader == old(onLeader) + [!io.LeaderFails?]
                && commitFile == if io.AllOk? || io.DiesCommitted? then |log| else old(commitFile)
      ensures key == [] || closed || io.LogFails? ==>
                log == old(log) && onLeader == old(onLeader) && nodes == old(nodes) && commitFile == old(commitFile)
      ensures |nodes| == |old(nodes)| && forall i :: 0 <= i < |nodes| && i != leader ==> nodes[i] == old(nodes)[i]
      ensures nodes[leader].paused == old(nodes)[leader].paused && nodes[leader].maxApply == old(nodes)[leader].maxApply
      ensures index.Some? ==> nodes[leader].applied == commit
      ensures index.None? ==> nodes[leader].applied == old(nodes)[leader].applied
      ensures nodes[leader].saved == if index.Some? && saved then commit else old(nodes)[leader].saved
    {
      hide Fold, Reached, Tracks, CopyOk, Numbered, Apply;
      if key == [] || closed || io.LogFails? { return None; }
      var op := Operation(|log| + 1, Entry(0, if put then OpPut else OpDelete, key, value, 0));
      Logs(op, !io.LeaderFails?);
      if io.LeaderFails? || io.CommitFails? { return None; }
      var node := nodes[leader];
      commitFile := op.index;
      if io.DiesCommitted? { return None; }
      nodes := nodes[leader := nodes[leader].(applied := op.index, saved := if saved then op.index else node.saved)];
      commit := op.index;
      high := high[leader := op.index];
      return Some(op.index);
    }

    /** The first half of a write: the log record, and the leader's engine unless it refuses. */
    method Logs(op: Operation, reached: bool)
      requires Valid() && op.index == |log| + 1 && !op.entry.op.OpOther?
      modifies `log, `onLeader, `nodes
      ensures Valid() && log == old(log) + [op] && onLeader == old(onLeader) + [reached]
      ensures nodes == old(nodes)[leader := old(nodes)[leader].(data := nodes[leader].data)]
    {
      hide Fold, Reached, Tracks, CopyOk, Numbered, Apply;
      ReachedExtend(log, onLeader, op, reached);
      LogExtend(log, op, nodes, high, leader);
      log, onLeader := log + [op], onLeader + [reached];
      if reached { nodes := nodes[leader := nodes[leader].(data := Apply(nodes[leader].data, op.entry))]; }
    }

    /** One follower's turn: exactly its limit of operations, or what is left up to the commit index. */
    method Advance(i: nat, fails: Oracle, unsaved: Oracle) returns (count: nat, ok: bool)
      requires Valid() && i < |nodes| && i != leader && !nodes[i].paused && nodes[i].applied < commit
      modifies `nodes, `high
      ensures Valid() && OnlyNode(old(nodes), nodes, i)
      ensures nodes[i].applied == old(nodes)[i].applied + count && LastSaved(i, unsaved, old(nodes)[i], nodes[i])
      ensures var pending, limit := commit - old(nodes)[i].applied, old(nodes)[i].maxApply;
              && (ok ==> count == if limit <= 0 then 1 else Min(limit, pending))
              && (!ok ==> count < pending && (count == 0 || count < limit) && fails(i, nodes[i].applied + 1))
    {
      hide Fold, Reached, Tracks, CopyOk, Numbered, AfterOps;
      var n;
      n, count, ok := TakeTurn(log, commit, i, nodes[i], fails, unsaved);
      AfterOpsOk(log, commit, i, nodes[i], unsaved, count, high[i]);
      SavesLast(log, i, nodes[i], unsaved, count);
      high := high[i := if n.applied <= high[i] then high[i] else n.applied];
      nodes := nodes[i := n];
    }

    /** replicateOnce: the number of applications is exactly the drop in total lag, and it is zero
        only when every unpaused follower has caught up. */
    method ReplicateOnce(fails: Oracle, unsaved: Oracle) returns (total: nat, ok: bool)
      requires Valid()
      modifies `nodes, `high
      ensures Valid() && |nodes| == |old(nodes)| && SameSettings(old(nodes), nodes, leader)
      ensures total == old(Lag(nodes, leader, commit)) - Lag(nodes, leader, commit)
      ensures ok && total == 0 ==> Lag(nodes, leader, commit) == 0
      ensures (forall i, index :: !fails(i, index)) ==> ok
    {
      hide Fold, Reached, Lag, Numbered, Tracks, CopyOk;
      total := 0;
      for i := 0 to |nodes|
        invariant Valid() && |nodes| == |old(nodes)| && SameSettings(old(nodes), nodes, leader)
        invariant total == old(Lag(nodes, leader, commit)) - Lag(nodes, leader, commit)
        invariant total == 0 ==>
                    forall j :: 0 <= j < i && j != leader && !nodes[j].paused ==> nodes[j].applied == commit
      {
        if i == leader || nodes[i].paused || nodes[i].applied >= commit { continue; }
        ghost var was := nodes;
        var n, fine := Advance(i, fails, unsaved);
        assert nodes == was[i := nodes[i]];
        LagUpdate(was, leader, commit, i, nodes[i]);
        total := total + n;
        if !fine { return total, false; }
      }
      if total == 0 { CaughtUp(nodes, leader, commit); }
      return total, true;
    }

    /** ReplicateAll terminates, and without an engine failure leaves every unpaused follower holding
        the fold of the whole committed log, under any pause and lag settings and after any crashes;
        when every leader write completed, that is the leader's data. */
    method ReplicateAll(fails: Oracle, unsaved: Oracle) returns (ok: bool)
      requires Valid()
      modifies `nodes, `high
      ensures Valid() && |nodes| == |old(nodes)| && SameSettings(old(nodes), nodes, leader)
      ensures !closed && (forall i, index :: !fails(i, index)) ==> ok
      ensures ok ==> !closed && forall i :: 0 <= i < |nodes| && i != leader && !nodes[i].paused ==>
                       nodes[i].applied == commit && nodes[i].data == Fold(Entries(log)[..commit])
      ensures ok && commit == |log| && (forall i :: 0 <= i < |log| ==> onLeader[i]) ==>
                forall i :: 0 <= i < |nodes| && i != leader && !nodes[i].paused ==> nodes[i].data == nodes[leader].data
    {
      hide Fold, Reached, Tracks, CopyOk, Lag, Numbered;
      if closed { return false; }
      while true
        invariant Valid() && |nodes| == |old(nodes)| && SameSettings(old(nodes), nodes, leader)
        decreases Lag(nodes, leader, commit)
      {
        var n, fine := ReplicateOnce(fails, unsaved);
        if !fine { return false; }
        if n == 0 {
          AllCaughtUp();
          return true;
        }
      }
    }

    /** Without lag every unpaused follower holds the fold of the committed log. */
    lemma AllCaughtUp()
      requires Valid() && Lag(nodes, leader, commit) == 0
      ensures forall i :: 0 <= i < |nodes| && i != leader && !nodes[i].paused ==>
                nodes[i].applied == commit && nodes[i].data == Fold(Entries(log)[..commit])
      ensures commit == |log| && (forall i :: 0 <= i < |log| ==> onLeader[i]) ==>
                nodes[leader].data == Fold(Entries(log)[..commit])
    {
      hide Fold, Reached, Tracks, CopyOk, Lag, Numbered;
      forall i | 0 <= i < |nodes| && i != leader && !nodes[i].paused
        ensures nodes[i].applied == commit && nodes[i].data == Fold(Entries(log)[..commit])
      {
        LagZero(nodes, leader, commit, i);
        FollowerConverged(log, nodes[i].data, high[i]);
      }
      if commit == |log| && forall i :: 0 <= i < |log| ==> onLeader[i] { Converges(log, onLeader, commit); }
    }

    method SetFollowerPaused(i: int, paused: bool) returns (ok: bool)
      requires Valid()
      modifies `nodes
      ensures Valid() && (ok <==> !closed && 0 <= i < |nodes| && i != leader)
      ensures |nodes| == |old(nodes)|
      ensures ok ==> nodes == old(nodes)[i := old(nodes)[i].(paused := paused)]
      ensures !ok ==> nodes == old(nodes)
    {
      if closed || i < 0 || i >= |nodes| || i == leader { return false; }
      nodes := nodes[i := nodes[i].(paused := paused)];
      return true;
    }
  }

  /** Only node i changed, and not its settings. */
  ghost predicate OnlyNode(a: seq<Node>, b: seq<Node>, i: nat) {
    && |a| == |b| && i < |a|
    && b[i].paused == a[i].paused && b[i].maxApply == a[i].maxApply
    && forall j :: 0 <= j < |a| && j != i ==> b[j] == a[j]
  }

  /** Replication changes only data and applied indexes, and not those of the leader or of paused followers. */
  ghost predicate SameSettings(a: seq<Node>, b: seq<Node>, leader: nat)
    requires |a| == |b|
  {
    forall i :: 0 <= i < |a| ==>
      && b[i].paused == a[i].paused && b[i].maxApply == a[i].maxApply && a[i].applied <= b[i].applied
      && (i == leader || a[i].paused ==> b[i] == a[i])
  }

  lemma {:induction false} CaughtUp(nodes: seq<Node>, leader: nat, commit: nat)
    requires forall i :: 0 <= i < |nodes| ==> nodes[i].applied <= commit
    requires forall i :: 0 <= i < |nodes| && i != leader && !nodes[i].paused ==> nodes[i].applied == commit
    ensures Lag(nodes, leader, commit) == 0
  {
    if nodes != [] { CaughtUp(nodes[..|nodes| - 1], leader, commit); }
  }

  /** Applying, or applying again, the operation at the applied index. */
  lemma FollowerApplies(log: seq<Operation>, data: Data, applied: nat, h: nat)
    requires Numbered(log) && CopyOk(log, data, applied, h) && applied < |log|
    ensures CopyOk(log, Apply(data, log[applied].entry), applied + 1, if applied < h then h else applied + 1)
  {
    hide Tracks, Apply;
    TracksApply(Entries(log), data, applied, h);
  }

  lemma FollowerRestarts(log: seq<Operation>, n: Node, h: nat)
    requires CopyOk(log, n.data, n.applied, h) && n.saved <= n.applied
    ensures CopyOk(log, n.data, n.saved, h)
  {
    TracksRestart(Entries(log), n.data, n.applied, h, n.saved);
  }

  lemma FollowerConverged(log: seq<Operation>, data: Data, h: nat)
    requires Numbered(log) && CopyOk(log, data, h, h)
    ensures h <= |log| && data == Fold(Entries(log)[..h])
  {
    TracksCaughtUp(Entries(log), data, h);
  }

  /** A longer log changes nothing for the followers. */
  lemma LogExtend(log: seq<Operation>, op: Operation, nodes: seq<Node>, high: seq<nat>, leader: nat)
    requires Numbered(log) && op.index == |log| + 1 && !op.entry.op.OpOther?
    requires |high| == |nodes|
    requires forall i :: 0 <= i < |nodes| && i != leader ==> CopyOk(log, nodes[i].data, nodes[i].applied, high[i])
    ensures Numbered(log + [op])
    ensures forall i :: 0 <= i < |nodes| && i != leader ==> CopyOk(log + [op], nodes[i].data, nodes[i].applied, high[i])
  {
    hide Tracks;
    assert Entries(log) <= Entries(log + [op]);
    forall i | 0 <= i < |nodes| && i != leader ensures CopyOk(log + [op], nodes[i].data, nodes[i].applied, high[i]) {
      TracksGrown(Entries(log), Entries(log + [op]), nodes[i].data, nodes[i].applied, high[i]);
    }
  }

  lemma FoldEntries(ops: seq<Operation>, op: Operation)
    ensures Fold(Entries(ops + [op])) == Apply(Fold(Entries(ops)), op.entry)
  {
    assert Entries(ops + [op])[..|ops|] == Entries(ops);
  }

  lemma ReachedExtend(ops: seq<Operation>, onLeader: seq<bool>, op: Operation, reached: bool)
    requires |onLeader| == |ops|
    ensures Reached(ops + [op], onLeader + [reached]) == Reached(ops, onLeader) + if reached then [op] else []
    ensures Fold(Entries(Reached(ops + [op], onLeader + [reached])))
         == if reached then Apply(Fold(Entries(Reached(ops, onLeader))), op.entry)
            else Fold(Entries(Reached(ops, onLeader)))
  {
    hide Fold, Apply;
    assert (ops + [op])[..|ops|] == ops && (onLeader + [reached])[..|ops|] == onLeader;
    var all := Reached(ops, onLeader);
    FoldEntries(all, op);
    assert all + [] == all;
  }

  // ---- leader and followers ----

  ghost function LastOn(ops: seq<Operation>, k: bytes): Option<Operation> {
    if ops == [] then None
    else if ops[|ops| - 1].entry.key == k then Some(ops[|ops| - 1])
    else LastOn(ops[..|ops| - 1], k)
  }

  ghost function EffectOf(op: Option<Operation>): Option<bytes> {
    if op.Some? then Effect(op.value.entry) else None
  }

  lemma {:induction false} FoldLast(ops: seq<Operation>, k: bytes)
    requires forall i :: 0 <= i < |ops| ==> !ops[i].entry.op.OpOther?
    ensures At(Fold(Entries(ops)), k) == EffectOf(LastOn(ops, k))
  {
    hide Fold;
    if ops == [] {
      FoldNothing();
      assert Entries(ops) == [];
    } else {
      var init, op := ops[..|ops| - 1], ops[|ops| - 1];
      FoldLast(init, k);
      FoldEntries(init, op);
      assert ops == init + [op];
    }
  }

  lemma FoldNothing()
    ensures Fold([]) == map[]
  {
  }

  lemma {:induction false} AllReached(ops: seq<Operation>, onLeader: seq<bool>)
    requires |onLeader| == |ops| && forall i :: 0 <= i < |ops| ==> onLeader[i]
    ensures Reached(ops, onLeader) == ops
  {
    if ops != [] { AllReached(ops[..|ops| - 1], onLeader[..|ops| - 1]); }
  }

  /** When every leader write completed through COMMIT, a caught-up follower equals the leader. */
  lemma Converges(log: seq<Operation>, onLeader: seq<bool>, commit: nat)
    requires |onLeader| == |log| == commit && forall i :: 0 <= i < |log| ==> onLeader[i]
    ensures Fold(Entries(log)[..commit]) == Fold(Entries(Reached(log, onLeader)))
  {
    AllReached(log, onLeader);
    assert Entries(log)[..commit] == Entries(log);
  }

  /** The last log record on k that is committed or reached the leader, if there is one, is both. */
  ghost predicate Completed(log: seq<Operation>, onLeader: seq<bool>, commit: nat, k: bytes)
    requires |onLeader| == |log|
  {
    log != [] ==>
      var n := |log| - 1;
      if log[n].entry.key == k && (n < commit || onLeader[n]) then n < commit && onLeader[n]
      else Completed(log[..n], onLeader[..n], commit, k)
  }

  /** In general, leader and caught-up follower show the effect of the same record on k if and only
      if that record completed: exactly the keys whose last write stopped half-way can differ. */
  lemma {:induction false} SameRecordIff(log: seq<Operation>, onLeader: seq<bool>, commit: nat, k: bytes)
    requires Numbered(log) && |onLeader| == |log| && commit <= |log|
    ensures LastOn(log[..commit], k) == LastOn(Reached(log, onLeader), k) <==> Completed(log, onLeader, commit, k)
    decreases |log|
  {
    if log != [] {
      var n := |log| - 1;
      ReachedLast(log, onLeader, k);
      if log[n].entry.key == k && (n < commit || onLeader[n]) {
        if n < commit {
          assert log[..commit] == log;
        } else {
          LastIndex(log[..commit], k, n);
        }
      } else {
        hide Reached;
        var c := if commit <= n then commit else n;
        SameRecordIff(log[..n], onLeader[..n], c, k);
        CompletedLimit(log[..n], onLeader[..n], commit, c, k);
        assert log[..n][..c] == log[..c];
        if commit > n { assert log[..commit] == log; }
      }
    }
  }

  /** The last record on k that reached the leader, seen from the end of the log. */
  lemma ReachedLast(log: seq<Operation>, onLeader: seq<bool>, k: bytes)
    requires Numbered(log) && log != [] && |onLeader| == |log|
    ensures var n := |log| - 1;
            var before := LastOn(Reached(log[..n], onLeader[..n]), k);
            && LastOn(Reached(log, onLeader), k)
               == (if onLeader[n] && log[n].entry.key == k then Some(log[n]) else before)
            && (before.Some? ==> before.value.index <= n)
  {
    var n := |log| - 1;
    var all := Reached(log[..n], onLeader[..n]);
    assert (all + [log[n]])[..|all|] == all && all + [] == all;
    ReachedIndexes(log[..n], onLeader[..n]);
    LastIndex(all, k, n);
  }

  lemma {:induction false} LastIndex(ops: seq<Operation>, k: bytes, bound: nat)
    requires forall i :: 0 <= i < |ops| ==> ops[i].index <= bound
    ensures LastOn(ops, k).Some? ==> LastOn(ops, k).value.index <= bound
  {
    if ops != [] { LastIndex(ops[..|ops| - 1], k, bound); }
  }

  lemma {:induction false} ReachedIndexes(log: seq<Operation>, onLeader: seq<bool>)
    requires Numbered(log) && |onLeader| == |log|
    ensures forall i :: 0 <= i < |Reached(log, onLeader)| ==>
              Reached(log, onLeader)[i].index <= |log| && !Reached(log, onLeader)[i].entry.op.OpOther?
  {
    if log != [] { ReachedIndexes(log[..|log| - 1], onLeader[..|log| - 1]); }
  }

  /** The commit index matters only up to the length of the log. */
  lemma {:induction false} CompletedLimit(log: seq<Operation>, onLeader: seq<bool>, commit: nat, c: nat, k: bytes)
    requires |onLeader| == |log| && (c == commit || |log| <= c <= commit)
    ensures Completed(log, onLeader, c, k) <==> Completed(log, onLeader, commit, k)
  {
    if log != [] { CompletedLimit(log[..|log| - 1], onLeader[..|log| - 1], commit, c, k); }
  }

  /** So a completed key has the same value on both, whatever failed before. */
  lemma CompletedAgrees(log: seq<Operation>, onLeader: seq<bool>, commit: nat, k: bytes)
    requires Numbered(log) && |onLeader| == |log| && commit <= |log| && Completed(log, onLeader, commit, k)
    ensures At(Fold(Entries(log)[..commit]), k) == At(Fold(Entries(Reached(log, onLeader))), k)
  {
    hide Fold;
    SameRecordIff(log, onLeader, commit, k);
    ReachedIndexes(log, onLeader);
    FoldLast(log[..commit], k);
    FoldLast(Reached(log, onLeader), k);
    assert Entries(log)[..commit] == Entries(log[..commit]);
  }

  /** A logged write the leader refused is below the commit index as soon as a later one commits:
      followers then hold a value the leader never acknowledged. */
  lemma RefusedWriteReplicates(a: bytes, b: bytes, x: bytes, y: bytes)
    requires a != b
    ensures var log := [Operation(1, Entry(0, OpPut, a, x, 0)), Operation(2, Entry(0, OpPut, b, y, 0))];
            At(Fold(Entries(log)[..2]), a) == Some(x) && At(Fold(Entries(Reached(log, [false, true]))), a) == None
  {
    hide Fold;
    var p, q := Operation(1, Entry(0, OpPut, a, x, 0)), Operation(2, Entry(0, OpPut, b, y, 0));
    assert [p] + [q] == [p, q] && [false] + [true] == [false, true] && [] + [p] == [p] && [] + [false] == [false];
    ReachedExtend([], [], p, false);
    ReachedExtend([p], [false], q, true);
    assert Reached([], []) == [] && Reached([p], [false]) == [] + [] && Reached([p, q], [false, true]) == [] + [q];
    assert Entries([p, q])[..2] == Entries([p, q]);
    FoldLast([p, q], a);
    FoldLast([q], a);
    assert [p, q][..1] == [p] && [q][..0] == [];
    assert LastOn([p, q], a) == LastOn([p], a) == Some(p);
    assert LastOn([q], a) == LastOn([], a) == None;
    assert At(Fold(Entries([q])), a) == None;
    assert [] + [q] == [q];
  }
}
