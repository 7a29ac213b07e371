/** The primary's own data against its journal (internal/node/handlers.go): a client write reaches the engine
    first and the journal second, under a lock that other writers share. When the journal tells all of the
    data, a promoted follower has exactly what the old primary had. */
module PrimaryData {
  import opened Bytes
  import opened Journal
  import opened Replication
  import opened Node
  import opened NodeInvariants
  import opened NodeRuns
  import opened Failover
  import opened Completeness
  import opened Witness

  // ---- writes that keep the journal true ----

  /** Thread t has written to the engine and not yet to the journal. */
  predicate Between(n: Node, t: nat) {
    n.vol.Some? && t in n.vol.value.threads && n.vol.value.threads[t].WApplied?
  }

  /** Thread t has passed the gate and is about to write to the engine. */
  predicate Inside(n: Node, t: nat) {
    n.vol.Some? && t in n.vol.value.threads && n.vol.value.threads[t].WInside?
  }

  function WriteBy(n: Node, t: nat): WriteOp
    requires Between(n, t)
  {
    n.vol.value.threads[t].w
  }

  /** No write overtakes another on the same key between engine and journal, none bypasses the journal, no
      append fails and no crash comes between the two. */
  ghost predicate Faithful(n: Node, a: Act) {
    && (a.AEffect? && a.e.Execute? && a.e.ok && Inside(n, a.u) ==>
          forall t :: Between(n, t) ==> WriteBy(n, t).key != n.vol.value.threads[a.u].w.key)
    && (a.AEffect? ==> !a.e.Explain? && (a.e.AppendEntry? ==> a.e.outcome.Committed?))
    && (a.AProcess? && a.x.Crash? ==> forall t :: !Between(n, t))
  }

  /** What the engine holds under k: the write on its way to the journal, or what the journal says. */
  ghost predicate Told(n: Node, k: bytes) {
    && (forall t :: Between(n, t) && WriteBy(n, t).key == k ==> At(n.disk.data, k) == EffectOf(WriteBy(n, t)))
    && ((forall t :: Between(n, t) ==> WriteBy(n, t).key != k) ==>
          At(n.disk.data, k) == At(Fold(n.disk.journal.entries), k))
  }

  function EffectOf(w: WriteOp): Option<bytes> {
    if w.op == OpPut then Some(w.value) else None
  }

  ghost predicate AllTold(n: Node) {
    && n.disk.journal.tail == Clean && n.missed == {}
    && (forall k :: Told(n, k))
    && (forall t, u :: Between(n, t) && Between(n, u) && WriteBy(n, t).key == WriteBy(n, u).key ==> t == u)
  }

  /** Steps that leave data, journal and the writes in between as they are. */
  ghost predicate Quiet(n: Node, n': Node) {
    && n'.disk.data == n.disk.data && n'.disk.journal == n.disk.journal && n'.missed == n.missed
    && forall t :: (Between(n', t) <==> Between(n, t)) && (Between(n, t) ==> WriteBy(n', t) == WriteBy(n, t))
  }

  lemma QuietTold(n: Node, n': Node)
    requires AllTold(n) && Quiet(n, n')
    ensures AllTold(n')
  {
    hide Fold, Between;
    forall k ensures Told(n', k) { assert Told(n, k); }
  }

  lemma ThreadQuiet(n: Node, t: nat, m: ThreadAct, n': Node)
    requires ThreadStep(n, t, m, n')
    ensures Quiet(n, n')
  {
    hide Fits;
  }

  lemma QuiesceQuiet(n: Node, q: QuiesceAct, n': Node)
    requires QuiesceStep(n, q, n') && n.disk.journal.tail == Clean
    ensures Quiet(n, n')
  {
  }

  lemma PromoteQuiet(n: Node, p: PromoteAct, n': Node)
    requires PromoteStep(n, p, n')
    ensures Quiet(n, n')
  {
  }

  lemma ProcessQuiet(n: Node, x: ProcessAct, n': Node)
    requires ProcessStep(n, x, n') && n.disk.journal.tail == Clean && n.cfg.role == RolePrimary && RolesOk(n)
    requires x.Crash? ==> forall t :: !Between(n, t)
    ensures Quiet(n, n')
  {
    hide Contiguous, PromotionConsistent, TailOf;
    if x.Crash? {
      forall t | t in n.vol.value.threads ensures !n.vol.value.threads[t].WApplied? { assert !Between(n, t); }
      assert x.tail == n.disk.journal.tail;
      assert n'.disk == n.disk;
    } else if x.StartUp? {
      assert n'.disk.journal == n.disk.journal;
    }
  }

  lemma ExecuteTold(n: Node, t: nat, ok: bool, n': Node)
    requires AllTold(n) && Step(n, AEffect(t, Execute(ok)), n') && Faithful(n, AEffect(t, Execute(ok)))
    requires ThreadsOk(n)
    ensures AllTold(n')
  {
    ThreadAt(n, t);
    var v := n.vol.value;
    if ok {
      var w := v.threads[t].w;
      Executed(n, t, w, n');
      hide Fold, Apply, Between, Step, ThreadsOk;
      forall k ensures Told(n', k) {
        assert Told(n, k);
        if k == w.key { assert forall u :: Between(n', u) && WriteBy(n', u).key == k ==> u == t; }
      }
    } else {
      assert Quiet(n, n');
      hide Quiet;
      QuietTold(n, n');
    }
  }

  /** The engine has the write, and the thread holding it is the only new one in between. */
  lemma Executed(n: Node, t: nat, w: WriteOp, n': Node)
    requires n.vol.Some? && t in n.vol.value.threads && n.vol.value.threads[t] == WInside(w)
    requires Step(n, AEffect(t, Execute(true)), n')
    ensures n'.disk == n.disk.(data := n'.disk.data) && n'.missed == n.missed && Between(n', t) && WriteBy(n', t) == w
    ensures forall k :: At(n'.disk.data, k) == if k == w.key && !w.op.OpOther? then EffectOf(w) else At(n.disk.data, k)
    ensures !Between(n, t)
    ensures forall u :: u != t ==>
              (Between(n', u) <==> Between(n, u)) && (Between(n, u) ==> WriteBy(n', u) == WriteBy(n, u))
  {
  }

  /** The journal has the write, and its thread is no longer in between. */
  lemma Appended(n: Node, t: nat, ts: u64, n': Node) returns (e: Entry)
    requires Step(n, AEffect(t, AppendEntry(ts, Committed)), n') && JournalOk(n) && n.disk.journal.tail == Clean
    requires NoOther(n.disk.journal.entries) && ThreadsOk(n)
    ensures Between(n, t) && !Between(n', t)
    ensures n'.disk == n.disk.(journal := JournalFile(n.disk.journal.entries + [e], Clean)) && n'.missed == n.missed
    ensures e.key == WriteBy(n, t).key && Effect(e) == EffectOf(WriteBy(n, t)) && !e.op.OpOther?
    ensures forall u :: u != t ==>
              (Between(n', u) <==> Between(n, u)) && (Between(n, u) ==> WriteBy(n', u) == WriteBy(n, u))
  {
    ThreadAt(n, t);
    e := NextEntry(n.vol.value.log.value, n.vol.value.threads[t].w, ts);
  }

  lemma FoldGrows(j: seq<Entry>, e: Entry, k: bytes)
    requires !e.op.OpOther?
    ensures At(Fold(j + [e]), k) == if k == e.key then Effect(e) else At(Fold(j), k)
  {
    assert (j + [e])[..|j|] == j;
  }

  lemma AppendTold(n: Node, t: nat, ts: u64, n': Node)
    requires AllTold(n) && Step(n, AEffect(t, AppendEntry(ts, Committed)), n') && JournalOk(n) && ThreadsOk(n)
    requires NoOther(n.disk.journal.entries)
    ensures AllTold(n')
  {
    var e := Appended(n, t, ts, n');
    hide Fold, Between, Step, ThreadsOk, JournalOk;
    forall k ensures Told(n', k) {
      assert Told(n, k);
      FoldGrows(n.disk.journal.entries, e, k);
    }
  }

  lemma EffectTold(n: Node, t: nat, e: EffectAct, n': Node)
    requires Inv(n) && n.cfg.role == RolePrimary && AllTold(n)
    requires Step(n, AEffect(t, e), n') && Faithful(n, AEffect(t, e))
    ensures AllTold(n')
  {
    PrimaryJournal(n);
    NoReplication(n, AEffect(t, e), n');
    assert ThreadsOk(n) && JournalOk(n);
    hide Inv, AllTold, Step, Faithful, ThreadsOk, JournalOk;
    if e.Execute? {
      ExecuteTold(n, t, e.ok, n');
    } else {
      IsCommit(n, t, e);
      AppendTold(n, t, e.ts, n');
    }
  }

  lemma NoReplication(n: Node, a: Act, n': Node)
    requires Inv(n) && n.cfg.role == RolePrimary && Step(n, a, n')
    ensures !Replicates(a)
  {
    RoleStands(n);
    hide Inv, Step;
    if Replicates(a) { ReplicationExcluded(n, a, n'); }
  }

  lemma RoleStands(n: Node)
    requires Inv(n) && n.cfg.role == RolePrimary
    ensures n.vol.Some? ==> n.vol.value.role == RolePrimary
  {
    hide LocksOk, PromotionOk, JournalOk, QuiesceOk, ThreadsOk;
  }

  lemma IsCommit(n: Node, t: nat, e: EffectAct)
    requires Faithful(n, AEffect(t, e)) && !e.Execute? && !e.BatchEntry? && !e.BatchSave?
    ensures e.AppendEntry? && e == AppendEntry(e.ts, Committed)
  {
  }

  lemma StepTold(n: Node, a: Act, n': Node)
    requires Inv(n) && n.cfg.role == RolePrimary && AllTold(n) && Step(n, a, n') && Faithful(n, a)
    ensures AllTold(n')
  {
    hide ThreadStep, EffectStep, QuiesceStep, PromoteStep, CommitStep, ProcessStep, Told, Between, Quiet;
    match a
    case AThread(t, m) => ThreadQuiet(n, t, m, n'); QuietTold(n, n');
    case AEffect(t, e) => EffectTold(n, t, e, n');
    case AQuiesce(q) => QuiesceQuiet(n, q, n'); QuietTold(n, n');
    case APromote(p) => PromoteQuiet(n, p, n'); QuietTold(n, n');
    case ACommit(c) => PrimaryNeverCommits(n, c, n');
    case AProcess(x) => ProcessQuiet(n, x, n'); QuietTold(n, n');
  }

  lemma InitTold(n: Node)
    requires Init(n)
    ensures AllTold(n)
  {
  }

  // ---- the results ----

  /** In a faithful run of a configured primary the engine holds, key by key, what the journal says, save for
      a write still on its way from the one to the other. */
  lemma {:induction false} DataIsTold(r: Run, i: nat)
    requires IsRun(r) && i < |r.states| && r.states[0].cfg.role == RolePrimary
    requires forall k :: 0 <= k < i ==> Faithful(r.states[k], r.acts[k])
    ensures AllTold(r.states[i])
    ensures (forall t :: !Between(r.states[i], t)) ==> r.states[i].disk.data == Fold(r.states[i].disk.journal.entries)
  {
    hide Faithful, Inv, Step;
    if i == 0 {
      InitTold(r.states[0]);
    } else {
      DataIsTold(r, i - 1);
      RunInv(r, i - 1);
      assert Faithful(r.states[i - 1], r.acts[i - 1]);
      StepTold(r.states[i - 1], r.acts[i - 1], r.states[i]);
    }
    hide IsRun;
    WhenQuiet(r.states[i]);
  }

  lemma WhenQuiet(n: Node)
    requires AllTold(n)
    ensures (forall t :: !Between(n, t)) ==> n.disk.data == Fold(n.disk.journal.entries)
  {
    hide Fold, Between;
    if forall t :: !Between(n, t) {
      var f := Fold(n.disk.journal.entries);
      forall k ensures At(n.disk.data, k) == At(f, k) { assert Told(n, k); }
      SameMaps(n.disk.data, f);
    }
  }

  lemma SameMaps(a: Data, b: Data)
    requires forall k :: At(a, k) == At(b, k)
    ensures a == b
  {
    forall k ensures k in a <==> k in b { assert At(a, k) == At(b, k); }
    forall k | k in a ensures a[k] == b[k] { assert At(a, k) == At(b, k); }
  }

  lemma {:induction false} SystemTold(r: SysRun, i: nat)
    requires IsSysRun(r) && i < |r.states|
    requires forall k :: 0 <= k < i && r.acts[k].PAct? ==> Faithful(r.states[k].p, r.acts[k].pa)
    ensures AllTold(r.states[i].p)
  {
    if i == 0 {
      InitTold(r.states[0].p);
    } else {
      hide Faithful, SysInv, Step, AllTold;
      SystemTold(r, i - 1);
      var s, a, s' := r.states[i - 1], r.acts[i - 1], r.states[i];
      assert Next(s, a, s');
      SysRunInv(r, i - 1);
      if a.PAct? {
        PrimaryOf(s);
        assert Faithful(s.p, a.pa);
        StepTold(s.p, a.pa, s'.p);
      }
    }
  }

  lemma PrimaryOf(s: System)
    requires SysInv(s)
    ensures Inv(s.p) && s.p.cfg.role == RolePrimary
  {
    hide Inv;
  }

  /** Failover hands over the data itself: when the old primary's run was faithful, a promoted follower
      that took no client write yet has exactly the data of the old primary. */
  lemma FailoverKeepsData(r: SysRun, i: nat)
    requires DisciplinedRun(r) && i < |r.states|
    requires forall k :: 0 <= k < i && r.acts[k].PAct? ==> Faithful(r.states[k].p, r.acts[k].pa)
    requires r.states[i].f.disk.promotion.Some? && !r.states[i].f.wrote
    ensures r.states[i].f.disk.data == r.states[i].p.disk.data
  {
    hide Faithful, Step;
    SystemTold(r, i);
    FailoverComplete(r, i);
    SysRunInv(r, i);
    var s := r.states[i];
    hide DisciplinedRun;
    FencedIsQuiet(s);
    WhenQuiet(s.p);
    hide SysInv, Told;
  }

  lemma FencedIsQuiet(s: System)
    requires SysInv(s) && s.f.disk.promotion.Some?
    ensures forall t :: !Between(s.p, t)
  {
    hide CoreOk, Agreed;
    var qr :| qr in s.issued && s.f.disk.promotion.value == PromotionOf(s.f.cfg, qr);
    forall t ensures !Between(s.p, t) {
      if Between(s.p, t) { ThreadAt(s.p, t); }
    }
  }

  // ---- two writes that overtake each other ----

  const ONE := WriteOp(OpPut, [97], [1])
  const TWO := WriteOp(OpPut, [97], [2])
  const OPEN := View(RolePrimary, false, false, false, false)

  function Serving(data: Data, entries: seq<Entry>, threads: map<nat, Pc>): Node {
    Node(PRIMARY, EMPTY_DISK.(data := data, journal := JournalFile(entries, Clean)),
         Some(Running(LogState(0, entries, false), threads)), 0, {}, data != map[])
  }

  /** A move of one writer, before anything was written. */
  lemma Moves2(n: Node, acts: seq<Act>, threads: map<nat, Pc>, t: nat, m: ThreadAct, to: Pc)
    requires Path(n, acts, Serving(map[], [], threads))
    requires ThreadMove(OPEN, false, 0, if t in threads then Some(threads[t]) else None, m) == Moves(false, Some(to))
    ensures Path(n, acts + [AThread(t, m)], Serving(map[], [], threads[t := to]))
  {
    hide Path, ThreadMove;
    var s, s' := Serving(map[], [], threads), Serving(map[], [], threads[t := to]);
    var v := s.vol.value;
    assert ViewOf(s, v) == OPEN && v.syncing == false && v.lastApplied == 0;
    Then(n, acts, s, AThread(t, m), s');
  }

  /** The moves of a write up to the engine. */
  lemma WriterMoves(w: WriteOp)
    requires WriteOpOk(w)
    ensures ThreadMove(OPEN, false, 0, None, WriteEnter(w)) == Moves(false, Some(WWaiting(w)))
    ensures ThreadMove(OPEN, false, 0, Some(WWaiting(w)), WriteLock) == Moves(false, Some(WLocked(w)))
    ensures ThreadMove(OPEN, false, 0, Some(WLocked(w)), WriteRecheck) == Moves(false, Some(WInside(w)))
  {
  }

  /** Writer t is admitted. */
  lemma Enters2(n: Node, acts: seq<Act>, threads: map<nat, Pc>, t: nat, w: WriteOp) returns (after: seq<Act>)
    requires Path(n, acts, Serving(map[], [], threads)) && t !in threads && WriteOpOk(w)
    ensures Path(n, after, Serving(map[], [], threads[t := WInside(w)]))
  {
    hide Path, ThreadMove, Serving, WriteOpOk;
    WriterMoves(w);
    Moves2(n, acts, threads, t, WriteEnter(w), WWaiting(w));
    var t1 := threads[t := WWaiting(w)];
    Moves2(n, acts + [AThread(t, WriteEnter(w))], t1, t, WriteLock, WLocked(w));
    var t2 := t1[t := WLocked(w)];
    Moves2(n, acts + [AThread(t, WriteEnter(w))] + [AThread(t, WriteLock)], t2, t, WriteRecheck, WInside(w));
    after := acts + [AThread(t, WriteEnter(w))] + [AThread(t, WriteLock)] + [AThread(t, WriteRecheck)];
    assert t2[t := WInside(w)] == threads[t := WInside(w)];
  }

  const OVERTAKEN: seq<Entry> := [Entry(1, OpPut, [97], [2], 0), Entry(2, OpPut, [97], [1], 0)]

  /** Both writers hold the gate's shared lock: the engine gets ONE before TWO. */
  lemma Executes(n: Node, acts: seq<Act>) returns (after: seq<Act>)
    requires Path(n, acts, Serving(map[], [], map[0 := WInside(ONE), 1 := WInside(TWO)]))
    ensures Path(n, after, Serving(map[[97] := [2]], [], map[0 := WApplied(ONE), 1 := WApplied(TWO)]))
  {
    hide Path;
    var s0 := Serving(map[], [], map[0 := WInside(ONE), 1 := WInside(TWO)]);
    var s1 := Serving(map[[97] := [1]], [], map[0 := WApplied(ONE), 1 := WInside(TWO)]);
    assert s0.vol.value.threads[0 := WApplied(ONE)] == s1.vol.value.threads && [97] in s1.disk.data;
    Then(n, acts, s0, AEffect(0, Execute(true)), s1);
    after := acts + [AEffect(0, Execute(true))];
    var s2 := Serving(map[[97] := [2]], [], map[0 := WApplied(ONE), 1 := WApplied(TWO)]);
    assert s1.vol.value.threads[1 := WApplied(TWO)] == s2.vol.value.threads;
    assert Apply(s1.disk.data, Entry(0, TWO.op, TWO.key, TWO.value, 0)) == map[[97] := [2]];
    Then(n, after, s1, AEffect(1, Execute(true)), s2);
    after := after + [AEffect(1, Execute(true))];
  }

  /** The journal gets TWO before ONE. */
  lemma Overtakes(n: Node, acts: seq<Act>) returns (after: seq<Act>)
    requires Path(n, acts, Serving(map[[97] := [2]], [], map[0 := WApplied(ONE), 1 := WApplied(TWO)]))
    ensures Path(n, after, Serving(map[[97] := [2]], OVERTAKEN, map[0 := WDone, 1 := WDone]))
  {
    hide Path;
    var s2 := Serving(map[[97] := [2]], [], map[0 := WApplied(ONE), 1 := WApplied(TWO)]);
    var s3 := Serving(map[[97] := [2]], OVERTAKEN[..1], map[0 := WApplied(ONE), 1 := WDone]);
    assert s2.vol.value.threads[1 := WDone] == s3.vol.value.threads;
    assert [] + [NextEntry(LogState(0, [], false), TWO, 0)] == OVERTAKEN[..1];
    Then(n, acts, s2, AEffect(1, AppendEntry(0, Committed)), s3);
    after := acts + [AEffect(1, AppendEntry(0, Committed))];
    assert s3.vol.value.threads[0] == WApplied(ONE);
    var s4 := Serving(map[[97] := [2]], OVERTAKEN, map[0 := WDone, 1 := WDone]);
    assert s3.vol.value.threads[0 := WDone] == s4.vol.value.threads;
    assert OVERTAKEN[..1] + [NextEntry(LogState(0, OVERTAKEN[..1], false), ONE, 0)] == OVERTAKEN;
    Then(n, after, s3, AEffect(0, AppendEntry(0, Committed)), s4);
    after := after + [AEffect(0, AppendEntry(0, Committed))];
  }

  /** Two acknowledged writes to one key: the primary answers with the one, its journal, and with it every
      follower, ends with the other. */
  lemma OvertakingWritesDiverge() returns (r: Run)
    ensures IsRun(r)
    ensures var n := r.states[|r.states| - 1];
            && n.cfg.role == RolePrimary && (forall t :: !Between(n, t)) && n.disk.journal.tail == Clean
            && At(n.disk.data, [97]) == Some([2]) && At(Fold(n.disk.journal.entries), [97]) == Some([1])
  {
    hide Path, Step;
    var n0, acts, n1 := StartsPrimary();
    assert n1 == Serving(map[], [], map[]);
    acts := Enters2(n0, acts, map[], 0, ONE);
    acts := Enters2(n0, acts, map[][0 := WInside(ONE)], 1, TWO);
    assert map[][0 := WInside(ONE)][1 := WInside(TWO)] == map[0 := WInside(ONE), 1 := WInside(TWO)];
    acts := Executes(n0, acts);
    acts := Overtakes(n0, acts);
    r := RunOf(n0, acts, Serving(map[[97] := [2]], OVERTAKEN, map[0 := WDone, 1 := WDone]));
    assert OVERTAKEN == OVERTAKEN[..1] + [OVERTAKEN[1]];
    FoldGrows(OVERTAKEN[..1], OVERTAKEN[1], [97]);
  }
}
