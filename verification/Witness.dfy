/** Runs that reach the states the theorems are about: a promotion, a fence that a promoted primary
    forgets, and a quiesce record that misses an orphaned journal record. */
module Witness {
  import opened Bytes
  import opened Journal
  import opened Replication
  import opened Node
  import opened NodeInvariants
  import opened NodeRuns
  import opened Failover
  import opened Completeness

  // ---- paths and runs ----

  /** The actions lead from n to n'. */
  ghost predicate Path(n: Node, acts: seq<Act>, n': Node) {
    if acts == [] then n == n'
    else
      var before, last := acts[..|acts| - 1], acts[|acts| - 1];
      exists m :: Path(n, before, m) && Step(m, last, n')
  }

  lemma Then(n: Node, acts: seq<Act>, m: Node, a: Act, n': Node)
    requires Path(n, acts, m) && Step(m, a, n')
    ensures Path(n, acts + [a], n')
  {
    hide Step;
    assert (acts + [a])[..|acts|] == acts;
  }

  lemma {:induction false} Join(n: Node, a: seq<Act>, m: Node, b: seq<Act>, n': Node)
    requires Path(n, a, m) && Path(m, b, n')
    ensures Path(n, a + b, n')
  {
    hide Step;
    if b == [] {
      assert a + b == a;
    } else {
      var before, last := b[..|b| - 1], b[|b| - 1];
      var k :| Path(m, before, k) && Step(k, last, n');
      Join(n, a, m, before, k);
      Then(n, a + before, k, last, n');
      assert a + before + [last] == a + b;
    }
  }

  ghost predicate Ends(r: Run, n: Node) {
    IsRun(r) && r.states[|r.states| - 1] == n
  }

  lemma Extend(r: Run, n: Node, a: Act, n': Node) returns (r': Run)
    requires Ends(r, n) && Step(n, a, n')
    ensures Ends(r', n') && r'.states == r.states + [n'] && r'.acts == r.acts + [a]
  {
    hide Step, Init;
    r' := Run(r.states + [n'], r.acts + [a]);
    forall i | 0 <= i < |r'.acts| ensures Step(r'.states[i], r'.acts[i], r'.states[i + 1]) {
      if i < |r.acts| { assert Step(r.states[i], r.acts[i], r.states[i + 1]); }
    }
  }

  /** A path from an initial node is a run. */
  lemma {:induction false} RunOf(n: Node, acts: seq<Act>, n': Node) returns (r: Run)
    requires Init(n) && Path(n, acts, n')
    ensures Ends(r, n') && r.acts == acts
    decreases |acts|
  {
    hide Step, Init;
    if acts == [] {
      r := Run([n], []);
      assert Ends(r, n);
    } else {
      var before, last := acts[..|acts| - 1], acts[|acts| - 1];
      var m :| Path(n, before, m) && Step(m, last, n');
      var r0 := RunOf(n, before, m);
      r := Extend(r0, m, last, n');
      assert before + [last] == acts;
    }
  }

  // ---- a configured primary that quiesces ----

  const PRIMARY := Config("p", RolePrimary, "", "http://p")
  const RECORD := QuiesceRecord("q", "p", "http://p", 0)

  function Running(log: LogState, threads: map<nat, Pc>): Volatile {
    Process(RolePrimary, NotPromoted, Some(log), Active, 0).(threads := threads)
  }

  const EMPTY_LOG := LogState(0, [], false)

  lemma StartsPrimary() returns (n: Node, acts: seq<Act>, n': Node)
    ensures Init(n) && n.cfg == PRIMARY && Path(n, acts, n')
    ensures n' == Node(PRIMARY, EMPTY_DISK, Some(Running(EMPTY_LOG, map[])), 0, {}, false)
  {
    n := Node(PRIMARY, EMPTY_DISK, None, 0, {}, false);
    n' := Node(PRIMARY, EMPTY_DISK, Some(Running(EMPTY_LOG, map[])), 0, {}, false);
    assert ProcessStep(n, StartUp, n');
    assert Path(n, [], n);
    Then(n, [], n, AProcess(StartUp), n');
    acts := [] + [AProcess(StartUp)];
  }

  /** The quiesce handler of an idle primary runs through to the saved record. */
  lemma Quiesces(n: Node) returns (acts: seq<Act>, n': Node)
    requires n.vol.Some? && n.vol.value.qpc.QIdle? && n.vol.value.qstate.Active? && n.vol.value.role == RolePrimary
    requires n.vol.value.threads == map[] && n.vol.value.log.Some? && LatestSeq(n.vol.value.log.value) < U64_SIZE
    ensures Path(n, acts, n')
    ensures var rec := QuiesceRecord("q", n.cfg.nodeID, n.cfg.selfURL, LatestSeq(n.vol.value.log.value));
            && n'.disk == n.disk.(intent := Some(Intent("q", n.cfg.nodeID, n.cfg.selfURL)), record := Some(rec))
            && n'.vol == Some(n.vol.value.(gateClosed := true, qpc := QSaved(rec)))
            && n' == n.(disk := n'.disk, vol := n'.vol, missed := n'.missed)
            && (rec in n'.missed <==> rec in n.missed || n.disk.journal.tail.Whole?)
  {
    hide Path;
    PathStart(n);
    var v := n.vol.value;
    var rec := QuiesceRecord("q", n.cfg.nodeID, n.cfg.selfURL, LatestSeq(v.log.value));
    var n1 := n.(vol := Some(v.(qpc := QHasId("q"))));
    Then(n, [], n, AQuiesce(Begin("q")), n1);
    acts := [] + [AQuiesce(Begin("q"))];
    var n2 := n1.(disk := n1.disk.(intent := Some(Intent("q", n.cfg.nodeID, n.cfg.selfURL))),
                  vol := Some(v.(qpc := QIntent("q"))));
    Then(n, acts, n1, AQuiesce(SaveIntent(true)), n2);
    acts := acts + [AQuiesce(SaveIntent(true))];
    var n3 := n2.(vol := Some(v.(gateClosed := true, qpc := QGated("q"))));
    Then(n, acts, n2, AQuiesce(CloseGate), n3);
    acts := acts + [AQuiesce(CloseGate)];
    var n4 := n3.(vol := Some(v.(gateClosed := true, qpc := QSeq(rec))),
                  missed := if n.disk.journal.tail.Whole? then n.missed + {rec} else n.missed);
    Then(n, acts, n3, AQuiesce(ReadSeq), n4);
    acts := acts + [AQuiesce(ReadSeq)];
    n' := n4.(disk := n4.disk.(record := Some(rec)), vol := Some(v.(gateClosed := true, qpc := QSaved(rec))));
    Then(n, acts, n4, AQuiesce(SaveRecord(true)), n');
    acts := acts + [AQuiesce(SaveRecord(true))];
  }

  lemma PathStart(n: Node)
    ensures Path(n, [], n)
  {
  }

  // ---- a follower that is promoted ----

  const FOLLOWER := Config("f", RoleFollower, "http://p", "http://f")
  const START := Process(RoleFollower, NotPromoted, None, Active, 0)

  lemma StartsFollower() returns (n: Node, acts: seq<Act>, n': Node)
    ensures Init(n) && n == Node(FOLLOWER, EMPTY_DISK, None, 0, {}, false)
    ensures Path(n, acts, n') && acts == [AProcess(StartUp)] && n' == n.(vol := Some(START))
  {
    n := Node(FOLLOWER, EMPTY_DISK, None, 0, {}, false);
    n' := n.(vol := Some(START));
    assert ProcessStep(n, StartUp, n');
    PathStart(n);
    Then(n, [], n, AProcess(StartUp), n');
    acts := [] + [AProcess(StartUp)];
  }

  /** An idle follower that has applied and saved what the record says. */
  ghost predicate Awaits(n: Node, rec: QuiesceRecord) {
    && n.cfg == FOLLOWER && PromotionRequestOk(FOLLOWER, rec) && n.vol.Some?
    && n.vol.value == START.(lastApplied := rec.latestSeq) && CursorValue(n.disk) == rec.latestSeq
    && n.disk.journal == JournalFile([], Clean) && n.disk.baseline.None? && n.disk.promotion.None?
  }

  function Checked(rec: QuiesceRecord): Volatile {
    START.(lastApplied := rec.latestSeq, barrier := true, promoted := Promoting, wlock := true, ppc := PChecked(rec))
  }

  /** handlePromote up to the locked re-validation. */
  lemma Validates(n: Node, rec: QuiesceRecord) returns (acts: seq<Act>, n': Node)
    requires Awaits(n, rec)
    ensures Path(n, acts, n') && n' == n.(vol := Some(Checked(rec)))
    ensures forall i :: 0 <= i < |acts| ==> acts[i].APromote? && (acts[i].p.PromoteBegin? ==> acts[i].p.qr == rec)
  {
    hide Path;
    var v := n.vol.value;
    PathStart(n);
    var n1 := n.(vol := Some(v.(ppc := PValidated(rec))));
    Then(n, [], n, APromote(PromoteBegin(rec)), n1);
    acts := [] + [APromote(PromoteBegin(rec))];
    var n2 := n.(vol := Some(v.(barrier := true, ppc := PBarrier(rec))));
    Then(n, acts, n1, APromote(RaiseBarrier), n2);
    acts := acts + [APromote(RaiseBarrier)];
    var n3 := n.(vol := Some(v.(barrier := true, promoted := Promoting, ppc := PMarked(rec))));
    Then(n, acts, n2, APromote(Mark), n3);
    acts := acts + [APromote(Mark)];
    var n4 := n.(vol := Some(Checked(rec).(ppc := PLocked(rec))));
    Then(n, acts, n3, APromote(Acquire), n4);
    acts := acts + [APromote(Acquire)];
    n' := n.(vol := Some(Checked(rec)));
    Then(n, acts, n4, APromote(Validate), n');
    acts := acts + [APromote(Validate)];
  }

  function PromotedDisk(d: Disk, rec: QuiesceRecord): Disk {
    d.(baseline := Some(rec.latestSeq), promotion := Some(PromotionOf(FOLLOWER, rec)))
  }

  function OwnLog(rec: QuiesceRecord): LogState {
    LogState(rec.latestSeq, [], false)
  }

  /** executePromotion, the role switch and the release of the lock. */
  lemma Promotes(n: Node, rec: QuiesceRecord) returns (acts: seq<Act>, n': Node)
    requires Awaits(n.(vol := Some(START.(lastApplied := rec.latestSeq))), rec) && n.vol == Some(Checked(rec))
    ensures Path(n, acts, n') && n' == n.(disk := PromotedDisk(n.disk, rec), vol := n'.vol) && n'.vol.Some?
    ensures var v := n'.vol.value;
            && v.role == RolePrimary && v.qpc.QIdle? && v.qstate.Active? && v.threads == map[] && !v.gateClosed
            && v.log == Some(OwnLog(rec))
    ensures forall i :: 0 <= i < |acts| ==> acts[i].ACommit? || acts[i] == APromote(Release)
  {
    hide Path;
    var v, s, promotion := n.vol.value, rec.latestSeq, PromotionOf(FOLLOWER, rec);
    PathStart(n);
    assert Contiguous(0, []) && Contiguous(s, []);
    assert BaselineAcceptable(n.disk, s);
    var n1 := n.(disk := n.disk.(baseline := Some(s)), vol := Some(v.(ppc := PBaselined(rec))));
    Then(n, [], n, ACommit(SaveBaseline(true)), n1);
    acts := [] + [ACommit(SaveBaseline(true))];
    var n2 := n.(disk := PromotedDisk(n.disk, rec), vol := Some(v.(ppc := PCommitted(promotion))));
    Then(n, acts, n1, ACommit(SavePromotion(true)), n2);
    acts := acts + [ACommit(SavePromotion(true))];
    var n3 := n2.(vol := Some(v.(ppc := POpened(promotion, []))));
    assert n2.disk.(journal := JournalFile([], Clean)) == n2.disk;
    Then(n, acts, n2, ACommit(OpenLog(true)), n3);
    acts := acts + [ACommit(OpenLog(true))];
    var v4 := v.(role := RolePrimary, promoted := Promoted(promotion), log := Some(OwnLog(rec)), ppc := PSwitched);
    var n4 := n2.(vol := Some(v4));
    Then(n, acts, n3, ACommit(Switch), n4);
    acts := acts + [ACommit(Switch)];
    n' := n2.(vol := Some(v4.(wlock := false, ppc := PIdle)));
    Then(n, acts, n4, APromote(Release), n');
    acts := acts + [APromote(Release)];
  }

  /** A promoted primary that was quiesced, restarted: the record is on disk and writes are accepted. */
  lemma PromotedFenceIsForgotten() returns (r: Run)
    ensures IsRun(r)
    ensures var n := r.states[|r.states| - 1];
            Fenced(n.disk) && n.disk.record.Some? && n.disk.promotion.Some? && AcceptsWrites(n)
  {
    hide Path, Step;
    var n0, a0, n1 := StartsFollower();
    var a1, n2 := Validates(n1, RECORD);
    Join(n0, a0, n1, a1, n2);
    var a2, n3 := Promotes(n2, RECORD);
    Join(n0, a0 + a1, n2, a2, n3);
    var a3, n4 := Quiesces(n3);
    Join(n0, a0 + a1 + a2, n3, a3, n4);
    var a4, n5 := RestartsPromoted(n4);
    Join(n0, a0 + a1 + a2 + a3, n4, a4, n5);
    r := RunOf(n0, a0 + a1 + a2 + a3 + a4, n5);
  }

  lemma RestartsPromoted(n: Node) returns (acts: seq<Act>, n': Node)
    requires n.cfg == FOLLOWER && n.vol.Some? && n.disk.record.Some?
    requires n.disk == PromotedDisk(EMPTY_DISK, RECORD).(intent := n.disk.intent, record := n.disk.record)
    ensures Path(n, acts, n') && n'.disk == n.disk && AcceptsWrites(n')
  {
    hide Path;
    PathStart(n);
    var n1 := n.(vol := None);
    Then(n, [], n, AProcess(Crash(Clean)), n1);
    n' := n1.(vol := Some(Process(RolePrimary, Promoted(PromotionOf(FOLLOWER, RECORD)), Some(EMPTY_LOG), Active, 0)));
    assert Contiguous(0, []);
    assert Start(FOLLOWER, n1.disk) == Some((n1.disk, n'.vol.value));
    Then(n, [] + [AProcess(Crash(Clean))], n1, AProcess(StartUp), n');
    acts := [] + [AProcess(Crash(Clean))] + [AProcess(StartUp)];
  }

  // ---- a whole failover ----

  ghost predicate SysEnds(r: SysRun, s: System) {
    DisciplinedRun(r) && r.states[|r.states| - 1] == s
  }

  lemma ExtendSys(r: SysRun, s: System, a: SysAct, s': System) returns (r': SysRun)
    requires SysEnds(r, s) && Next(s, a, s') && Disciplined(s, a)
    ensures SysEnds(r', s')
  {
    hide Next, Disciplined, SysInit;
    r' := SysRun(r.states + [s'], r.acts + [a]);
    forall i | 0 <= i < |r'.acts|
      ensures Next(r'.states[i], r'.acts[i], r'.states[i + 1]) && Disciplined(r'.states[i], r'.acts[i])
    {
      if i < |r.acts| { assert Next(r.states[i], r.acts[i], r.states[i + 1]) && Disciplined(r.states[i], r.acts[i]); }
    }
  }

  lemma {:induction false} PrimaryAlong(r: SysRun, s: System, acts: seq<Act>, p': Node) returns (r': SysRun)
    requires SysEnds(r, s) && Path(s.p, acts, p')
    ensures SysEnds(r', s.(p := p'))
    decreases |acts|
  {
    hide SysEnds, Step;
    if acts == [] {
      r' := r;
    } else {
      var before, last := acts[..|acts| - 1], acts[|acts| - 1];
      var m :| Path(s.p, before, m) && Step(m, last, p');
      var r0 := PrimaryAlong(r, s, before, m);
      r' := ExtendSys(r0, s.(p := m), PAct(last), s.(p := p'));
    }
  }

  lemma {:induction false} FollowerAlong(r: SysRun, s: System, acts: seq<Act>, f': Node) returns (r': SysRun)
    requires SysEnds(r, s) && Path(s.f, acts, f')
    requires forall i :: 0 <= i < |acts| ==> !acts[i].AThread?
    requires forall i :: 0 <= i < |acts| && acts[i].APromote? && acts[i].p.PromoteBegin? ==> acts[i].p.qr in s.issued
    ensures SysEnds(r', s.(f := f'))
    decreases |acts|
  {
    hide SysEnds, Step;
    if acts == [] {
      r' := r;
    } else {
      var before, last := acts[..|acts| - 1], acts[|acts| - 1];
      var m :| Path(s.f, before, m) && Step(m, last, f');
      var r0 := FollowerAlong(r, s, before, m);
      r' := ExtendSys(r0, s.(f := m), FAct(last), s.(f := f'));
    }
  }

  const WRITTEN := Entry(1, OpPut, [97], [1], 0)
  const AFTER := QuiesceRecord("q", "p", "http://p", 1)

  /** One client write, through engine and journal. */
  lemma Writes(n: Node) returns (acts: seq<Act>, n': Node)
    requires n == Node(PRIMARY, EMPTY_DISK, Some(Running(EMPTY_LOG, map[])), 0, {}, false)
    ensures Path(n, acts, n') && n'.vol == Some(Running(LogState(0, [WRITTEN], false), map[]))
    ensures n' == n.(disk := n'.disk, vol := n'.vol, wrote := true)
    ensures n'.disk == EMPTY_DISK.(data := map[[97] := [1]], journal := JournalFile([WRITTEN], Clean))
  {
    hide Path;
    var before, n1 := Admits(n);
    PathStart(n1);
    var log := LogState(0, [WRITTEN], false);
    var n2 := n1.(disk := n1.disk.(journal := JournalFile([WRITTEN], Clean)),
                  vol := Some(Running(log, map[0 := WDone])));
    assert n1.vol.value.threads[0 := WDone] == n2.vol.value.threads;
    assert EMPTY_LOG.entries + [NextEntry(EMPTY_LOG, WRITE, 0)] == [WRITTEN];
    Then(n1, [], n1, AEffect(0, AppendEntry(0, Committed)), n2);
    n' := n2.(vol := Some(Running(log, map[])));
    assert n2.vol.value.threads - {0} == n'.vol.value.threads;
    Then(n1, [] + [AEffect(0, AppendEntry(0, Committed))], n2, AThread(0, WriteExit), n');
    acts := [] + [AEffect(0, AppendEntry(0, Committed))] + [AThread(0, WriteExit)];
    Join(n, before, n1, acts, n');
    acts := before + acts;
  }

  /** A fresh follower with one sync thread. */
  function Syncing(pc: Pc, flag: bool): Node {
    Node(FOLLOWER, EMPTY_DISK, Some(START.(syncing := flag, threads := map[0 := pc])), 0, {}, false)
  }

  const FRESH := View(RoleFollower, false, false, false, false)

  /** A move of that thread. */
  lemma Moves1(r: SysRun, s: System, pc: Pc, flag: bool, m: ThreadAct, to: Pc, flag': bool) returns (r': SysRun)
    requires SysEnds(r, s) && s.f == Syncing(pc, flag)
    requires ThreadMove(FRESH, flag, 0, Some(pc), m) == Moves(flag', Some(to))
    requires m.SyncPull? ==> FromJournal(m.pulled, s.p.disk.journal.entries)
    requires !m.PostEnter? && !m.PostLock? && (m.SyncLock? ==> !HoldsRepl(pc))
    ensures SysEnds(r', s.(f := Syncing(to, flag')))
  {
    hide SysEnds, ThreadMove, FromJournal;
    var v := s.f.vol.value;
    assert ViewOf(s.f, v) == FRESH && PcAt(v, 0) == Some(pc);
    assert v.threads[0 := to] == map[0 := to];
    r' := ExtendSys(r, s, FAct(AThread(0, m)), s.(f := Syncing(to, flag')));
  }

  lemma Served(batch: seq<Entry>, j: seq<Entry>)
    requires batch == j == [WRITTEN]
    ensures FromJournal(batch, j)
  {
    assert forall e :: e in batch ==> e == WRITTEN;
  }

  /** SyncFromPrimary on a fresh follower, move by move: up to its shared lock, then to the loop. */
  lemma SyncLocks()
    ensures ThreadMove(FRESH, false, 0, Some(SStarted), SyncRole) == Moves(false, Some(SRoleOk))
    ensures ThreadMove(FRESH, false, 0, Some(SRoleOk), SyncFlag) == Moves(true, Some(SBusy))
  {
    hide Fits;
  }

  lemma SyncWaits()
    ensures ThreadMove(FRESH, true, 0, Some(SBusy), SyncBarrier) == Moves(true, Some(SChecked))
    ensures ThreadMove(FRESH, true, 0, Some(SChecked), SyncLock) == Moves(true, Some(SLocked)) && !HoldsRepl(SChecked)
  {
    hide Fits;
  }

  lemma SyncPulls(batch: seq<Entry>)
    ensures ThreadMove(FRESH, true, 0, Some(SLocked), SyncRebarrier) == Moves(true, Some(SReady))
    ensures ThreadMove(FRESH, true, 0, Some(SReady), SyncPull(batch)) == Moves(true, Some(Holding(true, batch)))
    ensures ThreadMove(FRESH, true, 0, Some(Holding(true, batch)), BatchStart)
         == Moves(true, Some(Applying(true, batch, 0, 0)))
  {
    hide Fits;
  }

  lemma Enters(r: SysRun, s: System) returns (r': SysRun)
    requires SysEnds(r, s) && s.f == Node(FOLLOWER, EMPTY_DISK, Some(START), 0, {}, false)
    ensures SysEnds(r', s.(f := Syncing(SStarted, false)))
  {
    hide SysEnds;
    assert START.threads[0 := SStarted] == map[0 := SStarted];
    r' := ExtendSys(r, s, FAct(AThread(0, SyncEnter)), s.(f := Syncing(SStarted, false)));
  }

  /** The follower's sync thread pulls the entry, applies it and saves the cursor. */
  lemma Syncs(r: SysRun, s: System) returns (r': SysRun, f': Node)
    requires SysEnds(r, s) && s.p.disk.journal.entries == [WRITTEN]
    requires s.f == Node(FOLLOWER, EMPTY_DISK, Some(START), 0, {}, false)
    ensures SysEnds(r', s.(f := f')) && f' == s.f.(disk := f'.disk, vol := Some(START.(lastApplied := 1)), high := 1)
    ensures f'.disk == EMPTY_DISK.(data := map[[97] := [1]], cursor := Some(CursorFile("f", "http://p", 1)))
  {
    hide SysEnds, Syncing, ThreadMove, FromJournal, HoldsRepl;
    var batch := [WRITTEN];
    SyncLocks();
    SyncWaits();
    SyncPulls(batch);
    Served(batch, s.p.disk.journal.entries);
    r' := Enters(r, s);
    r' := Moves1(r', s.(f := Syncing(SStarted, false)), SStarted, false, SyncRole, SRoleOk, false);
    r' := Moves1(r', s.(f := Syncing(SRoleOk, false)), SRoleOk, false, SyncFlag, SBusy, true);
    r' := Moves1(r', s.(f := Syncing(SBusy, true)), SBusy, true, SyncBarrier, SChecked, true);
    r' := Moves1(r', s.(f := Syncing(SChecked, true)), SChecked, true, SyncLock, SLocked, true);
    r' := Moves1(r', s.(f := Syncing(SLocked, true)), SLocked, true, SyncRebarrier, SReady, true);
    var held, first := Holding(true, batch), Applying(true, batch, 0, 0);
    r' := Moves1(r', s.(f := Syncing(SReady, true)), SReady, true, SyncPull(batch), held, true);
    r' := Moves1(r', s.(f := Syncing(held, true)), held, true, BatchStart, first, true);
    var s2;
    r', s2 := Applies1(r', s.(f := Syncing(first, true)), batch);
    f' := Leaves(s2.f);
    r' := ExtendSys(r', s2, FAct(AThread(0, BatchExit)), s2.(f := f'));
  }

  lemma Leaves(f: Node) returns (f': Node)
    requires f.vol == Some(START.(lastApplied := 1, syncing := true, threads := map[0 := Finishing(true)]))
    ensures f' == f.(vol := Some(START.(lastApplied := 1))) && Step(f, AThread(0, BatchExit), f')
  {
    assert f.vol.value.threads - {0} == map[];
    f' := f.(vol := Some(START.(lastApplied := 1)));
  }

  lemma Applies1(r: SysRun, s: System, batch: seq<Entry>) returns (r': SysRun, s': System)
    requires SysEnds(r, s) && batch == [WRITTEN] && s.f == Syncing(Applying(true, batch, 0, 0), true)
    ensures SysEnds(r', s') && s' == s.(f := s'.f)
    ensures s'.f == Node(FOLLOWER, s'.f.disk, s'.f.vol, 1, {}, false)
    ensures s'.f.vol == Some(START.(lastApplied := 1, syncing := true, threads := map[0 := Finishing(true)]))
    ensures s'.f.disk == EMPTY_DISK.(data := map[[97] := [1]], cursor := Some(CursorFile("f", "http://p", 1)))
  {
    hide SysEnds;
    var v := s.f.vol.value.(lastApplied := 1, threads := map[0 := Applying(true, batch, 1, 1)]);
    assert s.f.vol.value.threads[0 := Applying(true, batch, 1, 1)] == v.threads;
    var f1 := s.f.(disk := EMPTY_DISK.(data := map[[97] := [1]]), vol := Some(v), high := 1);
    r' := ExtendSys(r, s, FAct(AEffect(0, BatchEntry(true))), s.(f := f1));
    assert v.threads[0 := Finishing(true)] == map[0 := Finishing(true)];
    var f2 := f1.(disk := f1.disk.(cursor := Some(CursorFile("f", "http://p", 1))),
                  vol := Some(v.(threads := map[0 := Finishing(true)])));
    s' := s.(f := f2);
    r' := ExtendSys(r', s.(f := f1), FAct(AEffect(0, BatchSave(true))), s');
  }

  lemma FoldWritten()
    ensures Fold([WRITTEN]) == map[[97] := [1]]
  {
    assert [WRITTEN][..0] == [];
    assert FoldOnto(map[], []) == map[];
  }

  /** A client write is committed, the follower pulls, applies and saves it, the primary quiesces, its
      record is published, and the follower is promoted with it and holds the journal: the theorems on
      promoted nodes speak of states that are reached. */
  lemma FailoverHappens() returns (r: SysRun)
    ensures DisciplinedRun(r)
    ensures var s := r.states[|r.states| - 1];
            && s.f.disk.promotion == Some(PromotionOf(FOLLOWER, AFTER)) && AcceptsWrites(s.f) && !AcceptsWrites(s.p)
            && s.p.disk.record == Some(AFTER) && !Stale(s)
            && s.f.disk.promotion.value.inheritedSeq == |s.p.disk.journal.entries| == 1
            && s.f.disk.data == s.p.disk.data == Fold(s.p.disk.journal.entries) == map[[97] := [1]]
  {
    hide Path, Step, SysEnds;
    var p0, pa, p1 := StartsPrimary();
    var pb, p2 := Writes(p1);
    var pc, p3 := Quiesces(p2);
    var f0, fa, f1 := StartsFollower();
    var s0 := System(p0, f0, {});
    var r0 := SysRun([s0], []);
    SysStart(r0, s0);
    r := PrimaryAlong(r0, s0, pa, p1);
    r := PrimaryAlong(r, s0.(p := p1), pb, p2);
    r := FollowerAlong(r, s0.(p := p2), fa, f1);
    var f2;
    r, f2 := Syncs(r, s0.(p := p2, f := f1));
    r := PrimaryAlong(r, s0.(p := p2, f := f2), pc, p3);
    var s3 := System(p3, f2, {} + {AFTER});
    r := ExtendSys(r, System(p3, f2, {}), Publish(AFTER), s3);
    var fb, f3 := Validates(f2, AFTER);
    r := FollowerAlong(r, s3, fb, f3);
    var fc, f4 := Promotes(f3, AFTER);
    r := FollowerAlong(r, s3.(f := f3), fc, f4);
    LastState(r, s3.(f := f4));
    FoldWritten();
  }

  lemma SysStart(r: SysRun, s: System)
    requires r == SysRun([s], []) && SysInit(s)
    ensures SysEnds(r, s)
  {
  }

  lemma LastState(r: SysRun, s: System)
    requires SysEnds(r, s)
    ensures DisciplinedRun(r) && r.states[|r.states| - 1] == s
  {
  }

  // ---- the ways that fail, or are not taken above ----

  /** ApplyReplicationEntries with a posted batch, on a fresh follower: up to its role check, then to the loop. */
  lemma PostLocks(batch: seq<Entry>)
    ensures ThreadMove(FRESH, false, 0, None, PostEnter(batch)) == Moves(false, Some(AStarted(batch)))
    ensures ThreadMove(FRESH, false, 0, Some(AStarted(batch)), PostLock) == Moves(false, Some(ALocked(batch)))
    ensures ThreadMove(FRESH, false, 0, Some(ALocked(batch)), PostBarrier) == Moves(false, Some(AReady(batch)))
  {
    hide Fits;
  }

  lemma PostApplies(batch: seq<Entry>, last: u64)
    ensures ThreadMove(FRESH, false, last, Some(AReady(batch)), PostRole) == Moves(false, Some(Holding(false, batch)))
    ensures ThreadMove(FRESH, false, last, Some(Holding(false, batch)), BatchStart)
         == Moves(false, Some(Applying(false, batch, 0, last)))
    ensures ThreadMove(FRESH, false, last, Some(Finishing(false)), BatchExit) == Moves(false, None)
  {
    hide Fits;
  }

  /** A promotion that failed before its record was saved is taken back: no lock, no barrier, no mark, and the
      files as they were. */
  lemma FailedPromotionReverts(n: Node) returns (n': Node)
    requires n.vol.Some? && n.vol.value.ppc.PFailed? && n.disk.promotion.None?
    ensures Path(n, [APromote(Release), APromote(Revert), APromote(Reset)], n')
    ensures n' == n.(vol := Some(n.vol.value.(wlock := false, barrier := false, promoted := NotPromoted, ppc := PIdle)))
  {
    hide Path;
    var v := n.vol.value;
    PathStart(n);
    var n1 := n.(vol := Some(v.(wlock := false, ppc := PReverting)));
    Then(n, [], n, APromote(Release), n1);
    var n2 := n.(vol := Some(v.(wlock := false, barrier := false, ppc := PResetting)));
    Then(n, [] + [APromote(Release)], n1, APromote(Revert), n2);
    n' := n.(vol := Some(v.(wlock := false, barrier := false, promoted := NotPromoted, ppc := PIdle)));
    Then(n, [] + [APromote(Release)] + [APromote(Revert)], n2, APromote(Reset), n');
    assert [] + [APromote(Release)] + [APromote(Revert)] + [APromote(Reset)]
        == [APromote(Release), APromote(Revert), APromote(Reset)];
  }

  /** One that failed after its record was saved keeps the barrier: only a restart goes on. */
  lemma StuckPromotionStays(n: Node) returns (n': Node)
    requires n.vol.Some? && n.vol.value.ppc.PStuck? && n.disk.promotion.Some?
    ensures Path(n, [APromote(Release), APromote(Revert)], n')
    ensures n' == n.(vol := Some(n.vol.value.(wlock := false, ppc := PIdle)))
  {
    hide Path;
    var v := n.vol.value;
    PathStart(n);
    var n1 := n.(vol := Some(v.(wlock := false, ppc := PReverting)));
    Then(n, [], n, APromote(Release), n1);
    n' := n.(vol := Some(v.(wlock := false, ppc := PIdle)));
    Then(n, [] + [APromote(Release)], n1, APromote(Revert), n');
    assert [] + [APromote(Release)] + [APromote(Revert)] == [APromote(Release), APromote(Revert)];
  }

  /** A crash while a write is between engine and journal may leave any part of its journal record, or all. */
  lemma CrashLeavesAnyPart(n: Node, t: nat, tail: Tail) returns (n': Node)
    requires n.vol.Some? && t in n.vol.value.threads && n.vol.value.threads[t].WApplied?
    requires n.vol.value.log.Some? && !n.vol.value.log.value.poisoned
    requires TailOf(n.vol.value.log.value, n.vol.value.threads[t].w, tail)
    ensures Step(n, AProcess(Crash(tail)), n') && n'.vol.None?
    ensures n'.disk == n.disk.(journal := n.disk.journal.(tail := tail))
  {
    hide TailOf;
    n' := n.(vol := None, disk := n.disk.(journal := n.disk.journal.(tail := tail)));
  }

  /** An append whose write or rollback failed may leave any part too, and poisons the log. */
  lemma AppendMayPoison(n: Node, t: nat, ts: u64, tail: Tail) returns (n': Node)
    requires n.vol.Some? && t in n.vol.value.threads && n.vol.value.threads[t].WApplied?
    requires n.vol.value.log.Some? && !n.vol.value.log.value.poisoned
    requires TailOf(n.vol.value.log.value, n.vol.value.threads[t].w, tail)
    ensures Step(n, AEffect(t, AppendEntry(ts, Poisons(tail))), n')
    ensures n'.disk == n.disk.(journal := n.disk.journal.(tail := tail))
    ensures n'.vol.Some? && n'.vol.value.log == Some(n.vol.value.log.value.(poisoned := true))
  {
    hide TailOf;
    var v := n.vol.value;
    n' := n.(disk := n.disk.(journal := n.disk.journal.(tail := tail)),
             vol := Some(MoveTo(v.(log := Some(v.log.value.(poisoned := true))), t, Some(WDone))));
  }

  // ---- a quiesce record that misses an orphan ----

  const WRITE := WriteOp(OpPut, [97], [1])
  const LOST := Entry(1, OpPut, [97], [1], 0)

  /** A client write is admitted and its engine write executed. */
  lemma Admits(n: Node) returns (acts: seq<Act>, n': Node)
    requires n == Node(PRIMARY, EMPTY_DISK, Some(Running(EMPTY_LOG, map[])), 0, {}, false)
    ensures Path(n, acts, n') && n'.cfg == PRIMARY && n'.vol == Some(Running(EMPTY_LOG, map[0 := WApplied(WRITE)]))
    ensures n'.disk == EMPTY_DISK.(data := map[[97] := [1]]) && n' == n.(disk := n'.disk, vol := n'.vol, wrote := true)
  {
    hide Path;
    PathStart(n);
    var n1 := n.(vol := Some(Running(EMPTY_LOG, map[0 := WWaiting(WRITE)])));
    Then(n, [], n, AThread(0, WriteEnter(WRITE)), n1);
    acts := [] + [AThread(0, WriteEnter(WRITE))];
    var n2 := n.(vol := Some(Running(EMPTY_LOG, map[0 := WLocked(WRITE)])));
    assert n1.vol.value.threads[0 := WLocked(WRITE)] == n2.vol.value.threads;
    Then(n, acts, n1, AThread(0, WriteLock), n2);
    acts := acts + [AThread(0, WriteLock)];
    var n3 := n.(vol := Some(Running(EMPTY_LOG, map[0 := WInside(WRITE)])));
    assert n2.vol.value.threads[0 := WInside(WRITE)] == n3.vol.value.threads;
    Then(n, acts, n2, AThread(0, WriteRecheck), n3);
    acts := acts + [AThread(0, WriteRecheck)];
    n' := n3.(disk := n3.disk.(data := Apply(n3.disk.data, Entry(0, OpPut, [97], [1], 0))), wrote := true,
              vol := Some(Running(EMPTY_LOG, map[0 := WApplied(WRITE)])));
    assert n3.vol.value.threads[0 := WApplied(WRITE)] == n'.vol.value.threads;
    Then(n, acts, n3, AEffect(0, Execute(true)), n');
    acts := acts + [AEffect(0, Execute(true))];
  }

  /** Its journal append lands, its sync fails, and so does the rollback; the handler ignores it. */
  lemma PoisonedAppend(n: Node) returns (acts: seq<Act>, n': Node)
    requires n.cfg == PRIMARY && n.vol == Some(Running(EMPTY_LOG, map[0 := WApplied(WRITE)]))
    requires n.disk == EMPTY_DISK.(data := n.disk.data)
    ensures Path(n, acts, n') && n'.cfg == PRIMARY && n'.vol == Some(Running(EMPTY_LOG.(poisoned := true), map[]))
    ensures n'.disk == n.disk.(journal := JournalFile([], Whole(LOST)))
  {
    hide Path;
    PathStart(n);
    var n1 := n.(disk := n.disk.(journal := JournalFile([], Whole(LOST))),
                 vol := Some(Running(EMPTY_LOG.(poisoned := true), map[0 := WDone])));
    assert n.vol.value.threads[0 := WDone] == n1.vol.value.threads;
    assert TailOf(EMPTY_LOG, WRITE, Whole(LOST));
    Then(n, [], n, AEffect(0, AppendEntry(0, Poisons(Whole(LOST)))), n1);
    acts := [] + [AEffect(0, AppendEntry(0, Poisons(Whole(LOST))))];
    n' := n1.(vol := Some(Running(EMPTY_LOG.(poisoned := true), map[])));
    assert n1.vol.value.threads - {0} == n'.vol.value.threads;
    Then(n, acts, n1, AThread(0, WriteExit), n');
    acts := acts + [AThread(0, WriteExit)];
  }

  /** With a whole record left behind when the sequence is read, the record falls behind the journal
      that the next start recovers. */
  lemma OrphanMakesRecordStale() returns (r: Run)
    ensures IsRun(r)
    ensures var n := r.states[|r.states| - 1];
            n.disk.record == Some(RECORD) && RECORD in n.missed && RECORD.latestSeq == 0 && DiskLatest(n.disk) == 1
  {
    hide Path, Step;
    var n0, a0, n1 := StartsPrimary();
    var a1, n2 := Admits(n1);
    Join(n0, a0, n1, a1, n2);
    var a2, n3 := PoisonedAppend(n2);
    Join(n0, a0 + a1, n2, a2, n3);
    var a3, n4 := Quiesces(n3);
    Join(n0, a0 + a1 + a2, n3, a3, n4);
    r := RunOf(n0, a0 + a1 + a2 + a3, n4);
  }
}
