/** Failover completeness: what a promoted node's data and journal are worth.

    Runs here are disciplined: batches reach the follower only from the primary's journal, and one
    thread at a time holds replicationMutationMu's shared lock (the source lets a sync and a posted
    batch overlap, and then lastApplied can run backwards). */
module Completeness {
  import opened Bytes
  import opened Journal
  import opened Replication
  import opened Node
  import opened NodeInvariants
  import opened NodeRuns
  import opened Failover

  ghost predicate FromJournal(batch: seq<Entry>, j: seq<Entry>) {
    forall e :: e in batch ==> 1 <= e.seqno <= |j| && j[e.seqno - 1] == e
  }

  /** What the primary serves is from its journal. */
  lemma PulledIsFromJournal(j: seq<Entry>, after: u64, limit: int)
    requires Contiguous(0, j)
    ensures FromJournal(Batch(j, after, limit), j)
  {
    hide Batch;
    var lo := if after <= |j| then after else |j|;
    BatchSlice(j, after, limit, lo);
    var hi := Min(lo + EffectiveLimit(limit), |j|);
    forall e | e in j[lo..hi] ensures 1 <= e.seqno <= |j| && j[e.seqno - 1] == e {
      var i :| lo <= i < hi && j[i] == e;
    }
  }

  function BatchOf(pc: Pc): seq<Entry> {
    match pc
    case AStarted(b) => b
    case ALocked(b) => b
    case AReady(b) => b
    case Holding(_, b) => b
    case Applying(_, b, _, _) => b
    case _ => []
  }

  ghost predicate DisciplinedMove(j: seq<Entry>, n: Node, m: ThreadAct) {
    && (m.SyncPull? ==> FromJournal(m.pulled, j))
    && (m.PostEnter? ==> FromJournal(m.posted, j))
    && ((m.SyncLock? || m.PostLock?) && n.vol.Some? ==>
          forall u :: u in n.vol.value.threads ==> !HoldsRepl(n.vol.value.threads[u]))
  }

  ghost predicate Disciplined(s: System, a: SysAct) {
    a.FAct? && a.fa.AThread? ==> DisciplinedMove(s.p.disk.journal.entries, s.f, a.fa.m)
  }

  // ---- the follower copies the journal ----

  ghost predicate AppliersOk(j: seq<Entry>, v: Volatile) {
    && (forall t :: t in v.threads ==> FromJournal(BatchOf(v.threads[t]), j))
    && (forall t, u :: t in v.threads && u in v.threads && HoldsRepl(v.threads[t]) && HoldsRepl(v.threads[u]) ==>
          t == u)
    && (forall t :: t in v.threads && v.threads[t].Applying? ==> v.threads[t].last == v.lastApplied)
  }

  function Position(f: Node): u64 {
    if f.vol.Some? then f.vol.value.lastApplied else CursorValue(f.disk)
  }

  ghost predicate Copies(j: seq<Entry>, f: Node) {
    && NoOther(j)
    && (f.vol.Some? ==> AppliersOk(j, f.vol.value))
    && (f.disk.promotion.None? ==> CursorValue(f.disk) <= Position(f) && Tracks(j, f.disk.data, Position(f), f.high))
  }

  lemma MoveBatch(w: View, syncing: bool, lastApplied: u64, from: Option<Pc>, a: ThreadAct)
    ensures var m := ThreadMove(w, syncing, lastApplied, from, a);
            m.Moves? && m.to.Some? ==>
              && (BatchOf(m.to.value) == (if a.SyncPull? then a.pulled else if a.PostEnter? then a.posted
                                          else if from.Some? then BatchOf(from.value) else [])
                  || BatchOf(m.to.value) == [])
              && (HoldsRepl(m.to.value) ==> a.SyncLock? || a.PostLock? || (from.Some? && HoldsRepl(from.value)))
              && (m.to.value.Applying? ==> m.to.value.last == lastApplied)
  {
    hide Fits;
  }

  lemma CopiesThread(j: seq<Entry>, n: Node, t: nat, a: ThreadAct, n': Node)
    requires Copies(j, n) && ThreadStep(n, t, a, n') && DisciplinedMove(j, n, a)
    ensures Copies(j, n')
  {
    hide ThreadMove, Tracks;
    var v := n.vol.value;
    MoveBatch(ViewOf(n, v), v.syncing, v.lastApplied, PcAt(v, t), a);
    var v' := n'.vol.value;
    forall u | u in v'.threads ensures FromJournal(BatchOf(v'.threads[u]), j) {
      if u != t { assert u in v.threads; }
    }
  }

  /** The one applier moves on; nobody else is applying. */
  lemma HolderMoves(j: seq<Entry>, v: Volatile, t: nat, to: Pc, last: u64)
    requires AppliersOk(j, v) && t in v.threads && HoldsRepl(v.threads[t])
    requires FromJournal(BatchOf(to), j) && (to.Applying? ==> to.last == last)
    ensures AppliersOk(j, MoveTo(v.(lastApplied := last), t, Some(to)))
  {
    hide FromJournal;
  }

  lemma WriterMoves(j: seq<Entry>, v: Volatile, t: nat, to: Pc)
    requires AppliersOk(j, v) && HoldsGate(to)
    ensures AppliersOk(j, MoveTo(v, t, Some(to)))
  {
    assert FromJournal(BatchOf(to), j);
    hide FromJournal;
  }

  lemma EntryAppliers(j: seq<Entry>, n: Node, v: Volatile, t: nat, ok: bool, n': Node)
    requires AppliersOk(j, v) && n.vol == Some(v) && t in v.threads
    requires v.threads[t].Applying? && v.threads[t].i < |v.threads[t].batch| && EntryStep(n, v, t, v.threads[t], ok, n')
    ensures n'.vol.Some? && AppliersOk(j, n'.vol.value)
  {
    assert v.threads[t].last == v.lastApplied && FromJournal(v.threads[t].batch, j);
    var to := EntryShape(n, v, t, v.threads[t], ok, n');
    assert FromJournal([], j);
    hide AppliersOk, EntryStep, FromJournal;
    HolderMoves(j, v, t, to, n'.vol.value.lastApplied);
  }

  lemma EntryShape(n: Node, v: Volatile, t: nat, pc: Pc, ok: bool, n': Node) returns (to: Pc)
    requires pc.Applying? && pc.i < |pc.batch| && EntryStep(n, v, t, pc, ok, n') && pc.last == v.lastApplied
    ensures n'.vol.Some? && n'.vol.value == MoveTo(v.(lastApplied := n'.vol.value.lastApplied), t, Some(to))
    ensures BatchOf(to) == pc.batch || BatchOf(to) == []
    ensures to.Applying? ==> to.last == n'.vol.value.lastApplied
  {
    hide Apply, MoveTo;
    var e := pc.batch[pc.i];
    assert v.(lastApplied := v.lastApplied) == v;
    if e.seqno <= pc.last {
      to := pc.(i := pc.i + 1);
      MoveToKeeps(v, t, to);
    } else if e.seqno != WrapAdd(pc.last, 1) || e.op.OpOther? || !ok {
      to := Finishing(pc.sync);
      MoveToKeeps(v, t, to);
    } else {
      to := pc.(i := pc.i + 1, last := e.seqno);
      MoveToKeeps(v.(lastApplied := e.seqno), t, to);
    }
  }

  lemma MoveToKeeps(v: Volatile, t: nat, to: Pc)
    ensures MoveTo(v, t, Some(to)).lastApplied == v.lastApplied
  {
  }

  /** An applied entry is the journal's next one. */
  lemma CopiesEntry(j: seq<Entry>, n: Node, v: Volatile, t: nat, ok: bool, n': Node)
    requires Copies(j, n) && n.vol == Some(v) && t in v.threads && n.disk.promotion.None? && |j| < MAX_U64
    requires v.threads[t].Applying? && v.threads[t].i < |v.threads[t].batch| && EntryStep(n, v, t, v.threads[t], ok, n')
    ensures Copies(j, n')
  {
    var pc := v.threads[t];
    EntryAppliers(j, n, v, t, ok, n');
    assert pc.last == v.lastApplied && FromJournal(BatchOf(pc), j);
    assert pc.batch[pc.i] in BatchOf(pc);
    hide AppliersOk, EntryStep;
    if n'.vol.value.lastApplied != v.lastApplied {
      NextIsNext(j, n, v, t, pc, ok, n');
      TracksApply(j, n.disk.data, v.lastApplied, n.high);
    } else {
      NotNext(j, n, v, t, pc, ok, n');
    }
    hide Tracks, Apply;
  }

  lemma NextIsNext(j: seq<Entry>, n: Node, v: Volatile, t: nat, pc: Pc, ok: bool, n': Node)
    requires n.vol == Some(v) && t in v.threads && v.threads[t] == pc && |j| < MAX_U64 && v.lastApplied <= n.high
    requires pc.Applying? && pc.i < |pc.batch| && EntryStep(n, v, t, pc, ok, n') && pc.last == v.lastApplied
    requires var e := pc.batch[pc.i]; 1 <= e.seqno <= |j| && j[e.seqno - 1] == e
    requires n'.vol.value.lastApplied != v.lastApplied
    ensures v.lastApplied < |j| && pc.batch[pc.i] == j[v.lastApplied]
            && n'.disk == n.disk.(data := Apply(n.disk.data, j[v.lastApplied]))
    ensures n'.high == (if v.lastApplied < n.high then n.high else v.lastApplied + 1)
            && n'.vol.value.lastApplied == v.lastApplied + 1
  {
    hide Apply;
  }

  lemma NotNext(j: seq<Entry>, n: Node, v: Volatile, t: nat, pc: Pc, ok: bool, n': Node)
    requires n.vol == Some(v) && pc.Applying? && pc.i < |pc.batch| && EntryStep(n, v, t, pc, ok, n')
             && pc.last == v.lastApplied
    requires n'.vol.value.lastApplied == v.lastApplied
    ensures n'.disk == n.disk && n'.high == n.high
  {
    hide Apply;
  }

  lemma CopiesSave(j: seq<Entry>, n: Node, v: Volatile, t: nat, ok: bool, n': Node)
    requires Copies(j, n) && n.vol == Some(v) && t in v.threads && n.disk.promotion.None?
    requires v.threads[t].Applying? && SaveStep(n, v, t, v.threads[t], ok, n')
    ensures Copies(j, n')
  {
    hide Tracks, AppliersOk;
    assert FromJournal(BatchOf(Finishing(v.threads[t].sync)), j);
    HolderMoves(j, v, t, Finishing(v.threads[t].sync), v.lastApplied);
    SaveMovesUp(j, v, t);
  }

  lemma SaveMovesUp(j: seq<Entry>, v: Volatile, t: nat)
    requires AppliersOk(j, v) && t in v.threads && v.threads[t].Applying?
    ensures v.threads[t].last == v.lastApplied
  {
  }

  /** Client writes happen only after promotion, when the copy is no longer claimed. */
  lemma CopiesWrite(j: seq<Entry>, n: Node, v: Volatile, t: nat, a: EffectAct, n': Node)
    requires Copies(j, n) && n.vol == Some(v) && n.disk.promotion.Some? && EffectStep(n, t, a, n')
    requires !a.BatchEntry? && !a.BatchSave?
    ensures Copies(j, n')
  {
    hide Tracks, AppliersOk;
    var to := WriteShape(n, v, t, a, n');
    hide EffectStep;
    WriterMoves(j, v, t, to);
    SameAppliers(j, MoveTo(v, t, Some(to)), n'.vol.value);
  }

  lemma WriteShape(n: Node, v: Volatile, t: nat, a: EffectAct, n': Node) returns (to: Pc)
    requires n.vol == Some(v) && EffectStep(n, t, a, n') && !a.BatchEntry? && !a.BatchSave?
    ensures n'.vol.Some? && n'.vol.value.threads == v.threads[t := to] && n'.vol.value.lastApplied == v.lastApplied
    ensures HoldsGate(to) && n'.disk.promotion == n.disk.promotion
  {
    hide Apply, TailOf, EntryStep, SaveStep, AppendStep;
    to := if a.Execute? && a.ok then WApplied(v.threads[t].w) else WDone;
    if a.AppendEntry? { AppendShape(n, v, t, v.threads[t].w, a.ts, a.outcome, n'); }
  }

  lemma AppendShape(n: Node, v: Volatile, t: nat, w: WriteOp, ts: u64, outcome: AppendOutcome, n': Node)
    requires AppendStep(n, v, t, w, ts, outcome, n')
    ensures n'.vol.Some? && n'.vol.value.threads == v.threads[t := WDone] && n'.vol.value.lastApplied == v.lastApplied
    ensures n'.disk.promotion == n.disk.promotion
  {
    hide TailOf;
  }

  lemma SameAppliers(j: seq<Entry>, v: Volatile, v': Volatile)
    requires AppliersOk(j, v) && v'.threads == v.threads && v'.lastApplied == v.lastApplied
    ensures AppliersOk(j, v')
  {
  }

  lemma CopiesEffect(j: seq<Entry>, n: Node, t: nat, a: EffectAct, n': Node)
    requires Copies(j, n) && Inv(n) && n.cfg.role == RoleFollower && EffectStep(n, t, a, n') && |j| < MAX_U64
    ensures Copies(j, n')
  {
    var v := n.vol.value;
    ThreadAt(n, t);
    if a.BatchEntry? || a.BatchSave? { BatchIsFree(n, v, v.threads[t]); } else { WriterIsPromoted(n, v, t); }
    hide Inv, Copies, EntryStep, SaveStep, ExecuteStep, AppendStep;
    if a.BatchEntry? {
      CopiesEntry(j, n, v, t, a.ok, n');
    } else if a.BatchSave? {
      CopiesSave(j, n, v, t, a.ok, n');
    } else {
      CopiesWrite(j, n, v, t, a, n');
    }
  }

  lemma WriterIsPromoted(n: Node, v: Volatile, t: nat)
    requires Inv(n) && n.cfg.role == RoleFollower && n.vol == Some(v) && t in v.threads && HoldsGate(v.threads[t])
    ensures n.disk.promotion.Some?
  {
    ThreadAt(n, t);
    hide ThreadsOk, LocksOk, PromotionOk, JournalOk, QuiesceOk;
  }

  lemma CopiesProcess(j: seq<Entry>, n: Node, x: ProcessAct, n': Node)
    requires Copies(j, n) && RolesOk(n) && n.cfg.role == RoleFollower && ProcessStep(n, x, n')
    ensures Copies(j, n')
  {
    if n.disk.promotion.None? && x.Crash? {
      TracksRestart(j, n.disk.data, Position(n), n.high, CursorValue(n.disk));
    }
    hide Tracks, OpenJournal, TailOf;
  }

  lemma CopiesCommit(j: seq<Entry>, n: Node, c: CommitAct, n': Node)
    requires Copies(j, n) && CommitStep(n, c, n')
    ensures Copies(j, n')
  {
    hide Tracks, OpenJournal, BaselineAcceptable;
  }

  /** Every disciplined step of the follower keeps the copy. */
  lemma CopiesStep(j: seq<Entry>, n: Node, a: Act, n': Node)
    requires Copies(j, n) && Inv(n) && n.cfg.role == RoleFollower && Step(n, a, n') && |j| < MAX_U64
    requires a.AThread? ==> DisciplinedMove(j, n, a.m)
    ensures Copies(j, n')
  {
    match a
    case AThread(t, m) => hide ThreadStep; CopiesThread(j, n, t, m, n');
    case AEffect(t, e) => hide EffectStep; CopiesEffect(j, n, t, e, n');
    case AQuiesce(q) => QuiesceFrame(n, q, n'); hide QuiesceStep, Tracks;
    case APromote(p) => PromoteFrame(n, p, n'); hide PromoteStep, Tracks;
    case ACommit(c) => hide CommitStep; CopiesCommit(j, n, c, n');
    case AProcess(x) => hide ProcessStep; CopiesProcess(j, n, x, n');
  }

  lemma CopiesGrown(j: seq<Entry>, j': seq<Entry>, n: Node)
    requires Copies(j, n) && j <= j' && NoOther(j')
    ensures Copies(j', n)
  {
    if n.disk.promotion.None? { TracksGrown(j, j', n.disk.data, Position(n), n.high); }
    hide Tracks;
  }

  // ---- the whole system ----

  /** A configured primary numbers from 1. */
  lemma PrimaryJournal(n: Node)
    requires Inv(n) && n.cfg.role == RolePrimary
    ensures BaseSeq(n.disk) == 0 && Contiguous(0, n.disk.journal.entries)
    ensures NoOther(n.disk.journal.entries) && |n.disk.journal.entries| < MAX_U64
  {
    hide LocksOk, PromotionOk, QuiesceOk, ThreadsOk;
  }

  /** Committed entries are never lost or renumbered. */
  lemma JournalGrows(n: Node, a: Act, n': Node)
    requires Inv(n) && n.cfg.role == RolePrimary && Step(n, a, n')
    ensures n.disk.journal.entries <= n'.disk.journal.entries
  {
    match a
    case AThread(t, m) => hide ThreadMove;
    case AEffect(t, e) => hide Contiguous, Apply, TailOf, LocksOk, RolesOk, PromotionOk, QuiesceOk, ThreadsOk;
    case AQuiesce(q) => QuiesceFrame(n, q, n'); hide QuiesceStep;
    case APromote(p) => PromoteFrame(n, p, n'); hide PromoteStep;
    case ACommit(c) => PrimaryNeverCommits(n, c, n');
    case AProcess(x) => hide Contiguous, TailOf;
  }

  /** The quiesce record a promotion was made from. */
  function SourceOf(rec: PromotionRecord): QuiesceRecord {
    QuiesceRecord(rec.quiesceID, rec.sourceNodeID, rec.sourceURL, rec.inheritedSeq)
  }

  /** Its sequence was read over a whole unacknowledged record of the old primary. */
  ghost predicate Stale(s: System)
    requires s.f.disk.promotion.Some?
  {
    SourceOf(s.f.disk.promotion.value) in s.p.missed
  }

  /** Until its first client write, a promoted node's data is what it had copied. */
  ghost predicate Handover(s: System) {
    s.f.disk.promotion.Some? && !s.f.wrote ==>
      Tracks(s.p.disk.journal.entries, s.f.disk.data, s.f.disk.promotion.value.inheritedSeq, s.f.high)
  }

  ghost predicate SysCopies(s: System) {
    SysInv(s) && Copies(s.p.disk.journal.entries, s.f) && Handover(s)
  }

  /** A promotion record names the old journal's final sequence if and only if the quiesce record it
      came from did not miss a whole unacknowledged record; otherwise it is one short. */
  lemma InheritsWholeJournal(s: System)
    requires SysInv(s) && s.f.disk.promotion.Some?
    ensures var inherited := s.f.disk.promotion.value.inheritedSeq;
            && DiskLatest(s.p.disk) == inherited + (if Stale(s) then 1 else 0)
            && (!Stale(s) ==> inherited == |s.p.disk.journal.entries|)
            && (inherited == DiskLatest(s.p.disk) <==> !Stale(s))
  {
    PrimaryJournal(s.p);
    hide Inv;
    var qr :| qr in s.issued && s.f.disk.promotion.value == PromotionOf(s.f.cfg, qr);
    assert SourceOf(s.f.disk.promotion.value) == qr;
  }

  lemma PrimaryStepCopies(s: System, a: Act, s': System)
    requires SysCopies(s) && Next(s, PAct(a), s') && SysInv(s')
    ensures SysCopies(s')
  {
    var j, j' := s.p.disk.journal.entries, s'.p.disk.journal.entries;
    assert Inv(s.p) && Inv(s'.p) && s.p.cfg.role == s'.p.cfg.role == RolePrimary;
    JournalGrows(s.p, a, s'.p);
    PrimaryJournal(s'.p);
    CopiesGrown(j, j', s.f);
    if s.f.disk.promotion.Some? && !s.f.wrote {
      TracksGrown(j, j', s.f.disk.data, s.f.disk.promotion.value.inheritedSeq, s.f.high);
    }
    hide SysInv, Copies, Step, Tracks;
  }

  lemma FollowerStepCopies(s: System, a: Act, s': System)
    requires SysCopies(s) && Next(s, FAct(a), s') && Disciplined(s, FAct(a)) && SysInv(s')
    ensures SysCopies(s')
  {
    var j := s.p.disk.journal.entries;
    assert Inv(s.p) && Inv(s.f) && s.p.cfg.role == RolePrimary && s.f.cfg.role == RoleFollower;
    PrimaryJournal(s.p);
    CopiesStep(j, s.f, a, s'.f);
    hide Tracks;
    if s'.f.disk.promotion.Some? && !s'.f.wrote {
      if s.f.disk.promotion.Some? {
        DataStill(s.f, a, s'.f);
        PromotionStable(s.f, a, s'.f);
      } else {
        OnlyCommitPromotes(s.f, a, s'.f);
      }
    }
    hide SysInv, Copies, Step;
  }

  /** After promotion, only client writes change the data. */
  lemma DataStill(n: Node, a: Act, n': Node)
    requires Inv(n) && Step(n, a, n') && n.disk.promotion.Some? && !n'.wrote
    ensures n'.disk.data == n.disk.data && n'.high == n.high && !n.wrote
  {
    PromotionStable(n, a, n');
    hide Inv;
    match a
    case AThread(t, m) => hide ThreadMove;
    case AEffect(t, e) => hide Apply, TailOf, EntryStep, SaveStep;
    case AQuiesce(q) => QuiesceFrame(n, q, n'); hide QuiesceStep;
    case APromote(p) => PromoteFrame(n, p, n'); hide PromoteStep;
    case ACommit(c) => hide OpenJournal, BaselineAcceptable;
    case AProcess(x) => hide OpenJournal, TailOf;
  }

  /** The step that saves the promotion record finds the follower at the sequence it inherits; at its
      high-water mark, as it is whenever the record missed nothing, its data is the journal's fold. */
  lemma CommitFindsAll(s: System, a: Act, s': System)
    requires SysInv(s) && SysInv(s') && Copies(s.p.disk.journal.entries, s.f) && Next(s, FAct(a), s')
    requires s.f.disk.promotion.None? && s'.f.disk.promotion.Some?
    ensures var j, inherited := s.p.disk.journal.entries, s'.f.disk.promotion.value.inheritedSeq;
            && inherited <= s'.f.high <= |j| && Tracks(j, s'.f.disk.data, inherited, s'.f.high)
            && (s'.f.high == inherited ==> s'.f.disk.data == Fold(j[..inherited]))
            && (!Stale(s') ==> s'.f.high == inherited == |j| && s'.f.disk.data == Fold(j))
  {
    OnlyCommitPromotes(s.f, a, s'.f);
    InheritsWholeJournal(s');
    PrimaryJournal(s.p);
    hide SysInv, Step;
    var j := s.p.disk.journal.entries;
    assert j[..|j|] == j;
    if s'.f.high == s'.f.disk.promotion.value.inheritedSeq { TracksCaughtUp(j, s'.f.disk.data, s'.f.high); }
  }

  lemma OnlyCommitPromotes(n: Node, a: Act, n': Node)
    requires Inv(n) && Step(n, a, n') && n.disk.promotion.None? && n'.disk.promotion.Some?
    ensures n.vol.Some? && n'.disk.data == n.disk.data && n'.high == n.high
    ensures n.vol.value.lastApplied == n'.disk.promotion.value.inheritedSeq
  {
    hide Inv;
    match a
    case AThread(t, m) => hide ThreadMove;
    case AEffect(t, e) => EffectKeepsPromotion(n, t, e, n');
    case AQuiesce(q) => QuiesceFrame(n, q, n'); hide QuiesceStep;
    case APromote(p) => PromoteFrame(n, p, n'); hide PromoteStep;
    case ACommit(c) => CommitPromotes(n, c, n');
    case AProcess(x) => ProcessKeepsPromotion(n, x, n');
  }

  lemma EffectKeepsPromotion(n: Node, t: nat, a: EffectAct, n': Node)
    requires EffectStep(n, t, a, n')
    ensures n'.disk.promotion == n.disk.promotion
  {
    hide Apply, TailOf;
  }

  lemma ProcessKeepsPromotion(n: Node, a: ProcessAct, n': Node)
    requires ProcessStep(n, a, n')
    ensures n'.disk.promotion == n.disk.promotion
  {
    hide OpenJournal, TailOf;
  }

  lemma CommitPromotes(n: Node, a: CommitAct, n': Node)
    requires Inv(n) && CommitStep(n, a, n') && n.disk.promotion.None? && n'.disk.promotion.Some?
    ensures n.vol.Some? && n'.disk.data == n.disk.data && n'.high == n.high
    ensures n.vol.value.lastApplied == n'.disk.promotion.value.inheritedSeq
  {
    hide OpenJournal, BaselineAcceptable, LocksOk, RolesOk, JournalOk, QuiesceOk, ThreadsOk;
  }

  ghost predicate DisciplinedRun(r: SysRun) {
    IsSysRun(r) && forall i :: 0 <= i < |r.acts| ==> Disciplined(r.states[i], r.acts[i])
  }

  lemma {:induction false} CopiesRun(r: SysRun, i: nat)
    requires DisciplinedRun(r) && i < |r.states|
    ensures SysCopies(r.states[i])
  {
    SysRunInv(r, i);
    if i == 0 {
      TracksFresh([]);
    } else {
      hide SysCopies, SysInv;
      CopiesRun(r, i - 1);
      SysStepCopies(r.states[i - 1], r.acts[i - 1], r.states[i]);
    }
  }

  lemma SysStepCopies(s: System, a: SysAct, s': System)
    requires SysCopies(s) && Next(s, a, s') && Disciplined(s, a) && SysInv(s')
    ensures SysCopies(s')
  {
    match a
    case PAct(pa) => PrimaryStepCopies(s, pa, s');
    case FAct(fa) => FollowerStepCopies(s, fa, s');
    case Publish(qr) => hide SysInv, Copies, Fold;
  }

  /** Failover completeness. Whenever the follower holds a promotion record: it inherits the old
      journal's whole length if and only if the quiesce record was not read over a whole unacknowledged
      record, and then, until the node's first client write, its data is exactly the fold of the old
      journal. In every case the node's own journal continues what it inherits without gap or overlap. */
  lemma FailoverComplete(r: SysRun, i: nat)
    requires DisciplinedRun(r) && i < |r.states| && r.states[i].f.disk.promotion.Some?
    ensures var s := r.states[i];
            var j, inherited := s.p.disk.journal.entries, s.f.disk.promotion.value.inheritedSeq;
            && inherited <= |j| && s.f.disk.baseline == Some(inherited)
            && (inherited == DiskLatest(s.p.disk) <==> !Stale(s))
            && (Stale(s) ==> inherited + 1 == DiskLatest(s.p.disk))
            && Contiguous(0, j[..inherited] + s.f.disk.journal.entries)
            && (!s.f.wrote ==> Tracks(j, s.f.disk.data, inherited, s.f.high))
            && (!s.f.wrote && s.f.high == inherited ==> s.f.disk.data == Fold(j[..inherited]))
            && (!Stale(s) ==> inherited == |j| && (!s.f.wrote ==> s.f.disk.data == Fold(j)))
  {
    CopiesRun(r, i);
    var s := r.states[i];
    var j, inherited := s.p.disk.journal.entries, s.f.disk.promotion.value.inheritedSeq;
    hide DisciplinedRun;
    InheritsWholeJournal(s);
    PrimaryJournal(s.p);
    PromotedJournal(s.f);
    assert j[..|j|] == j;
    if !s.f.wrote && s.f.high == inherited { TracksCaughtUp(j, s.f.disk.data, inherited); }
    hide Inv, Copies, Fold;
  }

  lemma MissedAt(r: SysRun, j: nat, rec: QuiesceRecord)
    requires IsSysRun(r) && 0 < j < |r.states|
    ensures rec in r.states[j].p.missed <==> rec in r.states[j - 1].p.missed || MissesOrphan(r, j - 1, rec)
  {
    var s, a, s' := r.states[j - 1], r.acts[j - 1], r.states[j];
    assert Next(s, a, s');
    hide Step, IsSysRun;
    if a.PAct? { MissedStep(s.p, a.pa, s'.p); }
  }

  /** Stale means what it says: some earlier step of the run read the sequence into that record while
      a whole unacknowledged record lay in the old primary's journal file. */
  lemma {:induction false} MissedIff(r: SysRun, j: nat, rec: QuiesceRecord)
    requires IsSysRun(r) && j < |r.states|
    ensures rec in r.states[j].p.missed <==> exists i :: 0 <= i < j && MissesOrphan(r, i, rec)
  {
    if j == 0 {
      hide Next;
    } else {
      hide Next, MissesOrphan;
      MissedIff(r, j - 1, rec);
      MissedAt(r, j, rec);
    }
  }

  ghost predicate MissesOrphan(r: SysRun, i: nat, rec: QuiesceRecord)
    requires IsSysRun(r) && i < |r.acts|
  {
    && r.acts[i] == PAct(AQuiesce(ReadSeq)) && r.states[i].p.disk.journal.tail.Whole?
    && r.states[i + 1].p.vol.Some? && r.states[i + 1].p.vol.value.qpc == QSeq(rec)
  }

  lemma PromotedJournal(n: Node)
    requires Inv(n) && n.disk.promotion.Some?
    ensures n.disk.baseline == Some(n.disk.promotion.value.inheritedSeq)
    ensures Contiguous(n.disk.promotion.value.inheritedSeq, n.disk.journal.entries)
  {
    hide Contiguous, LocksOk, RolesOk, QuiesceOk, ThreadsOk;
  }

  /** The follower's side of every disciplined run: its durable cursor never passes what it applied, and
      at its high-water mark its data is the fold of that much of the primary's journal. */
  lemma FollowerIsPrefix(r: SysRun, i: nat)
    requires DisciplinedRun(r) && i < |r.states| && r.states[i].f.disk.promotion.None?
    ensures var s := r.states[i];
            && CursorValue(s.f.disk) <= Position(s.f) <= s.f.high <= |s.p.disk.journal.entries|
            && (Position(s.f) == s.f.high ==> s.f.disk.data == Fold(s.p.disk.journal.entries[..s.f.high]))
  {
    CopiesRun(r, i);
    var s := r.states[i];
    hide DisciplinedRun, SysInv;
    if Position(s.f) == s.f.high {
      TracksCaughtUp(s.p.disk.journal.entries, s.f.disk.data, s.f.high);
    }
  }
}
