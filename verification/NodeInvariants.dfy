/** What every step of a node keeps, and what follows over whole runs of one node: exclusion between
    promotion and replication, quiesce stability, and startup accepting the states this code leaves.

    The invariant has two halves: CoreOk speaks of the disk and the process without its request
    threads, ThreadsOk of each thread against the few process fields in its View. */
module NodeInvariants {
  import opened Bytes
  import opened Journal
  import opened Replication
  import opened Node

  // ---- threads ----

  /** Past its last barrier check under the shared lock, or applying. */
  predicate Danger(pc: Pc) { pc.SReady? || pc.AReady? || pc.Holding? || pc.Applying? }

  /** A sync that saw the follower role and has not reached its last barrier check. */
  predicate Underway(pc: Pc) { pc.SRoleOk? || pc.SBusy? || pc.SChecked? || pc.SLocked? }

  predicate WriteOpOk(w: WriteOp) { w.key != [] && !w.op.OpOther? && Fits(w.key, w.value) }

  predicate ThreadOk(w: View, pc: Pc) {
    && (w.wlock ==> !HoldsRepl(pc))
    && (w.role == RoleFollower ==> !HoldsGate(pc) && !pc.WWaiting?)
    && (w.role == RoleFollower && (w.wlock || w.promotion) ==> !Danger(pc))
    && (w.role != RoleFollower ==> !pc.SReady? && !pc.Holding? && !pc.Applying? && (w.barrier || !Underway(pc)))
    && (w.gateClosed ==> !pc.WInside? && !pc.WApplied? && !pc.WDone?)
    && (pc.WWaiting? || pc.WLocked? || pc.WInside? || pc.WApplied? ==> WriteOpOk(pc.w))
  }

  ghost predicate ThreadsOk(n: Node) {
    n.vol.Some? ==> forall t :: t in n.vol.value.threads ==> ThreadOk(ViewOf(n, n.vol.value), n.vol.value.threads[t])
  }

  // ---- disk and process ----

  predicate PastBarrier(pc: PromotePc) {
    pc.PBarrier? || pc.PMarked? || LockedPc(pc) || pc.PReverting?
  }

  ghost predicate LocksOk(n: Node) {
    n.vol.Some? ==>
      var v := n.vol.value;
      && (v.wlock <==> LockedPc(v.ppc))
      && (PastBarrier(v.ppc) ==> v.barrier)
      && (v.role == RoleFollower && n.disk.promotion.Some? ==> v.barrier)
      && (v.role != RoleFollower ==> v.ppc.PIdle? || v.ppc.PSwitched?)
  }

  ghost predicate RolesOk(n: Node) {
    && n.cfg.nodeID != "" && (n.cfg.role == RoleFollower ==> n.cfg.primaryURL != "")
    && (n.cfg.role != RoleFollower ==>
          && n.disk.promotion.None? && n.disk.baseline.None?
          && (n.vol.Some? ==> n.vol.value.role == n.cfg.role && n.vol.value.ppc.PIdle?))
    && (n.cfg.role != RolePrimary && n.disk.promotion.None? ==> n.disk.journal == JournalFile([], Clean))
    && (n.cfg.role == RoleFollower && n.disk.promotion.None? ==>
          && !n.wrote
          && (n.vol.Some? ==> n.vol.value.role == RoleFollower))
    && (n.vol.Some? ==> (n.vol.value.role == RolePrimary <==> n.vol.value.log.Some?))
  }

  /** The locked re-validation succeeded and nothing has changed since. */
  ghost predicate Ready(n: Node, v: Volatile, qr: QuiesceRecord) {
    && PromotionRequestOk(n.cfg, qr) && n.disk.promotion.None? && !v.promoted.NotPromoted? && v.role == RoleFollower
    && v.lastApplied == qr.latestSeq == CursorValue(n.disk)
  }

  ghost predicate Unwritten(n: Node) { n.disk.journal == JournalFile([], Clean) && !n.wrote }

  ghost predicate PromotingOk(n: Node, v: Volatile) {
    match v.ppc
    case PIdle => true
    case PValidated(qr) => PromotionRequestOk(n.cfg, qr) && n.disk.promotion.None?
    case PBarrier(qr) => PromotionRequestOk(n.cfg, qr) && n.disk.promotion.None?
    case PMarked(qr) => PromotionRequestOk(n.cfg, qr) && n.disk.promotion.None? && !v.promoted.NotPromoted?
    case PLocked(qr) => PromotionRequestOk(n.cfg, qr) && n.disk.promotion.None? && !v.promoted.NotPromoted?
    case PChecked(qr) => Ready(n, v, qr)
    case PBaselined(qr) => Ready(n, v, qr) && n.disk.baseline == Some(qr.latestSeq)
    case PCommitted(rec) => n.disk.promotion == Some(rec) && Unwritten(n)
    case POpened(rec, es) => n.disk.promotion == Some(rec) && es == [] && Unwritten(n)
    case PSwitched => n.disk.promotion.Some?
    case PFailed => n.disk.promotion.None?
    case PStuck => n.disk.promotion.Some?
    case PReverting => true
    case PResetting => n.disk.promotion.None?
  }

  ghost predicate CursorOk(n: Node) {
    n.disk.cursor.Some? ==>
      n.disk.cursor.value.nodeID == n.cfg.nodeID && n.disk.cursor.value.primaryURL == n.cfg.primaryURL
  }

  ghost predicate PromotionOk(n: Node) {
    && CursorOk(n)
    && (n.disk.promotion.Some? ==>
          && var rec := n.disk.promotion.value;
          && n.cfg.role == RoleFollower
          && rec.nodeID == n.cfg.nodeID && rec.newRole == "primary" && rec.sourceNodeID != "" && rec.quiesceID != ""
          && rec.sourceURL == n.cfg.primaryURL && rec.inheritedSeq != MAX_U64
          && n.disk.baseline == Some(rec.inheritedSeq) && CursorValue(n.disk) == rec.inheritedSeq)
    && (n.vol.Some? ==>
          && (n.disk.promotion.Some? ==> !n.vol.value.promoted.NotPromoted?)
          && PromotingOk(n, n.vol.value))
  }

  ghost predicate JournalOk(n: Node) {
    var j, base := n.disk.journal, BaseSeq(n.disk);
    && Contiguous(base, j.entries) && TailFits(base, j.entries, j.tail)
    && (n.vol.Some? ==>
          && (n.vol.value.log.Some? ==>
                var l := n.vol.value.log.value;
                l.base == base && l.entries == j.entries && (!l.poisoned ==> j.tail == Clean)))
  }

  // ---- quiesce files ----

  /** A durable fence: the intent, the record, or both. */
  predicate Fenced(d: Disk) { d.intent.Some? || d.record.Some? }

  function FenceID(d: Disk): string
    requires Fenced(d)
  {
    if d.record.Some? then d.record.value.id else d.intent.value.id
  }

  /** The latest sequence number the next start will find in the journal. */
  function DiskLatest(d: Disk): int {
    BaseSeq(d) + |d.journal.entries| + if d.journal.tail.Whole? then 1 else 0
  }

  /** The gate of a configured primary is closed now and will be after every restart. */
  ghost predicate FencedNow(n: Node) {
    Fenced(n.disk) && (n.vol.Some? ==> n.vol.value.gateClosed)
  }

  /** The record's sequence is the journal's latest, or one less if it was read over an orphan. */
  ghost predicate Agreed(n: Node, rec: QuiesceRecord) {
    if rec in n.missed then rec.latestSeq + 1 == DiskLatest(n.disk)
    else rec.latestSeq == DiskLatest(n.disk) && !n.disk.journal.tail.Whole?
  }

  /** rec carries the fence's ID and agrees with the journal. */
  ghost predicate Matches(n: Node, rec: QuiesceRecord) {
    Fenced(n.disk) && rec.id == FenceID(n.disk) && Agreed(n, rec)
  }

  /** Records that miss an orphan exist only behind a fence. */
  ghost predicate MissedOk(n: Node) {
    n.missed != {} ==> FencedNow(n) && forall rec :: rec in n.missed ==> rec.latestSeq + 1 == DiskLatest(n.disk)
  }

  ghost predicate QuiesceFilesOk(n: Node) {
    && (n.disk.record.Some? ==> Matches(n, n.disk.record.value))
    && (n.disk.intent.Some? && n.disk.record.Some? ==> n.disk.intent.value.id == n.disk.record.value.id)
  }

  ghost predicate QuiescingOk(n: Node, v: Volatile) {
    && (v.gateClosed ==> Fenced(n.disk))
    && (match v.qstate
        case Active => true
        case FailedFenced(p) => v.gateClosed && Matches(n, p) && (n.disk.record.Some? ==> n.disk.record.value == p)
        case Quiesced(r) => v.gateClosed && n.disk.record == Some(r))
    && (match v.qpc
        case QIdle => (v.qstate.Active? ==> !v.gateClosed && !Fenced(n.disk))
                      && (v.qstate.FailedFenced? ==> n.disk.record.None?)
        case QHasId(id) => v.qstate.Active? && !v.gateClosed && !Fenced(n.disk)
        case QIntent(id) => v.qstate.Active? && !v.gateClosed && n.disk.record.None?
                            && n.disk.intent.Some? && n.disk.intent.value.id == id
        case QGated(id) => v.qstate.Active? && v.gateClosed && n.disk.record.None?
                           && n.disk.intent.Some? && n.disk.intent.value.id == id
        case QSeq(rec) => v.qstate.Active? && v.gateClosed && n.disk.record.None? && Matches(n, rec)
        case QSaved(rec) => !v.qstate.Quiesced? && v.gateClosed && n.disk.record == Some(rec)
        case QCleaned(rec) => !v.qstate.Quiesced? && v.gateClosed && n.disk.record == Some(rec))
  }

  /** Held by every node whose configuration is primary. */
  ghost predicate QuiesceOk(n: Node) {
    n.cfg.role == RolePrimary ==> MissedOk(n) && QuiesceFilesOk(n) && (n.vol.Some? ==> QuiescingOk(n, n.vol.value))
  }

  ghost predicate CoreOk(n: Node) {
    LocksOk(n) && RolesOk(n) && PromotionOk(n) && JournalOk(n) && QuiesceOk(n)
  }

  ghost predicate Inv(n: Node) {
    CoreOk(n) && ThreadsOk(n)
  }

  lemma InitKeeps(n: Node)
    requires Init(n)
    ensures Inv(n)
  {
  }

  // ---- a thread step changes one thread; most change nothing else the core looks at ----

  /** The node without its request threads, its data and the counters CoreOk never reads. */
  function Strip(n: Node): Node {
    n.(disk := n.disk.(data := map[]), high := 0,
       vol := if n.vol.None? then None else Some(n.vol.value.(threads := map[], syncing := false)))
  }

  lemma CoreOfStrip(n: Node, n': Node)
    requires CoreOk(n) && Strip(n') == Strip(n)
    ensures CoreOk(n')
  {
    hide Contiguous;
    assert n.vol.Some? <==> Strip(n).vol.Some?;
    assert n'.vol.Some? <==> Strip(n').vol.Some?;
    assert n'.disk.(data := map[]) == n.disk.(data := map[]);
    assert n'.disk == n.disk.(data := n'.disk.data);
    if n.vol.Some? {
      var v, v' := n.vol.value, n'.vol.value;
      assert v'.(threads := map[], syncing := false) == v.(threads := map[], syncing := false);
      assert v' == v.(threads := v'.threads, syncing := v'.syncing);
    }
  }

  lemma ThreadAt(n: Node, t: nat)
    requires ThreadsOk(n) && n.vol.Some? && t in n.vol.value.threads
    ensures ThreadOk(ViewOf(n, n.vol.value), n.vol.value.threads[t])
  {
  }

  /** Moving one thread to an acceptable position keeps all threads acceptable while the View stands. */
  lemma MoveThread(n: Node, n': Node, v: Volatile, t: nat, to: Option<Pc>)
    requires ThreadsOk(n) && n.vol.Some? && n'.vol == Some(MoveTo(v, t, to))
    requires v.threads == n.vol.value.threads && ViewOf(n', v) == ViewOf(n, n.vol.value)
    requires to.Some? ==> ThreadOk(ViewOf(n', v), to.value)
    ensures ThreadsOk(n')
  {
    hide ThreadOk;
    var v' := n'.vol.value;
    assert ViewOf(n', v') == ViewOf(n', v);
  }

  lemma MoveOk(w: View, syncing: bool, lastApplied: u64, from: Option<Pc>, a: ThreadAct)
    requires from.Some? ==> ThreadOk(w, from.value)
    requires w.role == RoleFollower && (w.wlock || w.promotion) ==> w.barrier
    ensures var m := ThreadMove(w, syncing, lastApplied, from, a);
            m.Moves? && m.to.Some? ==> ThreadOk(w, m.to.value)
  {
    hide Fits;
  }

  lemma BarrierUp(n: Node)
    requires CoreOk(n) && n.vol.Some?
    ensures var v := n.vol.value;
            v.role == RoleFollower && (v.wlock || n.disk.promotion.Some?) ==> v.barrier
  {
    hide RolesOk, PromotionOk, JournalOk, QuiesceOk;
  }

  lemma ThreadKeeps(n: Node, t: nat, a: ThreadAct, n': Node)
    requires Inv(n) && ThreadStep(n, t, a, n')
    ensures Inv(n')
  {
    hide CoreOk, ThreadsOk, ThreadOk, ThreadMove;
    var v := n.vol.value;
    if t in v.threads { ThreadAt(n, t); }
    BarrierUp(n);
    MoveOk(ViewOf(n, v), v.syncing, v.lastApplied, PcAt(v, t), a);
    var m := ThreadMove(ViewOf(n, v), v.syncing, v.lastApplied, PcAt(v, t), a);
    MoveThread(n, n', v.(syncing := m.syncing), t, m.to);
    CoreOfStrip(n, n');
  }

  // ---- effects ----

  lemma ExecuteKeeps(n: Node, v: Volatile, t: nat, w: WriteOp, next: Pc, n': Node)
    requires Inv(n) && n.vol == Some(v) && ExecuteStep(n, v, t, w, next, n')
    requires v.role != RoleFollower && ThreadOk(ViewOf(n, v), next)
    ensures Inv(n')
  {
    hide ThreadOk, ThreadsOk, Contiguous;
    MoveThread(n, n', v, t, Some(next));
    var m := n.(wrote := true);
    assert CoreOk(m);
    CoreOfStrip(m, n');
  }

  lemma NextEntryFits(l: LogState, w: WriteOp, ts: u64)
    requires Contiguous(l.base, l.entries) && WriteOpOk(w) && LatestSeq(l) + 1 < MAX_U64
    ensures Contiguous(l.base, l.entries + [NextEntry(l, w, ts)])
  {
  }

  lemma TailOfFits(l: LogState, w: WriteOp, tail: Tail)
    requires Contiguous(l.base, l.entries) && WriteOpOk(w) && TailOf(l, w, tail)
    ensures TailFits(l.base, l.entries, tail)
  {
    hide Contiguous;
    if !tail.Clean? { NextEntryFits(l, w, tail.entry.ts); }
  }

  lemma CommitEntryKeeps(n: Node, v: Volatile, w: WriteOp, ts: u64, m: Node)
    requires CoreOk(n) && n.vol == Some(v) && v.role != RoleFollower && !v.gateClosed && WriteOpOk(w)
    requires v.log.Some? && !v.log.value.poisoned && LatestSeq(v.log.value) + 1 < MAX_U64
    requires var es := v.log.value.entries + [NextEntry(v.log.value, w, ts)];
             m == n.(disk := n.disk.(journal := JournalFile(es, Clean)),
                     vol := Some(v.(log := Some(v.log.value.(entries := es)))))
    ensures CoreOk(m)
  {
    hide Contiguous;
    NextEntryFits(v.log.value, w, ts);
  }

  lemma PoisonKeeps(n: Node, v: Volatile, w: WriteOp, tail: Tail, m: Node)
    requires CoreOk(n) && n.vol == Some(v) && v.role != RoleFollower && !v.gateClosed && WriteOpOk(w)
    requires v.log.Some? && !v.log.value.poisoned && TailOf(v.log.value, w, tail)
    requires m == n.(disk := n.disk.(journal := n.disk.journal.(tail := tail)),
                     vol := Some(v.(log := Some(v.log.value.(poisoned := true)))))
    ensures CoreOk(m)
  {
    hide Contiguous;
    TailOfFits(v.log.value, w, tail);
  }

  lemma AppendKeeps(n: Node, v: Volatile, t: nat, w: WriteOp, ts: u64, outcome: AppendOutcome, n': Node)
    requires Inv(n) && n.vol == Some(v) && AppendStep(n, v, t, w, ts, outcome, n')
    requires v.role != RoleFollower && !v.gateClosed && WriteOpOk(w)
    ensures Inv(n')
  {
    hide CoreOk, ThreadsOk;
    var u := n'.vol.value.(threads := v.threads);
    var m := n'.(vol := Some(u));
    MoveThread(n, n', u, t, Some(WDone));
    match outcome {
      case NotCommitted => assert m == n;
      case Committed => CommitEntryKeeps(n, v, w, ts, m);
      case Poisons(tail) => PoisonKeeps(n, v, w, tail, m);
    }
    CoreOfStrip(m, n');
  }

  /** Applied entries and cursor saves happen only on a follower that holds no promotion and no
      exclusive lock, so nothing the promotion relies on can move. */
  lemma BatchKeeps(n: Node, v: Volatile, t: nat, to: Pc, n': Node)
    requires Inv(n) && n.vol == Some(v) && t in v.threads && v.threads[t].Applying?
    requires ThreadOk(ViewOf(n, v), to)
    requires n'.vol.Some? && n'.vol.value == MoveTo(v.(lastApplied := n'.vol.value.lastApplied), t, Some(to))
    requires n' == n.(disk := n.disk.(data := n'.disk.data, cursor := n'.disk.cursor), high := n'.high, vol := n'.vol)
    requires n'.disk.cursor == n.disk.cursor || CursorOk(n')
    ensures Inv(n')
  {
    hide ThreadsOk, ThreadOk, Contiguous;
    ThreadAt(n, t);
    BatchIsFree(n, v, v.threads[t]);
    var u := n'.vol.value;
    MoveThread(n, n', v.(lastApplied := u.lastApplied), t, Some(to));
    var m := n.(disk := n.disk.(cursor := n'.disk.cursor), vol := Some(v.(lastApplied := u.lastApplied)));
    assert CoreOk(m);
    CoreOfStrip(m, n');
  }

  lemma BatchIsFree(n: Node, v: Volatile, pc: Pc)
    requires ThreadOk(ViewOf(n, v), pc) && pc.Applying?
    ensures v.role == RoleFollower && !v.wlock && n.disk.promotion.None?
  {
  }

  lemma EntryKeeps(n: Node, v: Volatile, t: nat, ok: bool, n': Node)
    requires Inv(n) && n.vol == Some(v) && t in v.threads
    requires v.threads[t].Applying? && v.threads[t].i < |v.threads[t].batch| && EntryStep(n, v, t, v.threads[t], ok, n')
    ensures Inv(n')
  {
    hide CoreOk, ThreadsOk;
    ThreadAt(n, t);
    BatchKeeps(n, v, t, n'.vol.value.threads[t], n');
  }

  lemma SaveKeeps(n: Node, v: Volatile, t: nat, ok: bool, n': Node)
    requires Inv(n) && n.vol == Some(v) && t in v.threads
    requires v.threads[t].Applying? && SaveStep(n, v, t, v.threads[t], ok, n')
    ensures Inv(n')
  {
    hide CoreOk, ThreadsOk;
    ThreadAt(n, t);
    BatchKeeps(n, v, t, Finishing(v.threads[t].sync), n');
  }

  lemma EffectKeeps(n: Node, t: nat, a: EffectAct, n': Node)
    requires Inv(n) && EffectStep(n, t, a, n')
    ensures Inv(n')
  {
    hide CoreOk, ThreadsOk, ExecuteStep, AppendStep, EntryStep, SaveStep;
    var v := n.vol.value;
    var pc := v.threads[t];
    ThreadAt(n, t);
    match a
    case Execute(ok) =>
      if ok {
        ExecuteKeeps(n, v, t, pc.w, WApplied(pc.w), n');
      } else {
        MoveThread(n, n', v, t, Some(WDone));
        CoreOfStrip(n, n');
      }
    case Explain => ExecuteKeeps(n, v, t, pc.w, WDone, n');
    case AppendEntry(ts, outcome) => AppendKeeps(n, v, t, pc.w, ts, outcome, n');
    case BatchEntry(ok) => EntryKeeps(n, v, t, ok, n');
    case BatchSave(ok) => SaveKeeps(n, v, t, ok, n');
  }

  // ---- quiesce ----

  ghost predicate OnlyQuiesceFields(n: Node, n': Node) {
    && n.vol.Some? && n'.vol.Some?
    && n' == n.(disk := n.disk.(intent := n'.disk.intent, record := n'.disk.record), missed := n'.missed,
                vol := Some(n.vol.value.(gateClosed := n'.vol.value.gateClosed,
                                         qstate := n'.vol.value.qstate, qpc := n'.vol.value.qpc)))
  }

  lemma QuiesceFrame(n: Node, a: QuiesceAct, n': Node)
    requires QuiesceStep(n, a, n')
    ensures OnlyQuiesceFields(n, n')
    ensures n'.vol.value.gateClosed == (n.vol.value.gateClosed || a.CloseGate?)
    ensures a.CloseGate? ==> forall t :: t in n.vol.value.threads ==> !HoldsGate(n.vol.value.threads[t])
  {
  }

  lemma QuiesceFrameKeeps(n: Node, n': Node)
    requires CoreOk(n) && OnlyQuiesceFields(n, n')
    ensures LocksOk(n') && RolesOk(n') && PromotionOk(n') && JournalOk(n')
  {
    hide Contiguous, TailFits, QuiesceOk;
  }

  lemma QuiesceFilesKeep(n: Node, a: QuiesceAct, n': Node)
    requires JournalOk(n) && QuiesceOk(n) && RolesOk(n) && QuiesceStep(n, a, n')
    ensures n'.cfg.role == RolePrimary ==> QuiesceFilesOk(n') && MissedOk(n')
  {
    if n.cfg.role == RolePrimary {
      MissedKeeps(n, a, n');
      hide JournalOk, MissedOk, RolesOk;
    }
  }

  lemma MissedKeeps(n: Node, a: QuiesceAct, n': Node)
    requires JournalOk(n) && QuiesceOk(n) && n.cfg.role == RolePrimary && QuiesceStep(n, a, n')
    ensures MissedOk(n')
  {
    hide Contiguous, TailFits, QuiesceFilesOk;
  }

  lemma FencingKeeps(n: Node, a: QuiesceAct, n': Node)
    requires QuiesceOk(n) && n.cfg.role == RolePrimary && QuiesceStep(n, a, n')
    requires a.Begin? || a.SaveIntent? || a.CloseGate?
    ensures QuiescingOk(n', n'.vol.value)
  {
  }

  lemma ReadSeqKeeps(n: Node, n': Node)
    requires JournalOk(n) && QuiesceOk(n) && n.cfg.role == RolePrimary && QuiesceStep(n, ReadSeq, n')
    ensures QuiescingOk(n', n'.vol.value)
  {
    hide Contiguous, TailFits;
    var rec := n'.vol.value.qpc.rec;
    assert Matches(n', rec);
  }

  lemma RecordingKeeps(n: Node, a: QuiesceAct, n': Node)
    requires QuiesceOk(n) && n.cfg.role == RolePrimary && QuiesceStep(n, a, n')
    requires a.SaveRecord? || a.Retry?
    ensures QuiescingOk(n', n'.vol.value)
  {
    var rec := if a.Retry? then n.vol.value.qstate.pending else n.vol.value.qpc.rec;
    assert Matches(n, rec);
    assert Matches(n', rec);
  }

  lemma FinishingKeeps(n: Node, a: QuiesceAct, n': Node)
    requires QuiesceOk(n) && n.cfg.role == RolePrimary && QuiesceStep(n, a, n')
    requires a.RemoveIntent? || a.Finish?
    ensures QuiescingOk(n', n'.vol.value)
  {
  }

  lemma QuiesceKeeps(n: Node, a: QuiesceAct, n': Node)
    requires Inv(n) && QuiesceStep(n, a, n')
    ensures Inv(n')
  {
    QuiesceFrame(n, a, n');
    QuiesceFilesKeep(n, a, n');
    QuiesceFrameKeeps(n, n');
    if n.cfg.role == RolePrimary {
      hide QuiesceStep, QuiescingOk;
      if a.Begin? || a.SaveIntent? || a.CloseGate? { FencingKeeps(n, a, n'); }
      else if a.RemoveIntent? || a.Finish? { FinishingKeeps(n, a, n'); }
      else if a.ReadSeq? { ReadSeqKeeps(n, n'); }
      else { RecordingKeeps(n, a, n'); }
    }
    assert QuiesceOk(n');
    hide QuiesceStep, LocksOk, RolesOk, PromotionOk, JournalOk, QuiesceOk;
    assert ThreadsOk(n');
  }

  // ---- promotion ----

  ghost predicate OnlyPromotionFields(n: Node, n': Node) {
    && n.vol.Some? && n'.vol.Some?
    && n' == n.(vol := Some(n.vol.value.(barrier := n'.vol.value.barrier, promoted := n'.vol.value.promoted,
                                         wlock := n'.vol.value.wlock, ppc := n'.vol.value.ppc)))
  }

  lemma PromoteFrame(n: Node, a: PromoteAct, n': Node)
    requires PromoteStep(n, a, n')
    ensures OnlyPromotionFields(n, n')
  {
  }

  lemma PromoteFrameKeeps(n: Node, n': Node)
    requires CoreOk(n) && OnlyPromotionFields(n, n')
    ensures JournalOk(n') && QuiesceOk(n')
  {
    hide Contiguous, TailFits, LocksOk, RolesOk, PromotionOk;
  }

  lemma PromoteCoreKeeps(n: Node, a: PromoteAct, n': Node)
    requires LocksOk(n) && RolesOk(n) && PromotionOk(n) && PromoteStep(n, a, n')
    ensures LocksOk(n') && RolesOk(n') && PromotionOk(n')
  {
  }

  lemma PromoteThreadsKeep(n: Node, a: PromoteAct, n': Node)
    requires LocksOk(n) && ThreadsOk(n) && PromoteStep(n, a, n')
    ensures ThreadsOk(n')
  {
  }

  lemma PromoteKeeps(n: Node, a: PromoteAct, n': Node)
    requires Inv(n) && PromoteStep(n, a, n')
    ensures Inv(n')
  {
    hide PromoteStep, LocksOk, RolesOk, PromotionOk, JournalOk, QuiesceOk, ThreadsOk;
    PromoteFrame(n, a, n');
    PromoteFrameKeeps(n, n');
    PromoteCoreKeeps(n, a, n');
    PromoteThreadsKeep(n, a, n');
  }

  lemma CommitCoreKeeps(n: Node, a: CommitAct, n': Node)
    requires CoreOk(n) && CommitStep(n, a, n')
    ensures CoreOk(n')
  {
  }

  lemma CommitThreadsKeep(n: Node, a: CommitAct, n': Node)
    requires LocksOk(n) && ThreadsOk(n) && CommitStep(n, a, n')
    ensures ThreadsOk(n')
  {
  }

  lemma CommitKeeps(n: Node, a: CommitAct, n': Node)
    requires Inv(n) && CommitStep(n, a, n')
    ensures Inv(n')
  {
    hide CommitStep, LocksOk, RolesOk, PromotionOk, JournalOk, QuiesceOk, ThreadsOk;
    CommitCoreKeeps(n, a, n');
    CommitThreadsKeep(n, a, n');
  }

  // ---- crash and start ----

  lemma CrashKeeps(n: Node, tail: Tail, n': Node)
    requires Inv(n) && ProcessStep(n, Crash(tail), n')
    ensures Inv(n')
  {
  }

  lemma StartKeeps(n: Node, n': Node)
    requires Inv(n) && ProcessStep(n, StartUp, n')
    ensures Inv(n')
  {
    if n.disk.promotion.None? && n.cfg.role == RolePrimary {
      StartPrimaryKeeps(n, n');
    } else {
      hide Contiguous;
    }
  }

  lemma StartPrimaryKeeps(n: Node, n': Node)
    requires CoreOk(n) && n.cfg.role == RolePrimary && n.disk.promotion.None? && ProcessStep(n, StartUp, n')
    ensures Inv(n')
  {
    hide Contiguous;
  }

  lemma CleanIntentKeeps(n: Node, n': Node)
    requires Inv(n) && ProcessStep(n, CleanIntent, n')
    ensures Inv(n')
  {
  }

  /** Every step of a node keeps the invariant. */
  lemma StepKeeps(n: Node, a: Act, n': Node)
    requires Inv(n) && Step(n, a, n')
    ensures Inv(n')
  {
    hide Inv, ThreadStep, EffectStep, QuiesceStep, PromoteStep, CommitStep, ProcessStep;
    match a
    case AThread(t, m) => ThreadKeeps(n, t, m, n');
    case AEffect(t, e) => EffectKeeps(n, t, e, n');
    case AQuiesce(q) => QuiesceKeeps(n, q, n');
    case APromote(p) => PromoteKeeps(n, p, n');
    case ACommit(c) => CommitKeeps(n, c, n');
    case AProcess(x) =>
      match x
      case Crash(tail) => CrashKeeps(n, tail, n');
      case StartUp => StartKeeps(n, n');
      case CleanIntent => CleanIntentKeeps(n, n');
  }
}
