/** One server process and its data directory as a step machine (internal/node/handlers.go,
    internal/node/server.go, internal/node/quiesce.go and the record stores of internal/replnet).

    Every file save, every lock or flag operation that another thread can observe, and every applied
    entry is a step of its own; a crash can follow any of them. The same machine runs the configured
    primary and the follower: only their configuration and their files differ. */
module Node {
  import opened Bytes
  import opened Journal
  import opened Replication

  datatype Role = RolePrimary | RoleFollower | RoleStandalone

  datatype Config = Config(nodeID: string, role: Role, primaryURL: string, selfURL: string)

  // ---- the data directory ----

  datatype Intent = Intent(id: string, nodeID: string, url: string)
  datatype QuiesceRecord = QuiesceRecord(id: string, nodeID: string, url: string, latestSeq: u64)
  datatype PromotionRecord = PromotionRecord(nodeID: string, newRole: string, sourceNodeID: string,
                                             sourceURL: string, quiesceID: string, inheritedSeq: u64)
  datatype CursorFile = CursorFile(nodeID: string, primaryURL: string, lastApplied: u64)

  /** What follows the committed records: nothing, a strict prefix of one more record, or all of it. */
  datatype Tail = Clean | Torn(entry: Entry, length: nat) | Whole(entry: Entry)

  datatype JournalFile = JournalFile(entries: seq<Entry>, tail: Tail)

  /** `data` is the engine's durable content; absent record files are None. */
  datatype Disk = Disk(data: Data, journal: JournalFile, cursor: Option<CursorFile>, intent: Option<Intent>,
                       record: Option<QuiesceRecord>, baseline: Option<u64>, promotion: Option<PromotionRecord>)

  const EMPTY_DISK := Disk(map[], JournalFile([], Clean), None, None, None, None, None)

  function CursorValue(d: Disk): u64 {
    if d.cursor.Some? then d.cursor.value.lastApplied else 0
  }

  function BaseSeq(d: Disk): u64 {
    if d.baseline.Some? then d.baseline.value else 0
  }

  ghost predicate TailFits(base: u64, es: seq<Entry>, tail: Tail) {
    match tail
    case Clean => true
    case Torn(e, n) => Contiguous(base, es + [e]) && 0 < n < 33 + |e.key| + |e.value|
    case Whole(e) => Contiguous(base, es + [e])
  }

  /** OpenDurableLog on such a file: the entries it recovers, or None when it refuses to open. */
  ghost function OpenJournal(base: u64, f: JournalFile): Option<seq<Entry>> {
    var es := if f.tail.Whole? then f.entries + [f.tail.entry] else f.entries;
    if (f.tail.Torn? && f.tail.length == 4) || !Contiguous(base, es) then None else Some(es)
  }

  ghost function JournalBytes(crc: Checksum, f: JournalFile): bytes
    requires Encodable(f.entries) && (!f.tail.Clean? ==> Fits(f.tail.entry.key, f.tail.entry.value))
    requires f.tail.Torn? ==> f.tail.length <= 33 + |f.tail.entry.key| + |f.tail.entry.value|
  {
    EncodeAll(crc, f.entries) +
    match f.tail
    case Clean => []
    case Torn(e, n) => EncodeRecord(crc, e)[..n]
    case Whole(e) => EncodeRecord(crc, e)
  }

  /** OpenJournal is what replaying the actual bytes gives. */
  lemma OpenJournalIsReplay(crc: Checksum, base: u64, f: JournalFile)
    requires Contiguous(base, f.entries) && TailFits(base, f.entries, f.tail)
    requires !f.tail.Clean? ==> Fits(f.tail.entry.key, f.tail.entry.value)
    ensures var outcome := ReplayFrom(crc, base, JournalBytes(crc, f), 0, []);
            match OpenJournal(base, f)
            case None => outcome.OpenFailed?
            case Some(es) => Encodable(es) && outcome == Opened(IndexOf(crc, es), |EncodeAll(crc, es)|)
  {
    hide ReplayFrom, EncodeRecord, EncodeAll, IndexOf;
    match f.tail
    case Clean =>
      assert JournalBytes(crc, f) == EncodeAll(crc, f.entries);
      ReopenComplete(crc, base, f.entries);
    case Torn(e, n) =>
      assert (f.entries + [e])[|f.entries|] == e;
      ReopenAfterTear(crc, base, f.entries, e, n);
    case Whole(e) =>
      var r := EncodeRecord(crc, e);
      assert r[..|r|] == r;
      assert (f.entries + [e])[|f.entries|] == e;
      ReopenAfterTear(crc, base, f.entries, e, |r|);
      Extend(crc, base, f.entries, e);
  }

  // ---- the process ----

  datatype LogState = LogState(base: u64, entries: seq<Entry>, poisoned: bool)

  datatype QuiesceState = Active | FailedFenced(pending: QuiesceRecord) | Quiesced(record: QuiesceRecord)

  /** Program counter of the one quiesce handler quiesceMu admits. */
  datatype QuiescePc = QIdle | QHasId(id: string) | QIntent(id: string) | QGated(id: string)
                     | QSeq(rec: QuiesceRecord) | QSaved(rec: QuiesceRecord) | QCleaned(rec: QuiesceRecord)

  datatype PromotionState = NotPromoted | Promoting | Promoted(record: PromotionRecord)

  /** Program counter of the one promote handler promoteMu admits. */
  datatype PromotePc = PIdle | PValidated(qr: QuiesceRecord) | PBarrier(qr: QuiesceRecord) | PMarked(qr: QuiesceRecord)
                     | PLocked(qr: QuiesceRecord) | PChecked(qr: QuiesceRecord) | PBaselined(qr: QuiesceRecord)
                     | PCommitted(rec: PromotionRecord) | POpened(rec: PromotionRecord, es: seq<Entry>) | PSwitched
                     | PFailed | PStuck | PReverting | PResetting

  datatype WriteOp = WriteOp(op: Operation, key: bytes, value: bytes)

  /** Program counters of request threads: client writes (W), syncs (S), posted batches (A), and the
      shared apply loop. `sync` marks the thread that owns the syncInProgress flag. */
  datatype Pc = WWaiting(w: WriteOp) | WLocked(w: WriteOp) | WInside(w: WriteOp) | WApplied(w: WriteOp) | WDone
              | SStarted | SRoleOk | SBusy | SChecked | SLocked | SReady
              | AStarted(batch: seq<Entry>) | ALocked(batch: seq<Entry>) | AReady(batch: seq<Entry>)
              | Holding(sync: bool, batch: seq<Entry>)
              | Applying(sync: bool, batch: seq<Entry>, i: nat, last: u64)
              | Finishing(sync: bool)

  datatype Volatile = Volatile(role: Role, promoted: PromotionState, log: Option<LogState>,
                               gateClosed: bool, qstate: QuiesceState, qpc: QuiescePc,
                               lastApplied: u64, barrier: bool, syncing: bool, wlock: bool, ppc: PromotePc,
                               threads: map<nat, Pc>)

  /** History variables: the highest entry ever applied from a primary, the quiesce records whose
      sequence was read while a failed rollback had left a whole record behind the log's index, and
      whether a client write was ever executed. */
  datatype Node = Node(cfg: Config, disk: Disk, vol: Option<Volatile>, high: nat, missed: set<QuiesceRecord>,
                       wrote: bool)

  ghost predicate Init(n: Node) {
    && n == Node(n.cfg, EMPTY_DISK, None, 0, {}, false)
    && n.cfg.nodeID != "" && (n.cfg.role == RoleFollower ==> n.cfg.primaryURL != "")
  }

  /** The writeGate's shared lock. */
  predicate HoldsGate(pc: Pc) { pc.WLocked? || pc.WInside? || pc.WApplied? || pc.WDone? }

  /** replicationMutationMu's shared lock. */
  predicate HoldsRepl(pc: Pc) {
    pc.SLocked? || pc.SReady? || pc.ALocked? || pc.AReady? || pc.Holding? || pc.Applying? || pc.Finishing?
  }

  /** replicationMutationMu's exclusive lock, by promote program counter. */
  predicate LockedPc(pc: PromotePc) {
    pc.PLocked? || pc.PChecked? || pc.PBaselined? || pc.PCommitted? || pc.POpened? || pc.PSwitched?
    || pc.PFailed? || pc.PStuck?
  }

  function LatestSeq(l: LogState): int { l.base + |l.entries| }

  function AtPc(n: Node, v: Volatile, pc: PromotePc): Node {
    n.(vol := Some(v.(ppc := pc)))
  }

  // ---- request threads: moves that touch only their own position and the syncInProgress flag ----

  /** The process fields a thread reads as it goes. */
  datatype View = View(role: Role, wlock: bool, barrier: bool, gateClosed: bool, promotion: bool)

  function ViewOf(n: Node, v: Volatile): View {
    View(v.role, v.wlock, v.barrier, v.gateClosed, n.disk.promotion.Some?)
  }

  function PcAt(v: Volatile, t: nat): Option<Pc> {
    if t in v.threads then Some(v.threads[t]) else None
  }

  /** The process with thread t at a new position, or gone. */
  function MoveTo(v: Volatile, t: nat, to: Option<Pc>): Volatile {
    v.(threads := if to.Some? then v.threads[t := to.value] else v.threads - {t})
  }

  datatype ThreadAct =
      // handleKVPut, handleKVDelete and the write gate
    | WriteEnter(w: WriteOp) | WriteLock | WriteRecheck | WriteExit
      // SyncFromPrimary
    | SyncEnter | SyncRole | SyncFlag | SyncBarrier | SyncLock | SyncRebarrier
    | SyncPull(pulled: seq<Entry>) | SyncPullFails
      // ApplyReplicationEntries with a posted batch
    | PostEnter(posted: seq<Entry>) | PostLock | PostBarrier | PostRole
      // applyReplicationEntriesLocked, first and last statement
    | BatchStart | BatchExit

  datatype Move = Disabled | Moves(syncing: bool, to: Option<Pc>)

  function ThreadMove(w: View, syncing: bool, lastApplied: u64, from: Option<Pc>, a: ThreadAct): Move {
    match (a, from)
    case (WriteEnter(op), None) =>
      if w.role != RoleFollower && !w.gateClosed && op.key != [] && !op.op.OpOther? && Fits(op.key, op.value)
      then Moves(syncing, Some(WWaiting(op))) else Disabled
    case (WriteLock, Some(WWaiting(op))) => Moves(syncing, Some(WLocked(op)))
    case (WriteRecheck, Some(WLocked(op))) => Moves(syncing, if w.gateClosed then None else Some(WInside(op)))
    case (WriteExit, Some(WDone)) => Moves(syncing, None)
    case (SyncEnter, None) => if w.barrier then Disabled else Moves(syncing, Some(SStarted))
    case (SyncRole, Some(SStarted)) => Moves(syncing, if w.role == RoleFollower then Some(SRoleOk) else None)
    case (SyncFlag, Some(SRoleOk)) => Moves(true, if syncing then None else Some(SBusy))
    case (SyncBarrier, Some(SBusy)) => if w.barrier then Moves(false, None) else Moves(syncing, Some(SChecked))
    case (SyncLock, Some(SChecked)) => if w.wlock then Disabled else Moves(syncing, Some(SLocked))
    case (SyncRebarrier, Some(SLocked)) => Moves(syncing, Some(if w.barrier then Finishing(true) else SReady))
    case (SyncPull(pulled), Some(SReady)) => Moves(syncing, Some(Holding(true, pulled)))
    case (SyncPullFails, Some(SReady)) => Moves(syncing, Some(Finishing(true)))
    case (PostEnter(posted), None) => if w.barrier then Disabled else Moves(syncing, Some(AStarted(posted)))
    case (PostLock, Some(AStarted(batch))) => if w.wlock then Disabled else Moves(syncing, Some(ALocked(batch)))
    case (PostBarrier, Some(ALocked(batch))) =>
      Moves(syncing, Some(if w.barrier then Finishing(false) else AReady(batch)))
    case (PostRole, Some(AReady(batch))) =>
      Moves(syncing, Some(if w.role == RoleFollower then Holding(false, batch) else Finishing(false)))
    case (BatchStart, Some(Holding(sync, batch))) => Moves(syncing, Some(Applying(sync, batch, 0, lastApplied)))
    case (BatchExit, Some(Finishing(sync))) => Moves(if sync then false else syncing, None)
    case _ => Disabled
  }

  ghost predicate ThreadStep(n: Node, t: nat, a: ThreadAct, n': Node) {
    && n.vol.Some?
    && var v := n.vol.value;
    var m := ThreadMove(ViewOf(n, v), v.syncing, v.lastApplied, PcAt(v, t), a);
    m.Moves? && n' == n.(vol := Some(MoveTo(v.(syncing := m.syncing), t, m.to)))
  }

  // ---- request threads: engine writes, journal appends, applied entries, cursor saves ----

  datatype AppendOutcome = Committed | NotCommitted | Poisons(tail: Tail)

  datatype EffectAct = Execute(ok: bool) | Explain | AppendEntry(ts: u64, outcome: AppendOutcome)
                     | BatchEntry(ok: bool) | BatchSave(ok: bool)

  function NextEntry(l: LogState, w: WriteOp, ts: u64): Entry
    requires LatestSeq(l) + 1 < MAX_U64
  {
    Entry(LatestSeq(l) + 1, w.op, w.key, w.value, ts)
  }

  /** A tail that an interrupted append of w may leave. */
  ghost predicate TailOf(l: LogState, w: WriteOp, tail: Tail) {
    match tail
    case Clean => true
    case Torn(e, n) => LatestSeq(l) + 1 < MAX_U64 && e == NextEntry(l, w, e.ts) && 0 < n < 33 + |e.key| + |e.value|
    case Whole(e) => LatestSeq(l) + 1 < MAX_U64 && e == NextEntry(l, w, e.ts)
  }

  /** eng.Put or eng.Delete for a client; `next` is where the thread goes. */
  ghost predicate ExecuteStep(n: Node, v: Volatile, t: nat, w: WriteOp, next: Pc, n': Node) {
    n' == n.(disk := n.disk.(data := Apply(n.disk.data, Entry(0, w.op, w.key, w.value, 0))), wrote := true,
             vol := Some(MoveTo(v, t, Some(next))))
  }

  /** durableLog.Append, whose error the handler ignores. */
  ghost predicate AppendStep(n: Node, v: Volatile, t: nat, w: WriteOp, ts: u64, outcome: AppendOutcome, n': Node) {
    match outcome
    case NotCommitted => n' == n.(vol := Some(MoveTo(v, t, Some(WDone))))
    case Committed =>
      && v.log.Some? && !v.log.value.poisoned && LatestSeq(v.log.value) + 1 < MAX_U64
      && var es := v.log.value.entries + [NextEntry(v.log.value, w, ts)];
      n' == n.(disk := n.disk.(journal := JournalFile(es, Clean)),
               vol := Some(MoveTo(v.(log := Some(v.log.value.(entries := es))), t, Some(WDone))))
    case Poisons(tail) =>
      && v.log.Some? && !v.log.value.poisoned && TailOf(v.log.value, w, tail)
      && n' == n.(disk := n.disk.(journal := n.disk.journal.(tail := tail)),
                  vol := Some(MoveTo(v.(log := Some(v.log.value.(poisoned := true))), t, Some(WDone))))
  }

  /** One turn of the loop in applyReplicationEntriesLocked. */
  ghost predicate EntryStep(n: Node, v: Volatile, t: nat, pc: Pc, ok: bool, n': Node)
    requires pc.Applying? && pc.i < |pc.batch|
  {
    var e := pc.batch[pc.i];
    if e.seqno <= pc.last then
      n' == n.(vol := Some(MoveTo(v, t, Some(pc.(i := pc.i + 1)))))
    else if e.seqno != WrapAdd(pc.last, 1) || e.op.OpOther? || !ok then
      n' == n.(vol := Some(MoveTo(v, t, Some(Finishing(pc.sync)))))
    else
      n' == n.(disk := n.disk.(data := Apply(n.disk.data, e)), high := if n.high < e.seqno then e.seqno else n.high,
               vol := Some(MoveTo(v.(lastApplied := e.seqno), t, Some(pc.(i := pc.i + 1, last := e.seqno)))))
  }

  /** stateStore.AdvanceTo at the end of a batch. */
  ghost predicate SaveStep(n: Node, v: Volatile, t: nat, pc: Pc, ok: bool, n': Node)
    requires pc.Applying?
  {
    var d := if pc.last > CursorValue(n.disk) && ok
             then n.disk.(cursor := Some(CursorFile(n.cfg.nodeID, n.cfg.primaryURL, pc.last)))
             else n.disk;
    n' == n.(disk := d, vol := Some(MoveTo(v, t, Some(Finishing(pc.sync)))))
  }

  ghost predicate EffectStep(n: Node, t: nat, a: EffectAct, n': Node) {
    && n.vol.Some? && t in n.vol.value.threads
    && var v := n.vol.value;
    var pc := v.threads[t];
    match a
    case Execute(ok) =>
      pc.WInside? && if ok then ExecuteStep(n, v, t, pc.w, WApplied(pc.w), n')
                     else n' == n.(vol := Some(MoveTo(v, t, Some(WDone))))
    case Explain =>
      // POST /explain/put and DELETE /explain/delete write to the engine and not to the journal.
      pc.WInside? && ExecuteStep(n, v, t, pc.w, WDone, n')
    case AppendEntry(ts, outcome) =>
      pc.WApplied? && AppendStep(n, v, t, pc.w, ts, outcome, n')
    case BatchEntry(ok) =>
      pc.Applying? && pc.i < |pc.batch| && EntryStep(n, v, t, pc, ok, n')
    case BatchSave(ok) =>
      pc.Applying? && pc.i == |pc.batch| && SaveStep(n, v, t, pc, ok, n')
  }

  // ---- quiesce ----

  datatype QuiesceAct = Begin(id: string) | SaveIntent(ok: bool) | CloseGate | ReadSeq | SaveRecord(ok: bool)
                      | Retry(ok: bool) | RemoveIntent(ok: bool) | Finish

  ghost predicate QuiesceStep(n: Node, a: QuiesceAct, n': Node) {
    && n.vol.Some?
    && var v := n.vol.value;
    match a
    case Begin(id) =>
      // A generated ID: hexadecimal digits, never empty.
      && v.qpc.QIdle? && v.role == RolePrimary && v.qstate.Active? && id != ""
      && n' == n.(vol := Some(v.(qpc := QHasId(id))))
    case SaveIntent(ok) =>
      && v.qpc.QHasId?
      && n' == if ok then n.(disk := n.disk.(intent := Some(Intent(v.qpc.id, n.cfg.nodeID, n.cfg.selfURL))),
                             vol := Some(v.(qpc := QIntent(v.qpc.id))))
               else n.(vol := Some(v.(qpc := QIdle)))
    case CloseGate =>
      // writeGate.Quiesce: exclusive, so every shared holder has left.
      && v.qpc.QIntent? && (forall t :: t in v.threads ==> !HoldsGate(v.threads[t]))
      && n' == n.(vol := Some(v.(gateClosed := true, qpc := QGated(v.qpc.id))))
    case ReadSeq =>
      && v.qpc.QGated? && v.log.Some? && LatestSeq(v.log.value) < U64_SIZE
      && var rec := QuiesceRecord(v.qpc.id, n.cfg.nodeID, n.cfg.selfURL, LatestSeq(v.log.value));
      n' == n.(vol := Some(v.(qpc := QSeq(rec))),
               missed := if n.disk.journal.tail.Whole? then n.missed + {rec} else n.missed)
    case SaveRecord(ok) =>
      && v.qpc.QSeq?
      && n' == if ok then n.(disk := n.disk.(record := Some(v.qpc.rec)), vol := Some(v.(qpc := QSaved(v.qpc.rec))))
               else n.(vol := Some(v.(qstate := FailedFenced(v.qpc.rec), qpc := QIdle)))
    case Retry(ok) =>
      && v.qpc.QIdle? && v.role == RolePrimary && v.qstate.FailedFenced?
      && n' == if ok then n.(disk := n.disk.(record := Some(v.qstate.pending)),
                             vol := Some(v.(qpc := QSaved(v.qstate.pending))))
               else n
    case RemoveIntent(ok) =>
      && v.qpc.QSaved?
      && n' == n.(disk := if ok then n.disk.(intent := None) else n.disk,
                  vol := Some(v.(qpc := QCleaned(v.qpc.rec))))
    case Finish =>
      && v.qpc.QCleaned?
      && n' == n.(vol := Some(v.(qstate := Quiesced(v.qpc.rec), qpc := QIdle)))
  }

  // ---- promotion ----

  datatype PromoteAct = PromoteBegin(qr: QuiesceRecord) | RaiseBarrier | Mark | Acquire | Validate
                      | Release | Revert | Reset

  datatype CommitAct = SaveBaseline(ok: bool) | SavePromotion(ok: bool) | OpenLog(ok: bool) | Switch

  /** validatePromotionPreconditions (the checksum, version and timestamp checks hold of any record
      this code wrote). */
  predicate PromotionRequestOk(cfg: Config, qr: QuiesceRecord) {
    qr.nodeID != "" && qr.url == cfg.primaryURL && qr.id != "" && qr.latestSeq != MAX_U64 && cfg.nodeID != ""
  }

  function PromotionOf(cfg: Config, qr: QuiesceRecord): PromotionRecord {
    PromotionRecord(cfg.nodeID, "primary", qr.nodeID, qr.url, qr.id, qr.latestSeq)
  }

  /** CreateJournalBaseline up to its save: no conflicting baseline, and a journal that opens and
      starts at base+1. */
  ghost predicate BaselineAcceptable(d: Disk, base: u64) {
    && base != MAX_U64
    && (d.baseline.Some? ==> d.baseline.value == base)
    && OpenJournal(BaseSeq(d), d.journal).Some?
    && var es := OpenJournal(BaseSeq(d), d.journal).value;
    es == [] || es[0].seqno == base + 1
  }

  /** handlePromote around the commit: barrier, exclusive lock, re-validation, release, revert. */
  ghost predicate PromoteStep(n: Node, a: PromoteAct, n': Node) {
    && n.vol.Some?
    && var v := n.vol.value;
    match a
    case PromoteBegin(qr) =>
      && v.ppc.PIdle? && v.promoted.NotPromoted? && v.role == RoleFollower && PromotionRequestOk(n.cfg, qr)
      && n' == AtPc(n, v, PValidated(qr))
    case RaiseBarrier =>
      v.ppc.PValidated? && n' == n.(vol := Some(v.(barrier := true, ppc := PBarrier(v.ppc.qr))))
    case Mark =>
      v.ppc.PBarrier? && n' == n.(vol := Some(v.(promoted := Promoting, ppc := PMarked(v.ppc.qr))))
    case Acquire =>
      && v.ppc.PMarked? && (forall t :: t in v.threads ==> !HoldsRepl(v.threads[t]))
      && n' == n.(vol := Some(v.(wlock := true, ppc := PLocked(v.ppc.qr))))
    case Validate =>
      && v.ppc.PLocked?
      && var s := v.ppc.qr.latestSeq;
      n' == AtPc(n, v, if v.role == RoleFollower && v.lastApplied == s && CursorValue(n.disk) == s
               then PChecked(v.ppc.qr) else PFailed)
    case Release =>
      && (v.ppc.PSwitched? || v.ppc.PFailed? || v.ppc.PStuck?)
      && n' == n.(vol := Some(v.(wlock := false, ppc := if v.ppc.PSwitched? then PIdle else PReverting)))
    case Revert =>
      && v.ppc.PReverting?
      && n' == if n.disk.promotion.Some? then AtPc(n, v, PIdle)
               else n.(vol := Some(v.(barrier := false, ppc := PResetting)))
    case Reset =>
      v.ppc.PResetting? && n' == n.(vol := Some(v.(promoted := NotPromoted, ppc := PIdle)))
  }

  /** executePromotion, with the exclusive lock held. */
  ghost predicate CommitStep(n: Node, a: CommitAct, n': Node) {
    && n.vol.Some?
    && var v := n.vol.value;
    match a
    case SaveBaseline(ok) =>
      && v.ppc.PChecked?
      && var s := v.ppc.qr.latestSeq;
      n' == if ok && BaselineAcceptable(n.disk, s)
            then AtPc(n, v, PBaselined(v.ppc.qr)).(disk := n.disk.(baseline := Some(s)))
            else AtPc(n, v, PFailed)
    case SavePromotion(ok) =>
      && v.ppc.PBaselined?
      && var rec := PromotionOf(n.cfg, v.ppc.qr);
      n' == if ok then AtPc(n, v, PCommitted(rec)).(disk := n.disk.(promotion := Some(rec))) else AtPc(n, v, PFailed)
    case OpenLog(ok) =>
      && v.ppc.PCommitted?
      && var log := OpenJournal(BaseSeq(n.disk), n.disk.journal);
      n' == if ok && log.Some?
            then AtPc(n, v, POpened(v.ppc.rec, log.value)).(disk := n.disk.(journal := JournalFile(log.value, Clean)))
            else AtPc(n, v, PStuck)
    case Switch =>
      && v.ppc.POpened?
      && n' == n.(vol := Some(v.(role := RolePrimary, promoted := Promoted(v.ppc.rec),
                                 log := Some(LogState(BaseSeq(n.disk), v.ppc.es, false)),
                                 gateClosed := false, qstate := Active, ppc := PSwitched)))
  }

  // ---- crash and startup ----

  function LoadCursor(d: Disk, nodeID: string, url: string): Option<u64> {
    if d.cursor.None? then Some(0)
    else if d.cursor.value.nodeID != nodeID || d.cursor.value.primaryURL != url then None
    else Some(d.cursor.value.lastApplied)
  }

  /** The cross-checks a promotion record has to pass in resolveRuntimeRole. */
  predicate PromotionConsistent(cfg: Config, d: Disk, rec: PromotionRecord) {
    && rec.nodeID == cfg.nodeID && rec.newRole == "primary" && rec.sourceNodeID != "" && rec.sourceURL != ""
    && rec.quiesceID != "" && rec.inheritedSeq != MAX_U64
    && d.baseline == Some(rec.inheritedSeq)
    && var cursor := LoadCursor(d, rec.nodeID, rec.sourceURL);
    cursor.Some? && (rec.inheritedSeq > 0 ==> cursor.value == rec.inheritedSeq)
  }

  function Process(role: Role, promoted: PromotionState, log: Option<LogState>, qstate: QuiesceState,
                   lastApplied: u64): Volatile
  {
    Volatile(role, promoted, log, !qstate.Active?, qstate, QIdle, lastApplied, false, false, false, PIdle, map[])
  }

  /** The quiesce state resolveRuntimeRole rebuilds from the intent and record files; None is the
      mismatched-ID startup error. */
  function RestoredQuiesce(d: Disk, latest: u64): Option<QuiesceState> {
    match (d.intent, d.record)
    case (None, None) => Some(Active)
    case (None, Some(r)) => Some(Quiesced(r))
    case (Some(i), None) => Some(FailedFenced(QuiesceRecord(i.id, i.nodeID, i.url, latest)))
    case (Some(i), Some(r)) => if i.id == r.id then Some(Quiesced(r)) else None
  }

  /** resolveRuntimeRole and Open: the disk and process after a successful start. */
  ghost function Start(cfg: Config, d: Disk): Option<(Disk, Volatile)> {
    if d.promotion.Some? then
      var rec := d.promotion.value;
      var es := OpenJournal(BaseSeq(d), d.journal);
      if !PromotionConsistent(cfg, d, rec) || es.None? then None
      else Some((d.(journal := JournalFile(es.value, Clean)),
                 Process(RolePrimary, Promoted(rec), Some(LogState(BaseSeq(d), es.value, false)), Active, 0)))
    else match cfg.role
      case RoleFollower =>
        var cursor := LoadCursor(d, cfg.nodeID, cfg.primaryURL);
        if cursor.None? then None else Some((d, Process(RoleFollower, NotPromoted, None, Active, cursor.value)))
      case RoleStandalone =>
        Some((d, Process(RoleStandalone, NotPromoted, None, Active, 0)))
      case RolePrimary =>
        var es := OpenJournal(BaseSeq(d), d.journal);
        if es.None? then None else
        var q := RestoredQuiesce(d, BaseSeq(d) + |es.value|);
        if q.None? then None
        else Some((d.(journal := JournalFile(es.value, Clean), intent := if d.record.Some? then None else d.intent),
                   Process(RolePrimary, NotPromoted, Some(LogState(BaseSeq(d), es.value, false)), q.value, 0)))
  }

  datatype ProcessAct = Crash(tail: Tail) | StartUp | CleanIntent

  ghost predicate ProcessStep(n: Node, a: ProcessAct, n': Node) {
    match a
    case Crash(tail) =>
      // An append in flight may leave part of its record, or all of it.
      && n.vol.Some?
      && var v := n.vol.value;
      && (|| tail == n.disk.journal.tail
          || (v.log.Some? && !v.log.value.poisoned
              && exists t :: t in v.threads && v.threads[t].WApplied? && TailOf(v.log.value, v.threads[t].w, tail)))
      && n' == n.(vol := None, disk := n.disk.(journal := n.disk.journal.(tail := tail)))
    case StartUp =>
      && n.vol.None? && Start(n.cfg, n.disk).Some?
      && n' == n.(disk := Start(n.cfg, n.disk).value.0, vol := Some(Start(n.cfg, n.disk).value.1))
    case CleanIntent =>
      // A start that removed the stale intent and then failed.
      && n.vol.None? && n.cfg.role == RolePrimary && n.disk.promotion.None?
      && n.disk.intent.Some? && n.disk.record.Some? && n.disk.intent.value.id == n.disk.record.value.id
      && n' == n.(disk := n.disk.(intent := None))
  }

  // ---- all steps ----

  datatype Act = AThread(t: nat, m: ThreadAct) | AEffect(u: nat, e: EffectAct) | AQuiesce(q: QuiesceAct)
               | APromote(p: PromoteAct) | ACommit(c: CommitAct) | AProcess(x: ProcessAct)

  ghost predicate Step(n: Node, a: Act, n': Node) {
    match a
    case AThread(t, m) => ThreadStep(n, t, m, n')
    case AEffect(t, e) => EffectStep(n, t, e, n')
    case AQuiesce(q) => QuiesceStep(n, q, n')
    case APromote(p) => PromoteStep(n, p, n')
    case ACommit(c) => CommitStep(n, c, n')
    case AProcess(x) => ProcessStep(n, x, n')
  }

  /** The node can take a client write now, or is in the middle of one. */
  ghost predicate AcceptsWrites(n: Node) {
    && n.vol.Some?
    && var v := n.vol.value;
    (v.role != RoleFollower && !v.gateClosed)
    || exists t :: t in v.threads && (v.threads[t].WInside? || v.threads[t].WApplied?)
  }
}
