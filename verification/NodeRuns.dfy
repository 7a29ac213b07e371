/** Whole runs of one node, from an empty data directory through any interleaving of requests,
    crashes and restarts. */
module NodeRuns {
  import opened Bytes
  import opened Journal
  import opened Replication
  import opened Node
  import opened NodeInvariants

  datatype Run = Run(states: seq<Node>, acts: seq<Act>)

  ghost predicate IsRun(r: Run) {
    && |r.states| == |r.acts| + 1
    && Init(r.states[0])
    && forall i :: 0 <= i < |r.acts| ==> Step(r.states[i], r.acts[i], r.states[i + 1])
  }

  lemma {:induction false} RunInv(r: Run, i: nat)
    requires IsRun(r) && i < |r.states|
    ensures Inv(r.states[i]) && r.states[i].cfg == r.states[0].cfg
  {
    hide Inv, Step;
    if i == 0 {
      InitKeeps(r.states[0]);
    } else {
      RunInv(r, i - 1);
      StepKeeps(r.states[i - 1], r.acts[i - 1], r.states[i]);
      StepConfig(r.states[i - 1], r.acts[i - 1], r.states[i]);
    }
  }

  lemma StepConfig(n: Node, a: Act, n': Node)
    requires Step(n, a, n')
    ensures n'.cfg == n.cfg
  {
    if a.AQuiesce? { QuiesceFrame(n, a.q, n'); }
    if a.APromote? { PromoteFrame(n, a.p, n'); }
    hide QuiesceStep, PromoteStep, Start;
  }

  // ---- exclusion between promotion and replication ----

  /** A replicated entry reaches the engine, or the cursor is saved. */
  predicate Replicates(a: Act) { a.AEffect? && (a.e.BatchEntry? || a.e.BatchSave?) }

  /** Replication runs only on a follower without a promotion record, never while promotion holds the
      exclusive lock: so never between the locked re-validation and the role switch. */
  lemma ReplicationExcluded(n: Node, a: Act, n': Node)
    requires Inv(n) && Step(n, a, n') && Replicates(a)
    ensures n.vol.value.role == RoleFollower && !LockedPc(n.vol.value.ppc) && n.disk.promotion.None?
    ensures n'.disk.promotion.None? && n'.vol.value.ppc == n.vol.value.ppc
  {
    ThreadAt(n, a.u);
    BatchIsFree(n, n.vol.value, n.vol.value.threads[a.u]);
    hide ThreadsOk, RolesOk, PromotionOk, JournalOk, QuiesceOk;
  }

  /** The promotion record is never replaced or removed, and the cursor and baseline under it are frozen. */
  lemma PromotionStable(n: Node, a: Act, n': Node)
    requires Inv(n) && Step(n, a, n') && n.disk.promotion.Some?
    ensures n'.disk.promotion == n.disk.promotion && n'.disk.cursor == n.disk.cursor
            && n'.disk.baseline == n.disk.baseline
    ensures !Replicates(a)
  {
    if Replicates(a) { ReplicationExcluded(n, a, n'); }
    match a
    case AThread(t, m) =>
    case AEffect(t, e) =>
    case AQuiesce(q) => QuiesceFrame(n, q, n');
    case APromote(p) => PromoteFrame(n, p, n');
    case ACommit(c) => CommitOnce(n, c, n');
    case AProcess(x) =>
  }

  lemma CommitOnce(n: Node, c: CommitAct, n': Node)
    requires CoreOk(n) && CommitStep(n, c, n') && n.disk.promotion.Some?
    ensures n'.disk.promotion == n.disk.promotion && n'.disk.cursor == n.disk.cursor
            && n'.disk.baseline == n.disk.baseline
  {
    hide Contiguous, LocksOk, RolesOk, JournalOk, QuiesceOk;
  }

  /** Once promotion is committed, no replicated entry is ever applied again, in this process or any later one. */
  lemma {:induction false} NoReplicationAfterPromotion(r: Run, i: nat, j: nat)
    requires IsRun(r) && i <= j < |r.states| && r.states[i].disk.promotion.Some?
    ensures r.states[j].disk.promotion == r.states[i].disk.promotion
            && r.states[j].disk.cursor == r.states[i].disk.cursor
    ensures j < |r.acts| ==> !Replicates(r.acts[j])
    decreases j
  {
    hide Inv, Step;
    if i < j {
      NoReplicationAfterPromotion(r, i, j - 1);
      RunInv(r, j - 1);
      PromotionStable(r.states[j - 1], r.acts[j - 1], r.states[j]);
    }
    if j < |r.acts| {
      RunInv(r, j);
      PromotionStable(r.states[j], r.acts[j], r.states[j + 1]);
    }
  }

  // ---- quiesce stability ----

  /** One step of a configured primary never lifts, renames or rewrites its durable fence, and never
      reopens its gate. */
  lemma FenceStable(n: Node, a: Act, n': Node)
    requires Inv(n) && Step(n, a, n') && n.cfg.role == RolePrimary && Fenced(n.disk)
    ensures Fenced(n'.disk) && FenceID(n'.disk) == FenceID(n.disk)
    ensures n.disk.record.Some? ==> n'.disk.record == n.disk.record
    ensures n'.vol.Some? && (n.vol.None? || n.vol.value.gateClosed) ==> n'.vol.value.gateClosed
  {
    match a
    case AThread(t, m) =>
    case AEffect(t, e) =>
    case AQuiesce(q) => FenceStableQuiesce(n, q, n');
    case APromote(p) => PromoteFrame(n, p, n');
    case ACommit(c) => PrimaryNeverCommits(n, c, n');
    case AProcess(x) => FenceStableProcess(n, x, n');
  }

  lemma FenceStableQuiesce(n: Node, q: QuiesceAct, n': Node)
    requires CoreOk(n) && QuiesceStep(n, q, n') && n.cfg.role == RolePrimary && Fenced(n.disk)
    ensures Fenced(n'.disk) && FenceID(n'.disk) == FenceID(n.disk)
    ensures n.disk.record.Some? ==> n'.disk.record == n.disk.record
    ensures n.vol.value.gateClosed ==> n'.vol.value.gateClosed
  {
    hide LocksOk, RolesOk, PromotionOk, JournalOk;
  }

  lemma FenceStableProcess(n: Node, x: ProcessAct, n': Node)
    requires CoreOk(n) && ProcessStep(n, x, n') && n.cfg.role == RolePrimary && Fenced(n.disk)
    ensures Fenced(n'.disk) && FenceID(n'.disk) == FenceID(n.disk)
    ensures n.disk.record.Some? ==> n'.disk.record == n.disk.record
    ensures n'.vol.Some? ==> n'.vol.value.gateClosed
  {
    hide Contiguous, OpenJournal, LocksOk, PromotionOk, JournalOk;
  }

  lemma PrimaryNeverCommits(n: Node, c: CommitAct, n': Node)
    requires CoreOk(n) && CommitStep(n, c, n')
    ensures n.cfg.role != RolePrimary
  {
    hide Contiguous, PromotionOk, JournalOk, QuiesceOk;
  }

  /** Behind a closed fence nothing moves the journal's latest sequence: a start that adopts a whole
      unacknowledged record only moves it from the tail into the entries. */
  lemma FencedLatestStill(n: Node, a: Act, n': Node)
    requires Inv(n) && Step(n, a, n') && n.cfg.role == RolePrimary && FencedNow(n)
    ensures FencedNow(n') && DiskLatest(n'.disk) == DiskLatest(n.disk)
    ensures n.disk.journal.entries <= n'.disk.journal.entries
    ensures !n.disk.journal.tail.Whole? ==>
              n'.disk.journal.entries == n.disk.journal.entries && !n'.disk.journal.tail.Whole?
  {
    FenceStable(n, a, n');
    match a
    case AThread(t, m) =>
    case AEffect(t, e) => ThreadAt(n, t);
    case AQuiesce(q) => QuiesceFrame(n, q, n');
    case APromote(p) => PromoteFrame(n, p, n');
    case ACommit(c) => PrimaryNeverCommits(n, c, n');
    case AProcess(x) => FencedProcessStill(n, x, n');
  }

  lemma FencedProcessStill(n: Node, x: ProcessAct, n': Node)
    requires Inv(n) && ProcessStep(n, x, n') && n.cfg.role == RolePrimary && FencedNow(n)
    ensures DiskLatest(n'.disk) == DiskLatest(n.disk) && n.disk.journal.entries <= n'.disk.journal.entries
    ensures !n.disk.journal.tail.Whole? ==>
              n'.disk.journal.entries == n.disk.journal.entries && !n'.disk.journal.tail.Whole?
  {
    hide Contiguous, LocksOk, PromotionOk, QuiesceOk;
    if x.Crash? && n.vol.Some? {
      forall t | t in n.vol.value.threads ensures !n.vol.value.threads[t].WApplied? { ThreadAt(n, t); }
    }
  }

  /** The step that reads the sequence: it misses a whole unacknowledged record exactly when one is there. */
  lemma ReadSeqIff(n: Node, n': Node)
    requires Inv(n) && Step(n, AQuiesce(ReadSeq), n') && n.cfg.role == RolePrimary
    ensures n'.vol.Some? && n'.vol.value.qpc.QSeq? && FencedNow(n')
    ensures n'.vol.value.qpc.rec.latestSeq == DiskLatest(n'.disk) <==> !n.disk.journal.tail.Whole?
    ensures DiskLatest(n'.disk) == DiskLatest(n.disk)
  {
    hide LocksOk, RolesOk, PromotionOk, ThreadsOk, QuiesceFilesOk, MissedOk;
  }

  /** Step i of the run read the sequence into rec while a whole unacknowledged record lay in the file. */
  ghost predicate ReadOverOrphan(r: Run, i: nat, rec: QuiesceRecord)
    requires IsRun(r) && i < |r.acts|
  {
    && r.acts[i] == AQuiesce(ReadSeq) && r.states[i].disk.journal.tail.Whole?
    && r.states[i + 1].vol.Some? && r.states[i + 1].vol.value.qpc == QSeq(rec)
  }

  lemma MissedAt(r: Run, j: nat, rec: QuiesceRecord)
    requires IsRun(r) && 0 < j < |r.states|
    ensures rec in r.states[j].missed <==> rec in r.states[j - 1].missed || ReadOverOrphan(r, j - 1, rec)
  {
    assert Step(r.states[j - 1], r.acts[j - 1], r.states[j]);
    hide Step, IsRun;
    MissedStep(r.states[j - 1], r.acts[j - 1], r.states[j]);
  }

  /** The history variable says just that. */
  lemma {:induction false} MissedIff(r: Run, j: nat, rec: QuiesceRecord)
    requires IsRun(r) && j < |r.states|
    ensures rec in r.states[j].missed <==> exists i :: 0 <= i < j && ReadOverOrphan(r, i, rec)
  {
    hide Step, ReadOverOrphan;
    if j > 0 {
      MissedIff(r, j - 1, rec);
      MissedAt(r, j, rec);
    }
  }

  lemma MissedStep(n: Node, a: Act, n': Node)
    requires Step(n, a, n')
    ensures if a == AQuiesce(ReadSeq) && n.disk.journal.tail.Whole?
            then n'.vol.Some? && n'.vol.value.qpc.QSeq? && n'.missed == n.missed + {n'.vol.value.qpc.rec}
            else n'.missed == n.missed
  {
    if a.APromote? { PromoteFrame(n, a.p, n'); }
    hide PromoteStep, Start;
  }

  /** Whenever step i reads the sequence, the record it builds says the journal's latest sequence in
      every later state if and only if no whole unacknowledged record lay in the file at that step. */
  lemma {:induction false} SequenceReadIff(r: Run, i: nat, j: nat)
    requires IsRun(r) && i < j < |r.states| && r.states[0].cfg.role == RolePrimary && r.acts[i] == AQuiesce(ReadSeq)
    ensures r.states[i + 1].vol.Some? && r.states[i + 1].vol.value.qpc.QSeq? && FencedNow(r.states[j])
    ensures r.states[i + 1].vol.value.qpc.rec.latestSeq == DiskLatest(r.states[j].disk)
        <==> !r.states[i].disk.journal.tail.Whole?
    ensures DiskLatest(r.states[j].disk) == DiskLatest(r.states[i].disk)
    decreases j
  {
    hide Inv, Step;
    if j == i + 1 {
      RunInv(r, i);
      ReadSeqIff(r.states[i], r.states[j]);
    } else {
      SequenceReadIff(r, i, j - 1);
      RunInv(r, j - 1);
      FencedLatestStill(r.states[j - 1], r.acts[j - 1], r.states[j]);
    }
  }

  /** Over any run of a configured primary: once the intent is durable the quiesce ID never changes;
      once the record is durable it never changes, and its sequence is the journal's latest in every
      later state if and only if it was not read over a whole unacknowledged record; and no start ever
      meets mismatched IDs. */
  lemma {:induction false} QuiesceStability(r: Run, i: nat, j: nat)
    requires IsRun(r) && i <= j < |r.states| && r.states[0].cfg.role == RolePrimary && Fenced(r.states[i].disk)
    ensures Fenced(r.states[j].disk) && FenceID(r.states[j].disk) == FenceID(r.states[i].disk)
    ensures r.states[i].disk.record.Some? ==> r.states[j].disk.record == r.states[i].disk.record
    ensures r.states[i].disk.record.Some? ==>
              (r.states[i].disk.record.value.latestSeq == DiskLatest(r.states[j].disk)
               <==> !exists s :: 0 <= s < j && ReadOverOrphan(r, s, r.states[i].disk.record.value))
    ensures forall latest :: RestoredQuiesce(r.states[j].disk, latest).Some?
    decreases j
  {
    hide Inv, Step, ReadOverOrphan;
    RunInv(r, j);
    if i < j {
      QuiesceStability(r, i, j - 1);
      RunInv(r, j - 1);
      FenceStable(r.states[j - 1], r.acts[j - 1], r.states[j]);
    }
    RecordIsCurrent(r.states[j]);
    if r.states[i].disk.record.Some? { MissedIff(r, j, r.states[i].disk.record.value); }
  }

  lemma RecordIsCurrent(n: Node)
    requires Inv(n) && n.cfg.role == RolePrimary
    ensures n.disk.record.Some? ==>
              (n.disk.record.value.latestSeq == DiskLatest(n.disk) <==> n.disk.record.value !in n.missed)
    ensures forall latest :: RestoredQuiesce(n.disk, latest).Some?
  {
    hide LocksOk, RolesOk, PromotionOk, JournalOk, ThreadsOk, QuiescingOk;
  }

  // ---- whose record it is ----

  /** The record names this node and its address. */
  ghost predicate OwnRecord(cfg: Config, rec: QuiesceRecord) {
    rec.id != "" && rec.nodeID == cfg.nodeID && rec.url == cfg.selfURL
  }

  ghost predicate OwnFiles(cfg: Config, d: Disk) {
    && (d.intent.Some? ==>
          d.intent.value.id != "" && d.intent.value.nodeID == cfg.nodeID && d.intent.value.url == cfg.selfURL)
    && (d.record.Some? ==> OwnRecord(cfg, d.record.value))
  }

  ghost predicate OwnProcess(cfg: Config, v: Volatile) {
    && (match v.qstate
        case Active => true
        case FailedFenced(pending) => OwnRecord(cfg, pending)
        case Quiesced(rec) => OwnRecord(cfg, rec))
    && (match v.qpc
        case QIdle => true
        case QHasId(id) => id != ""
        case QIntent(id) => id != ""
        case QGated(id) => id != ""
        case QSeq(rec) => OwnRecord(cfg, rec)
        case QSaved(rec) => OwnRecord(cfg, rec)
        case QCleaned(rec) => OwnRecord(cfg, rec))
  }

  /** Every intent and every record, saved, pending or in the making, names the node that made it. */
  ghost predicate Own(n: Node) {
    OwnFiles(n.cfg, n.disk) && (n.vol.Some? ==> OwnProcess(n.cfg, n.vol.value))
  }

  /** Steps outside the quiesce handler leave its files and its state alone. */
  ghost predicate SameFence(n: Node, n': Node) {
    && n'.cfg == n.cfg && n'.disk.intent == n.disk.intent && n'.disk.record == n.disk.record
    && n.vol.Some? && n'.vol.Some?
    && n'.vol.value.qpc == n.vol.value.qpc
    && (n'.vol.value.qstate == n.vol.value.qstate || n'.vol.value.qstate.Active?)
  }

  lemma OwnStep(n: Node, a: Act, n': Node)
    requires Own(n) && Step(n, a, n')
    ensures Own(n')
  {
    hide Own, ThreadStep, EffectStep, QuiesceStep, PromoteStep, CommitStep, ProcessStep;
    match a
    case AThread(t, m) => FenceThread(n, t, m, n'); OwnSame(n, n');
    case AEffect(t, e) => FenceEffect(n, t, e, n'); OwnSame(n, n');
    case AQuiesce(q) => OwnQuiesce(n, q, n');
    case APromote(p) => FencePromote(n, p, n'); OwnSame(n, n');
    case ACommit(c) => FenceCommit(n, c, n'); OwnSame(n, n');
    case AProcess(x) => OwnProcessStep(n, x, n');
  }

  lemma OwnSame(n: Node, n': Node)
    requires Own(n) && SameFence(n, n')
    ensures Own(n')
  {
  }

  lemma FenceThread(n: Node, t: nat, m: ThreadAct, n': Node)
    requires ThreadStep(n, t, m, n')
    ensures SameFence(n, n')
  {
    hide ThreadMove;
  }

  lemma FenceEffect(n: Node, t: nat, e: EffectAct, n': Node)
    requires EffectStep(n, t, e, n')
    ensures SameFence(n, n')
  {
    hide TailOf, Apply;
  }

  lemma FencePromote(n: Node, p: PromoteAct, n': Node)
    requires PromoteStep(n, p, n')
    ensures SameFence(n, n')
  {
  }

  lemma FenceCommit(n: Node, c: CommitAct, n': Node)
    requires CommitStep(n, c, n')
    ensures SameFence(n, n')
  {
    hide OpenJournal, BaselineAcceptable;
  }

  lemma OwnProcessStep(n: Node, x: ProcessAct, n': Node)
    requires Own(n) && ProcessStep(n, x, n')
    ensures Own(n')
  {
    hide OpenJournal, PromotionConsistent, TailOf;
  }

  lemma OwnQuiesce(n: Node, q: QuiesceAct, n': Node)
    requires Own(n) && QuiesceStep(n, q, n')
    ensures Own(n')
  {
  }

  /** In every state of every run, whatever crashed in between. */
  lemma {:induction false} OwnRun(r: Run, i: nat)
    requires IsRun(r) && i < |r.states|
    ensures Own(r.states[i]) && r.states[i].cfg == r.states[0].cfg
  {
    hide Own, Step;
    if i == 0 {
      OwnInit(r.states[0]);
    } else {
      OwnRun(r, i - 1);
      OwnStep(r.states[i - 1], r.acts[i - 1], r.states[i]);
      StepConfig(r.states[i - 1], r.acts[i - 1], r.states[i]);
    }
  }

  lemma OwnInit(n: Node)
    requires Init(n)
    ensures Own(n)
  {
  }

  /** A start of a configured primary restores exactly the fence the files tell of: with only an intent,
      the pending record has its ID, this node's name and address, and the journal's latest sequence. */
  lemma FenceRestored(r: Run, i: nat)
    requires IsRun(r) && i < |r.states| && r.states[0].cfg.role == RolePrimary
    requires Start(r.states[i].cfg, r.states[i].disk).Some?
    ensures var n := r.states[i];
            var (d, v) := Start(n.cfg, n.disk).value;
            && (n.disk.record.Some? ==> v.qstate == Quiesced(n.disk.record.value) && d.intent.None?)
            && (n.disk.record.None? && n.disk.intent.Some? ==>
                  && v.qstate.FailedFenced? && d.intent == n.disk.intent
                  && var p := v.qstate.pending;
                  && p.id == n.disk.intent.value.id && p.nodeID == n.cfg.nodeID && p.url == n.cfg.selfURL
                  && p.latestSeq == DiskLatest(n.disk))
            && (n.disk.record.None? && n.disk.intent.None? ==> v.qstate.Active?)
            && d.record == n.disk.record && d.data == n.disk.data
  {
    OwnRun(r, i);
    RunInv(r, i);
    hide IsRun, Step, LocksOk, PromotionOk, ThreadsOk, Contiguous;
  }

  /** A failed save of the intent ends the handler with nothing changed. */
  lemma IntentNotSaved(n: Node, n': Node)
    requires Step(n, AQuiesce(SaveIntent(false)), n')
    ensures n.vol.Some? && n' == n.(vol := Some(n.vol.value.(qpc := QIdle)))
  {
  }

  /** A failed save of the record ends it with the node fenced and the record kept, and a retry can save that
      very record. */
  lemma RecordNotSaved(n: Node, n': Node) returns (m: Node)
    requires Inv(n) && n.cfg.role == RolePrimary && Step(n, AQuiesce(SaveRecord(false)), n')
    ensures n.vol.Some? && n.vol.value.qpc.QSeq? && n'.disk == n.disk && FencedNow(n')
    ensures Step(n', AQuiesce(Retry(true)), m) && m.disk == n.disk.(record := Some(n.vol.value.qpc.rec))
  {
    hide LocksOk, PromotionOk, JournalOk, ThreadsOk;
    var v := n'.vol.value;
    m := n'.(disk := n'.disk.(record := Some(v.qstate.pending)), vol := Some(v.(qpc := QSaved(v.qstate.pending))));
  }

  /** Once the gate of a configured primary is closed, every later process that runs has it closed. */
  lemma {:induction false} FenceForever(r: Run, i: nat, j: nat)
    requires IsRun(r) && i <= j < |r.states| && r.states[0].cfg.role == RolePrimary
    requires r.states[i].vol.Some? && r.states[i].vol.value.gateClosed
    ensures Fenced(r.states[j].disk)
    ensures r.states[j].vol.Some? ==> r.states[j].vol.value.gateClosed
    ensures !AcceptsWrites(r.states[j])
    decreases j
  {
    if i < j {
      hide Inv, Step, AcceptsWrites;
      FenceForever(r, i, j - 1);
      RunInv(r, j - 1);
      FenceStable(r.states[j - 1], r.acts[j - 1], r.states[j]);
    }
    RunInv(r, j);
    ClosedMeansClosed(r.states[j]);
  }

  lemma ClosedMeansClosed(n: Node)
    requires Inv(n) && n.cfg.role == RolePrimary
    ensures n.vol.Some? && n.vol.value.gateClosed ==> Fenced(n.disk) && !AcceptsWrites(n)
  {
    hide LocksOk, RolesOk, PromotionOk, JournalOk;
  }

  /** In any run, a restart of a fenced node as primary keeps writes out if and only if there is no
      promotion record: a promoted primary's start returns before it looks at the quiesce files. */
  lemma FenceSurvivesRestartIff(r: Run, i: nat)
    requires IsRun(r) && i < |r.acts| && r.acts[i] == AProcess(StartUp) && Fenced(r.states[i].disk)
    requires r.states[i + 1].vol.value.role == RolePrimary
    ensures r.states[i + 1].vol.value.gateClosed <==> r.states[i].disk.promotion.None?
    ensures AcceptsWrites(r.states[i + 1]) <==> r.states[i].disk.promotion.Some?
    ensures Fenced(r.states[i + 1].disk)
  {
    var n, n' := r.states[i], r.states[i + 1];
    assert ProcessStep(n, StartUp, n');
    hide IsRun, OpenJournal;
    assert n'.vol.value.threads == map[];
  }

  // ---- startup accepts the states this code leaves ----

  predicate FourByteTear(f: JournalFile) { f.tail.Torn? && f.tail.length == 4 }

  /** In every reachable state with a promotion record all cross-checks of resolveRuntimeRole pass; the
      node starts as primary, numbering from its inherited sequence, unless its own journal was torn
      after exactly the four length bytes. */
  lemma PromotedStartAccepted(r: Run, i: nat)
    requires IsRun(r) && i < |r.states| && r.states[i].disk.promotion.Some?
    ensures var n := r.states[i];
            var rec := n.disk.promotion.value;
            && PromotionConsistent(n.cfg, n.disk, rec)
            && (Start(n.cfg, n.disk).Some? <==> !FourByteTear(n.disk.journal))
            && (Start(n.cfg, n.disk).Some? ==>
                  var v := Start(n.cfg, n.disk).value.1;
                  && v.role == RolePrimary && v.promoted == Promoted(rec) && v.log.Some? && !v.gateClosed
                  && v.log.value.base == rec.inheritedSeq && Contiguous(rec.inheritedSeq, v.log.value.entries)
                  && n.disk.journal.entries <= v.log.value.entries
                  && LatestSeq(v.log.value) == DiskLatest(n.disk))
  {
    RunInv(r, i);
    hide IsRun, Step, LocksOk, QuiesceOk, ThreadsOk, Contiguous;
  }

  /** Without a promotion record, a baseline or not, a follower restarts as a follower at its cursor. */
  lemma UnpromotedStartsAsFollower(r: Run, i: nat)
    requires IsRun(r) && i < |r.states| && r.states[0].cfg.role == RoleFollower && r.states[i].disk.promotion.None?
    ensures var n := r.states[i];
            && Start(n.cfg, n.disk).Some?
            && Start(n.cfg, n.disk).value.1.role == RoleFollower
            && Start(n.cfg, n.disk).value.1.lastApplied == CursorValue(n.disk)
  {
    RunInv(r, i);
    hide IsRun, Step, LocksOk, QuiesceOk, ThreadsOk, JournalOk;
  }

  /** A configured primary always restarts, except after the same four-byte tear. */
  lemma PrimaryStartAccepted(r: Run, i: nat)
    requires IsRun(r) && i < |r.states| && r.states[0].cfg.role == RolePrimary
    ensures var n := r.states[i];
            && (Start(n.cfg, n.disk).Some? <==> !FourByteTear(n.disk.journal))
            && (Start(n.cfg, n.disk).Some? ==>
                  var v := Start(n.cfg, n.disk).value.1;
                  && v.role == RolePrimary && v.log.Some? && LatestSeq(v.log.value) == DiskLatest(n.disk)
                  && (v.gateClosed <==> Fenced(n.disk)))
  {
    RunInv(r, i);
    hide IsRun, Step, LocksOk, PromotionOk, ThreadsOk, Contiguous;
  }
}
