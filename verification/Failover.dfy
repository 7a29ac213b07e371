/** Controlled failover: a configured primary and a fresh follower, every interleaving of their steps,
    crashes and restarts. The only outside assumption is the operator's: promotion is requested with a
    quiesce record that this primary showed. */
module Failover {
  import opened Bytes
  import opened Journal
  import opened Replication
  import opened Node
  import opened NodeInvariants
  import opened NodeRuns

  datatype System = System(p: Node, f: Node, issued: set<QuiesceRecord>)

  datatype SysAct = PAct(pa: Act) | FAct(fa: Act) | Publish(qr: QuiesceRecord)

  ghost predicate SysInit(s: System) {
    Init(s.p) && Init(s.f) && s.p.cfg.role == RolePrimary && s.f.cfg.role == RoleFollower && s.issued == {}
  }

  /** A record the operator can see: the saved file, or the pending one in the status report. */
  ghost predicate Shown(p: Node, qr: QuiesceRecord) {
    p.disk.record == Some(qr) || (p.vol.Some? && p.vol.value.qstate == FailedFenced(qr))
  }

  ghost predicate Next(s: System, a: SysAct, s': System) {
    match a
    case PAct(pa) => Step(s.p, pa, s'.p) && s' == s.(p := s'.p)
    case FAct(fa) => Step(s.f, fa, s'.f) && s' == s.(f := s'.f)
                     && (fa.APromote? && fa.p.PromoteBegin? ==> fa.p.qr in s.issued)
    case Publish(qr) => Shown(s.p, qr) && s' == s.(issued := s.issued + {qr})
  }

  datatype SysRun = SysRun(states: seq<System>, acts: seq<SysAct>)

  ghost predicate IsSysRun(r: SysRun) {
    && |r.states| == |r.acts| + 1
    && SysInit(r.states[0])
    && forall i :: 0 <= i < |r.acts| ==> Next(r.states[i], r.acts[i], r.states[i + 1])
  }

  // ---- single writer ----

  /** The quiesce record a promotion in progress was requested with. */
  function RequestOf(pc: PromotePc): Option<QuiesceRecord> {
    match pc
    case PValidated(qr) => Some(qr)
    case PBarrier(qr) => Some(qr)
    case PMarked(qr) => Some(qr)
    case PLocked(qr) => Some(qr)
    case PChecked(qr) => Some(qr)
    case PBaselined(qr) => Some(qr)
    case _ => None
  }

  ghost predicate CarriesIssued(v: Volatile, issued: set<QuiesceRecord>) {
    RequestOf(v.ppc).Some? ==> RequestOf(v.ppc).value in issued
  }

  ghost predicate SysInv(s: System) {
    && Inv(s.p) && Inv(s.f) && s.p.cfg.role == RolePrimary && s.f.cfg.role == RoleFollower
    && (s.issued != {} ==> FencedNow(s.p))
    && (forall qr :: qr in s.issued ==> Agreed(s.p, qr))
    && (s.f.vol.Some? ==> CarriesIssued(s.f.vol.value, s.issued))
    && (s.f.disk.promotion.Some? ==>
          exists qr :: qr in s.issued && s.f.disk.promotion.value == PromotionOf(s.f.cfg, qr))
  }

  lemma ShownIsFenced(p: Node, qr: QuiesceRecord)
    requires Inv(p) && p.cfg.role == RolePrimary && Shown(p, qr)
    ensures FencedNow(p) && Agreed(p, qr)
  {
    hide LocksOk, RolesOk, PromotionOk, JournalOk, ThreadsOk;
  }

  /** What a shown record says of the journal stays as true as it was when its sequence was read. */
  lemma AgreedStep(n: Node, a: Act, n': Node, qr: QuiesceRecord)
    requires Inv(n) && Step(n, a, n') && n.cfg.role == RolePrimary && FencedNow(n) && Agreed(n, qr)
    ensures FencedNow(n') && Agreed(n', qr)
  {
    FencedLatestStill(n, a, n');
    MissedStep(n, a, n');
    hide Inv, Step;
  }

  lemma PrimaryStepKeeps(s: System, a: Act, s': System)
    requires SysInv(s) && Next(s, PAct(a), s')
    ensures SysInv(s')
  {
    hide Step, Inv, Agreed, FencedNow;
    StepKeeps(s.p, a, s'.p);
    StepConfig(s.p, a, s'.p);
    forall qr | qr in s.issued ensures FencedNow(s'.p) && Agreed(s'.p, qr) { AgreedStep(s.p, a, s'.p, qr); }
  }

  lemma FollowerStepKeeps(s: System, a: Act, s': System)
    requires SysInv(s) && Next(s, FAct(a), s')
    ensures SysInv(s')
  {
    hide Inv, ThreadsOk, CoreOk;
    StepKeeps(s.f, a, s'.f);
    StepConfig(s.f, a, s'.f);
    CarriesStep(s.f, a, s'.f, s.issued);
    PromotionSource(s.f, a, s'.f, s.issued);
  }

  lemma CarriesStep(n: Node, a: Act, n': Node, issued: set<QuiesceRecord>)
    requires Step(n, a, n') && (a.APromote? && a.p.PromoteBegin? ==> a.p.qr in issued)
    requires n.vol.Some? ==> CarriesIssued(n.vol.value, issued)
    ensures n'.vol.Some? ==> CarriesIssued(n'.vol.value, issued)
  {
    hide ThreadStep, EffectStep, QuiesceStep, PromoteStep, CommitStep, ProcessStep;
    match a
    case AThread(t, m) => ThreadPpc(n, t, m, n');
    case AEffect(t, e) => EffectPpc(n, t, e, n');
    case AQuiesce(q) => QuiesceFrame(n, q, n');
    case APromote(p) => PromoteCarries(n, p, n', issued);
    case ACommit(c) => CommitCarries(n, c, n', issued);
    case AProcess(x) => ProcessPpc(n, x, n');
  }

  lemma ThreadPpc(n: Node, t: nat, m: ThreadAct, n': Node)
    requires ThreadStep(n, t, m, n')
    ensures n.vol.Some? && n'.vol.Some? && n'.vol.value.ppc == n.vol.value.ppc && n'.disk == n.disk
  {
    hide ThreadMove;
  }

  lemma EffectPpc(n: Node, t: nat, e: EffectAct, n': Node)
    requires EffectStep(n, t, e, n')
    ensures n.vol.Some? && n'.vol.Some? && n'.vol.value.ppc == n.vol.value.ppc
  {
    hide TailOf, Apply;
  }

  lemma ProcessPpc(n: Node, x: ProcessAct, n': Node)
    requires ProcessStep(n, x, n')
    ensures n'.vol.Some? ==> n'.vol.value.ppc.PIdle?
  {
    hide OpenJournal, PromotionConsistent, TailOf;
  }

  lemma PromoteCarries(n: Node, p: PromoteAct, n': Node, issued: set<QuiesceRecord>)
    requires PromoteStep(n, p, n') && (p.PromoteBegin? ==> p.qr in issued)
             && (n.vol.Some? ==> CarriesIssued(n.vol.value, issued))
    ensures n'.vol.Some? && CarriesIssued(n'.vol.value, issued)
  {
  }

  lemma CommitCarries(n: Node, c: CommitAct, n': Node, issued: set<QuiesceRecord>)
    requires CommitStep(n, c, n') && (n.vol.Some? ==> CarriesIssued(n.vol.value, issued))
    ensures n'.vol.Some? && CarriesIssued(n'.vol.value, issued)
  {
    var pc, pc' := n.vol.value.ppc, n'.vol.value.ppc;
    assert RequestOf(pc').Some? ==> RequestOf(pc') == RequestOf(pc);
  }

  lemma PromotionSource(n: Node, a: Act, n': Node, issued: set<QuiesceRecord>)
    requires Inv(n) && Step(n, a, n') && (n.vol.Some? ==> CarriesIssued(n.vol.value, issued))
    requires n.disk.promotion.Some? ==> exists qr :: qr in issued && n.disk.promotion.value == PromotionOf(n.cfg, qr)
    ensures n'.disk.promotion.Some? ==> exists qr :: qr in issued && n'.disk.promotion.value == PromotionOf(n.cfg, qr)
  {
    hide Inv;
    if n.disk.promotion.Some? {
      hide Step;
      PromotionStable(n, a, n');
    } else if a.ACommit? && a.c == SavePromotion(true) {
      var qr := n.vol.value.ppc.qr;
      assert n'.disk.promotion.Some? ==> qr in issued && n'.disk.promotion.value == PromotionOf(n.cfg, qr);
    } else {
      hide OpenJournal, BaselineAcceptable, Apply;
      if a.AQuiesce? { QuiesceFrame(n, a.q, n'); hide QuiesceStep; }
      if a.APromote? { PromoteFrame(n, a.p, n'); hide PromoteStep; }
    }
  }

  lemma SysStepKeeps(s: System, a: SysAct, s': System)
    requires SysInv(s) && Next(s, a, s')
    ensures SysInv(s')
  {
    match a
    case PAct(pa) => PrimaryStepKeeps(s, pa, s');
    case FAct(fa) => FollowerStepKeeps(s, fa, s');
    case Publish(qr) =>
      hide Inv;
      ShownIsFenced(s.p, qr);
  }

  lemma {:induction false} SysRunInv(r: SysRun, i: nat)
    requires IsSysRun(r) && i < |r.states|
    ensures SysInv(r.states[i])
  {
    hide SysInv, Next;
    if i == 0 {
      SysInitKeeps(r.states[0]);
    } else {
      SysRunInv(r, i - 1);
      SysStepKeeps(r.states[i - 1], r.acts[i - 1], r.states[i]);
    }
  }

  lemma SysInitKeeps(s: System)
    requires SysInit(s)
    ensures SysInv(s)
  {
    InitKeeps(s.p);
    InitKeeps(s.f);
    hide Inv;
  }

  /** Whatever the primary shows, in any run, a follower configured for its address accepts as a promotion
      request, and a promotion record names the primary it came from. */
  lemma {:induction false} ShownIsAcceptable(r: SysRun, i: nat)
    requires IsSysRun(r) && i < |r.states|
    ensures var s := r.states[i];
            && Own(s.p)
            && (forall qr :: qr in s.issued ==> OwnRecord(s.p.cfg, qr) && qr.latestSeq != MAX_U64)
            && (s.f.cfg.primaryURL == s.p.cfg.selfURL ==>
                  forall qr :: qr in s.issued ==> PromotionRequestOk(s.f.cfg, qr))
            && (s.f.disk.promotion.Some? ==>
                  && s.f.disk.promotion.value.sourceNodeID == s.p.cfg.nodeID
                  && s.f.disk.promotion.value.sourceURL == s.p.cfg.selfURL)
  {
    SysRunInv(r, i);
    var s := r.states[i];
    if i == 0 {
      OwnInit(s.p);
    } else {
      ShownIsAcceptable(r, i - 1);
      var t, a := r.states[i - 1], r.acts[i - 1];
      assert Next(t, a, s);
      hide Step, SysInv, IsSysRun, Inv;
      if a.PAct? {
        OwnStep(t.p, a.pa, s.p);
        StepConfig(t.p, a.pa, s.p);
      }
    }
    hide IsSysRun, Next;
    IssuedBounded(s);
    hide Own, CarriesIssued, Agreed, FencedNow;
  }

  lemma IssuedBounded(s: System)
    requires SysInv(s)
    ensures forall qr :: qr in s.issued ==> qr.latestSeq != MAX_U64
    ensures s.f.cfg.nodeID != "" && s.p.cfg.nodeID != ""
  {
    hide LocksOk, PromotionOk, QuiesceOk, ThreadsOk, CarriesIssued, FencedNow;
    assert |s.p.disk.journal.entries| < MAX_U64;
  }

  /** No reachable state has both nodes accepting client writes. */
  lemma SingleWriter(r: SysRun, i: nat)
    requires IsSysRun(r) && i < |r.states|
    ensures !(AcceptsWrites(r.states[i].p) && AcceptsWrites(r.states[i].f))
  {
    SysRunInv(r, i);
    var s := r.states[i];
    hide IsSysRun;
    if s.f.disk.promotion.Some? {
      hide CoreOk, ThreadsOk;
      ClosedMeansClosed(s.p);
    } else {
      UnpromotedRefuses(s.f);
    }
  }

  lemma UnpromotedRefuses(n: Node)
    requires Inv(n) && n.cfg.role == RoleFollower && n.disk.promotion.None?
    ensures !AcceptsWrites(n)
  {
    hide LocksOk, PromotionOk, JournalOk, QuiesceOk;
  }
}
