/** The apply loop of a request thread inside whole runs (internal/node/server.go, internal/replnet/state_store.go):
    its steps, whatever other threads and handlers do in between, add up to the batch function, and the
    cursor file follows. */
module BatchRuns {
  import opened Bytes
  import opened Journal
  import opened Replication
  import opened Node
  import opened NodeInvariants
  import opened NodeRuns

  // ---- the cursor file ----

  /** The save at the end of a batch: a cursor behind the last applied entry moves up to it, unless saving
      fails; nothing else changes but the thread's position. */
  lemma SaveMovesCursor(n: Node, t: nat, ok: bool, n': Node)
    requires Step(n, AEffect(t, BatchSave(ok)), n')
    ensures n.vol.Some? && t in n.vol.value.threads && n.vol.value.threads[t].Applying?
    ensures var last := n.vol.value.threads[t].last;
            && CursorValue(n'.disk) == (if ok && last > CursorValue(n.disk) then last else CursorValue(n.disk))
            && n'.disk == n.disk.(cursor := n'.disk.cursor) && n'.high == n.high
            && n'.vol.Some? && n'.vol.value.lastApplied == n.vol.value.lastApplied
  {
  }

  // ---- one thread's batch ----

  function PcOf(n: Node, t: nat): Option<Pc> {
    if n.vol.Some? then PcAt(n.vol.value, t) else None
  }

  ghost predicate ApplyingAt(n: Node, t: nat) {
    PcOf(n, t).Some? && PcOf(n, t).value.Applying?
  }

  /** Thread t starts its batch at step i and is still in its loop in state j; meanwhile no other thread
      writes to the engine. */
  ghost predicate InLoop(r: Run, t: nat, i: nat, j: nat) {
    && IsRun(r) && i < j < |r.states| && r.acts[i] == AThread(t, BatchStart)
    && (forall k :: i < k <= j ==> ApplyingAt(r.states[k], t))
    && (forall k :: i < k < j && r.acts[k].AEffect? ==> r.acts[k].u == t)
  }

  function BatchAt(n: Node, t: nat): seq<Entry> {
    match PcOf(n, t)
    case Some(Holding(_, batch)) => batch
    case _ => []
  }

  ghost function Never(): u64 -> bool {
    (s: u64) => false
  }

  /** So far the thread has done what ApplyBatch does with the entries it has passed. */
  ghost predicate DoneSoFar(n: Node, batch: seq<Entry>, t: nat, m: Node)
    requires n.vol.Some?
  {
    && m.vol.Some? && ApplyingAt(m, t)
    && var pc := PcOf(m, t).value;
    && pc.batch == batch && pc.i <= |batch| && pc.last == m.vol.value.lastApplied
    && ApplyBatch(n.disk.data, n.vol.value.lastApplied, batch[..pc.i], Never()) == Applied(m.disk.data, pc.last, None)
    && CursorValue(m.disk) == CursorValue(n.disk)
  }

  lemma Starts(n: Node, t: nat, n': Node)
    requires Step(n, AThread(t, BatchStart), n')
    ensures n.vol.Some? && DoneSoFar(n, BatchAt(n, t), t, n')
  {
    hide Fits;
    assert BatchAt(n, t)[..0] == [];
  }

  /** One more entry of the batch: passed over, or applied. */
  lemma OneMore(data: Data, last: u64, batch: seq<Entry>, k: nat)
    requires k < |batch| && ApplyBatch(data, last, batch[..k], Never()).err.None?
    ensures var r, e := ApplyBatch(data, last, batch[..k], Never()), batch[k];
            && (e.seqno <= r.last ==> ApplyBatch(data, last, batch[..k + 1], Never()) == r)
            && (e.seqno > r.last && e.seqno == WrapAdd(r.last, 1) && !e.op.OpOther? ==>
                  ApplyBatch(data, last, batch[..k + 1], Never()) == Applied(Apply(r.data, e), e.seqno, None))
  {
    hide Apply;
    var r, e := ApplyBatch(data, last, batch[..k], Never()), batch[k];
    assert batch[..k + 1] == batch[..k] + [e] && [e][1..] == [];
    ApplyParts(data, last, batch[..k], [e], Never());
  }

  /** One turn of the loop. */
  lemma Turns(n: Node, batch: seq<Entry>, t: nat, m: Node, ok: bool, m': Node)
    requires n.vol.Some? && DoneSoFar(n, batch, t, m) && Step(m, AEffect(t, BatchEntry(ok)), m') && ApplyingAt(m', t)
    ensures DoneSoFar(n, batch, t, m')
  {
    OneMore(n.disk.data, n.vol.value.lastApplied, batch, PcOf(m, t).value.i);
    hide Apply, ApplyBatch, WrapAdd, Never;
  }

  /** What other threads and the handlers do leaves thread t's loop, the data and the cursor alone. */
  lemma Others(m: Node, t: nat, a: Act, m': Node)
    requires Step(m, a, m') && ApplyingAt(m, t) && ApplyingAt(m', t) && !a.AEffect?
    ensures PcOf(m', t) == PcOf(m, t) && m'.disk.data == m.disk.data && m'.disk.cursor == m.disk.cursor
    ensures m.vol.Some? && m'.vol.Some? && m'.vol.value.lastApplied == m.vol.value.lastApplied
  {
    hide ThreadStep, QuiesceStep, PromoteStep, CommitStep, ProcessStep;
    match a
    case AThread(u, x) => OtherThread(m, t, u, x, m');
    case AQuiesce(q) => OtherQuiesce(m, t, q, m');
    case APromote(p) => OtherPromote(m, t, p, m');
    case ACommit(c) => OtherCommit(m, t, c, m');
    case AProcess(x) => OtherProcess(m, t, x, m');
  }

  lemma OtherThread(m: Node, t: nat, u: nat, x: ThreadAct, m': Node)
    requires ThreadStep(m, u, x, m') && ApplyingAt(m, t) && ApplyingAt(m', t)
    ensures PcOf(m', t) == PcOf(m, t) && m'.disk == m.disk
    ensures m.vol.Some? && m'.vol.Some? && m'.vol.value.lastApplied == m.vol.value.lastApplied
  {
    hide Fits;
  }

  lemma OtherQuiesce(m: Node, t: nat, q: QuiesceAct, m': Node)
    requires QuiesceStep(m, q, m') && ApplyingAt(m, t)
    ensures PcOf(m', t) == PcOf(m, t) && m'.disk.data == m.disk.data && m'.disk.cursor == m.disk.cursor
    ensures m.vol.Some? && m'.vol.Some? && m'.vol.value.lastApplied == m.vol.value.lastApplied
  {
  }

  lemma OtherPromote(m: Node, t: nat, p: PromoteAct, m': Node)
    requires PromoteStep(m, p, m') && ApplyingAt(m, t)
    ensures PcOf(m', t) == PcOf(m, t) && m'.disk == m.disk
    ensures m.vol.Some? && m'.vol.Some? && m'.vol.value.lastApplied == m.vol.value.lastApplied
  {
  }

  lemma OtherCommit(m: Node, t: nat, c: CommitAct, m': Node)
    requires CommitStep(m, c, m') && ApplyingAt(m, t)
    ensures PcOf(m', t) == PcOf(m, t) && m'.disk.data == m.disk.data && m'.disk.cursor == m.disk.cursor
    ensures m.vol.Some? && m'.vol.Some? && m'.vol.value.lastApplied == m.vol.value.lastApplied
  {
    hide OpenJournal, BaselineAcceptable;
  }

  lemma OtherProcess(m: Node, t: nat, x: ProcessAct, m': Node)
    requires ProcessStep(m, x, m') && ApplyingAt(m, t)
    ensures !ApplyingAt(m', t)
  {
    hide OpenJournal, TailOf;
  }

  lemma {:induction false} LoopSoFar(r: Run, t: nat, i: nat, j: nat)
    requires InLoop(r, t, i, j)
    ensures r.states[i].vol.Some? && DoneSoFar(r.states[i], BatchAt(r.states[i], t), t, r.states[j])
    decreases j
  {
    var n, m, m' := r.states[i], r.states[j - 1], r.states[j];
    assert Step(m, r.acts[j - 1], m');
    hide Step, DoneSoFar;
    if j == i + 1 {
      Starts(n, t, m');
    } else {
      LoopSoFar(r, t, i, j - 1);
      if r.acts[j - 1].AEffect? {
        EffectOf(m, t, r.acts[j - 1].e, m');
        Turns(n, BatchAt(n, t), t, m, r.acts[j - 1].e.ok, m');
      } else {
        Others(m, t, r.acts[j - 1], m');
        SameSoFar(n, BatchAt(n, t), t, m, m');
      }
    }
  }

  lemma EffectOf(m: Node, t: nat, e: EffectAct, m': Node)
    requires Step(m, AEffect(t, e), m') && ApplyingAt(m, t)
    ensures e.BatchEntry? || e.BatchSave?
    ensures ApplyingAt(m', t) ==> e.BatchEntry?
  {
    hide Apply;
  }

  lemma SameSoFar(n: Node, batch: seq<Entry>, t: nat, m: Node, m': Node)
    requires n.vol.Some? && DoneSoFar(n, batch, t, m) && PcOf(m', t) == PcOf(m, t)
    requires m'.disk.data == m.disk.data && m'.disk.cursor == m.disk.cursor
    requires m'.vol.Some? && m'.vol.value.lastApplied == m.vol.value.lastApplied
    ensures DoneSoFar(n, batch, t, m')
  {
    hide ApplyBatch;
  }

  /** What a finished batch has done to a node. */
  ghost predicate BatchDone(n: Node, batch: seq<Entry>, fails: u64 -> bool, saved: bool, n': Node)
    requires n.vol.Some?
  {
    var spec := ApplyBatch(n.disk.data, n.vol.value.lastApplied, batch, fails);
    && n'.vol.Some? && n'.disk.data == spec.data && n'.vol.value.lastApplied == spec.last
    && (saved ==> spec.err.None?)
    && CursorValue(n'.disk) == if saved && spec.last > CursorValue(n.disk) then spec.last else CursorValue(n.disk)
  }

  lemma EndsWithSave(n: Node, batch: seq<Entry>, t: nat, m: Node, ok: bool, m': Node)
    requires n.vol.Some? && DoneSoFar(n, batch, t, m) && Step(m, AEffect(t, BatchSave(ok)), m')
    ensures BatchDone(n, batch, Never(), ok, m')
    ensures ApplyBatch(n.disk.data, n.vol.value.lastApplied, batch, Never()).err.None?
  {
    assert batch[..|batch|] == batch;
  }

  ghost function FailsAt(seqno: u64, ok: bool): u64 -> bool {
    (s: u64) => s == seqno && !ok
  }

  /** The entry that ends the loop, with all behind it left alone. */
  lemma StopsThere(data: Data, last: u64, batch: seq<Entry>, k: nat, ok: bool)
    requires k < |batch| && ApplyBatch(data, last, batch[..k], Never()).err.None?
    requires var r, e := ApplyBatch(data, last, batch[..k], Never()), batch[k];
             e.seqno > r.last && (e.seqno != WrapAdd(r.last, 1) || e.op.OpOther? || !ok)
    ensures var r, spec := ApplyBatch(data, last, batch[..k], Never()),
                           ApplyBatch(data, last, batch, FailsAt(batch[k].seqno, ok));
            spec.err.Some? && spec.data == r.data && spec.last == r.last
  {
    hide Apply;
    var e := batch[k];
    LaterFailures(data, last, batch[..k], Never(), FailsAt(e.seqno, ok));
    assert batch == batch[..k] + batch[k..] && batch[k..][0] == e;
    ApplyParts(data, last, batch[..k], batch[k..], FailsAt(e.seqno, ok));
  }

  lemma EndsWithError(n: Node, batch: seq<Entry>, t: nat, m: Node, ok: bool, m': Node) returns (fails: u64 -> bool)
    requires n.vol.Some? && DoneSoFar(n, batch, t, m) && Step(m, AEffect(t, BatchEntry(ok)), m') && !ApplyingAt(m', t)
    ensures BatchDone(n, batch, fails, false, m')
    ensures ApplyBatch(n.disk.data, n.vol.value.lastApplied, batch, fails).err.Some?
  {
    var pc := PcOf(m, t).value;
    fails := FailsAt(batch[pc.i].seqno, ok);
    hide Apply, ApplyBatch, WrapAdd, Never, FailsAt;
    StopsThere(n.disk.data, n.vol.value.lastApplied, batch, pc.i, ok);
  }

  /** A thread's batch, from the step that starts the loop to the step that leaves it, with any other steps
      in between but no other engine writes, is ApplyBatch; the cursor moves exactly when the loop went
      through and the save succeeded. */
  lemma BatchIsApplied(r: Run, t: nat, i: nat, j: nat) returns (fails: u64 -> bool)
    requires InLoop(r, t, i, j) && j < |r.acts| && r.acts[j].AEffect? && r.acts[j].u == t
    requires !ApplyingAt(r.states[j + 1], t)
    ensures var n, e := r.states[i], r.acts[j].e;
            && n.vol.Some? && (e.BatchSave? || e.BatchEntry?)
            && BatchDone(n, BatchAt(n, t), fails, e.BatchSave? && e.ok, r.states[j + 1])
            && (e.BatchSave? <==>
                  ApplyBatch(n.disk.data, n.vol.value.lastApplied, BatchAt(n, t), fails).err.None?)
  {
    LoopSoFar(r, t, i, j);
    var n, m, m', e := r.states[i], r.states[j], r.states[j + 1], r.acts[j].e;
    assert Step(m, AEffect(t, e), m');
    EffectOf(m, t, e, m');
    hide Step, DoneSoFar, BatchDone, ApplyBatch;
    if e.BatchSave? {
      EndsWithSave(n, BatchAt(n, t), t, m, e.ok, m');
      fails := Never();
    } else {
      fails := EndsWithError(n, BatchAt(n, t), t, m, e.ok, m');
    }
  }
}
