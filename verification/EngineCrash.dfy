/** The engine against process crashes: every file operation of a write, a flush and a compaction is
    its own step, a crash may come between any two of them or inside a log append, and Open rebuilds
    the process from whatever files exist (internal/engine/engine.go, internal/wal/wal.go). */
module EngineCrash {
  import opened Bytes
  import opened Records
  import opened Tables
  import opened Lsm
  import opened Manifests
  import opened Engines
  import Bloom
  import Wal

  // ---- state ----

  /** `log` is wal.log, byte for byte. */
  datatype Disk = Disk(manifest: Manifest, ssts: map<nat, seq<Record>>, blooms: map<nat, Bloom.Filter>, log: bytes)

  /** The functions and the record limit the engine is built with. */
  datatype Env = Env(fnv: Hash, crc: Checksum, max: u32)

  /** Where the operation holding the engine's write lock stands. `flush` tells flush from compaction. */
  datatype Phase =
    | Idle
    | Appending(r: Record)
    | Buffering(r: Record)
    | NewTable(flush: bool, rs: seq<Record>)
    | NewBloom(flush: bool, rs: seq<Record>)
    | Committing(flush: bool, hs: seq<Handle>)
    | Swapping(flush: bool, hs: seq<Handle>)
    | DroppingLog
    | ReopeningLog
    | Cleaning

  datatype Process =
    | Down
    | Stopped
    | Up(mem: Buffer, tables: seq<Handle>, nextSeq: u64, nextFileId: nat, logSeq: u64, phase: Phase)

  /** history: the operations that took effect, in order, over all processes. The marks cut it: the log
      is there for history[logged..], the tables on disk show history[..tabled], the open tables show
      history[..shown] and the buffer holds history[buffered..]. tidy: since the log was last emptied or
      replayed, nothing was written behind a part of a frame and no write failed with its whole frame. */
  datatype Store = Store(disk: Disk, proc: Process, history: seq<Record>,
                         logged: nat, tabled: nat, shown: nat, buffered: nat,
                         tidy: bool, orderly: bool, lossless: bool)

  datatype Action =
    | BeginWrite(r: Record) | Append | Refuse | Fail(n: nat) | Apply
    | BeginFlush(rs: seq<Record>) | BeginCompact(rs: seq<Record>)
    | WriteSst | WriteBloom(f: Bloom.Filter) | Abort(removed: bool) | Commit | Swap
    | DropLog(removed: bool) | ReopenLog(ok: bool) | Clean(id: nat) | EndClean
    | Crash(n: nat) | Restart | RestartFails

  const INIT := Store(Disk(NewManifest(), map[], map[], []), Down, [], 0, 0, 0, 0, true, true, true)

  // ---- steps ----

  function FrameSize(r: Record): nat {
    FRAME_HEADER + BODY_FIXED + |r.key| + |r.value|
  }

  /** The record a write puts into the log: the log's own counter numbers it. */
  function Logged(p: Process): Record
    requires p.Up? && p.phase.Appending?
  {
    p.phase.r.(seqno := WrapAdd(p.logSeq, 1))
  }

  /** The log after n bytes of that record's frame. */
  function LogAfter(env: Env, s: Store, n: nat): bytes
    requires s.proc.Up? && s.proc.phase.Appending? && Storable(env.max, Logged(s.proc))
    requires n <= FrameSize(s.proc.phase.r)
  {
    s.disk.log + Frame(env.crc, Logged(s.proc))[..n]
  }

  ghost predicate CleanLog(env: Env, log: bytes) {
    Wal.Clean(env.crc, env.max, log)
  }

  /** A write error after n bytes, or a sync error after all of them, and a process that goes on. */
  ghost predicate FailStep(env: Env, s: Store, n: nat, t: Store)
    requires s.proc.Up? && s.proc.phase.Appending?
  {
    && Storable(env.max, Logged(s.proc)) && n <= FrameSize(s.proc.phase.r)
    && t == s.(disk := s.disk.(log := LogAfter(env, s, n)),
               proc := s.proc.(nextSeq := s.proc.phase.r.seqno, logSeq := Logged(s.proc).seqno, phase := Idle),
               tidy := s.tidy && (n == 0 || (n < FrameSize(s.proc.phase.r) && CleanLog(env, s.disk.log))))
  }

  ghost predicate WriteStep(env: Env, s: Store, a: Action, t: Store)
    requires s.proc.Up?
  {
    var p := s.proc;
    match a
    case BeginWrite(r) =>
      && p.phase.Idle? && Replayable(r) && r == Stored(r) && p.nextSeq < MAX_U64
      && t == s.(proc := p.(nextSeq := p.nextSeq + 1, phase := Appending(r.(seqno := p.nextSeq))))
    case Append =>
      && p.phase.Appending? && Storable(env.max, Logged(p))
      && t == s.(disk := s.disk.(log := LogAfter(env, s, FrameSize(p.phase.r))), history := s.history + [Logged(p)],
                 proc := p.(logSeq := Logged(p).seqno, phase := Buffering(p.phase.r)),
                 tidy := s.tidy && CleanLog(env, s.disk.log))
    case Refuse =>
      && p.phase.Appending?
      && t == s.(proc := p.(nextSeq := p.phase.r.seqno, phase := Idle))
    case Fail(n) =>
      p.phase.Appending? && FailStep(env, s, n, t)
    case Apply =>
      && p.phase.Buffering?
      && t == s.(proc := p.(mem := p.mem[p.phase.r.key := p.phase.r], phase := Idle))
    case _ => false
  }

  ghost predicate Usable(rs: seq<Record>) {
    rs != [] && Sorted(rs) && forall i :: 0 <= i < |rs| ==> Replayable(rs[i])
  }

  ghost predicate BuildStep(env: Env, s: Store, a: Action, t: Store)
    requires s.proc.Up?
  {
    var p := s.proc;
    match a
    case BeginFlush(rs) =>
      && p.phase.Idle? && p.mem != map[] && Lists(rs, p.mem)
      && t == s.(proc := p.(phase := NewTable(true, rs)))
    case BeginCompact(rs) =>
      && p.phase.Idle? && |p.tables| > 1 && CompactsTo(Contents(p.tables), rs)
      && t == s.(proc := p.(phase := if rs == [] then Committing(false, []) else NewTable(false, rs)))
    case WriteSst =>
      && p.phase.NewTable?
      && t == s.(disk := s.disk.(ssts := s.disk.ssts[p.nextFileId := p.phase.rs]),
                 proc := p.(phase := NewBloom(p.phase.flush, p.phase.rs)))
    case WriteBloom(f) =>
      && p.phase.NewBloom? && p.phase.rs != []
      && var rs := p.phase.rs;
         var h := Handle(p.nextFileId, rs, f, rs[0].key, rs[|rs| - 1].key);
         && Sound(env.fnv, h)
         && t == s.(disk := s.disk.(blooms := s.disk.blooms[p.nextFileId := f]),
                    proc := p.(phase := Committing(p.phase.flush, if p.phase.flush then p.tables + [h] else [h])))
    case Abort(removed) =>
      && (p.phase.NewTable? || p.phase.NewBloom? || p.phase.Committing?)
      && var d := s.disk;
         t == s.(disk := if removed
                         then d.(ssts := d.ssts - {p.nextFileId}, blooms := d.blooms - {p.nextFileId})
                         else d,
                 proc := p.(phase := Idle))
    case _ => false
  }

  /** A compaction of these tables changes no read of them. */
  ghost predicate TablesAgree(tables: seq<seq<Record>>) {
    forall k :: Agrees(map[], tables, k)
  }

  ghost predicate CommitStep(s: Store, a: Action, t: Store)
    requires s.proc.Up?
  {
    var p := s.proc;
    match a
    case Commit =>
      && p.phase.Committing?
      && var hs, next := p.phase.hs, if p.phase.hs == [] then p.nextFileId else p.nextFileId + 1;
         t == s.(disk := s.disk.(manifest := Manifest(next, p.nextSeq, RowsOf(hs))),
                 proc := p.(nextFileId := next, phase := Swapping(p.phase.flush, hs)),
                 tabled := if p.phase.flush then |s.history| else s.tabled,
                 lossless := s.lossless && (p.phase.flush || TablesAgree(Contents(p.tables))))
    case Swap =>
      && p.phase.Swapping?
      && t == if p.phase.flush
              then s.(proc := p.(tables := p.phase.hs, mem := map[], phase := DroppingLog),
                      shown := s.tabled, buffered := |s.history|)
              else s.(proc := p.(tables := p.phase.hs, phase := Cleaning), shown := s.tabled)
    case DropLog(removed) =>
      && p.phase.DroppingLog?
      && t == (if removed then s.(disk := s.disk.(log := []), logged := |s.history|, tidy := true) else s)
              .(proc := p.(phase := ReopeningLog))
    case ReopenLog(ok) =>
      && p.phase.ReopeningLog?
      && t == s.(proc := if ok then p.(logSeq := 0, phase := Idle) else Stopped)
    case Clean(id) =>
      && p.phase.Cleaning? && (forall i :: 0 <= i < |s.disk.manifest.tables| ==> s.disk.manifest.tables[i].id != id)
      && t == s.(disk := s.disk.(ssts := s.disk.ssts - {id}, blooms := s.disk.blooms - {id}))
    case EndClean =>
      && p.phase.Cleaning?
      && t == s.(proc := p.(phase := Idle))
    case _ => false
  }

  /** A crash inside an append leaves any n bytes of the frame; anywhere else the files stay. */
  ghost predicate CrashStep(env: Env, s: Store, n: nat, t: Store) {
    && !s.proc.Down?
    && if n == 0 then t == s.(proc := Down)
       else
         && s.proc.Up? && s.proc.phase.Appending? && Storable(env.max, Logged(s.proc)) && n <= FrameSize(s.proc.phase.r)
         && t == s.(proc := Down, disk := s.disk.(log := LogAfter(env, s, n)),
                    history := if n == FrameSize(s.proc.phase.r) then s.history + [Logged(s.proc)] else s.history,
                    tidy := s.tidy && CleanLog(env, s.disk.log))
  }

  /** Every listed table has its file and its sidecar. */
  ghost predicate Present(d: Disk) {
    forall i :: 0 <= i < |d.manifest.tables| ==>
      d.manifest.tables[i].id in d.ssts && d.manifest.tables[i].id in d.blooms
  }

  /** The handles Open builds from the manifest. */
  ghost function HandlesOf(d: Disk): (hs: seq<Handle>)
    requires Present(d)
    ensures |hs| == |d.manifest.tables|
  {
    seq(|d.manifest.tables|, i requires 0 <= i < |d.manifest.tables| =>
      var te := d.manifest.tables[i];
      Handle(te.id, d.ssts[te.id], d.blooms[te.id], te.minKey, te.maxKey))
  }

  /** What replaying the log's bytes gives. */
  ghost function Replay(env: Env, log: bytes): Wal.Replayed {
    Wal.ReplayFrom(env.crc, env.max, log, 0, [])
  }

  /** The log replays to exactly the operations it is there for. */
  ghost predicate Faithful(env: Env, s: Store) {
    s.logged <= |s.history| && Replay(env, s.disk.log) == Wal.Replayed(s.history[s.logged..], true)
  }

  /** Replay finds no corruption, and nothing the engine's callback refuses. */
  ghost predicate Opens(env: Env, log: bytes) {
    Replay(env, log).ok && HistoryOk(Replay(env, log).records)
  }

  /** Open. What replay finds goes over whatever the tables already show; when that is not what the log
      was there for, the history is from then on what the tables show followed by what was found. */
  ghost predicate RestartStep(env: Env, s: Store, t: Store) {
    && s.proc.Down? && Present(s.disk) && s.logged <= |s.history| && s.tabled <= |s.history|
    && Opens(env, s.disk.log)
    && var rs, m := Replay(env, s.disk.log).records, s.disk.manifest;
       var up := Up(Rebuild(rs), HandlesOf(s.disk), ResumeSeq(m.nextSeq, rs), m.nextFileId, Wal.MaxSeq(rs), Idle);
       var orderly := s.orderly && (rs == [] || (m.tables == [] && Wal.MaxSeq(rs) < MAX_U64));
       t == if rs == s.history[s.logged..]
            then s.(proc := up, shown := s.tabled, buffered := s.logged, tidy := true, orderly := orderly)
            else s.(proc := up, history := s.history[..s.tabled] + rs, logged := s.tabled, shown := s.tabled,
                    buffered := s.tabled, tidy := true, orderly := orderly)
  }

  /** Open refuses the log. */
  ghost predicate RefusedRestart(env: Env, s: Store, t: Store) {
    s.proc.Down? && !Opens(env, s.disk.log) && t == s
  }

  ghost predicate Step(env: Env, s: Store, a: Action, t: Store) {
    match a
    case Crash(n) => CrashStep(env, s, n, t)
    case Restart => RestartStep(env, s, t)
    case RestartFails => RefusedRestart(env, s, t)
    case _ =>
      s.proc.Up? && (WriteStep(env, s, a, t) || BuildStep(env, s, a, t) || CommitStep(s, a, t))
  }

  /** What Get answers in a running process. */
  ghost function Answer(s: Store, k: bytes): Option<bytes>
    requires s.proc.Up?
  {
    Read(s.proc.mem, Contents(s.proc.tables), k)
  }

  // ---- what the history says ----

  /** The value of k after the operations of h: its last one decides. */
  ghost function ValueOf(h: seq<Record>, k: bytes): Option<bytes> {
    Visible(Lookup(h, k))
  }

  lemma {:induction false} LookupConcat(a: seq<Record>, b: seq<Record>, k: bytes)
    ensures Lookup(a + b, k) == if Lookup(b, k).Some? then Lookup(b, k) else Lookup(a, k)
  {
    if b == [] {
      assert a + b == a;
    } else {
      LookupConcat(a, b[..|b| - 1], k);
      assert (a + b)[..|a + b| - 1] == a + b[..|b| - 1];
    }
  }

  /** The tables show exactly the operations of h. */
  ghost predicate TablesShow(tables: seq<seq<Record>>, h: seq<Record>) {
    forall k :: Visible(FindTables(tables, k)) == ValueOf(h, k)
  }

  ghost predicate Alike(a: Option<Record>, b: Option<Record>) {
    (a.Some? <==> b.Some?) && Visible(a) == Visible(b)
  }

  /** The buffer holds, for every key, the last operation of h on it. */
  ghost predicate BufferHolds(mem: Buffer, h: seq<Record>) {
    forall k :: Alike(At(mem, k), Lookup(h, k))
  }

  /** The heart of recovery: a buffer that holds any suffix reaching back past what the tables show
      gives every key its latest value, however the two overlap. */
  lemma OverlapReads(mem: Buffer, tables: seq<seq<Record>>, h: seq<Record>, shown: nat, buffered: nat, k: bytes)
    requires buffered <= shown <= |h|
    requires TablesShow(tables, h[..shown]) && BufferHolds(mem, h[buffered..])
    ensures Read(mem, tables, k) == ValueOf(h, k)
  {
    hide Lookup, FindTables;
    var early, mid, late := h[..buffered], h[buffered..shown], h[shown..];
    assert h == early + h[buffered..] && h[buffered..] == mid + late && h[..shown] == early + mid;
    LookupConcat(early, h[buffered..], k);
    LookupConcat(mid, late, k);
    LookupConcat(early, mid, k);
    assert Alike(At(mem, k), Lookup(h[buffered..], k));
    assert Visible(FindTables(tables, k)) == ValueOf(h[..shown], k);
  }

  lemma {:induction false} RebuildAt(rs: seq<Record>, k: bytes)
    ensures Alike(At(Rebuild(rs), k), Lookup(rs, k))
  {
    if rs != [] { RebuildAt(rs[..|rs| - 1], k); }
  }

  lemma BufferGrows(mem: Buffer, h: seq<Record>, r: Record, logged: Record)
    requires BufferHolds(mem, h) && logged == r.(seqno := logged.seqno)
    ensures BufferHolds(mem[r.key := r], h + [logged])
  {
    hide Lookup;
    forall k ensures Alike(At(mem[r.key := r], k), Lookup(h + [logged], k)) {
      LookupConcat(h, [logged], k);
      LookupOne(logged, k);
      assert Alike(At(mem, k), Lookup(h, k));
    }
  }

  lemma LookupOne(r: Record, k: bytes)
    ensures Lookup([r], k) == if r.key == k then Some(r) else None
  {
    assert [r][..0] == [];
    assert Lookup([], k) == None;
  }

  // ---- the invariant ----

  /** The operations the buffer and the open tables account for: all but one still to be applied. */
  ghost function Settled(s: Store): seq<Record> {
    if s.proc.Up? && s.proc.phase.Buffering? && s.history != [] then s.history[..|s.history| - 1] else s.history
  }

  /** Operations the engine's replay callback accepts. */
  ghost predicate HistoryOk(h: seq<Record>) {
    forall i :: 0 <= i < |h| ==> Replayable(h[i])
  }

  /** Files: the manifest lists sound tables that show the history up to a mark, and the log is there for
      everything behind it. */
  ghost predicate DiskInv(env: Env, s: Store) {
    && Present(s.disk) && AllSound(env.fnv, HandlesOf(s.disk))
    && IdsBelow(HandlesOf(s.disk), s.disk.manifest.nextFileId)
    && 0 < s.disk.manifest.nextFileId
    && s.logged <= s.tabled <= |s.history| && HistoryOk(s.history)
    && (s.lossless ==> TablesShow(Contents(HandlesOf(s.disk)), s.history[..s.tabled]))
  }

  /** hs is what a flush or a compaction of this process installs. */
  ghost predicate Planned(p: Process, flush: bool, hs: seq<Handle>)
    requires p.Up?
  {
    if flush then |hs| == |p.tables| + 1 && hs[..|p.tables|] == p.tables && Lists(hs[|p.tables|].table, p.mem)
    else |hs| <= 1 && CompactsTo(Contents(p.tables), if hs == [] then [] else hs[0].table)
  }

  /** The tables a plan adds are on disk under the next free ID. */
  ghost predicate Written(env: Env, d: Disk, id: nat, hs: seq<Handle>) {
    hs != [] ==>
      var h := hs[|hs| - 1];
      && Sound(env.fnv, h) && h.id == id
      && id in d.ssts && id in d.blooms && d.ssts[id] == h.table && d.blooms[id] == h.bloom
  }

  ghost predicate PhaseInv(env: Env, s: Store)
    requires s.proc.Up? && Present(s.disk)
  {
    var p := s.proc;
    && (!p.phase.Swapping? ==> p.tables == HandlesOf(s.disk) && s.shown == s.tabled)
    && match p.phase
       case Appending(r) => Replayable(r) && r == Stored(r)
       case Buffering(r) =>
         && s.history != [] && Replayable(r) && r == Stored(r)
         && s.tabled < |s.history| && s.history[|s.history| - 1] == r.(seqno := s.history[|s.history| - 1].seqno)
       case NewTable(flush, rs) =>
         Usable(rs) && (if flush then Lists(rs, p.mem) else CompactsTo(Contents(p.tables), rs))
       case NewBloom(flush, rs) =>
         && Usable(rs) && (if flush then Lists(rs, p.mem) else CompactsTo(Contents(p.tables), rs))
         && p.nextFileId in s.disk.ssts && s.disk.ssts[p.nextFileId] == rs
       case Committing(flush, hs) => Planned(p, flush, hs) && Written(env, s.disk, p.nextFileId, hs)
       case Swapping(flush, hs) =>
         && Planned(p, flush, hs) && hs == HandlesOf(s.disk)
         && (if flush then s.tabled == |s.history| else s.shown == s.tabled)
       case DroppingLog => s.tabled == s.buffered == |s.history|
       case ReopeningLog => s.tabled == s.buffered == |s.history|
       case _ => true
  }

  ghost predicate ProcInv(env: Env, s: Store)
    requires s.proc.Up? && Present(s.disk)
  {
    && s.proc.nextFileId == s.disk.manifest.nextFileId && AllSound(env.fnv, s.proc.tables)
    && Keyed(s.proc.mem) && (forall k :: k in s.proc.mem ==> Replayable(s.proc.mem[k]))
    && s.buffered <= s.shown <= |Settled(s)| && BufferHolds(s.proc.mem, Settled(s)[s.buffered..])
    && (s.lossless ==> TablesShow(Contents(s.proc.tables), Settled(s)[..s.shown]))
    && PhaseInv(env, s)
  }

  ghost predicate Inv(env: Env, s: Store) {
    DiskInv(env, s) && (s.proc.Up? ==> ProcInv(env, s))
  }

  lemma InitInv(env: Env)
    ensures Inv(env, INIT)
  {
    assert Contents(HandlesOf(INIT.disk)) == [];
  }

  // ---- every step keeps it ----

  lemma AppendKeeps(env: Env, s: Store, t: Store)
    requires Inv(env, s) && s.proc.Up? && WriteStep(env, s, Append, t)
    ensures Inv(env, t)
  {
    hide AllSound, IdsBelow, TablesShow, BufferHolds, Keyed, LogAfter, CleanLog, Storable;
    assert HandlesOf(t.disk) == HandlesOf(s.disk);
    assert t.history[..t.tabled] == s.history[..s.tabled];
    assert Settled(t) == Settled(s);
  }

  lemma FailKeeps(env: Env, s: Store, n: nat, t: Store)
    requires Inv(env, s) && s.proc.Up? && WriteStep(env, s, Fail(n), t)
    ensures Inv(env, t)
  {
    hide AllSound, IdsBelow, TablesShow, BufferHolds, HistoryOk, Keyed, LogAfter, CleanLog, Storable;
    assert HandlesOf(t.disk) == HandlesOf(s.disk);
    assert Settled(t) == Settled(s);
  }

  lemma ApplyProc(env: Env, s: Store, t: Store)
    requires Inv(env, s) && s.proc.Up? && WriteStep(env, s, Apply, t)
    ensures ProcInv(env, t)
  {
    hide AllSound, IdsBelow, TablesShow, BufferHolds, HistoryOk, DiskInv;
    var h, r := Settled(s), s.proc.phase.r;
    var last := s.history[|s.history| - 1];
    assert Settled(t) == h + [last];
    assert Settled(t)[t.buffered..] == h[s.buffered..] + [last];
    assert Settled(t)[..t.shown] == h[..s.shown];
    BufferGrows(s.proc.mem, h[s.buffered..], r, last);
  }

  lemma ApplyKeeps(env: Env, s: Store, t: Store)
    requires Inv(env, s) && s.proc.Up? && WriteStep(env, s, Apply, t)
    ensures Inv(env, t)
  {
    ApplyProc(env, s, t);
    hide ProcInv, AllSound, IdsBelow, TablesShow, HistoryOk;
    assert HandlesOf(t.disk) == HandlesOf(s.disk);
  }

  lemma WriteKeeps(env: Env, s: Store, a: Action, t: Store)
    requires Inv(env, s) && s.proc.Up? && WriteStep(env, s, a, t)
    ensures Inv(env, t)
  {
    if a.Append? {
      AppendKeeps(env, s, t);
    } else if a.Apply? {
      ApplyKeeps(env, s, t);
    } else if a.Fail? {
      FailKeeps(env, s, a.n, t);
    } else {
      hide AllSound, IdsBelow, TablesShow, BufferHolds, HistoryOk, Keyed, FailStep;
      assert HandlesOf(t.disk) == HandlesOf(s.disk);
      assert Settled(t) == Settled(s);
    }
  }

  /** Files outside the manifest do not matter. */
  lemma SameHandles(d: Disk, e: Disk)
    requires Present(d) && e.manifest == d.manifest
    requires forall i :: 0 <= i < |d.manifest.tables| ==>
               var id := d.manifest.tables[i].id;
               id in e.ssts && id in e.blooms && e.ssts[id] == d.ssts[id] && e.blooms[id] == d.blooms[id]
    ensures Present(e) && HandlesOf(e) == HandlesOf(d)
  {
  }

  lemma UnlistedId(env: Env, s: Store, i: nat)
    requires DiskInv(env, s) && i < |s.disk.manifest.tables|
    ensures s.disk.manifest.tables[i].id < s.disk.manifest.nextFileId
  {
    assert HandlesOf(s.disk)[i].id == s.disk.manifest.tables[i].id;
  }

  lemma BuildFrame(env: Env, s: Store, a: Action, t: Store)
    requires Inv(env, s) && s.proc.Up? && BuildStep(env, s, a, t)
    ensures Present(t.disk) && HandlesOf(t.disk) == HandlesOf(s.disk) && DiskInv(env, t)
  {
    hide AllSound, IdsBelow, TablesShow, BufferHolds, Sound, PhaseInv, HistoryOk;
    forall i | 0 <= i < |s.disk.manifest.tables| ensures s.disk.manifest.tables[i].id < s.disk.manifest.nextFileId {
      UnlistedId(env, s, i);
    }
    SameHandles(s.disk, t.disk);
  }

  lemma BuildPhase(env: Env, s: Store, a: Action, t: Store)
    requires Inv(env, s) && s.proc.Up? && BuildStep(env, s, a, t) && Present(t.disk)
    requires HandlesOf(t.disk) == HandlesOf(s.disk)
    ensures PhaseInv(env, t)
  {
    hide IdsBelow, TablesShow, BufferHolds, Sound, AllSound, Sorted, Lookup, CompactsTo, HistoryOk;
    if a.BeginFlush? { FlushUsable(s.proc.mem, a.rs); }
    if a.BeginCompact? { CompactUsable(env, s.proc.tables, a.rs); }
  }

  lemma FlushUsable(mem: Buffer, rs: seq<Record>)
    requires Lists(rs, mem) && mem != map[] && forall k :: k in mem ==> Replayable(mem[k])
    ensures Usable(rs)
  {
    var k :| k in mem;
    assert Lookup(rs, k) == At(mem, k);
  }

  lemma CompactUsable(env: Env, hs: seq<Handle>, rs: seq<Record>)
    requires AllSound(env.fnv, hs) && CompactsTo(Contents(hs), rs)
    ensures rs != [] ==> Usable(rs)
  {
    CompactsOk(env.fnv, hs, rs);
  }

  lemma BuildProc(env: Env, s: Store, a: Action, t: Store)
    requires Inv(env, s) && s.proc.Up? && BuildStep(env, s, a, t) && DiskInv(env, t) && PhaseInv(env, t)
    ensures ProcInv(env, t)
  {
    hide AllSound, IdsBelow, TablesShow, BufferHolds, Sound, PhaseInv, HistoryOk, Lists, CompactsTo, Keyed, Contents;
    assert Settled(t) == Settled(s);
  }

  lemma BuildKeeps(env: Env, s: Store, a: Action, t: Store)
    requires Inv(env, s) && s.proc.Up? && BuildStep(env, s, a, t)
    ensures Inv(env, t)
  {
    hide BuildStep, ProcInv, PhaseInv;
    BuildFrame(env, s, a, t);
    BuildPhase(env, s, a, t);
    BuildProc(env, s, a, t);
  }

  /** Every planned table is on disk: the old ones were listed, the new one was just written. */
  lemma PlannedTable(env: Env, s: Store, i: nat)
    requires Inv(env, s) && s.proc.Up? && s.proc.phase.Committing? && i < |s.proc.phase.hs|
    ensures var h := s.proc.phase.hs[i];
            && h.id in s.disk.ssts && h.id in s.disk.blooms
            && s.disk.ssts[h.id] == h.table && s.disk.blooms[h.id] == h.bloom
            && Sound(env.fnv, h) && 0 < h.id <= s.proc.nextFileId
            && (i < |s.proc.phase.hs| - 1 ==>
                  i < |HandlesOf(s.disk)| && h == HandlesOf(s.disk)[i] && h.id < s.proc.nextFileId)
            && (i == |s.proc.phase.hs| - 1 ==> h.id == s.proc.nextFileId)
  {
    hide TablesShow, BufferHolds, Sound, Lists, CompactsTo, Contents, RowsOf, HistoryOk;
    var p := s.proc;
    if i < |p.phase.hs| - 1 { assert p.phase.hs[i] == p.phase.hs[..|p.tables|][i] == HandlesOf(s.disk)[i]; }
  }

  lemma ListedHandles(d: Disk, hs: seq<Handle>)
    requires d.manifest.tables == RowsOf(hs)
    requires forall i :: 0 <= i < |hs| ==>
               var h := hs[i];
               h.id in d.ssts && h.id in d.blooms && d.ssts[h.id] == h.table && d.blooms[h.id] == h.bloom
    ensures Present(d) && HandlesOf(d) == hs
  {
    assert forall i :: 0 <= i < |hs| ==> d.manifest.tables[i] == RowOf(hs[i]);
  }

  /** Saving the manifest makes the planned tables the ones Open finds. */
  lemma CommittedHandles(env: Env, s: Store, t: Store)
    requires Inv(env, s) && s.proc.Up? && CommitStep(s, Commit, t)
    ensures Present(t.disk) && HandlesOf(t.disk) == s.proc.phase.hs
    ensures AllSound(env.fnv, HandlesOf(t.disk)) && IdsBelow(HandlesOf(t.disk), t.disk.manifest.nextFileId)
  {
    var hs := s.proc.phase.hs;
    var on := HandlesOf(s.disk);
    assert IdsBelow(on, s.disk.manifest.nextFileId);
    hide Inv, Sound, RowsOf;
    forall i | 0 <= i < |hs|
      ensures var h := hs[i];
              && h.id in t.disk.ssts && h.id in t.disk.blooms
              && t.disk.ssts[h.id] == h.table && t.disk.blooms[h.id] == h.bloom
              && Sound(env.fnv, h) && 0 < h.id < t.disk.manifest.nextFileId
              && (i < |hs| - 1 ==> i < |on| && h == on[i] && h.id < s.proc.nextFileId)
              && (i == |hs| - 1 ==> h.id == s.proc.nextFileId)
    {
      PlannedTable(env, s, i);
    }
    ListedHandles(t.disk, hs);
  }

  /** What the new tables show: a flush everything so far, a compaction of aged tables what they showed. */
  lemma CommittedShow(env: Env, s: Store)
    requires Inv(env, s) && s.proc.Up? && s.proc.phase.Committing? && s.lossless
    ensures s.proc.phase.flush ==> TablesShow(Contents(s.proc.phase.hs), s.history)
    ensures !s.proc.phase.flush && TablesAgree(Contents(s.proc.tables)) ==>
              TablesShow(Contents(s.proc.phase.hs), s.history[..s.tabled])
  {
    hide AllSound, IdsBelow, BufferHolds, Sound, Lists, CompactsTo, Written, Lookup, FindTables, Agrees, HistoryOk;
    var p := s.proc;
    var hs, ts := p.phase.hs, Contents(p.tables);
    if p.phase.flush {
      var rs := hs[|p.tables|].table;
      assert Contents(hs) == ts + [rs];
      forall k ensures Visible(FindTables(Contents(hs), k)) == ValueOf(s.history, k) {
        FlushKeepsReads(p.mem, ts, rs, k);
        OverlapReads(p.mem, ts, s.history, s.shown, s.buffered, k);
      }
    } else if TablesAgree(ts) {
      var rs := if hs == [] then [] else hs[0].table;
      assert Contents(hs) == Compacted(rs) by { CompactedHandles(env, s); }
      SoundSorted(env.fnv, p.tables);
      forall k ensures Visible(FindTables(Contents(hs), k)) == ValueOf(s.history[..s.tabled], k) {
        CompactKeepsReadIff(map[], ts, rs, k);
        assert Agrees(map[], ts, k);
        assert Visible(FindTables(ts, k)) == ValueOf(s.history[..s.tabled], k);
      }
    }
  }

  lemma CompactedHandles(env: Env, s: Store)
    requires Inv(env, s) && s.proc.Up? && s.proc.phase.Committing? && !s.proc.phase.flush
    ensures var hs := s.proc.phase.hs;
            Contents(hs) == Compacted(if hs == [] then [] else hs[0].table)
  {
    hide TablesShow, BufferHolds, Lists, CompactsTo, Sorted, HistoryOk;
  }

  lemma CommitDisk(env: Env, s: Store, t: Store)
    requires Inv(env, s) && s.proc.Up? && CommitStep(s, Commit, t)
    ensures DiskInv(env, t)
  {
    CommittedHandles(env, s, t);
    if s.lossless { CommittedShow(env, s); }
    hide AllSound, IdsBelow, TablesShow, BufferHolds, Sound, TablesAgree, Planned, Written, HistoryOk;
    assert s.history[..|s.history|] == s.history;
  }

  lemma CommitProc(env: Env, s: Store, t: Store)
    requires Inv(env, s) && s.proc.Up? && CommitStep(s, Commit, t)
    requires Present(t.disk) && HandlesOf(t.disk) == s.proc.phase.hs
    ensures ProcInv(env, t)
  {
    hide AllSound, IdsBelow, TablesShow, BufferHolds, Sound, Lists, CompactsTo, TablesAgree, Written, Keyed, HistoryOk;
    assert Settled(t) == Settled(s);
    assert Planned(t.proc, t.proc.phase.flush, t.proc.phase.hs);
  }

  lemma CommitKeeps(env: Env, s: Store, t: Store)
    requires Inv(env, s) && s.proc.Up? && CommitStep(s, Commit, t)
    ensures Inv(env, t)
  {
    hide DiskInv, ProcInv;
    CommittedHandles(env, s, t);
    CommitDisk(env, s, t);
    CommitProc(env, s, t);
  }

  lemma SwapDisk(env: Env, s: Store, t: Store)
    requires Inv(env, s) && s.proc.Up? && CommitStep(s, Swap, t)
    ensures DiskInv(env, t) && HandlesOf(t.disk) == HandlesOf(s.disk)
  {
    hide AllSound, IdsBelow, TablesShow, BufferHolds, Planned, Keyed, HistoryOk;
  }

  lemma SwapFlush(env: Env, s: Store, t: Store)
    requires Inv(env, s) && s.proc.Up? && CommitStep(s, Swap, t) && s.proc.phase.flush
             && HandlesOf(t.disk) == HandlesOf(s.disk)
    ensures ProcInv(env, t)
  {
    hide AllSound, IdsBelow, TablesShow, BufferHolds, Planned, HistoryOk;
    assert Settled(t) == s.history && s.history[|s.history|..] == [] && s.history[..s.tabled] == s.history[..t.shown];
    EmptyHolds();
  }

  lemma SwapCompact(env: Env, s: Store, t: Store)
    requires Inv(env, s) && s.proc.Up? && CommitStep(s, Swap, t) && !s.proc.phase.flush
             && HandlesOf(t.disk) == HandlesOf(s.disk)
    ensures ProcInv(env, t)
  {
    hide AllSound, IdsBelow, TablesShow, BufferHolds, Planned, HistoryOk;
    assert Settled(t) == Settled(s) == s.history;
  }

  lemma SwapKeeps(env: Env, s: Store, t: Store)
    requires Inv(env, s) && s.proc.Up? && CommitStep(s, Swap, t)
    ensures Inv(env, t)
  {
    hide DiskInv, ProcInv;
    SwapDisk(env, s, t);
    if s.proc.phase.flush { SwapFlush(env, s, t); } else { SwapCompact(env, s, t); }
  }

  lemma EmptyHolds()
    ensures BufferHolds(map[], [])
  {
  }

  lemma TailDisk(env: Env, s: Store, a: Action, t: Store)
    requires Inv(env, s) && s.proc.Up? && CommitStep(s, a, t) && !a.Commit? && !a.Swap?
    ensures DiskInv(env, t) && HandlesOf(t.disk) == HandlesOf(s.disk)
  {
    hide AllSound, IdsBelow, TablesShow, Sound, BufferHolds;
    if a.Clean? {
      SameHandles(s.disk, t.disk);
    } else {
      assert t.disk == s.disk.(log := t.disk.log);
      assert HandlesOf(t.disk) == HandlesOf(s.disk);
    }
    assert t.tabled == s.tabled && t.history == s.history;
  }

  lemma TailKeeps(env: Env, s: Store, a: Action, t: Store)
    requires Inv(env, s) && s.proc.Up? && CommitStep(s, a, t) && !a.Commit? && !a.Swap?
    ensures Inv(env, t)
  {
    TailDisk(env, s, a, t);
    hide AllSound, TablesShow, BufferHolds, Keyed, Planned, Written, Usable, DiskInv;
    assert t.proc.Up? ==> Settled(t) == Settled(s);
  }

  lemma CrashKeeps(env: Env, s: Store, n: nat, t: Store)
    requires Inv(env, s) && CrashStep(env, s, n, t)
    ensures Inv(env, t)
  {
    hide AllSound, IdsBelow, TablesShow, Sound, BufferHolds, LogAfter, CleanLog, Storable;
    assert HandlesOf(t.disk) == HandlesOf(s.disk);
    assert t.history[..t.tabled] == s.history[..s.tabled];
  }

  lemma {:induction false} RebuildKeyed(rs: seq<Record>)
    requires forall i :: 0 <= i < |rs| ==> Replayable(rs[i])
    ensures Keyed(Rebuild(rs)) && forall k :: k in Rebuild(rs) ==> Replayable(Rebuild(rs)[k])
  {
    if rs != [] { RebuildKeyed(rs[..|rs| - 1]); }
  }

  lemma RestartHistory(env: Env, s: Store, t: Store)
    requires RestartStep(env, s, t) && s.logged <= s.tabled && HistoryOk(s.history)
    ensures t.shown == t.tabled == s.tabled && t.logged == t.buffered <= t.tabled <= |t.history|
    ensures t.history[..t.tabled] == s.history[..s.tabled]
    ensures t.history[t.logged..] == Replay(env, s.disk.log).records && HistoryOk(t.history)
    ensures t.disk == s.disk && Faithful(env, t)
  {
    hide Rebuild, Wal.MaxSeq, ResumeSeq, HandlesOf, Replayable, Present, Wal.ReplayFrom;
  }

  lemma RestartDisk(env: Env, s: Store, t: Store)
    requires DiskInv(env, s) && RestartStep(env, s, t)
    ensures DiskInv(env, t) && HandlesOf(t.disk) == HandlesOf(s.disk)
  {
    RestartHistory(env, s, t);
    hide AllSound, IdsBelow, TablesShow, Rebuild, Wal.MaxSeq, ResumeSeq, Replay, Opens, HistoryOk;
  }

  lemma RestartKeeps(env: Env, s: Store, t: Store)
    requires Inv(env, s) && RestartStep(env, s, t)
    ensures Inv(env, t)
  {
    hide AllSound, IdsBelow, TablesShow, Sound, BufferHolds, Rebuild, Wal.MaxSeq, ResumeSeq, Replay;
    RestartDisk(env, s, t);
    RestartHistory(env, s, t);
    var rs := Replay(env, s.disk.log).records;
    assert Settled(t) == t.history;
    RebuildKeyed(rs);
    RebuildHolds(rs);
  }

  lemma RebuildHolds(rs: seq<Record>)
    ensures BufferHolds(Rebuild(rs), rs)
  {
    forall k ensures Alike(At(Rebuild(rs), k), Lookup(rs, k)) { RebuildAt(rs, k); }
  }

  lemma StepKeeps(env: Env, s: Store, a: Action, t: Store)
    requires Inv(env, s) && Step(env, s, a, t)
    ensures Inv(env, t)
  {
    hide Inv, WriteStep, BuildStep, CommitStep, CrashStep, RestartStep;
    if a.Crash? {
      CrashKeeps(env, s, a.n, t);
    } else if a.Restart? {
      RestartKeeps(env, s, t);
    } else if a.RestartFails? {
      assert RefusedRestart(env, s, t);
    } else if WriteStep(env, s, a, t) {
      WriteKeeps(env, s, a, t);
    } else if BuildStep(env, s, a, t) {
      BuildKeeps(env, s, a, t);
    } else if a.Commit? {
      CommitKeeps(env, s, t);
    } else if a.Swap? {
      SwapKeeps(env, s, t);
    } else {
      TailKeeps(env, s, a, t);
    }
  }

  // ---- age ----

  /** Sequence numbers below this are taken; a write in progress holds one that no version has yet. */
  ghost function Limit(p: Process): nat
    requires p.Up?
  {
    if p.phase.Appending? || p.phase.Buffering? then p.phase.r.seqno else p.nextSeq
  }

  ghost predicate Aged(mem: Buffer, hs: seq<Handle>, next: nat) {
    AgeOrdered(mem, Contents(hs)) && Below(mem, Contents(hs), next)
  }

  /** As long as no log was replayed over tables, position and sequence agree and nothing is lost. */
  ghost predicate AgeInv(s: Store) {
    && Present(s.disk)
    && (s.proc.Up? && (s.proc.phase.Appending? || s.proc.phase.Buffering?) ==>
          s.proc.nextSeq == s.proc.phase.r.seqno + 1)
    && (s.orderly ==>
          && s.lossless && Aged(map[], HandlesOf(s.disk), s.disk.manifest.nextSeq)
          && (s.proc.Up? ==> Aged(s.proc.mem, s.proc.tables, Limit(s.proc))))
  }

  lemma PlannedAge(env: Env, p: Process, flush: bool, hs: seq<Handle>)
    requires p.Up? && AllSound(env.fnv, p.tables) && Planned(p, flush, hs) && AllSound(env.fnv, hs)
    requires Aged(p.mem, p.tables, p.nextSeq)
    ensures Aged(if flush then map[] else p.mem, hs, p.nextSeq) && Aged(map[], hs, p.nextSeq)
  {
    hide AgeOrdered, Below, Sound, Lists, CompactsTo, Sorted;
    var ts := Contents(p.tables);
    if flush {
      var rs := hs[|p.tables|].table;
      assert Contents(hs) == ts + [rs];
      FlushKeepsAge(p.mem, ts, rs, p.nextSeq);
    } else {
      var rs := if hs == [] then [] else hs[0].table;
      assert Contents(hs) == Compacted(rs) by { if hs != [] { SoundTable(env, hs[0]); } }
      SoundSorted(env.fnv, p.tables);
      CompactKeepsAge(p.mem, ts, rs, p.nextSeq);
      LessBuffer(p.mem, Compacted(rs), p.nextSeq);
    }
  }

  lemma SoundTable(env: Env, h: Handle)
    requires Sound(env.fnv, h)
    ensures h.table != []
  {
  }

  lemma LessBuffer(mem: Buffer, tables: seq<seq<Record>>, next: nat)
    requires AgeOrdered(mem, tables) && Below(mem, tables, next)
    ensures AgeOrdered(map[], tables) && Below(map[], tables, next)
  {
  }

  /** A log replayed with no table under it, or an empty log, leaves the order intact. */
  lemma RestartAge(env: Env, s: Store, t: Store)
    requires AgeInv(s) && RestartStep(env, s, t) && t.orderly
    requires forall k :: k in t.proc.mem ==> t.proc.mem[k].seqno <= Wal.MaxSeq(Replay(env, s.disk.log).records)
    ensures Aged(t.proc.mem, t.proc.tables, t.proc.nextSeq)
  {
    hide Wal.MaxSeq, Lookup, Replay, Opens;
    var rs := Replay(env, s.disk.log).records;
    if rs == [] {
      assert t.proc.mem == map[];
    } else {
      assert Contents(t.proc.tables) == [];
    }
  }

  lemma {:induction false} RebuildBelow(rs: seq<Record>)
    ensures forall k :: k in Rebuild(rs) ==> Rebuild(rs)[k].seqno <= Wal.MaxSeq(rs)
  {
    if rs != [] {
      RebuildBelow(rs[..|rs| - 1]);
      assert Wal.MaxSeq(rs[..|rs| - 1]) <= Wal.MaxSeq(rs);
    }
  }

  lemma ApplyAge(env: Env, s: Store, t: Store)
    requires AgeInv(s) && s.proc.Up? && WriteStep(env, s, Apply, t)
    ensures AgeInv(t)
  {
    hide AgeOrdered, Below;
    assert HandlesOf(t.disk) == HandlesOf(s.disk);
    if s.orderly { PutKeepsAge(s.proc.mem, Contents(s.proc.tables), s.proc.phase.r); }
  }

  lemma InstallAge(env: Env, s: Store, a: Action, t: Store)
    requires AgeInv(s) && Inv(env, s) && Inv(env, t) && s.proc.Up? && CommitStep(s, a, t) && (a.Commit? || a.Swap?)
    ensures AgeInv(t)
  {
    hide Aged, AllSound, IdsBelow, TablesShow, BufferHolds, Written, Keyed, Planned;
    if s.orderly {
      PlannedAge(env, s.proc, s.proc.phase.flush, s.proc.phase.hs) by {
        if a.Commit? { CommittedHandles(env, s, t); }
      }
      assert a.Commit? ==> TablesAgree(Contents(s.proc.tables)) by {
        hide *;
        AgedTables(s.proc.mem, s.proc.tables, s.proc.nextSeq);
      }
    }
  }

  lemma AgedTables(mem: Buffer, hs: seq<Handle>, next: nat)
    requires Aged(mem, hs, next)
    ensures TablesAgree(Contents(hs))
  {
    hide Agrees;
    LessBuffer(mem, Contents(hs), next);
    forall k ensures Agrees(map[], Contents(hs), k) { AgedAgrees(map[], Contents(hs), k); }
  }

  lemma WriteFiles(env: Env, s: Store, a: Action, t: Store)
    requires s.proc.Up? && WriteStep(env, s, a, t)
    ensures t.disk == s.disk.(log := t.disk.log)
  {
    hide Stored, Replayable, LogAfter, CleanLog, Storable;
  }

  lemma CommitFiles(s: Store, a: Action, t: Store)
    requires s.proc.Up? && CommitStep(s, a, t) && !a.Commit?
    ensures t.disk.manifest == s.disk.manifest
    ensures a.Clean? || t.disk == s.disk.(log := t.disk.log)
  {
  }

  lemma CrashFiles(env: Env, s: Store, a: Action, t: Store)
    requires (a.Crash? && CrashStep(env, s, a.n, t)) || RestartStep(env, s, t) || RefusedRestart(env, s, t)
    ensures t.disk == s.disk.(log := t.disk.log)
  {
    hide Rebuild, Wal.MaxSeq, ResumeSeq, HandlesOf, LogAfter, CleanLog, Storable, Replay, Opens;
  }

  lemma SameTables(d: Disk, e: Disk)
    requires Present(d) && e == d.(log := e.log)
    ensures Present(e) && HandlesOf(e) == HandlesOf(d)
  {
  }

  lemma CleanFiles(s: Store, a: Action, t: Store)
    requires s.proc.Up? && CommitStep(s, a, t) && a.Clean? && Present(s.disk)
    ensures Present(t.disk) && HandlesOf(t.disk) == HandlesOf(s.disk)
  {
    SameHandles(s.disk, t.disk);
  }

  /** Only a manifest save changes what Open would load. */
  lemma OtherStepsKeepHandles(env: Env, s: Store, a: Action, t: Store)
    requires Inv(env, s) && Step(env, s, a, t) && !a.Commit?
    ensures Present(t.disk) && HandlesOf(t.disk) == HandlesOf(s.disk)
  {
    hide ProcInv, AllSound, IdsBelow, TablesShow, HistoryOk, HandlesOf, Present,
         WriteStep, BuildStep, CommitStep, CrashStep, RestartStep, RefusedRestart;
    if a.Crash? || a.Restart? || a.RestartFails? {
      CrashFiles(env, s, a, t);
      SameTables(s.disk, t.disk);
    } else if BuildStep(env, s, a, t) {
      BuildFrame(env, s, a, t);
    } else if WriteStep(env, s, a, t) {
      WriteFiles(env, s, a, t);
      SameTables(s.disk, t.disk);
    } else if a.Clean? {
      CleanFiles(s, a, t);
    } else {
      CommitFiles(s, a, t);
      SameTables(s.disk, t.disk);
    }
  }

  lemma RestartsAge(env: Env, s: Store, t: Store)
    requires AgeInv(s) && RestartStep(env, s, t)
    ensures AgeInv(t)
  {
    hide Aged, Rebuild, Wal.MaxSeq, Replay, Opens;
    assert HandlesOf(t.disk) == HandlesOf(s.disk);
    RebuildBelow(Replay(env, s.disk.log).records);
    if t.orderly { RestartAge(env, s, t); }
  }

  /** Same versions, same counter, same flags. */
  ghost predicate SameVersions(s: Store, t: Store) {
    && t.orderly == s.orderly && t.lossless == s.lossless && t.disk.manifest == s.disk.manifest
    && (t.proc.Up? ==>
          && s.proc.Up? && t.proc.mem == s.proc.mem && t.proc.tables == s.proc.tables && Limit(t.proc) == Limit(s.proc)
          && (t.proc.phase.Appending? || t.proc.phase.Buffering? ==> t.proc.nextSeq == t.proc.phase.r.seqno + 1))
  }

  lemma WriteQuiet(env: Env, s: Store, a: Action, t: Store)
    requires AgeInv(s) && s.proc.Up? && WriteStep(env, s, a, t) && !a.Apply?
    ensures SameVersions(s, t)
  {
    hide Aged, LogAfter, CleanLog, Storable, HandlesOf;
  }

  lemma BuildQuiet(env: Env, s: Store, a: Action, t: Store)
    requires AgeInv(s) && s.proc.Up? && BuildStep(env, s, a, t)
    ensures SameVersions(s, t)
  {
    hide Aged, HandlesOf, Sound, Lists, CompactsTo;
  }

  lemma CommitQuiet(s: Store, a: Action, t: Store)
    requires AgeInv(s) && s.proc.Up? && CommitStep(s, a, t) && !a.Commit? && !a.Swap?
    ensures SameVersions(s, t)
  {
    hide Aged, HandlesOf;
  }

  /** The steps that touch neither versions nor the manifest. */
  lemma QuietAge(env: Env, s: Store, a: Action, t: Store)
    requires AgeInv(s) && Step(env, s, a, t) && !a.Apply? && !a.Commit? && !a.Swap? && !a.Restart?
    requires Present(t.disk) && HandlesOf(t.disk) == HandlesOf(s.disk)
    ensures AgeInv(t)
  {
    hide Aged, HandlesOf, WriteStep, BuildStep, CommitStep, Present, LogAfter, CleanLog, Storable;
    if !a.Crash? && !a.RestartFails? {
      if WriteStep(env, s, a, t) { WriteQuiet(env, s, a, t); }
      else if BuildStep(env, s, a, t) { BuildQuiet(env, s, a, t); }
      else { CommitQuiet(s, a, t); }
    }
  }

  lemma StepAge(env: Env, s: Store, a: Action, t: Store)
    requires AgeInv(s) && Inv(env, s) && Inv(env, t) && Step(env, s, a, t)
    ensures AgeInv(t)
  {
    hide AgeInv, Inv, WriteStep, BuildStep, CommitStep, CrashStep, RestartStep;
    if a.Restart? {
      RestartsAge(env, s, t);
    } else {
      StepKind(env, s, a, t);
      if a.Apply? {
        ApplyAge(env, s, t);
      } else if a.Commit? || a.Swap? {
        InstallAge(env, s, a, t);
      } else {
        OtherStepsKeepHandles(env, s, a, t);
        QuietAge(env, s, a, t);
      }
    }
  }

  lemma StepKind(env: Env, s: Store, a: Action, t: Store)
    requires Step(env, s, a, t)
    ensures a.Apply? || a.Append? || a.Fail? ==> s.proc.Up? && WriteStep(env, s, a, t)
    ensures a.Commit? || a.Swap? ==> s.proc.Up? && CommitStep(s, a, t)
  {
  }

  // ---- whole runs ----

  /** s is reached from an empty directory by the actions, in order. */
  ghost predicate RunsTo(env: Env, actions: seq<Action>, s: Store) {
    if actions == [] then s == INIT
    else
      var before, last := actions[..|actions| - 1], actions[|actions| - 1];
      exists p :: RunsTo(env, before, p) && Step(env, p, last, s)
  }

  lemma {:induction false} RunInv(env: Env, actions: seq<Action>, s: Store)
    requires RunsTo(env, actions, s)
    ensures Inv(env, s) && AgeInv(s)
  {
    hide Inv, AgeInv, Step;
    if actions == [] {
      InitInv(env);
      InitAge();
    } else {
      var before, last := actions[..|actions| - 1], actions[|actions| - 1];
      var p :| RunsTo(env, before, p) && Step(env, p, last, s);
      RunInv(env, before, p);
      StepKeeps(env, p, last, s);
      StepAge(env, p, last, s);
    }
  }

  lemma InitAge()
    ensures AgeInv(INIT)
  {
    assert Contents(HandlesOf(INIT.disk)) == [];
  }

  /** In every state of every run, whatever crashed before, Get answers with the last operation. */
  lemma AnswersHistory(env: Env, actions: seq<Action>, s: Store, k: bytes)
    requires RunsTo(env, actions, s) && s.proc.Up? && s.lossless
    ensures Answer(s, k) == ValueOf(Settled(s), k)
  {
    RunInv(env, actions, s);
    hide DiskInv, AgeInv, AllSound, PhaseInv, TablesShow, BufferHolds, RunsTo;
    OverlapReads(s.proc.mem, Contents(s.proc.tables), Settled(s), s.shown, s.buffered, k);
  }

  /** Until a restart replays a non-empty log over existing tables, no compaction can lose anything. */
  lemma OrderlyIsLossless(env: Env, actions: seq<Action>, s: Store)
    requires RunsTo(env, actions, s) && s.orderly
    ensures s.lossless
    ensures s.proc.Up? ==> AgeOrdered(s.proc.mem, Contents(s.proc.tables))
  {
    RunInv(env, actions, s);
  }

  // ---- what the log's bytes are worth ----

  /** A tidy log replays to exactly the operations it is there for. */
  ghost predicate TidyInv(env: Env, s: Store) {
    s.tidy ==> Faithful(env, s)
  }

  /** Bytes of one frame written to a clean log that was faithful. */
  lemma WrittenLog(env: Env, s: Store, n: nat)
    requires s.proc.Up? && s.proc.phase.Appending? && Storable(env.max, Logged(s.proc))
    requires n <= FrameSize(s.proc.phase.r) && Faithful(env, s)
    requires n == 0 || CleanLog(env, s.disk.log)
    ensures Replay(env, LogAfter(env, s, n))
         == Wal.Replayed(
              s.history[s.logged..] + (if n == FrameSize(s.proc.phase.r) then [Logged(s.proc)] else []), true)
  {
    hide Frame, Wal.ReplayFrom, Wal.Clean, Storable;
    if n == 0 {
      assert LogAfter(env, s, n) == s.disk.log;
      assert s.history[s.logged..] + [] == s.history[s.logged..];
    } else {
      Wal.CleanWrite(env.crc, env.max, s.disk.log, Logged(s.proc), n);
      assert s.history[s.logged..] + [] == s.history[s.logged..];
    }
  }

  lemma AppendTidy(env: Env, s: Store, t: Store)
    requires TidyInv(env, s) && s.proc.Up? && WriteStep(env, s, Append, t)
    ensures TidyInv(env, t)
  {
    hide LogAfter, CleanLog, Storable, Replay;
    if t.tidy {
      WrittenLog(env, s, FrameSize(s.proc.phase.r));
      assert t.history[t.logged..] == s.history[s.logged..] + [Logged(s.proc)];
    }
  }

  lemma FailTidy(env: Env, s: Store, n: nat, t: Store)
    requires TidyInv(env, s) && s.proc.Up? && WriteStep(env, s, Fail(n), t)
    ensures TidyInv(env, t)
  {
    hide LogAfter, CleanLog, Storable, Replay;
    if t.tidy {
      WrittenLog(env, s, n);
      assert s.history[s.logged..] + [] == s.history[s.logged..];
    }
  }

  lemma CrashTidy(env: Env, s: Store, n: nat, t: Store)
    requires TidyInv(env, s) && CrashStep(env, s, n, t)
    ensures TidyInv(env, t)
  {
    hide LogAfter, CleanLog, Storable, Replay;
    if t.tidy && n > 0 {
      WrittenLog(env, s, n);
      assert t.history[t.logged..]
          == s.history[s.logged..] + (if n == FrameSize(s.proc.phase.r) then [Logged(s.proc)] else []);
    }
  }

  lemma DropTidy(env: Env, s: Store, t: Store)
    requires t.disk.log == [] && t.logged == |t.history|
    ensures Faithful(env, t)
  {
    assert t.history[t.logged..] == [];
  }

  /** Steps that leave the log, the history and the marks between them alone. */
  lemma OtherTidy(env: Env, s: Store, a: Action, t: Store)
    requires s.proc.Up?
    requires BuildStep(env, s, a, t) || CommitStep(s, a, t)
             || (WriteStep(env, s, a, t) && !a.Append? && !a.Fail?)
    ensures t.history == s.history
    ensures (t.disk.log == s.disk.log && t.logged == s.logged && t.tidy == s.tidy)
            || (t.disk.log == [] && t.logged == |t.history| && t.tidy)
  {
    hide Sound, Lists, CompactsTo, TablesAgree, FailStep, Stored, Replayable;
    if BuildStep(env, s, a, t) {
      hide WriteStep, CommitStep;
    } else if CommitStep(s, a, t) {
      hide WriteStep, BuildStep;
    } else {
      hide BuildStep, CommitStep;
    }
  }

  lemma TidyStep(env: Env, s: Store, a: Action, t: Store)
    requires DiskInv(env, s) && TidyInv(env, s) && Step(env, s, a, t)
    ensures TidyInv(env, t)
  {
    hide AllSound, IdsBelow, TablesShow, HandlesOf, WriteStep, BuildStep, CommitStep, CrashStep, RestartStep, Replay;
    if a.Crash? {
      CrashTidy(env, s, a.n, t);
    } else if a.Restart? {
      RestartHistory(env, s, t);
    } else if a.RestartFails? {
      assert t == s;
    } else if a.Append? {
      StepKind(env, s, a, t);
      AppendTidy(env, s, t);
    } else if a.Fail? {
      StepKind(env, s, a, t);
      FailTidy(env, s, a.n, t);
    } else {
      OtherTidy(env, s, a, t);
      if t.disk.log == [] && t.logged == |t.history| { DropTidy(env, s, t); }
    }
  }

  /** In every run, a tidy log recovers the history as it is, and Open accepts it. */
  lemma {:induction false} TidyIsFaithful(env: Env, actions: seq<Action>, s: Store)
    requires RunsTo(env, actions, s)
    ensures TidyInv(env, s)
    ensures s.tidy ==> Opens(env, s.disk.log)
  {
    hide Inv, AgeInv, Step, Replay, HandlesOf;
    if actions == [] {
      DropTidy(env, s, s);
    } else {
      var before, last := actions[..|actions| - 1], actions[|actions| - 1];
      var p :| RunsTo(env, before, p) && Step(env, p, last, s);
      TidyIsFaithful(env, before, p);
      RunInv(env, before, p);
      InvDisk(env, p);
      hide DiskInv;
      TidyStep(env, p, last, s);
    }
    RunInv(env, actions, s);
    InvDisk(env, s);
    if s.tidy { SuffixOk(s.history, s.logged); }
  }

  lemma InvDisk(env: Env, s: Store)
    requires Inv(env, s)
    ensures DiskInv(env, s) && HistoryOk(s.history)
  {
    hide ProcInv, AllSound, IdsBelow, TablesShow;
  }

  lemma SuffixOk(h: seq<Record>, n: nat)
    requires HistoryOk(h) && n <= |h|
    ensures HistoryOk(h[n..])
  {
  }

  // ---- crash recovery ----

  /** The write that holds the lock when the process dies. */
  ghost predicate InFlight(s: Store, r: Record) {
    s.proc.Up? && (s.proc.phase.Appending? || s.proc.phase.Buffering?) && s.proc.phase.r == r
  }

  /** Crash recovery: a crash at any step of any run, even after any byte of a log frame, then Open. When
      the log is faithful, as a tidy one always is, every key answers as it did before the crash, except
      that a write in flight may have taken effect. When it is not, every key answers with the last record
      replay found for it, or else with what the tables show. */
  lemma CrashRecovery(env: Env, actions: seq<Action>, s: Store, n: nat, c: Store, t: Store, k: bytes)
    requires RunsTo(env, actions, s) && s.proc.Up? && s.lossless
    requires CrashStep(env, s, n, c) && RestartStep(env, c, t)
    ensures c.tidy ==> Faithful(env, c)
    ensures Faithful(env, c) ==>
              || Answer(t, k) == Answer(s, k)
              || (exists r :: InFlight(s, r) && k == r.key && Answer(t, k) == Visible(Some(r)))
    ensures Faithful(env, c) && s.proc.phase.Buffering? && k == s.proc.phase.r.key ==>
              Answer(t, k) == Visible(Some(s.proc.phase.r))
    ensures Faithful(env, c) && s.proc.phase.Appending? && n < FrameSize(s.proc.phase.r) ==>
              Answer(t, k) == Answer(s, k)
    ensures !Faithful(env, c) ==>
              var found := Lookup(Replay(env, c.disk.log).records, k);
              Answer(t, k) == if found.Some? then Visible(found) else ValueOf(c.history[..c.tabled], k)
  {
    hide RunsTo, Inv, AgeInv, RestartStep, Lookup, Replay;
    AnswersHistory(env, actions, s, k);
    Extend(env, actions, s, Crash(n), c);
    Extend(env, actions + [Crash(n)], c, Restart, t);
    TidyIsFaithful(env, actions + [Crash(n)], c);
    RestartShape(env, c, t);
    AnswersHistory(env, actions + [Crash(n)] + [Restart], t, k);
    if !Faithful(env, c) {
      LookupConcat(c.history[..c.tabled], Replay(env, c.disk.log).records, k);
    } else if (s.proc.phase.Appending? && n == FrameSize(s.proc.phase.r)) || s.proc.phase.Buffering? {
      var r := s.proc.phase.r;
      assert InFlight(s, r);
      RunInv(env, actions, s);
      InFlightLast(env, s, n, c);
      LookupConcat(Settled(s), [c.history[|c.history| - 1]], k);
      LookupOne(c.history[|c.history| - 1], k);
    }
  }

  lemma RestartShape(env: Env, c: Store, t: Store)
    requires RestartStep(env, c, t)
    ensures t.proc.Up? && t.lossless == c.lossless && c.tabled <= |c.history|
    ensures Settled(t) == if Faithful(env, c) then c.history
                          else c.history[..c.tabled] + Replay(env, c.disk.log).records
  {
    hide Replay, HandlesOf, Rebuild;
  }

  /** After a tidy crash Open succeeds. */
  lemma TidyRestarts(env: Env, actions: seq<Action>, c: Store) returns (t: Store)
    requires RunsTo(env, actions, c) && c.proc.Down? && c.tidy
    ensures RestartStep(env, c, t) && Faithful(env, c)
  {
    TidyIsFaithful(env, actions, c);
    RunInv(env, actions, c);
    InvDisk(env, c);
    hide RunsTo, Inv, AgeInv, AllSound, TablesShow, Replay, IdsBelow;
    var rs, m := Replay(env, c.disk.log).records, c.disk.manifest;
    t := c.(proc := Up(Rebuild(rs), HandlesOf(c.disk), ResumeSeq(m.nextSeq, rs), m.nextFileId, Wal.MaxSeq(rs), Idle),
            shown := c.tabled, buffered := c.logged, tidy := true,
            orderly := c.orderly && (rs == [] || (m.tables == [] && Wal.MaxSeq(rs) < MAX_U64)));
  }

  /** Only an append or a crash behind a whole frame adds to the history, and only a restart from an
      unfaithful log rewrites it. A log stops being tidy exactly when a byte goes behind a part of a
      frame, or a write fails with its whole frame in the log. */
  lemma HistoryStep(env: Env, s: Store, a: Action, t: Store)
    requires Step(env, s, a, t)
    ensures t.history == s.history
         || ((a.Append? || a.Crash?) && |t.history| == |s.history| + 1 && s.history <= t.history)
         || (a.Restart? && !Faithful(env, s) && s.tabled <= |s.history|
             && t.history == s.history[..s.tabled] + Replay(env, s.disk.log).records)
    ensures s.tidy ==>
              (!t.tidy <==> || (Writes(a) && !CleanLog(env, s.disk.log))
                            || (a.Fail? && s.proc.Up? && s.proc.phase.Appending? && a.n == FrameSize(s.proc.phase.r)))
  {
    hide Replay, HandlesOf, Rebuild, LogAfter, CleanLog, Storable;
    if !a.Crash? && !a.Restart? && !a.RestartFails? && !a.Append? && !a.Fail? {
      OtherTidy(env, s, a, t);
    } else {
      hide BuildStep, CommitStep;
      StepKind(env, s, a, t);
    }
  }

  /** The step writes at least one byte to the log. */
  predicate Writes(a: Action) {
    a.Append? || (a.Fail? && a.n > 0) || (a.Crash? && a.n > 0)
  }

  /** A write that fails with its whole frame on a clean, faithful log makes it unfaithful. */
  lemma FailedWholeIsFound(env: Env, s: Store, t: Store)
    requires s.proc.Up? && s.proc.phase.Appending? && WriteStep(env, s, Fail(FrameSize(s.proc.phase.r)), t)
    requires Faithful(env, s) && CleanLog(env, s.disk.log)
    ensures !Faithful(env, t) && Replay(env, t.disk.log).records == s.history[s.logged..] + [Logged(s.proc)]
  {
    hide LogAfter, CleanLog, Storable, Replay;
    WrittenLog(env, s, FrameSize(s.proc.phase.r));
    assert |t.history[t.logged..]| == |s.history[s.logged..]|;
  }

  lemma InFlightLast(env: Env, s: Store, n: nat, c: Store)
    requires Inv(env, s) && CrashStep(env, s, n, c) && s.proc.Up?
    requires s.proc.phase.Buffering? || (s.proc.phase.Appending? && n == FrameSize(s.proc.phase.r))
    ensures c.history != [] && c.history == Settled(s) + [c.history[|c.history| - 1]]
    ensures var last := c.history[|c.history| - 1]; last == s.proc.phase.r.(seqno := last.seqno)
  {
    hide TablesShow, BufferHolds, AllSound, IdsBelow, DiskInv, LogAfter, CleanLog, Storable;
  }

  lemma Extend(env: Env, actions: seq<Action>, s: Store, a: Action, t: Store)
    requires RunsTo(env, actions, s) && Step(env, s, a, t)
    ensures RunsTo(env, actions + [a], t)
  {
    hide Step;
    assert (actions + [a])[..|actions|] == actions;
  }

  // ---- every outcome of the object's operations is a step ----

  /** A log append may succeed, or fail after any number of bytes, none and all of them included, and either
      way the log's own counter has moved on; a failure gives the engine's number back. */
  lemma AppendOutcomes(env: Env, s: Store, n: nat) returns (done: Store, failed: Store)
    requires s.proc.Up? && s.proc.phase.Appending? && Storable(env.max, Logged(s.proc))
    requires n <= FrameSize(s.proc.phase.r)
    ensures Step(env, s, Append, done) && Step(env, s, Fail(n), failed)
    ensures var r, frame := s.proc.phase.r, Frame(env.crc, Logged(s.proc));
            && done.disk == s.disk.(log := s.disk.log + frame) && failed.disk == s.disk.(log := s.disk.log + frame[..n])
            && done.proc == s.proc.(logSeq := WrapAdd(s.proc.logSeq, 1), phase := Buffering(r))
            && failed.proc == s.proc.(nextSeq := r.seqno, logSeq := WrapAdd(s.proc.logSeq, 1), phase := Idle)
            && done.history == s.history + [r.(seqno := WrapAdd(s.proc.logSeq, 1))] && failed.history == s.history
  {
    hide BuildStep, CommitStep, Frame, CleanLog;
    var f, p := Frame(env.crc, Logged(s.proc)), s.proc;
    assert f[..FrameSize(p.phase.r)] == f;
    done := s.(disk := s.disk.(log := s.disk.log + f), history := s.history + [Logged(p)],
               proc := p.(logSeq := Logged(p).seqno, phase := Buffering(p.phase.r)),
               tidy := s.tidy && CleanLog(env, s.disk.log));
    failed := s.(disk := s.disk.(log := s.disk.log + f[..n]),
                 proc := p.(nextSeq := p.phase.r.seqno, logSeq := Logged(p).seqno, phase := Idle),
                 tidy := s.tidy && (n == 0 || (n < FrameSize(p.phase.r) && CleanLog(env, s.disk.log))));
  }

  /** A refused record leaves no trace but in the moment: number given back, files and log counter as before. */
  lemma RefusalLeavesNothing(env: Env, s: Store, t: Store)
    requires Step(env, s, Refuse, t)
    ensures s.proc.Up? && s.proc.phase.Appending?
    ensures t.disk == s.disk && t.history == s.history
    ensures t.proc == s.proc.(nextSeq := s.proc.phase.r.seqno, phase := Idle)
  {
    hide Lists, CompactsTo, TablesAgree, Sound, LogAfter, CleanLog, Storable;
  }

  /** An aborted flush or compaction goes on as if it had not been, but for files that no manifest lists. */
  lemma AbortLeavesNothing(env: Env, s: Store, removed: bool, t: Store)
    requires Step(env, s, Abort(removed), t)
    ensures s.proc.Up? && t.proc == s.proc.(phase := Idle) && t.history == s.history
    ensures t.disk.manifest == s.disk.manifest && t.disk.log == s.disk.log
    ensures removed ==> s.proc.nextFileId !in t.disk.ssts && s.proc.nextFileId !in t.disk.blooms
    ensures forall id :: id != s.proc.nextFileId || !removed ==>
              At(t.disk.ssts, id) == At(s.disk.ssts, id) && At(t.disk.blooms, id) == At(s.disk.blooms, id)
  {
    hide Lists, CompactsTo, TablesAgree, Sound, LogAfter, CleanLog, Storable;
  }

  /** Only two tables or more are compacted, and only a buffer with entries is flushed. */
  lemma BeginsWithWork(env: Env, s: Store, rs: seq<Record>, t: Store)
    ensures Step(env, s, BeginCompact(rs), t) ==> s.proc.Up? && s.proc.phase.Idle? && |s.proc.tables| >= 2
    ensures Step(env, s, BeginFlush(rs), t) ==> s.proc.Up? && s.proc.phase.Idle? && s.proc.mem.Keys != {}
  {
    hide Lists, CompactsTo, TablesAgree, Sound, LogAfter, CleanLog, Storable;
  }

  /** Cleaning up removes both files of a table that the manifest does not list. */
  lemma CleanRemoves(env: Env, s: Store, id: nat, t: Store)
    requires Step(env, s, Clean(id), t)
    ensures Present(s.disk) ==> Present(t.disk)
    ensures id !in t.disk.ssts && id !in t.disk.blooms && t.proc == s.proc && t.disk.manifest == s.disk.manifest
  {
    hide Lists, CompactsTo, TablesAgree, Sound, LogAfter, CleanLog, Storable;
  }

  /** A filter that admits all keys of a new table, of whatever size, completes it, with the first and the last
      key as its bounds. */
  lemma TableOutcome(env: Env, s: Store, f: Bloom.Filter) returns (t: Store)
    requires s.proc.Up? && s.proc.phase.NewBloom? && Usable(s.proc.phase.rs) && Bloom.WellFormed(f)
    requires forall i :: 0 <= i < |s.proc.phase.rs| ==> Bloom.Member(env.fnv, f, s.proc.phase.rs[i].key)
    ensures Step(env, s, WriteBloom(f), t) && t.proc.Up? && t.proc.phase.Committing?
    ensures var rs, hs := s.proc.phase.rs, t.proc.phase.hs;
            && hs != [] && hs[|hs| - 1].table == rs && hs[|hs| - 1].id == s.proc.nextFileId
            && hs[|hs| - 1].minKey == rs[0].key && hs[|hs| - 1].maxKey == rs[|rs| - 1].key
            && hs[..|hs| - 1] == if s.proc.phase.flush then s.proc.tables else []
  {
    hide WriteStep, CommitStep, Bloom.Member, Bloom.WellFormed;
    var rs, p := s.proc.phase.rs, s.proc;
    var h := Handle(p.nextFileId, rs, f, rs[0].key, rs[|rs| - 1].key);
    t := s.(disk := s.disk.(blooms := s.disk.blooms[p.nextFileId := f]),
            proc := p.(phase := Committing(p.phase.flush, if p.phase.flush then p.tables + [h] else [h])));
  }

  /** When a compaction has cleaned up, the engine is idle with its files as they are. */
  lemma CleanEnds(env: Env, s: Store, t: Store)
    requires Step(env, s, EndClean, t)
    ensures s.proc.Up? && t == s.(proc := s.proc.(phase := Idle))
  {
    hide Lists, CompactsTo, TablesAgree, Sound, LogAfter, CleanLog, Storable;
  }

  /** A crash can come at any moment, and inside a log append after any number of its bytes; a record that is
      there as a whole has taken effect, any less of it has not. */
  lemma CrashOutcomes(env: Env, s: Store, n: nat) returns (t: Store)
    requires !s.proc.Down?
    requires n > 0 ==> s.proc.Up? && s.proc.phase.Appending? && Storable(env.max, Logged(s.proc))
                       && n <= FrameSize(s.proc.phase.r)
    ensures Step(env, s, Crash(n), t) && t.proc.Down?
    ensures t.disk == if n == 0 then s.disk else s.disk.(log := s.disk.log + Frame(env.crc, Logged(s.proc))[..n])
    ensures t.history == if n > 0 && n == |Frame(env.crc, Logged(s.proc))|
                         then s.history + [Logged(s.proc)] else s.history
  {
    hide WriteStep, BuildStep, CommitStep, Frame, CleanLog;
    t := s.(proc := Down);
    if n > 0 {
      t := s.(proc := Down, disk := s.disk.(log := s.disk.log + Frame(env.crc, Logged(s.proc))[..n]),
              history := if n == FrameSize(s.proc.phase.r) then s.history + [Logged(s.proc)] else s.history,
              tidy := s.tidy && CleanLog(env, s.disk.log));
    }
  }
}
