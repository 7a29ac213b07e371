/** Where the engine's guarantees end: a run in which a restart over flushed tables makes Scan show an
    overwritten value and a later compaction make it permanent, and what Open reads from the bytes. */
module EngineLimits {
  import opened Bytes
  import opened Records
  import opened Tables
  import opened Lsm
  import opened Manifests
  import opened Engines
  import opened EngineCrash
  import Bloom
  import SSTables
  import Wal

  // ---- an update lost by compaction ----

  const KEY: bytes := [97]
  const FIRST: bytes := [1]
  const SECOND: bytes := [2]

  /** One bit, always set: a filter that admits every key, under any hash. */
  const FILTER := Bloom.Filter([1], 1, 1, 1, 1, 1)

  function Version(value: bytes, seqno: u64): Record {
    Record(KEY, value, PUT, seqno)
  }

  function OneTable(id: nat, value: bytes, seqno: u64): Handle {
    Handle(id, [Version(value, seqno)], FILTER, KEY, KEY)
  }

  lemma OneTableSound(env: Env, id: nat, value: bytes, seqno: u64)
    ensures Sound(env.fnv, OneTable(id, value, seqno))
  {
    assert Bloom.BitSet(FILTER.words, 0);
  }

  lemma OneListed(value: bytes, seqno: u64)
    ensures Lists([Version(value, seqno)], map[KEY := Version(value, seqno)])
  {
    forall k ensures Lookup([Version(value, seqno)], k) == At(map[KEY := Version(value, seqno)], k) {
      LookupOne(Version(value, seqno), k);
    }
  }

  // ---- single steps and what they add up to ----

  lemma Begins(env: Env, s: Store, r: Record) returns (t: Store)
    requires s.proc.Up? && s.proc.phase.Idle? && Replayable(r) && r == Stored(r) && s.proc.nextSeq < MAX_U64
    ensures Step(env, s, BeginWrite(r), t)
    ensures t == s.(proc := s.proc.(nextSeq := s.proc.nextSeq + 1, phase := Appending(r.(seqno := s.proc.nextSeq))))
  {
    hide BuildStep, CommitStep;
    t := s.(proc := s.proc.(nextSeq := s.proc.nextSeq + 1, phase := Appending(r.(seqno := s.proc.nextSeq))));
  }

  lemma Appends(env: Env, s: Store) returns (t: Store)
    requires s.proc.Up? && s.proc.phase.Appending? && Storable(env.max, Logged(s.proc))
    ensures Step(env, s, Append, t)
    ensures t == s.(disk := s.disk.(log := s.disk.log + Frame(env.crc, Logged(s.proc))),
                    history := s.history + [Logged(s.proc)],
                    proc := s.proc.(logSeq := Logged(s.proc).seqno, phase := Buffering(s.proc.phase.r)),
                    tidy := s.tidy && CleanLog(env, s.disk.log))
  {
    hide BuildStep, CommitStep, Frame, CleanLog;
    var f := Frame(env.crc, Logged(s.proc));
    assert f[..FrameSize(s.proc.phase.r)] == f;
    t := s.(disk := s.disk.(log := s.disk.log + f), history := s.history + [Logged(s.proc)],
            proc := s.proc.(logSeq := Logged(s.proc).seqno, phase := Buffering(s.proc.phase.r)),
            tidy := s.tidy && CleanLog(env, s.disk.log));
  }

  lemma Applies(env: Env, s: Store) returns (t: Store)
    requires s.proc.Up? && s.proc.phase.Buffering?
    ensures Step(env, s, Apply, t)
    ensures t == s.(proc := s.proc.(mem := s.proc.mem[s.proc.phase.r.key := s.proc.phase.r], phase := Idle))
  {
    hide BuildStep, CommitStep;
    t := s.(proc := s.proc.(mem := s.proc.mem[s.proc.phase.r.key := s.proc.phase.r], phase := Idle));
  }

  /** A crash after n bytes of a frame, fewer than all. */
  lemma Dies(env: Env, s: Store, n: nat) returns (t: Store)
    requires s.proc.Up? && s.proc.phase.Appending? && Storable(env.max, Logged(s.proc))
    requires 0 < n < FrameSize(s.proc.phase.r)
    ensures Step(env, s, Crash(n), t)
    ensures t == s.(proc := Down, disk := s.disk.(log := s.disk.log + Frame(env.crc, Logged(s.proc))[..n]),
                    tidy := s.tidy && CleanLog(env, s.disk.log))
  {
    hide WriteStep, BuildStep, CommitStep, Frame, CleanLog;
    t := s.(proc := Down, disk := s.disk.(log := s.disk.log + Frame(env.crc, Logged(s.proc))[..n]),
            tidy := s.tidy && CleanLog(env, s.disk.log));
  }

  /** A restart that finds rs in the log. */
  lemma Reopens(env: Env, c: Store, rs: seq<Record>) returns (t: Store)
    requires c.proc.Down? && Present(c.disk) && c.logged <= c.tabled <= |c.history|
    requires Replay(env, c.disk.log) == Wal.Replayed(rs, true) && HistoryOk(rs)
    ensures Step(env, c, Restart, t)
    ensures t.disk == c.disk && t.lossless == c.lossless && t.tabled == c.tabled
    ensures var m := c.disk.manifest;
            t.proc == Up(Rebuild(rs), HandlesOf(c.disk), ResumeSeq(m.nextSeq, rs), m.nextFileId, Wal.MaxSeq(rs), Idle)
    ensures t.logged <= t.tabled <= |t.history| && t.history[t.logged..] == rs
    ensures rs == c.history[c.logged..] ==> t.history == c.history && t.logged == c.logged
    ensures rs != c.history[c.logged..] ==> t.history == c.history[..c.tabled] + rs && t.logged == c.tabled
  {
    hide WriteStep, BuildStep, CommitStep, Replay, Rebuild, Wal.MaxSeq, ResumeSeq, HandlesOf;
    var m := c.disk.manifest;
    var orderly := c.orderly && (rs == [] || (m.tables == [] && Wal.MaxSeq(rs) < MAX_U64));
    var up := Up(Rebuild(rs), HandlesOf(c.disk), ResumeSeq(m.nextSeq, rs), m.nextFileId, Wal.MaxSeq(rs), Idle);
    t := if rs == c.history[c.logged..]
         then c.(proc := up, shown := c.tabled, buffered := c.logged, tidy := true, orderly := orderly)
         else c.(proc := up, history := c.history[..c.tabled] + rs, logged := c.tabled, shown := c.tabled,
                 buffered := c.tabled, tidy := true, orderly := orderly);
    assert Opens(env, c.disk.log);
  }

  /** A write that succeeds. */
  lemma Writes(env: Env, actions: seq<Action>, s: Store, r: Record) returns (after: seq<Action>, t: Store)
    requires RunsTo(env, actions, s) && s.proc.Up? && s.proc.phase.Idle?
    requires Replayable(r) && r == Stored(r) && s.proc.nextSeq < MAX_U64 && Storable(env.max, r)
    ensures RunsTo(env, after, t)
    ensures var logged, held := r.(seqno := WrapAdd(s.proc.logSeq, 1)), r.(seqno := s.proc.nextSeq);
            t == s.(disk := s.disk.(log := s.disk.log + Frame(env.crc, logged)), history := s.history + [logged],
                    proc := s.proc.(mem := s.proc.mem[r.key := held], nextSeq := s.proc.nextSeq + 1,
                                    logSeq := logged.seqno),
                    tidy := s.tidy && CleanLog(env, s.disk.log))
  {
    hide RunsTo, Frame, CleanLog, Step;
    var s1 := Begins(env, s, r);
    var s2 := Appends(env, s1);
    t := Applies(env, s2);
    Extend(env, actions, s, BeginWrite(r), s1);
    Extend(env, actions + [BeginWrite(r)], s1, Append, s2);
    Extend(env, actions + [BeginWrite(r)] + [Append], s2, Apply, t);
    after := actions + [BeginWrite(r)] + [Append] + [Apply];
  }

  /** The first half of a flush or compaction of one record: table and filter are on disk. */
  lemma Builds(env: Env, actions: seq<Action>, s: Store, flush: bool, r: Record) returns (after: seq<Action>, t: Store)
    requires RunsTo(env, actions, s) && s.proc.Up? && s.proc.phase == NewTable(flush, [r])
             && r == Version(r.value, r.seqno)
    ensures RunsTo(env, after, t) && actions <= after
    ensures var id := s.proc.nextFileId;
            var h := OneTable(id, r.value, r.seqno);
            t == s.(disk := s.disk.(ssts := s.disk.ssts[id := [r]], blooms := s.disk.blooms[id := FILTER]),
                    proc := s.proc.(phase := Committing(flush, if flush then s.proc.tables + [h] else [h])))
  {
    hide RunsTo;
    var id := s.proc.nextFileId;
    var h := OneTable(id, r.value, r.seqno);
    OneTableSound(env, id, r.value, r.seqno);
    hide Sound;
    var s1 := s.(disk := s.disk.(ssts := s.disk.ssts[id := [r]]), proc := s.proc.(phase := NewBloom(flush, [r])));
    Extend(env, actions, s, WriteSst, s1);
    t := s1.(disk := s1.disk.(blooms := s1.disk.blooms[id := FILTER]),
             proc := s1.proc.(phase := Committing(flush, if flush then s.proc.tables + [h] else [h])));
    after := actions + [WriteSst] + [WriteBloom(FILTER)];
    Extend(env, actions + [WriteSst], s1, WriteBloom(FILTER), t);
  }

  /** A whole flush of a buffer holding one version. */
  lemma Flushes(env: Env, actions: seq<Action>, s: Store, value: bytes, seqno: u64)
    returns (after: seq<Action>, t: Store)
    requires RunsTo(env, actions, s) && s.proc.Up? && s.proc.phase.Idle?
             && s.proc.mem == map[KEY := Version(value, seqno)]
    ensures RunsTo(env, after, t) && actions <= after
    ensures t.proc.Up? && t.proc.nextFileId == s.proc.nextFileId + 1
    ensures t.proc.phase.Idle? && t.proc.mem == map[] && t.proc.logSeq == 0 && t.proc.nextSeq == s.proc.nextSeq
    ensures t.proc.tables == s.proc.tables + [OneTable(s.proc.nextFileId, value, seqno)]
    ensures t.disk.log == [] && t.disk.manifest.nextSeq == s.proc.nextSeq
  {
    hide RunsTo;
    var r, id := Version(value, seqno), s.proc.nextFileId;
    OneListed(value, seqno);
    assert KEY in s.proc.mem;
    var s1 := s.(proc := s.proc.(phase := NewTable(true, [r])));
    Extend(env, actions, s, BeginFlush([r]), s1);
    hide Lists;
    var a2, s2 := Builds(env, actions + [BeginFlush([r])], s1, true, r);
    var a3;
    a3, t := Finishes(env, a2, s2);
    after := a3;
  }

  /** The second half of a flush: commit, swap, and a new log. */
  lemma Finishes(env: Env, actions: seq<Action>, s: Store) returns (after: seq<Action>, t: Store)
    requires RunsTo(env, actions, s) && s.proc.Up? && s.proc.phase.Committing? && s.proc.phase.flush
    requires s.proc.phase.hs != []
    ensures RunsTo(env, after, t) && actions <= after
    ensures t.proc == Up(map[], s.proc.phase.hs, s.proc.nextSeq, s.proc.nextFileId + 1, 0, Idle)
    ensures t.disk.log == [] && t.disk.manifest.nextSeq == s.proc.nextSeq
  {
    hide RunsTo, Step;
    var s3, s4 := Installs(env, s);
    Extend(env, actions, s, Commit, s3);
    Extend(env, actions + [Commit], s3, Swap, s4);
    var s5;
    s5, t := NewLog(env, s4);
    Extend(env, actions + [Commit] + [Swap], s4, DropLog(true), s5);
    after := actions + [Commit] + [Swap] + [DropLog(true)] + [ReopenLog(true)];
    Extend(env, actions + [Commit] + [Swap] + [DropLog(true)], s5, ReopenLog(true), t);
  }

  lemma Installs(env: Env, s: Store) returns (t: Store, u: Store)
    requires s.proc.Up? && s.proc.phase.Committing? && s.proc.phase.flush && s.proc.phase.hs != []
    ensures Step(env, s, Commit, t) && Step(env, t, Swap, u) && u.disk.manifest.nextSeq == s.proc.nextSeq
    ensures u.proc == Up(map[], s.proc.phase.hs, s.proc.nextSeq, s.proc.nextFileId + 1, s.proc.logSeq, DroppingLog)
  {
    hide WriteStep, BuildStep;
    var hs, next := s.proc.phase.hs, s.proc.nextFileId + 1;
    t := s.(disk := s.disk.(manifest := Manifest(next, s.proc.nextSeq, RowsOf(hs))),
            proc := s.proc.(nextFileId := next, phase := Swapping(true, hs)), tabled := |s.history|);
    u := t.(proc := t.proc.(tables := hs, mem := map[], phase := DroppingLog),
            shown := t.tabled, buffered := |t.history|);
  }

  lemma NewLog(env: Env, s: Store) returns (t: Store, u: Store)
    requires s.proc.Up? && s.proc.phase.DroppingLog?
    ensures Step(env, s, DropLog(true), t) && Step(env, t, ReopenLog(true), u)
    ensures u.proc == s.proc.(logSeq := 0, phase := Idle) && u.disk == s.disk.(log := [])
  {
    hide WriteStep, BuildStep;
    t := s.(disk := s.disk.(log := []), logged := |s.history|, tidy := true, proc := s.proc.(phase := ReopeningLog));
    u := t.(proc := t.proc.(logSeq := 0, phase := Idle));
  }

  /** The same key written twice, flushed, overwritten; then a crash and a restart. The new log
      numbered the overwrite 1, below the flushed version's 2. */
  lemma StaleScan(env: Env) returns (actions: seq<Action>, s: Store)
    requires env.max >= 19
    ensures RunsTo(env, actions, s) && s.proc.Up? && s.proc.phase.Idle?
    ensures s.proc.mem == map[KEY := Version(SECOND, 1)] && s.proc.tables == [OneTable(1, FIRST, 2)]
    ensures s.proc.nextFileId == 2
    ensures Answer(s, KEY) == Some(SECOND)
    ensures Scanned(s.proc.mem, Contents(s.proc.tables), [], [], KEY) == Some(Version(FIRST, 2))
  {
    hide RunsTo, Step;
    var s1 := Started(env);
    var a2, s2 := Writes(env, [Restart], s1, Version(FIRST, 0));
    var a3, s3 := Writes(env, a2, s2, Version(FIRST, 0));
    assert s3.proc.mem == map[KEY := Version(FIRST, 2)];
    var a4, s4 := Flushes(env, a3, s3, FIRST, 2);
    var a5, s5 := Writes(env, a4, s4, Version(SECOND, 0));
    assert s5.disk.log == Frame(env.crc, Version(SECOND, 1));
    actions, s := Restarts(env, a5, s5);
    StaleMerge(s);
  }

  /** The first Open of an empty directory. */
  lemma Starts(env: Env) returns (s: Store)
    ensures Step(env, INIT, Restart, s) && s == INIT.(proc := Up(map[], [], 1, 1, 0, Idle))
  {
    s := INIT.(proc := Up(map[], [], 1, 1, 0, Idle));
    assert HandlesOf(INIT.disk) == [];
    assert Replay(env, []) == Wal.Replayed([], true);
    assert INIT.history[INIT.logged..] == [];
  }

  lemma Started(env: Env) returns (s: Store)
    ensures RunsTo(env, [Restart], s) && s == INIT.(proc := Up(map[], [], 1, 1, 0, Idle))
  {
    hide Step;
    s := Starts(env);
    assert RunsTo(env, [], INIT);
    Extend(env, [], INIT, Restart, s);
    assert [] + [Restart] == [Restart];
  }

  lemma Restarts(env: Env, actions: seq<Action>, s: Store) returns (after: seq<Action>, t: Store)
    requires RunsTo(env, actions, s) && s.proc.Up? && s.proc.phase.Idle?
    requires s.disk.log == Frame(env.crc, Version(SECOND, 1)) && env.max >= 19 && s.disk.manifest.nextSeq == 3
    ensures RunsTo(env, after, t) && t.disk == s.disk
    ensures t.proc.Up? && t.proc.phase.Idle? && t.proc.tables == s.proc.tables && t.proc.nextFileId == s.proc.nextFileId
    ensures t.proc.mem == map[KEY := Version(SECOND, 1)] && t.proc.nextSeq == 3
  {
    hide RunsTo, Inv, AgeInv, Replay, Frame, Step;
    IdleTables(env, actions, s);
    ReplayOne();
    OneFrame(env, Version(SECOND, 1));
    hide Rebuild, Wal.MaxSeq, HandlesOf;
    var c := s.(proc := Down);
    Stops(env, s);
    Extend(env, actions, s, Crash(0), c);
    t := Reopens(env, c, [Version(SECOND, 1)]);
    after := actions + [Crash(0)] + [Restart];
    Extend(env, actions + [Crash(0)], c, Restart, t);
  }

  /** A crash that leaves every file alone. */
  lemma Stops(env: Env, s: Store)
    requires !s.proc.Down?
    ensures Step(env, s, Crash(0), s.(proc := Down))
  {
  }

  /** A log of one frame replays to its record. */
  lemma OneFrame(env: Env, r: Record)
    requires Storable(env.max, r)
    ensures Replay(env, Frame(env.crc, r)) == Wal.Replayed([r], true)
  {
    hide Frame, Wal.ReplayFrom;
    assert Frames(env.crc, []) == [] && [r][..0] == [];
    assert Frames(env.crc, [r]) == [] + Frame(env.crc, r) == Frame(env.crc, r);
    Wal.ReplayComplete(env.crc, env.max, [r]);
  }

  lemma IdleTables(env: Env, actions: seq<Action>, s: Store)
    requires RunsTo(env, actions, s) && s.proc.Up? && s.proc.phase.Idle?
    ensures Present(s.disk) && HandlesOf(s.disk) == s.proc.tables && s.proc.nextFileId == s.disk.manifest.nextFileId
    ensures s.logged <= s.tabled <= |s.history|
  {
    RunInv(env, actions, s);
    hide RunsTo, AllSound, TablesShow, BufferHolds, IdsBelow, AgeInv;
  }

  lemma ReplayOne()
    ensures Rebuild([Version(SECOND, 1)]) == map[KEY := Version(SECOND, 1)] && Wal.MaxSeq([Version(SECOND, 1)]) == 1
  {
    var rs := [Version(SECOND, 1)];
    assert rs[..0] == [];
    assert Rebuild([]) == map[] && Wal.MaxSeq([]) == 0;
  }

  lemma StaleMerge(s: Store)
    requires s.proc.Up? && s.proc.mem == map[KEY := Version(SECOND, 1)] && s.proc.tables == [OneTable(1, FIRST, 2)]
    ensures Answer(s, KEY) == Some(SECOND)
    ensures Scanned(s.proc.mem, Contents(s.proc.tables), [], [], KEY) == Some(Version(FIRST, 2))
  {
    var ts := Contents(s.proc.tables);
    assert ts[..0] == [];
    LookupOne(Version(FIRST, 2), KEY);
    assert Champion(Some(Version(SECOND, 1)), [], KEY) == Some(Version(SECOND, 1));
  }

  lemma StaleCompaction()
    ensures CompactsTo([[Version(FIRST, 2)], [Version(SECOND, 1)]], [Version(FIRST, 2)])
  {
    var x, y := Version(FIRST, 2), Version(SECOND, 1);
    var ts := [[x], [y]];
    assert ts[..1] == [[x]] && [[x]][..0] == [] && [x][..0] == [] && [y][..0] == [];
    assert MergeRuns(map[], []) == map[] && MergeRun(map[], []) == map[];
    var one := map[KEY := x];
    assert MergeRun(map[], [x]) == Merge(MergeRun(map[], [x][..0]), x) == one;
    assert MergeRuns(map[], [[x]]) == MergeRun(MergeRuns(map[], [[x]][..0]), [x]) == one;
    assert MergeRun(one, [y][..0]) == one;
    assert MergeRun(one, [y]) == Merge(MergeRun(one, [y][..0]), y) == one;
    assert MergeRuns(map[], ts) == MergeRun(MergeRuns(map[], ts[..1]), [y]) == one;
    assert Live(one) == one;
    OneListed(FIRST, 2);
  }

  /** A reachable state in which Get answers with the overwrite, and a compaction after which it
      answers with the overwritten value: seq-based merging loses an acknowledged update. */
  lemma CompactionLosesUpdate(env: Env) returns (actions: seq<Action>, before: Store, later: seq<Action>, after: Store)
    requires env.max >= 19
    ensures RunsTo(env, actions, before) && before.proc.Up? && Answer(before, KEY) == Some(SECOND)
    ensures RunsTo(env, later, after) && after.proc.Up? && Answer(after, KEY) == Some(FIRST)
    ensures actions <= later && after.history == before.history && !after.lossless
  {
    hide RunsTo, Step;
    var a1, s1 := StaleScan(env);
    actions, before := Flushes(env, a1, s1, SECOND, 1);
    later, after := Compacts(env, actions, before);
    ReadsOne(before, after);
  }

  lemma ReadsOne(before: Store, after: Store)
    requires before.proc.Up? && before.proc.mem == map[]
    requires before.proc.tables == [OneTable(1, FIRST, 2)] + [OneTable(2, SECOND, 1)]
    requires after.proc.Up? && after.proc.mem == map[] && after.proc.tables == [OneTable(3, FIRST, 2)]
    ensures Answer(before, KEY) == Some(SECOND) && Answer(after, KEY) == Some(FIRST)
  {
    LookupOne(Version(FIRST, 2), KEY);
    LookupOne(Version(SECOND, 1), KEY);
  }

  lemma Compacts(env: Env, actions: seq<Action>, s: Store) returns (after: seq<Action>, t: Store)
    requires RunsTo(env, actions, s) && s.proc.Up? && s.proc.phase.Idle? && s.proc.nextFileId == 3
    requires s.proc.tables == [OneTable(1, FIRST, 2)] + [OneTable(2, SECOND, 1)]
    ensures RunsTo(env, after, t) && actions <= after && t.history == s.history && !t.lossless
    ensures t.proc.Up? && t.proc.mem == s.proc.mem && t.proc.tables == [OneTable(3, FIRST, 2)]
  {
    hide RunsTo, Step;
    var r := Version(FIRST, 2);
    var s1 := BeginsCompaction(env, s);
    Extend(env, actions, s, BeginCompact([r]), s1);
    var a2, s2 := Builds(env, actions + [BeginCompact([r])], s1, false, r);
    var s3;
    s3, t := InstallsCompaction(env, s2);
    Extend(env, a2, s2, Commit, s3);
    after := a2 + [Commit] + [Swap];
    Extend(env, a2 + [Commit], s3, Swap, t);
  }

  lemma BeginsCompaction(env: Env, s: Store) returns (t: Store)
    requires s.proc.Up? && s.proc.phase.Idle? && s.proc.tables == [OneTable(1, FIRST, 2)] + [OneTable(2, SECOND, 1)]
    ensures Step(env, s, BeginCompact([Version(FIRST, 2)]), t)
    ensures t == s.(proc := s.proc.(phase := NewTable(false, [Version(FIRST, 2)])))
  {
    hide WriteStep, CommitStep, CompactsTo;
    StaleCompaction();
    assert Contents(s.proc.tables) == [[Version(FIRST, 2)], [Version(SECOND, 1)]];
    t := s.(proc := s.proc.(phase := NewTable(false, [Version(FIRST, 2)])));
  }

  lemma InstallsCompaction(env: Env, s: Store) returns (t: Store, u: Store)
    requires s.proc.Up? && s.proc.phase == Committing(false, [OneTable(3, FIRST, 2)]) && s.proc.nextFileId == 3
    requires s.proc.tables == [OneTable(1, FIRST, 2)] + [OneTable(2, SECOND, 1)]
    ensures Step(env, s, Commit, t) && Step(env, t, Swap, u) && u.history == s.history && !u.lossless
    ensures u.proc.Up? && u.proc.mem == s.proc.mem && u.proc.tables == [OneTable(3, FIRST, 2)]
  {
    hide WriteStep, BuildStep, TablesAgree;
    Disagree();
    assert Contents(s.proc.tables) == [[Version(FIRST, 2)], [Version(SECOND, 1)]];
    var hs := [OneTable(3, FIRST, 2)];
    t := s.(disk := s.disk.(manifest := Manifest(4, s.proc.nextSeq, RowsOf(hs))),
            proc := s.proc.(nextFileId := 4, phase := Swapping(false, hs)), lossless := false);
    u := t.(proc := t.proc.(tables := hs, phase := Cleaning), shown := t.tabled);
  }

  lemma Disagree()
    ensures !TablesAgree([[Version(FIRST, 2)], [Version(SECOND, 1)]])
  {
    var x, y := Version(FIRST, 2), Version(SECOND, 1);
    var ts := [[x], [y]];
    LookupOne(x, KEY);
    LookupOne(y, KEY);
    assert Prevails(None, ts, KEY, 0);
    assert FindTables(ts, KEY) == Some(y);
    assert !Agrees(map[], ts, KEY);
  }

  // ---- a write that comes alive ----

  const LOST := Record([97], [19], PUT, 0)
  const LATER := Record([98], [1], PUT, 0)

  /** Two crashes inside log frames: the write the first one undid, and every restart since denied, is
      there after the second, because its first byte is the one the torn frame missed. */
  lemma LostWriteComesAlive(env: Env) returns (actions: seq<Action>, before: Store, later: seq<Action>, after: Store)
    requires env.max >= 19
    ensures RunsTo(env, actions, before) && before.proc.Up? && Answer(before, [97]) == None
    ensures RunsTo(env, later, after) && after.proc.Up? && Answer(after, [97]) == Some([19])
    ensures later == actions + [BeginWrite(LATER)] + [Crash(1)] + [Restart]
  {
    hide RunsTo, Step, Frame, Replay, Rebuild, Wal.MaxSeq;
    var r1, r2 := LOST.(seqno := 1), LATER.(seqno := 1);
    Revives(env);
    EmptyRebuild();
    NoHandles();
    var s1 := Started(env);
    var s2 := Begins(env, s1, LOST);
    Extend(env, [Restart], s1, BeginWrite(LOST), s2);
    var s3 := Dies(env, s2, 26);
    Extend(env, [Restart] + [BeginWrite(LOST)], s2, Crash(26), s3);
    assert s3.disk.log == Frame(env.crc, r1)[..26];
    before := Reopens(env, s3, []);
    actions := [Restart] + [BeginWrite(LOST)] + [Crash(26)] + [Restart];
    Extend(env, [Restart] + [BeginWrite(LOST)] + [Crash(26)], s3, Restart, before);
    var s5 := Begins(env, before, LATER);
    Extend(env, actions, before, BeginWrite(LATER), s5);
    var s6 := Dies(env, s5, 1);
    Extend(env, actions + [BeginWrite(LATER)], s5, Crash(1), s6);
    assert s6.disk.log == Frame(env.crc, r1)[..26] + Frame(env.crc, r2)[..1];
    after := Reopens(env, s6, [r1]);
    later := actions + [BeginWrite(LATER)] + [Crash(1)] + [Restart];
    Extend(env, actions + [BeginWrite(LATER)] + [Crash(1)], s6, Restart, after);
    RevivedAnswers(before, after);
  }

  /** A directory with no table has no handle. */
  lemma NoHandles()
    ensures forall d: Disk :: d.manifest == NewManifest() ==> Present(d) && HandlesOf(d) == []
  {
  }

  lemma Revives(env: Env)
    requires env.max >= 19
    ensures var r1, r2 := LOST.(seqno := 1), LATER.(seqno := 1);
            && Replay(env, Frame(env.crc, r1)[..26]) == Wal.Replayed([], true)
            && Replay(env, Frame(env.crc, r1)[..26] + Frame(env.crc, r2)[..1]) == Wal.Replayed([r1], true)
  {
    hide Frame, Wal.ReplayFrom;
    Wal.SecondTearRevives(env.crc, env.max);
  }

  lemma EmptyRebuild()
    ensures Rebuild([]) == map[] && Wal.MaxSeq([]) == 0 && ResumeSeq(1, []) == 1
  {
  }

  lemma RevivedAnswers(before: Store, after: Store)
    requires before.proc.Up? && before.proc.mem == map[] && before.proc.tables == []
    requires after.proc.Up? && after.proc.mem == Rebuild([LOST.(seqno := 1)]) && after.proc.tables == []
    ensures Answer(before, [97]) == None && Answer(after, [97]) == Some([19])
  {
    var rs := [LOST.(seqno := 1)];
    assert rs[..0] == [] && Rebuild([]) == map[];
    assert after.proc.mem == map[[97] := LOST.(seqno := 1)];
  }

  // ---- the bytes behind the tables ----

  /** The table files of one engine directory. */
  datatype Files = Files(ssts: map<nat, bytes>, blooms: map<nat, bytes>)

  /** Each listed table was written by WriteTable and its sidecar by MarshalBinary. */
  ghost predicate TableFiles(crc: Checksum, sstMax: u32, f: Files, d: Disk) {
    forall id :: id in d.ssts && id in d.blooms ==>
      && id in f.ssts && id in f.blooms
      && AllStorable(sstMax, d.ssts[id]) && Sorted(d.ssts[id]) && SSTables.Writable(crc, d.ssts[id])
      && f.ssts[id] == SSTables.TableBytes(crc, d.ssts[id])
      && Bloom.WellFormed(d.blooms[id]) && f.blooms[id] == Bloom.Marshal(crc, d.blooms[id])
  }

  /** Open reads back from the table files exactly what the disk of the state machine says: for every
      listed table a reader that holds it and an equal filter. The log is bytes in the machine itself. */
  lemma OpenReadsBytes(crc: Checksum, sstMax: u32, f: Files, d: Disk, i: nat)
    requires TableFiles(crc, sstMax, f, d) && Present(d) && i < |d.manifest.tables|
    ensures var id := d.manifest.tables[i].id;
            var loaded := SSTables.LoadResult(crc, sstMax, f.ssts[id]);
            && loaded.Opened? && SSTables.Holds(crc, loaded.reader, d.ssts[id])
            && Bloom.Unmarshal(crc, f.blooms[id]) == Some(d.blooms[id])
  {
    hide SSTables.TableBytes, SSTables.LoadResult, SSTables.IndexOf, Bloom.Marshal, Bloom.Unmarshal, Sorted,
         Storable, Bloom.WellFormed;
    var id := d.manifest.tables[i].id;
    assert id in d.ssts && id in d.blooms;
    SSTables.LoadWritten(crc, sstMax, d.ssts[id]);
    Bloom.MarshalRoundTrip(crc, d.blooms[id]);
  }
}
