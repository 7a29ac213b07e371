/** A follower on top of the real engine (internal/node/server.go over internal/engine/engine.go): the
    entries it applies are engine writes, log bytes and all. What Replication proves of a follower whose
    store loses nothing holds of this one as long as every restart found a faithful log and no compaction
    met tables that disagree. A run without that ends with entries counted as applied and not there. */
module FollowerEngine {
  import opened Bytes
  import opened Records
  import opened Tables
  import opened Lsm
  import opened EngineCrash
  import opened EngineLimits
  import J = Journal
  import R = Replication
  import Engines
  import opened Manifests
  import Wal

  // ---- state and steps ----

  /** `high` is the highest entry that ever took effect; `intact` says that no restart so far came from an
      unfaithful log. */
  datatype Follower = Follower(engine: Store, journal: seq<J.Entry>, applied: nat, cursor: nat, high: nat,
                               intact: bool)

  datatype Act = Engine(a: Action) | Grow(journal: seq<J.Entry>) | Save

  /** eng.Put or eng.Delete for one entry. */
  function RecordOf(e: J.Entry): Record {
    if e.op == J.OpPut then Record(e.key, e.value, PUT, 0) else Record(e.key, [], DELETE, 0)
  }

  function Higher(h: nat, n: nat): nat {
    if h < n then n else h
  }

  ghost predicate FollowerStart(f: Follower) {
    f == Follower(INIT, f.journal, 0, 0, 0, true) && R.NoOther(f.journal)
  }

  /** An engine step: writes are of the next entry only; a record that enters the history raises the
      high-water mark; a restart falls back to the saved cursor. */
  ghost predicate EngineNext(env: Env, f: Follower, a: Action, g: Follower) {
    && Step(env, f.engine, a, g.engine)
    && (a.BeginWrite? ==> f.applied < |f.journal| && a.r == RecordOf(f.journal[f.applied]))
    && var entered := |g.engine.history| == |f.engine.history| + 1 && !a.Restart?;
       g == f.(engine := g.engine,
               applied := if a.Restart? then f.cursor else if a.Apply? then f.applied + 1 else f.applied,
               high := if entered then Higher(f.high, f.applied + 1) else f.high,
               intact := f.intact && (a.Restart? ==> Faithful(env, f.engine)))
  }

  ghost predicate Next(env: Env, f: Follower, a: Act, g: Follower) {
    match a
    case Engine(e) => EngineNext(env, f, e, g)
    case Grow(j) => f.journal <= j && R.NoOther(j) && g == f.(journal := j)
    case Save => f.engine.proc.Up? && f.cursor < f.applied && g == f.(cursor := f.applied)
  }

  ghost predicate Runs(env: Env, acts: seq<Act>, f: Follower) {
    if acts == [] then FollowerStart(f)
    else
      var before, last := acts[..|acts| - 1], acts[|acts| - 1];
      exists p :: Runs(env, before, p) && Next(env, p, last, f)
  }

  // ---- what the history is worth ----

  /** The map the engine's operations describe. */
  ghost function DataOf(h: seq<Record>): map<bytes, bytes> {
    if h == [] then map[] else Applied(DataOf(h[..|h| - 1]), h[|h| - 1])
  }

  lemma {:induction false} DataAt(h: seq<Record>, k: bytes)
    ensures At(DataOf(h), k) == ValueOf(h, k)
  {
    if h != [] { DataAt(h[..|h| - 1], k); }
  }

  lemma DataGrows(h: seq<Record>, e: J.Entry, r: Record)
    requires !e.op.OpOther? && r == RecordOf(e).(seqno := r.seqno)
    ensures DataOf(h + [r]) == R.Apply(DataOf(h), e)
  {
    assert (h + [r])[..|h|] == h;
  }

  /** The entry a write in progress belongs to. */
  ghost predicate WritesNext(f: Follower) {
    var p := f.engine.proc;
    p.Up? && (p.phase.Appending? || p.phase.Buffering?) ==>
      f.applied < |f.journal| && p.phase.r == RecordOf(f.journal[f.applied]).(seqno := p.phase.r.seqno)
  }

  /** Entries accounted for: those applied, and one that is in the history but not yet in the buffer. */
  ghost function Done(f: Follower): nat {
    f.applied + if f.engine.proc.Up? && f.engine.proc.phase.Buffering? then 1 else 0
  }

  ghost predicate FollowerInv(f: Follower) {
    && R.NoOther(f.journal) && f.cursor <= f.applied && WritesNext(f)
    && (f.intact ==> R.Tracks(f.journal, DataOf(f.engine.history), Done(f), f.high))
  }

  // ---- every step keeps it ----

  lemma GrowKeeps(f: Follower, g: Follower)
    requires FollowerInv(f) && f.journal <= g.journal && R.NoOther(g.journal) && g == f.(journal := g.journal)
    ensures FollowerInv(g)
  {
    hide R.Tracks, DataOf;
    if f.intact { R.TracksGrown(f.journal, g.journal, DataOf(f.engine.history), Done(f), f.high); }
  }

  /** A record of the next entry enters the history. */
  lemma Enters(f: Follower, g: Follower, r: Record)
    requires FollowerInv(f) && f.intact && f.engine.proc.Up? && f.engine.proc.phase.Appending?
    requires r == Logged(f.engine.proc) && g.engine.history == f.engine.history + [r]
    requires g.journal == f.journal && g.high == Higher(f.high, f.applied + 1)
    ensures R.Tracks(g.journal, DataOf(g.engine.history), f.applied + 1, g.high)
  {
    hide DataOf, R.Tracks, R.Apply;
    var e := f.journal[f.applied];
    DataGrows(f.engine.history, e, r);
    R.TracksApply(f.journal, DataOf(f.engine.history), f.applied, f.high);
    TracksBounds(f.journal, DataOf(f.engine.history), f.applied, f.high);
  }

  lemma TracksBounds(j: seq<J.Entry>, data: map<bytes, bytes>, l: nat, h: nat)
    requires R.Tracks(j, data, l, h)
    ensures l <= h <= |j|
  {
  }

  /** What a write's steps do to history and phase. */
  ghost predicate WriteShape(s: Store, a: Action, t: Store) {
    && (a.Append? ==> s.proc.Up? && s.proc.phase.Appending? && t.proc.Up?
                      && t.proc.phase == Buffering(s.proc.phase.r) && t.history == s.history + [Logged(s.proc)])
    && (a.Apply? ==> s.proc.Up? && s.proc.phase.Buffering? && t.proc.Up? && t.proc.phase.Idle?
                     && t.history == s.history)
    && (a.BeginWrite? ==> s.proc.Up? && s.proc.phase.Idle? && t.proc.Up? && t.proc.phase.Appending?
                          && t.proc.phase.r == a.r.(seqno := t.proc.phase.r.seqno) && t.history == s.history)
  }

  /** What crashes and restarts do to them. */
  ghost predicate ProcessShape(env: Env, s: Store, a: Action, t: Store) {
    && (a.Crash? ==> t.proc.Down? && (t.history == s.history
                       || (s.proc.Up? && s.proc.phase.Appending? && t.history == s.history + [Logged(s.proc)])))
    && (a.Restart? ==> t.proc.Up? && t.proc.phase.Idle? && (Faithful(env, s) ==> t.history == s.history))
  }

  /** And what every other step does: nothing that a follower could tell. */
  ghost predicate OtherShape(s: Store, a: Action, t: Store) {
    !a.Append? && !a.Apply? && !a.BeginWrite? && !a.Crash? && !a.Restart? ==>
      && t.history == s.history
      && (t.proc.Up? && (t.proc.phase.Appending? || t.proc.phase.Buffering?) ==> t.proc == s.proc)
      && (s.proc.Up? && s.proc.phase.Buffering? ==> t.proc == s.proc)
  }

  lemma EngineShape(env: Env, s: Store, a: Action, t: Store)
    requires Step(env, s, a, t)
    ensures WriteShape(s, a, t) && ProcessShape(env, s, a, t) && OtherShape(s, a, t)
  {
    hide WriteShape, ProcessShape, OtherShape, WriteStep, BuildStep, CommitStep, CrashStep, RestartStep;
    if a.Crash? || a.Restart? || a.RestartFails? {
      ProcessShapes(env, s, a, t);
    } else {
      LockedShapes(env, s, a, t);
    }
  }

  lemma ProcessShapes(env: Env, s: Store, a: Action, t: Store)
    requires Step(env, s, a, t) && (a.Crash? || a.Restart? || a.RestartFails?)
    ensures WriteShape(s, a, t) && ProcessShape(env, s, a, t) && OtherShape(s, a, t)
  {
    hide LogAfter, CleanLog, Storable, Replay, HandlesOf, Rebuild, Wal.MaxSeq, Engines.ResumeSeq, WriteStep,
         BuildStep, CommitStep;
  }

  lemma LockedShapes(env: Env, s: Store, a: Action, t: Store)
    requires s.proc.Up? && !a.Crash? && !a.Restart?
    requires WriteStep(env, s, a, t) || BuildStep(env, s, a, t) || CommitStep(s, a, t)
    ensures WriteShape(s, a, t) && ProcessShape(env, s, a, t) && OtherShape(s, a, t)
  {
    hide LogAfter, CleanLog, Storable, Sound, Lists, CompactsTo, TablesAgree, Contents, Faithful, Present;
    if BuildStep(env, s, a, t) {
      hide WriteStep, CommitStep;
    } else if CommitStep(s, a, t) {
      hide WriteStep, BuildStep;
    } else {
      hide BuildStep, CommitStep;
    }
  }

  lemma EngineKeeps(env: Env, f: Follower, a: Action, g: Follower)
    requires FollowerInv(f) && EngineNext(env, f, a, g)
    ensures FollowerInv(g)
  {
    hide R.Tracks, DataOf, Step, Faithful;
    EngineShape(env, f.engine, a, g.engine);
    var data := DataOf(f.engine.history);
    if g.intact {
      if a.Append? {
        Enters(f, g, Logged(f.engine.proc));
      } else if a.Crash? && g.engine.history != f.engine.history {
        Enters(f, g, Logged(f.engine.proc));
        R.TracksRestart(g.journal, DataOf(g.engine.history), f.applied + 1, g.high, f.applied);
      } else if a.Crash? {
        R.TracksRestart(f.journal, data, Done(f), f.high, f.applied);
      } else if a.Restart? {
        R.TracksRestart(f.journal, data, Done(f), f.high, f.cursor);
      }
    }
  }

  lemma {:induction false} RunKeeps(env: Env, acts: seq<Act>, f: Follower) returns (actions: seq<Action>)
    requires Runs(env, acts, f)
    ensures FollowerInv(f) && RunsTo(env, actions, f.engine)
    decreases |acts|
  {
    hide R.Tracks, DataOf, Step, FollowerInv, EngineNext;
    if acts == [] {
      StartKeeps(f);
      actions := [];
    } else {
      var before, last := acts[..|acts| - 1], acts[|acts| - 1];
      var p :| Runs(env, before, p) && Next(env, p, last, f);
      actions := RunKeeps(env, before, p);
      match last {
        case Engine(a) =>
          EngineKeeps(env, p, a, f);
          NextIsStep(env, p, a, f);
          Extend(env, actions, p.engine, a, f.engine);
          actions := actions + [a];
        case Grow(j) => GrowKeeps(p, f);
        case Save => SaveKeeps(p, f);
      }
    }
  }

  lemma NextIsStep(env: Env, f: Follower, a: Action, g: Follower)
    requires EngineNext(env, f, a, g)
    ensures Step(env, f.engine, a, g.engine)
  {
  }

  lemma SaveKeeps(f: Follower, g: Follower)
    requires FollowerInv(f) && f.cursor < f.applied && g == f.(cursor := f.applied)
    ensures FollowerInv(g)
  {
    hide R.Tracks, DataOf;
  }

  lemma StartKeeps(f: Follower)
    requires FollowerStart(f)
    ensures FollowerInv(f)
  {
    R.TracksFresh(f.journal);
    assert DataOf([]) == map[];
    assert R.Tracks(f.journal, map[], 0, 0);
  }

  // ---- the results ----

  /** In every run whose restarts all found faithful logs and whose compactions lost nothing: the durable
      cursor stays within what was applied and that within the high-water mark, and whenever the follower
      stands at its mark, every Get of its engine answers with the fold of that much of the journal. */
  lemma Converges(env: Env, acts: seq<Act>, f: Follower, k: bytes)
    requires Runs(env, acts, f) && f.intact
    ensures f.cursor <= f.applied <= Done(f) <= f.high <= |f.journal|
    ensures f.engine.lossless && f.engine.proc.Up? && !f.engine.proc.phase.Buffering? && f.applied == f.high ==>
              Answer(f.engine, k) == At(R.Fold(f.journal[..f.high]), k)
  {
    hide Step, Runs, RunsTo, Next;
    var actions := RunKeeps(env, acts, f);
    TracksBounds(f.journal, DataOf(f.engine.history), Done(f), f.high);
    if f.engine.lossless && f.engine.proc.Up? && !f.engine.proc.phase.Buffering? && f.applied == f.high {
      AnswersHistory(env, actions, f.engine, k);
      DataAt(f.engine.history, k);
      hide R.Tracks;
      R.TracksCaughtUp(f.journal, DataOf(f.engine.history), f.high);
    }
  }

  /** So a follower that applied all of the journal, as promotion demands, answers with all of it. */
  lemma CaughtUpAnswers(env: Env, acts: seq<Act>, f: Follower, k: bytes)
    requires Runs(env, acts, f) && f.intact && f.engine.lossless && f.engine.proc.Up?
    requires f.applied == |f.journal|
    ensures Answer(f.engine, k) == At(R.Fold(f.journal), k)
  {
    hide Step, Runs, Next;
    Converges(env, acts, f, k);
    assert f.journal[..|f.journal|] == f.journal;
  }

  /** A restart from a tidy log keeps the run intact: only a process that goes on writing over a torn log,
      or a write that fails with its whole frame, can break it. */
  lemma TidyRestartIsIntact(env: Env, acts: seq<Act>, f: Follower, g: Follower)
    requires Runs(env, acts, f) && f.intact && Next(env, f, Engine(Restart), g) && f.engine.tidy
    ensures g.intact
  {
    hide Step, Runs, RunsTo;
    var actions := RunKeeps(env, acts, f);
    TidyIsFaithful(env, actions, f.engine);
  }

  // ---- a follower that loses what it applied ----

  const ENTRY := J.Entry(1, J.OpPut, [97], [19], 0)

  /** The log after a crash behind the first byte of the entry's frame and a second, whole write of it. */
  function Overwritten(env: Env): bytes {
    Frame(env.crc, LOST.(seqno := 1))[..1] + Frame(env.crc, LOST.(seqno := 1))
  }

  lemma EngineGoes(env: Env, acts: seq<Act>, f: Follower, a: Action, t: Store) returns (g: Follower)
    requires Runs(env, acts, f) && Step(env, f.engine, a, t)
    requires a.BeginWrite? ==> f.applied < |f.journal| && a.r == RecordOf(f.journal[f.applied])
    ensures Runs(env, acts + [Engine(a)], g) && g.engine == t && g.journal == f.journal && g.cursor == f.cursor
    ensures g.applied == if a.Restart? then f.cursor else if a.Apply? then f.applied + 1 else f.applied
    ensures a.Append? ==> g.high == Higher(f.high, f.applied + 1)
    ensures |t.history| == |f.engine.history| || a.Restart? ==> g.high == f.high
    ensures g.intact == (f.intact && (a.Restart? ==> Faithful(env, f.engine)))
  {
    hide Faithful, Step;
    var entered := |t.history| == |f.engine.history| + 1 && !a.Restart?;
    g := f.(engine := t,
            applied := if a.Restart? then f.cursor else if a.Apply? then f.applied + 1 else f.applied,
            high := if entered then Higher(f.high, f.applied + 1) else f.high,
            intact := f.intact && (a.Restart? ==> Faithful(env, f.engine)));
    EngineShape(env, f.engine, a, t);
    Goes(env, acts, f, Engine(a), g);
  }

  lemma Goes(env: Env, acts: seq<Act>, f: Follower, a: Act, g: Follower)
    requires Runs(env, acts, f) && Next(env, f, a, g)
    ensures Runs(env, acts + [a], g)
  {
    hide Next;
    var all := acts + [a];
    assert all[..|all| - 1] == acts && all[|all| - 1] == a;
    assert Runs(env, all[..|all| - 1], f) && Next(env, f, all[|all| - 1], g);
  }

  /** Replay of that log finds nothing: the first four bytes claim a body of 4883 bytes, which is either
      incomplete or beyond the limit. */
  lemma OverwrittenReplay(env: Env)
    requires env.max >= 19
    ensures Replay(env, Frame(env.crc, LOST.(seqno := 1))[..1]) == Wal.Replayed([], true)
    ensures Replay(env, Overwritten(env)) == Wal.Replayed([], env.max >= 4883)
  {
    var r := LOST.(seqno := 1);
    var f := Frame(env.crc, r);
    assert f[..4] == [19, 0, 0, 0];
    var t := f[..1] + f;
    assert t[0..4] == [19, 19, 0, 0];
    assert Wal.Claimed(t) == 4883;
    hide Frame, Wal.ReplayFrom;
    assert Frames(env.crc, []) == [] && [] + t == t && [] + f[..1] == f[..1];
    Wal.ReplayAfterTear(env.crc, env.max, [], r, 1);
    Wal.WriteAfterTear(env.crc, env.max, [], r, 1, f);
  }

  /** Where the follower of a one-entry journal stands, by its own count. */
  ghost predicate StandsAt(f: Follower, n: nat) {
    f.journal == [ENTRY] && f.applied == n && f.cursor == n && f.high == n
  }

  /** A running engine without data, over a log torn behind one byte. */
  ghost predicate TornStore(env: Env, s: Store) {
    && s.proc == Up(map[], [], 1, 1, 0, Idle) && s.disk.manifest == NewManifest()
    && s.history == [] && s.logged == 0 && s.tabled == 0 && s.lossless
    && s.disk.log == Frame(env.crc, LOST.(seqno := 1))[..1]
  }

  /** A stopped engine whose only operation was written behind that tear. */
  ghost predicate OverwrittenStore(env: Env, s: Store) {
    && s.proc.Down? && s.disk.manifest == NewManifest() && s.disk.log == Overwritten(env)
    && s.history == [LOST.(seqno := 1)] && s.logged == 0 && s.tabled == 0 && s.lossless
  }

  /** The first half: a crash after the first byte of the entry's frame, and a restart. */
  lemma CrashedOnce(env: Env) returns (acts: seq<Act>, f: Follower)
    requires env.max >= 19
    ensures Runs(env, acts, f) && StandsAt(f, 0) && TornStore(env, f.engine)
  {
    hide Runs, RunsTo, Step, Faithful, Frame, Replay, Rebuild, Wal.MaxSeq;
    OverwrittenReplay(env);
    EmptyRebuild();
    NoHandles();
    var f0 := Follower(INIT, [ENTRY], 0, 0, 0, true);
    BeginsRun(env, f0);
    var s1 := Starts(env);
    var f1 := EngineGoes(env, [], f0, Restart, s1);
    acts := [] + [Engine(Restart)];
    var s2 := Begins(env, s1, LOST);
    var f2 := EngineGoes(env, acts, f1, BeginWrite(LOST), s2);
    acts := acts + [Engine(BeginWrite(LOST))];
    var s3 := Dies(env, s2, 1);
    var f3 := EngineGoes(env, acts, f2, Crash(1), s3);
    acts := acts + [Engine(Crash(1))];
    assert s3.disk.log == Frame(env.crc, LOST.(seqno := 1))[..1];
    var s4 := Reopens(env, s3, []);
    f := EngineGoes(env, acts, f3, Restart, s4);
    acts := acts + [Engine(Restart)];
  }

  lemma BeginsRun(env: Env, f: Follower)
    requires FollowerStart(f)
    ensures Runs(env, [], f)
  {
  }

  /** The second half: the entry is written again, whole, and the cursor saved; then the process stops. */
  lemma ReappliedThenStopped(env: Env) returns (acts: seq<Act>, f: Follower)
    requires env.max >= 19
    ensures Runs(env, acts, f) && StandsAt(f, 1) && OverwrittenStore(env, f.engine)
  {
    hide Runs, RunsTo, Step, Faithful, Frame;
    var f4;
    acts, f4 := CrashedOnce(env);
    var s5 := Begins(env, f4.engine, LOST);
    var f5 := EngineGoes(env, acts, f4, BeginWrite(LOST), s5);
    acts := acts + [Engine(BeginWrite(LOST))];
    var s6 := Appends(env, s5);
    var f6 := EngineGoes(env, acts, f5, Append, s6);
    acts := acts + [Engine(Append)];
    var s7 := Applies(env, s6);
    var f7 := EngineGoes(env, acts, f6, Apply, s7);
    acts := acts + [Engine(Apply)];
    var f8 := f7.(cursor := 1);
    Goes(env, acts, f7, Save, f8);
    acts := acts + [Save];
    Stops(env, s7);
    f := EngineGoes(env, acts, f8, Crash(0), s7.(proc := Down));
    acts := acts + [Engine(Crash(0))];
  }

  /** The engine answers other than the journal it is said to have applied. */
  ghost predicate Missing(f: Follower) {
    f.engine.proc.Up? && Answer(f.engine, [97]) == None && At(R.Fold([ENTRY]), [97]) == Some([19])
  }

  /** A follower that crashed inside one entry's log frame, applied the entry again and saved its cursor
      may be restarted: it then claims the whole journal, and its engine knows nothing of it. */
  lemma ReappliedIsLost(env: Env) returns (acts: seq<Act>, f: Follower)
    requires env.max >= 4883
    ensures Runs(env, acts, f) && StandsAt(f, 1) && Missing(f) && !f.intact && f.engine.lossless
  {
    hide Runs, RunsTo, Step, Frame, Replay, Rebuild, Wal.MaxSeq, Overwritten;
    var c;
    acts, c := ReappliedThenStopped(env);
    OverwrittenReplay(env);
    EmptyRebuild();
    NoHandles();
    assert c.engine.history[0..] != [];
    var t := Reopens(env, c.engine, []);
    f := EngineGoes(env, acts, c, Restart, t);
    acts := acts + [Engine(Restart)];
    FoldOfEntry();
  }

  /** With a smaller record limit it does not start at all. */
  lemma ReappliedIsRefused(env: Env) returns (acts: seq<Act>, f: Follower)
    requires 19 <= env.max < 4883
    ensures Runs(env, acts, f) && StandsAt(f, 1) && f.engine.proc.Down? && !Opens(env, f.engine.disk.log)
  {
    hide Runs, Replay, Overwritten;
    acts, f := ReappliedThenStopped(env);
    OverwrittenReplay(env);
  }

  lemma FoldOfEntry()
    ensures R.Fold([ENTRY]) == map[[97] := [19]]
  {
    assert [ENTRY][..0] == [];
    assert R.FoldOnto(map[], []) == map[];
  }
}
