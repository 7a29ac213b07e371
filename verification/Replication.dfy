/** Pull replication between a primary's journal and a follower (internal/replnet/log.go and the
    replication half of internal/node/server.go): the in-memory log, the gap check, the apply loop,
    and what a follower's data is worth after crashes inside batches. */
module Replication {
  import opened Bytes
  import opened Journal

  type Data = map<bytes, bytes>

  // ---- what a journal means ----

  function Apply(m: Data, e: Entry): Data {
    match e.op
    case OpPut => m[e.key := e.value]
    case OpDelete => m - {e.key}
    case OpOther(_) => m
  }

  ghost function FoldOnto(m: Data, es: seq<Entry>): Data {
    if es == [] then m else Apply(FoldOnto(m, es[..|es| - 1]), es[|es| - 1])
  }

  /** The map a journal describes: its entries applied in order to an empty store. */
  ghost function Fold(es: seq<Entry>): Data {
    FoldOnto(map[], es)
  }

  ghost function Effect(e: Entry): Option<bytes> {
    if e.op == OpPut then Some(e.value) else None
  }

  /** What the first h entries of j say about one key. */
  ghost function ValueAt(j: seq<Entry>, h: nat, k: bytes): Option<bytes>
    requires h <= |j|
  {
    if h == 0 then None
    else if j[h - 1].key == k then Effect(j[h - 1])
    else ValueAt(j, h - 1, k)
  }

  ghost predicate NoOther(j: seq<Entry>) {
    forall i :: 0 <= i < |j| ==> !j[i].op.OpOther?
  }

  lemma {:induction false} FoldValue(j: seq<Entry>, h: nat, k: bytes)
    requires h <= |j| && NoOther(j)
    ensures At(Fold(j[..h]), k) == ValueAt(j, h, k)
  {
    if h > 0 {
      FoldValue(j, h - 1, k);
      assert j[..h][..h - 1] == j[..h - 1] && j[..h][h - 1] == j[h - 1];
    }
  }

  // ---- the in-memory log ----

  class Log {
    var entries: seq<Entry>
    var nextSeq: u64
    var closed: bool

    constructor ()
      ensures entries == [] && nextSeq == 1 && !closed
    {
      entries, nextSeq, closed := [], 1, false;
    }

    method Append(op: Operation, key: bytes, value: bytes, ts: u64) returns (r: Option<Entry>)
      modifies this
      ensures closed == old(closed)
      ensures r.Some? <==> !op.OpOther? && key != [] && !closed
      ensures r.Some? ==> r.value == Entry(old(nextSeq), op, key, value, ts)
                          && entries == old(entries) + [r.value] && nextSeq == WrapAdd(old(nextSeq), 1)
      ensures r.None? ==> entries == old(entries) && nextSeq == old(nextSeq)
    {
      if op.OpOther? || key == [] || closed { return None; }
      var e := Entry(nextSeq, op, key, value, ts);
      entries := entries + [e];
      nextSeq := WrapAdd(nextSeq, 1);
      return Some(e);
    }

    /** The linear scan: the specification DurableLog.EntriesAfter's binary search also meets. */
    method EntriesAfter(after: u64, limit: int) returns (r: Option<seq<Entry>>)
      ensures r == if closed then None else Some(Batch(entries, after, limit))
    {
      if closed { return None; }
      var max := EffectiveLimit(limit);
      var result: seq<Entry> := [];
      for i := 0 to |entries|
        invariant result == Newer(entries[..i], after) && |result| < max
      {
        assert entries[..i + 1][..i] == entries[..i];
        if entries[i].seqno > after {
          result := result + [entries[i]];
          if |result| >= max {
            NewerPrefix(entries, i + 1, after);
            assert Newer(entries, after)[..max] == result;
            assert |Newer(entries, after)| == max ==> Newer(entries, after) == result;
            return Some(result);
          }
        }
      }
      assert entries[..|entries|] == entries;
      return Some(result);
    }
  }

  // ---- pulling ----

  datatype PullResult = NotPrimary | Closed | Gap(firstAvailable: u64, latest: u64) | Pulled(entries: seq<Entry>)

  /** ReplicationEntries: `after+1 < firstSeq` is uint64 arithmetic, and the error of Stats on a closed
      log is ignored, so that a gap then reports zero as the latest number. */
  method ReplicationEntries(log: DurableLog?, after: u64, limit: int, ghost es: seq<Entry>) returns (r: PullResult)
    requires log != null ==> log.Holds(es)
    ensures r.NotPrimary? <==> log == null
    ensures log != null ==>
              (r.Gap? <==> es != [] && WrapAdd(after, 1) < log.baseSeq + 1)
    ensures r.Gap? ==> r.firstAvailable == es[0].seqno && r.latest == if log.closed then 0 else es[|es| - 1].seqno
    ensures log != null && !r.Gap? ==> r == if log.closed then Closed else Pulled(Batch(es, after, limit))
  {
    if log == null { return NotPrimary; }
    var first := log.FirstAvailableSeq(es);
    if first > 0 && WrapAdd(after, 1) < first {
      var latest: u64 := 0;
      if !log.closed { latest := log.LatestSeq(es); }
      return Gap(first, latest);
    }
    var batch := log.EntriesAfter(after, limit, es);
    return if batch.None? then Closed else Pulled(batch.value);
  }

  /** The wrapped comparison means "the follower is behind the first entry" for every cursor
      except MaxUint64, where it reports a gap to a follower that is behind nothing. */
  lemma GapMeansBehind(base: u64, es: seq<Entry>, after: u64)
    requires Contiguous(base, es) && es != []
    ensures ((WrapAdd(after, 1) < es[0].seqno) <==> after + 1 < es[0].seqno) <==> after != MAX_U64
  {
    if after == MAX_U64 {
      assert WrapAdd(after, 1) == 0;
    } else {
      assert WrapAdd(after, 1) == after + 1;
    }
  }

  // ---- applying ----

  datatype ApplyError = OutOfOrder | UnknownOp | EngineFailed | CursorFailed

  datatype Applied = Applied(data: Data, last: u64, err: Option<ApplyError>)

  /** The batch loop; fails(s) says the engine refuses the write of entry s. */
  function ApplyBatch(data: Data, last: u64, es: seq<Entry>, fails: u64 -> bool): Applied
    decreases |es|
  {
    if es == [] then Applied(data, last, None)
    else if es[0].seqno <= last then ApplyBatch(data, last, es[1..], fails)
    else if es[0].seqno != WrapAdd(last, 1) then Applied(data, last, Some(OutOfOrder))
    else if es[0].op.OpOther? then Applied(data, last, Some(UnknownOp))
    else if fails(es[0].seqno) then Applied(data, last, Some(EngineFailed))
    else ApplyBatch(Apply(data, es[0]), es[0].seqno, es[1..], fails)
  }

  /** A follower's store and cursors: `cursor` is the durable one, `lastApplied` the runtime one. */
  class Follower {
    var data: Data
    var lastApplied: u64
    var cursor: u64

    constructor (data: Data, cursor: u64)
      ensures this.data == data && lastApplied == cursor && this.cursor == cursor
    {
      this.data, lastApplied, this.cursor := data, cursor, cursor;
    }

    /** stateStore.AdvanceTo: never backwards. */
    method AdvanceTo(s: u64, saved: bool) returns (ok: bool)
      modifies `cursor
      ensures ok <==> s == old(cursor) || (s > old(cursor) && saved)
      ensures cursor == if ok then s else old(cursor)
      ensures cursor >= old(cursor)
    {
      if s < cursor { return false; }
      if s == cursor { return true; }
      if !saved { return false; }
      cursor := s;
      return true;
    }

    method ApplyReplicationEntriesLocked(es: seq<Entry>, fails: u64 -> bool, saved: bool)
      returns (last: u64, err: Option<ApplyError>)
      requires cursor <= lastApplied
      modifies this
      ensures var spec := ApplyBatch(old(data), old(lastApplied), es, fails);
              && data == spec.data && lastApplied == spec.last == last
              && (spec.err.Some? ==> err == spec.err && cursor == old(cursor))
              && (spec.err.None? ==> cursor == if saved then last else old(cursor))
              && (spec.err.None? ==> err == if cursor == last then None else Some(CursorFailed))
      ensures old(cursor) <= cursor <= lastApplied
    {
      last := lastApplied;
      var i := 0;
      assert es[0..] == es;
      while i < |es|
        invariant 0 <= i <= |es|
        invariant lastApplied == last >= old(lastApplied) && cursor == old(cursor)
        invariant ApplyBatch(old(data), old(lastApplied), es, fails) == ApplyBatch(data, last, es[i..], fails)
      {
        var e := es[i];
        assert es[i..][0] == e && es[i..][1..] == es[i + 1..];
        i := i + 1;
        if e.seqno <= last { continue; }
        if e.seqno != WrapAdd(last, 1) { return last, Some(OutOfOrder); }
        if e.op.OpOther? { return last, Some(UnknownOp); }
        if fails(e.seqno) { return last, Some(EngineFailed); }
        data := Apply(data, e);
        last := e.seqno;
        lastApplied := last;
      }
      if last > 0 {
        var ok := AdvanceTo(last, saved);
        if !ok { return last, Some(CursorFailed); }
      }
      return last, None;
    }
  }

  // ---- what the loop does with any batch ----

  /** Position i holds the first entry of the batch that is newer than n. */
  ghost predicate FirstAbove(es: seq<Entry>, n: int, i: nat) {
    i < |es| && es[i].seqno > n && forall h :: 0 <= h < i ==> es[h].seqno <= n
  }

  /** The positions of the entries last+1, last+2, ...: each the first newer one when its turn comes, a put
      or a delete that the engine accepts. */
  ghost predicate InTurn(es: seq<Entry>, last: u64, fails: u64 -> bool, at: seq<nat>) {
    forall m :: 0 <= m < |at| ==>
      && FirstAbove(es, last + m, at[m]) && es[at[m]].seqno == last + m + 1
      && !es[at[m]].op.OpOther? && !fails(es[at[m]].seqno)
  }

  ghost function Picked(es: seq<Entry>, at: seq<nat>): (r: seq<Entry>)
    requires forall m :: 0 <= m < |at| ==> at[m] < |es|
    ensures |r| == |at| && forall m :: 0 <= m < |at| ==> r[m] == es[at[m]]
  {
    seq(|at|, m requires 0 <= m < |at| => es[at[m]])
  }

  /** Why a batch stops at e when the entries up to `last` are applied. */
  ghost predicate StopsAt(e: Entry, last: u64, fails: u64 -> bool, err: Option<ApplyError>) {
    && err in {Some(OutOfOrder), Some(UnknownOp), Some(EngineFailed)}
    && (err == Some(OutOfOrder) <==> e.seqno != last + 1)
    && (err == Some(UnknownOp) <==> e.seqno == last + 1 && e.op.OpOther?)
    && (err == Some(EngineFailed) <==> e.seqno == last + 1 && !e.op.OpOther? && fails(e.seqno))
  }

  /** The entries in turn are applied and nothing else; the loop goes to the end exactly when nothing newer
      is left, and stops at the first entry newer than all of them otherwise. */
  ghost predicate AppliedInTurn(data: Data, last: u64, es: seq<Entry>, fails: u64 -> bool, at: seq<nat>, r: Applied) {
    && InTurn(es, last, fails, at) && (forall m :: 0 <= m < |at| ==> at[m] < |es|)
    && r.last == last + |at| && r.data == FoldOnto(data, Picked(es, at))
    && (r.err.None? <==> forall i :: 0 <= i < |es| ==> es[i].seqno <= r.last)
    && (forall i: nat :: FirstAbove(es, r.last, i) ==> StopsAt(es[i], r.last, fails, r.err))
  }

  /** Any batch in any order: each entry in turn is applied once, and why the rest is not. */
  lemma {:induction false} AppliesInTurn(data: Data, last: u64, es: seq<Entry>, fails: u64 -> bool)
    returns (at: seq<nat>)
    ensures AppliedInTurn(data, last, es, fails, at, ApplyBatch(data, last, es, fails))
    decreases |es|
  {
    hide AppliedInTurn, FoldOnto, Apply;
    if es == [] || (es[0].seqno > last
                    && (es[0].seqno != WrapAdd(last, 1) || es[0].op.OpOther? || fails(es[0].seqno))) {
      at := [];
      StopsAtOnce(data, last, es, fails);
    } else if es[0].seqno <= last {
      var rest := AppliesInTurn(data, last, es[1..], fails);
      at := Shifted(rest);
      SkipsOld(data, last, es, fails, rest, ApplyBatch(data, last, es[1..], fails));
    } else {
      var rest := AppliesInTurn(Apply(data, es[0]), es[0].seqno, es[1..], fails);
      at := [0] + Shifted(rest);
      TakesNext(data, last, es, fails, rest, ApplyBatch(Apply(data, es[0]), es[0].seqno, es[1..], fails));
    }
  }

  lemma StopsAtOnce(data: Data, last: u64, es: seq<Entry>, fails: u64 -> bool)
    requires es == [] || (es[0].seqno > last
                          && (es[0].seqno != WrapAdd(last, 1) || es[0].op.OpOther? || fails(es[0].seqno)))
    ensures AppliedInTurn(data, last, es, fails, [], ApplyBatch(data, last, es, fails))
  {
    hide FoldOnto;
    NothingPicked(data, es);
    if es != [] { assert FirstAbove(es, last, 0); }
  }

  lemma SkipsOld(data: Data, last: u64, es: seq<Entry>, fails: u64 -> bool, rest: seq<nat>, r: Applied)
    requires es != [] && es[0].seqno <= last && AppliedInTurn(data, last, es[1..], fails, rest, r)
    ensures AppliedInTurn(data, last, es, fails, Shifted(rest), r)
  {
    hide FoldOnto, FirstAbove, StopsAt;
    SkipShifts(es, last, fails, rest);
    BehindFirst(es, r.last);
    assert Picked(es, Shifted(rest)) == Picked(es[1..], rest);
    hide InTurn;
  }

  lemma TakesNext(data: Data, last: u64, es: seq<Entry>, fails: u64 -> bool, rest: seq<nat>, r: Applied)
    requires es != [] && es[0].seqno == last + 1 && !es[0].op.OpOther? && !fails(es[0].seqno)
    requires AppliedInTurn(Apply(data, es[0]), es[0].seqno, es[1..], fails, rest, r)
    ensures AppliedInTurn(data, last, es, fails, [0] + Shifted(rest), r)
  {
    hide FoldOnto, FirstAbove, StopsAt, Apply;
    TakeShifts(es, last, fails, rest);
    BehindFirst(es, r.last);
    hide InTurn;
    var all := Picked(es, [0] + Shifted(rest));
    assert all[0] == es[0] && all[1..] == Picked(es[1..], rest);
    FoldFront(data, all);
  }

  lemma NothingPicked(data: Data, es: seq<Entry>)
    ensures FoldOnto(data, Picked(es, [])) == data
  {
    assert Picked(es, []) == [];
  }

  ghost function Shifted(at: seq<nat>): (r: seq<nat>)
    ensures |r| == |at| && forall m :: 0 <= m < |at| ==> r[m] == at[m] + 1
  {
    seq(|at|, m requires 0 <= m < |at| => at[m] + 1)
  }

  /** One more entry in front moves the first newer one up by one. */
  lemma AboveShifts(es: seq<Entry>, n: int, i: nat)
    requires es != [] && es[0].seqno <= n
    ensures FirstAbove(es, n, i + 1) <==> FirstAbove(es[1..], n, i)
  {
    if FirstAbove(es, n, i + 1) {
      assert forall h :: 0 <= h < i ==> es[1..][h] == es[h + 1];
    }
  }

  lemma SkipShifts(es: seq<Entry>, last: u64, fails: u64 -> bool, rest: seq<nat>)
    requires es != [] && es[0].seqno <= last && InTurn(es[1..], last, fails, rest)
    ensures InTurn(es, last, fails, Shifted(rest))
  {
    hide FirstAbove;
    forall m | 0 <= m < |rest| ensures FirstAbove(es, last + m, rest[m] + 1) { AboveShifts(es, last + m, rest[m]); }
    InRange(es[1..], last, fails, rest);
  }

  lemma TakeShifts(es: seq<Entry>, last: u64, fails: u64 -> bool, rest: seq<nat>)
    requires es != [] && es[0].seqno == last + 1 && !es[0].op.OpOther? && !fails(es[0].seqno)
    requires InTurn(es[1..], es[0].seqno, fails, rest)
    ensures InTurn(es, last, fails, [0] + Shifted(rest))
  {
    var at := [0] + Shifted(rest);
    assert FirstAbove(es, last, 0);
    InRange(es[1..], es[0].seqno, fails, rest);
    hide FirstAbove;
    forall m | 1 <= m < |at| ensures FirstAbove(es, last + m, at[m]) { AboveShifts(es, last + m, rest[m - 1]); }
  }

  lemma InRange(es: seq<Entry>, last: u64, fails: u64 -> bool, at: seq<nat>)
    requires InTurn(es, last, fails, at)
    ensures forall m :: 0 <= m < |at| ==> at[m] < |es|
  {
  }

  /** Whether and where something newer is left, seen without a first entry that is not newer. */
  lemma BehindFirst(es: seq<Entry>, n: int)
    requires es != [] && es[0].seqno <= n
    ensures (forall i :: 0 <= i < |es| ==> es[i].seqno <= n)
       <==> (forall i :: 0 <= i < |es[1..]| ==> es[1..][i].seqno <= n)
    ensures forall i: nat :: FirstAbove(es, n, i) ==> i > 0 && FirstAbove(es[1..], n, i - 1) && es[i] == es[1..][i - 1]
  {
    assert forall i :: 0 < i < |es| ==> es[i] == es[1..][i - 1];
    forall i: nat | FirstAbove(es, n, i) ensures i > 0 && FirstAbove(es[1..], n, i - 1) {
      AboveShifts(es, n, i - 1);
    }
  }

  /** A batch in two parts: the second is only looked at when the first went through. */
  lemma {:induction false} ApplyParts(data: Data, last: u64, a: seq<Entry>, b: seq<Entry>, fails: u64 -> bool)
    ensures var r := ApplyBatch(data, last, a, fails);
            ApplyBatch(data, last, a + b, fails)
              == if r.err.Some? then r else ApplyBatch(r.data, r.last, b, fails)
    decreases |a|
  {
    if a == [] {
      assert a + b == b;
    } else {
      assert (a + b)[0] == a[0] && (a + b)[1..] == a[1..] + b;
      if a[0].seqno <= last {
        ApplyParts(data, last, a[1..], b, fails);
      } else {
        ApplyParts(Apply(data, a[0]), a[0].seqno, a[1..], b, fails);
      }
    }
  }

  /** Engine failures of later entries do not matter. */
  lemma {:induction false} LaterFailures(data: Data, last: u64, es: seq<Entry>, f: u64 -> bool, g: u64 -> bool)
    requires ApplyBatch(data, last, es, f).err.None?
    requires forall s: u64 :: s <= ApplyBatch(data, last, es, f).last ==> !g(s)
    ensures last <= ApplyBatch(data, last, es, f).last && ApplyBatch(data, last, es, g) == ApplyBatch(data, last, es, f)
    decreases |es|
  {
    hide Apply;
    if es != [] {
      if es[0].seqno <= last {
        LaterFailures(data, last, es[1..], f, g);
      } else {
        LaterFailures(Apply(data, es[0]), es[0].seqno, es[1..], f, g);
      }
    }
  }

  /** A batch that holds nothing new changes nothing. */
  lemma OldBatchIsIgnored(data: Data, last: u64, es: seq<Entry>, fails: u64 -> bool)
    requires forall i :: 0 <= i < |es| ==> es[i].seqno <= last
    ensures ApplyBatch(data, last, es, fails) == Applied(data, last, None)
  {
    var at := AppliesInTurn(data, last, es, fails);
    hide ApplyBatch;
    assert InTurn(es, last, fails, at);
    assert at == [];
    NothingPicked(data, es);
  }

  lemma {:induction false} ApplySlice(data: Data, j: seq<Entry>, base: u64, lo: nat, hi: nat, fails: u64 -> bool)
    requires Contiguous(base, j) && lo <= hi <= |j|
    requires forall i {:trigger j[i]} :: lo <= i < hi ==> !fails(j[i].seqno)
    ensures ApplyBatch(data, base + lo, j[lo..hi], fails) == Applied(FoldOnto(data, j[lo..hi]), base + hi, None)
    decreases hi - lo
  {
    if lo < hi {
      ApplySlice(Apply(data, j[lo]), j, base, lo + 1, hi, fails);
      assert j[lo..hi][1..] == j[lo + 1..hi];
      FoldFront(data, j[lo..hi]);
    }
  }

  lemma {:induction false} FoldFront(m: Data, es: seq<Entry>)
    requires es != []
    ensures FoldOnto(m, es) == FoldOnto(Apply(m, es[0]), es[1..])
  {
    if |es| == 1 {
      assert es[..0] == [] && es[1..] == [];
    } else {
      FoldFront(m, es[..|es| - 1]);
      assert es[..|es| - 1][1..] == es[1..][..|es| - 2];
    }
  }

  lemma ApplyNothing(data: Data, last: u64, fails: u64 -> bool)
    ensures ApplyBatch(data, last, [], fails) == Applied(FoldOnto(data, []), last, None)
  {
  }

  /** The pull contract: without a gap, the batch served for cursor `after` is the stretch of the
      journal that starts right at after+1, and applying it advances the cursor entry by entry to
      its end; the out-of-order error cannot occur. */
  lemma PullThenApply(base: u64, j: seq<Entry>, after: u64, limit: int, data: Data, fails: u64 -> bool)
    requires Contiguous(base, j) && base <= after
    ensures var batch := Batch(j, after, limit);
            && (after <= base + |j| ==> batch == j[after - base..Min(after - base + EffectiveLimit(limit), |j|)])
            && (after >= base + |j| ==> batch == [])
            && ApplyBatch(data, after, batch, fails).err in {None, Some(EngineFailed)}
            && ((forall s :: !fails(s)) ==>
                  ApplyBatch(data, after, batch, fails) == Applied(FoldOnto(data, batch), after + |batch|, None))
  {
    hide ApplyBatch, Batch, FoldOnto;
    var lo := if after <= base + |j| then after - base else |j|;
    BatchSlice(j, after, limit, lo);
    var hi := Min(lo + EffectiveLimit(limit), |j|);
    assert Batch(j, after, limit) == j[lo..hi];
    if after <= base + |j| {
      ApplyNeverOutOfOrder(data, j, base, lo, hi, fails);
      if forall s :: !fails(s) { ApplySlice(data, j, base, lo, hi, fails); }
    } else {
      ApplyNothing(data, after, fails);
    }
  }

  lemma {:induction false} ApplyNeverOutOfOrder(data: Data, j: seq<Entry>, base: u64, lo: nat, hi: nat,
                                                fails: u64 -> bool)
    requires Contiguous(base, j) && lo <= hi <= |j|
    ensures ApplyBatch(data, base + lo, j[lo..hi], fails).err in {None, Some(EngineFailed)}
    decreases hi - lo
  {
    if lo < hi {
      assert j[lo..hi][1..] == j[lo + 1..hi];
      ApplyNeverOutOfOrder(Apply(data, j[lo]), j, base, lo + 1, hi, fails);
    }
  }

  // ---- crashes inside batches ----

  /** After h entries of j have been applied at some time and the cursor stands at l, every key
      that none of the entries l..h touches has its final value. */
  ghost predicate Tracks(j: seq<Entry>, data: Data, l: nat, h: nat) {
    && l <= h <= |j|
    && forall k {:trigger At(data, k)} :: Untouched(j, l, h, k) ==> At(data, k) == ValueAt(j, h, k)
  }

  ghost predicate Untouched(j: seq<Entry>, l: nat, h: nat, k: bytes)
    requires h <= |j|
  {
    forall i :: l <= i < h ==> j[i].key != k
  }

  lemma TracksFresh(j: seq<Entry>)
    ensures Tracks(j, map[], 0, 0)
  {
  }

  /** A restart only moves the cursor back. */
  lemma TracksRestart(j: seq<Entry>, data: Data, l: nat, h: nat, l': nat)
    requires Tracks(j, data, l, h) && l' <= l
    ensures Tracks(j, data, l', h)
  {
    forall k | Untouched(j, l', h, k) ensures At(data, k) == ValueAt(j, h, k) {
      assert Untouched(j, l, h, k);
    }
  }

  lemma TracksApply(j: seq<Entry>, data: Data, l: nat, h: nat)
    requires Tracks(j, data, l, h) && l < |j| && NoOther(j)
    ensures Tracks(j, Apply(data, j[l]), l + 1, if l < h then h else l + 1)
  {
    var h' := if l < h then h else l + 1;
    forall k | Untouched(j, l + 1, h', k) ensures At(Apply(data, j[l]), k) == ValueAt(j, h', k) {
      if k == j[l].key {
        SettledValue(j, l + 1, h', k);
      } else {
        assert Untouched(j, l, h, k);
        assert At(Apply(data, j[l]), k) == At(data, k);
      }
    }
  }

  lemma {:induction false} SettledValue(j: seq<Entry>, l: nat, h: nat, k: bytes)
    requires l <= h <= |j| && Untouched(j, l, h, k)
    ensures ValueAt(j, h, k) == ValueAt(j, l, k)
    decreases h
  {
    if l < h { SettledValue(j, l, h - 1, k); }
  }

  lemma {:induction false} ValueStable(j: seq<Entry>, j': seq<Entry>, h: nat, k: bytes)
    requires h <= |j| && j <= j'
    ensures ValueAt(j', h, k) == ValueAt(j, h, k)
    decreases h
  {
    if h > 0 { ValueStable(j, j', h - 1, k); }
  }

  lemma TracksGrown(j: seq<Entry>, j': seq<Entry>, data: Data, l: nat, h: nat)
    requires Tracks(j, data, l, h) && j <= j'
    ensures Tracks(j', data, l, h)
  {
    forall k | Untouched(j', l, h, k) ensures At(data, k) == ValueAt(j', h, k) {
      assert Untouched(j, l, h, k);
      ValueStable(j, j', h, k);
    }
  }

  /** Caught up with everything ever applied, the data is the journal's fold. */
  lemma TracksCaughtUp(j: seq<Entry>, data: Data, h: nat)
    requires Tracks(j, data, h, h) && NoOther(j)
    ensures data == Fold(j[..h])
  {
    var f := Fold(j[..h]);
    forall k ensures At(data, k) == At(f, k) {
      assert Untouched(j, h, h, k);
      FoldValue(j, h, k);
    }
    assert forall k :: (k in data <==> k in f) && (k in data ==> data[k] == f[k]) by {
      forall k ensures (k in data <==> k in f) && (k in data ==> data[k] == f[k]) {
        assert At(data, k) == At(f, k);
      }
    }
  }

  /** One follower against a growing journal: `high` records the highest entry ever applied. */
  datatype FollowerState = FollowerState(journal: seq<Entry>, data: Data, applied: nat, cursor: nat, high: nat)

  ghost predicate FollowerInit(s: FollowerState) {
    s == FollowerState(s.journal, map[], 0, 0, 0) && NoOther(s.journal)
  }

  /** Journal growth, one applied entry, a cursor save, or a crash that falls back to the cursor. */
  ghost predicate FollowerNext(s: FollowerState, s': FollowerState) {
    || (s.journal <= s'.journal && NoOther(s'.journal) && s' == s.(journal := s'.journal))
    || (s.applied < |s.journal| && s' == s.(data := Apply(s.data, s.journal[s.applied]), applied := s.applied + 1,
                                            high := if s.applied < s.high then s.high else s.applied + 1))
    || (s.applied > s.cursor && s' == s.(cursor := s.applied))
    || s' == s.(applied := s.cursor)
  }

  ghost predicate FollowerRun(run: seq<FollowerState>) {
    && run != [] && FollowerInit(run[0])
    && forall i :: 0 <= i < |run| - 1 ==> FollowerNext(run[i], run[i + 1])
  }

  ghost predicate FollowerOk(s: FollowerState) {
    NoOther(s.journal) && s.cursor <= s.applied && Tracks(s.journal, s.data, s.applied, s.high)
  }

  lemma FollowerStep(s: FollowerState, s': FollowerState)
    requires FollowerOk(s) && FollowerNext(s, s')
    ensures FollowerOk(s') && s.cursor <= s'.cursor && s.high <= s'.high && s.journal <= s'.journal
  {
    if s.journal <= s'.journal && NoOther(s'.journal) && s' == s.(journal := s'.journal) {
      TracksGrown(s.journal, s'.journal, s.data, s.applied, s.high);
    } else if s' == s.(applied := s.cursor) {
      TracksRestart(s.journal, s.data, s.applied, s.high, s.cursor);
    } else if s' != s.(cursor := s.applied) {
      TracksApply(s.journal, s.data, s.applied, s.high);
    }
  }

  /** Over any run, with any number of crashes: the durable cursor only grows and stays within what
      was applied, and whenever the follower is back at its high-water mark its data is exactly the
      fold of that much of the journal. */
  lemma {:induction false} CrashConvergence(run: seq<FollowerState>, i: nat)
    requires FollowerRun(run) && i < |run|
    ensures FollowerOk(run[i]) && run[i].cursor <= run[i].applied <= run[i].high <= |run[i].journal|
    ensures forall m :: 0 <= m <= i ==> run[m].cursor <= run[i].cursor && run[m].high <= run[i].high
    ensures run[i].applied == run[i].high ==> run[i].data == Fold(run[i].journal[..run[i].high])
  {
    if i > 0 {
      CrashConvergence(run, i - 1);
      FollowerStep(run[i - 1], run[i]);
    }
    if run[i].applied == run[i].high {
      TracksCaughtUp(run[i].journal, run[i].data, run[i].high);
    }
  }

  /** While re-applying, a follower can show a map that no prefix of the journal ever described. */
  lemma ReapplyIsNotAPrefix() returns (run: seq<FollowerState>)
    ensures FollowerRun(run)
    ensures var s := run[|run| - 1]; forall h :: 0 <= h <= |s.journal| ==> s.data != Fold(s.journal[..h])
  {
    var a, b := [0], [1];
    assert a[0] != b[0];
    var j := [Entry(1, OpPut, a, [1], 0), Entry(2, OpPut, a, [2], 0), Entry(3, OpPut, b, [1], 0)];
    var m1: Data := map[a := [1]];
    var m2: Data := map[a := [2]];
    var m3: Data := map[a := [2], b := [1]];
    var m4: Data := map[a := [1], b := [1]];
    run := [FollowerState(j, map[], 0, 0, 0), FollowerState(j, m1, 1, 0, 1), FollowerState(j, m2, 2, 0, 2),
            FollowerState(j, m3, 3, 0, 3), FollowerState(j, m3, 0, 0, 3), FollowerState(j, m4, 1, 0, 3)];
    assert Apply(map[], j[0]) == m1 && Apply(m1, j[1]) == m2 && Apply(m2, j[2]) == m3 && Apply(m3, j[0]) == m4;
    hide Fold, Apply;
    assert At(m4, a) == At(m4, b) == Some([1]);
    forall h | 0 <= h <= 3 ensures m4 != Fold(j[..h]) { NeverBoth(j, h, a, b); }
  }

  lemma NeverBoth(j: seq<Entry>, h: nat, a: bytes, b: bytes)
    requires a != b && h <= |j|
    requires j == [Entry(1, OpPut, a, [1], 0), Entry(2, OpPut, a, [2], 0), Entry(3, OpPut, b, [1], 0)]
    ensures At(Fold(j[..h]), a) != Some([1]) || At(Fold(j[..h]), b) != Some([1])
  {
    hide Fold;
    if h <= 2 {
      FoldValue(j, h, b);
      SettledValue(j, 0, h, b);
    } else {
      FoldValue(j, 3, a);
      SettledValue(j, 2, 3, a);
    }
  }
}
