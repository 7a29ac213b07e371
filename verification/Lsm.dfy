/** What the LSM engine's layers mean together (internal/engine/engine.go): reads by position, merges
    by sequence number, and when the two agree. */
module Lsm {
  import opened Bytes
  import opened Records
  import opened Tables
  import Bloom

  type Buffer = map<bytes, Record>

  /** What a caller sees of a version: a tombstone is nothing. */
  function Visible(r: Option<Record>): Option<bytes> {
    if r.Some? && r.value.kind == PUT then Some(r.value.value) else None
  }

  // ---- reading by position ----

  /** The newest table that has the key decides. */
  function FindTables(tables: seq<seq<Record>>, k: bytes): Option<Record> {
    if tables == [] then None
    else
      var newest := Lookup(tables[|tables| - 1], k);
      if newest.Some? then newest else FindTables(tables[..|tables| - 1], k)
  }

  function Find(mem: Buffer, tables: seq<seq<Record>>, k: bytes): Option<Record> {
    if k in mem then Some(mem[k]) else FindTables(tables, k)
  }

  function Read(mem: Buffer, tables: seq<seq<Record>>, k: bytes): Option<bytes> {
    Visible(Find(mem, tables, k))
  }

  // ---- table handles and their skips ----

  datatype Handle = Handle(id: nat, table: seq<Record>, bloom: Bloom.Filter, minKey: bytes, maxKey: bytes)

  /** What Flush and Compact put into a handle. */
  ghost predicate Sound(fnv: Hash, h: Handle) {
    && Sorted(h.table) && h.table != []
    && (forall i :: 0 <= i < |h.table| ==> h.table[i].key != [] && KnownKind(h.table[i].kind))
    && h.minKey == h.table[0].key && h.maxKey == h.table[|h.table| - 1].key
    && Bloom.WellFormed(h.bloom)
    && (forall i :: 0 <= i < |h.table| ==> Bloom.Member(fnv, h.bloom, h.table[i].key))
  }

  ghost predicate AllSound(fnv: Hash, hs: seq<Handle>) {
    forall i :: 0 <= i < |hs| ==> Sound(fnv, hs[i])
  }

  function Contents(hs: seq<Handle>): (ts: seq<seq<Record>>)
    ensures |ts| == |hs| && forall i :: 0 <= i < |hs| ==> ts[i] == hs[i].table
  {
    seq(|hs|, i requires 0 <= i < |hs| => hs[i].table)
  }

  predicate OutOfBounds(h: Handle, k: bytes) {
    (h.minKey != [] && Less(k, h.minKey)) || (h.maxKey != [] && Less(h.maxKey, k))
  }

  /** The bounds skip a table exactly when its records all lie on one side of the key. */
  lemma BoundsIff(fnv: Hash, h: Handle, k: bytes)
    requires Sound(fnv, h)
    ensures OutOfBounds(h, k)
       <==> || (forall i :: 0 <= i < |h.table| ==> Less(k, h.table[i].key))
            || (forall i :: 0 <= i < |h.table| ==> Less(h.table[i].key, k))
  {
    var rs, n := h.table, |h.table| - 1;
    hide Bloom.Member, Less;
    forall i | 0 <= i < |rs|
      ensures (Less(k, rs[0].key) ==> Less(k, rs[i].key)) && (Less(rs[n].key, k) ==> Less(rs[i].key, k))
    {
      if i > 0 && Less(k, rs[0].key) { LessTransitive(k, rs[0].key, rs[i].key); }
      if i < n && Less(rs[n].key, k) { LessTransitive(rs[i].key, rs[n].key, k); }
    }
  }

  /** A table that is skipped, by bounds or by its filter, does not hold the key. */
  lemma SkipIsSafe(fnv: Hash, h: Handle, k: bytes)
    requires Sound(fnv, h) && (OutOfBounds(h, k) || !Bloom.Member(fnv, h.bloom, k))
    ensures Lookup(h.table, k) == None
  {
    hide Bloom.Member, Less;
    forall i | 0 <= i < |h.table| ensures h.table[i].key != k { WithinBounds(h.table, i); }
    LookupMissing(h.table, k);
  }

  lemma WithinBounds(rs: seq<Record>, i: nat)
    requires Sorted(rs) && i < |rs|
    ensures !Less(rs[i].key, rs[0].key) && !Less(rs[|rs| - 1].key, rs[i].key)
  {
    LessIrreflexive(rs[i].key);
    if i > 0 { LessAsymmetric(rs[0].key, rs[i].key); }
    if i < |rs| - 1 { LessAsymmetric(rs[i].key, rs[|rs| - 1].key); }
  }

  // ---- merging by sequence number ----

  /** The version the merge keeps when it holds `a` and meets `b`: ties go to the one it has. */
  function Better(a: Option<Record>, b: Option<Record>): Option<Record> {
    if a.None? then b else if b.None? || b.value.seqno <= a.value.seqno then a else b
  }

  function Merge(best: Buffer, r: Record): Buffer {
    if r.key in best && r.seqno <= best[r.key].seqno then best else best[r.key := r]
  }

  ghost function MergeRun(best: Buffer, rs: seq<Record>): Buffer {
    if rs == [] then best else Merge(MergeRun(best, rs[..|rs| - 1]), rs[|rs| - 1])
  }

  ghost function MergeRuns(best: Buffer, runs: seq<seq<Record>>): Buffer {
    if runs == [] then best else MergeRun(MergeRuns(best, runs[..|runs| - 1]), runs[|runs| - 1])
  }

  /** The version of k that survives merging the runs in order onto `first`. */
  ghost function Champion(first: Option<Record>, runs: seq<seq<Record>>, k: bytes): Option<Record> {
    if runs == [] then first
    else Better(Champion(first, runs[..|runs| - 1], k), Lookup(runs[|runs| - 1], k))
  }

  lemma {:induction false} MergeRunAt(best: Buffer, rs: seq<Record>, k: bytes)
    requires Sorted(rs)
    ensures At(MergeRun(best, rs), k) == Better(At(best, k), Lookup(rs, k))
  {
    hide Less;
    if rs != [] {
      var init, r := rs[..|rs| - 1], rs[|rs| - 1];
      MergeRunAt(best, init, k);
      if r.key == k {
        forall i | 0 <= i < |init| ensures init[i].key != k { LessAsymmetric(rs[i].key, r.key); }
        LookupMissing(init, k);
      }
    }
  }

  lemma {:induction false} MergeRunsAt(best: Buffer, runs: seq<seq<Record>>, k: bytes)
    requires forall i :: 0 <= i < |runs| ==> Sorted(runs[i])
    ensures At(MergeRuns(best, runs), k) == Champion(At(best, k), runs, k)
  {
    hide MergeRun, Sorted, Lookup;
    if runs != [] {
      MergeRunsAt(best, runs[..|runs| - 1], k);
      MergeRunAt(MergeRuns(best, runs[..|runs| - 1]), runs[|runs| - 1], k);
    }
  }

  ghost function Ranges(tables: seq<seq<Record>>, start: bytes, end: bytes): (runs: seq<seq<Record>>)
    ensures |runs| == |tables| && forall i :: 0 <= i < |tables| ==> runs[i] == Within(tables[i], start, end)
  {
    seq(|tables|, i requires 0 <= i < |tables| => Within(tables[i], start, end))
  }

  /** Merging ranges of the tables is merging the tables, inside the range. */
  lemma {:induction false} RangeChampion(first: Option<Record>, tables: seq<seq<Record>>, start: bytes, end: bytes,
                                         k: bytes)
    ensures Champion(first, Ranges(tables, start, end), k)
         == if InRange(start, end, k) then Champion(first, tables, k) else first
  {
    hide Lookup, Within, InRange;
    if tables != [] {
      var n := |tables| - 1;
      RangeChampion(first, tables[..n], start, end, k);
      assert Ranges(tables, start, end)[..n] == Ranges(tables[..n], start, end);
      LookupWithin(tables[n], start, end, k);
    }
  }

  // ---- age order ----

  /** a is missing, b is missing, or b is strictly newer. */
  ghost predicate NewerThan(a: Option<Record>, b: Option<Record>) {
    a.Some? && b.Some? ==> a.value.seqno < b.value.seqno
  }

  /** Position order and sequence order agree on every key. */
  ghost predicate TablesAged(tables: seq<seq<Record>>) {
    forall i, j, k :: 0 <= i < j < |tables| ==> NewerThan(Lookup(tables[i], k), Lookup(tables[j], k))
  }

  ghost predicate AgeOrdered(mem: Buffer, tables: seq<seq<Record>>) {
    && TablesAged(tables)
    && forall i, k :: 0 <= i < |tables| ==> NewerThan(Lookup(tables[i], k), At(mem, k))
  }

  /** No version has reached the engine's counter. */
  ghost predicate Below(mem: Buffer, tables: seq<seq<Record>>, next: nat) {
    && (forall k :: k in mem ==> mem[k].seqno < next)
    && (forall i, k :: 0 <= i < |tables| && Lookup(tables[i], k).Some? ==> Lookup(tables[i], k).value.seqno < next)
  }

  lemma {:induction false} FindsSome(tables: seq<seq<Record>>, k: bytes)
    ensures FindTables(tables, k).Some? ==>
              exists i :: 0 <= i < |tables| && Lookup(tables[i], k) == FindTables(tables, k)
    ensures FindTables(tables, k).None? ==> forall i :: 0 <= i < |tables| ==> Lookup(tables[i], k).None?
  {
    hide Lookup;
    if tables != [] {
      var n := |tables| - 1;
      FindsSome(tables[..n], k);
      if Lookup(tables[n], k).None? && FindTables(tables[..n], k).Some? {
        var i :| 0 <= i < n && Lookup(tables[..n][i], k) == FindTables(tables[..n], k);
        assert Lookup(tables[i], k) == FindTables(tables, k);
      }
    }
  }

  /** Merging aged tables keeps, for every key, the version the newest table holds. */
  lemma {:induction false} AgedChampion(tables: seq<seq<Record>>, k: bytes)
    requires TablesAged(tables)
    ensures Champion(None, tables, k) == FindTables(tables, k)
  {
    hide Lookup;
    if tables != [] {
      var n := |tables| - 1;
      AgedChampion(tables[..n], k);
      FindsSome(tables[..n], k);
      assert forall i :: 0 <= i < n ==> tables[..n][i] == tables[i];
    }
  }

  /** A buffered version that is no older than any table's is kept. */
  lemma {:induction false} BufferedChampion(tables: seq<seq<Record>>, k: bytes, r: Record)
    requires forall i :: 0 <= i < |tables| ==> NewerThan(Lookup(tables[i], k), Some(r))
    ensures Champion(Some(r), tables, k) == Some(r)
  {
    hide Lookup;
    if tables != [] {
      var n := |tables| - 1;
      assert forall i :: 0 <= i < n ==> tables[..n][i] == tables[i];
      BufferedChampion(tables[..n], k, r);
    }
  }

  /** In an age-ordered state merging everything finds what reading by position finds. */
  lemma MergeIsFind(mem: Buffer, tables: seq<seq<Record>>, k: bytes)
    requires AgeOrdered(mem, tables)
    ensures Champion(At(mem, k), tables, k) == Find(mem, tables, k)
  {
    hide Lookup, TablesAged;
    if k in mem {
      forall i | 0 <= i < |tables| ensures NewerThan(Lookup(tables[i], k), Some(mem[k])) {
        assert NewerThan(Lookup(tables[i], k), At(mem, k));
      }
      BufferedChampion(tables, k, mem[k]);
    } else {
      AgedChampion(tables, k);
    }
  }

  // ---- exactly when the two agree ----

  /** Table i's version of k is the one a merge onto `first` keeps: it outranks `first` and every older
      table's version, and no newer table's version outranks it. */
  ghost predicate Prevails(first: Option<Record>, tables: seq<seq<Record>>, k: bytes, i: nat)
    requires i < |tables|
  {
    var r := Lookup(tables[i], k);
    && r.Some?
    && NewerThan(first, r)
    && (forall h :: 0 <= h < i ==> NewerThan(Lookup(tables[h], k), r))
    && (forall h :: i < h < |tables| ==> !Outranks(Lookup(tables[h], k), r))
  }

  ghost predicate Outranks(a: Option<Record>, b: Option<Record>) {
    a.Some? && b.Some? && a.value.seqno > b.value.seqno
  }

  /** Nothing outranks the survivor of a merge. */
  lemma {:induction false} SurvivorBound(first: Option<Record>, tables: seq<seq<Record>>, k: bytes)
    ensures first.Some? ==> Champion(first, tables, k).Some? && !Outranks(first, Champion(first, tables, k))
    ensures forall i :: 0 <= i < |tables| ==> !Outranks(Lookup(tables[i], k), Champion(first, tables, k))
  {
    hide Lookup;
    if tables != [] {
      var init := tables[..|tables| - 1];
      SurvivorBound(first, init, k);
      if Champion(first, init, k).None? { SurvivorNone(first, init, k); }
      assert forall i :: 0 <= i < |init| ==> init[i] == tables[i];
    }
  }

  /** Only a key that no one has is left without a survivor. */
  lemma {:induction false} SurvivorNone(first: Option<Record>, tables: seq<seq<Record>>, k: bytes)
    requires Champion(first, tables, k).None?
    ensures first.None? && forall i :: 0 <= i < |tables| ==> Lookup(tables[i], k).None?
  {
    hide Lookup;
    if tables != [] {
      var init := tables[..|tables| - 1];
      SurvivorNone(first, init, k);
      assert forall i :: 0 <= i < |init| ==> init[i] == tables[i];
    }
  }

  /** The survivor is one of the versions merged. */
  lemma {:induction false} SurvivorFrom(first: Option<Record>, tables: seq<seq<Record>>, k: bytes)
    ensures || Champion(first, tables, k) == first
            || exists i :: 0 <= i < |tables| && Champion(first, tables, k) == Lookup(tables[i], k)
  {
    hide Lookup;
    if tables != [] {
      var n := |tables| - 1;
      SurvivorFrom(first, tables[..n], k);
      var before := Champion(first, tables[..n], k);
      if Champion(first, tables, k) == before && before != first {
        var i :| 0 <= i < n && before == Lookup(tables[..n][i], k);
        assert before == Lookup(tables[i], k);
      }
    }
  }

  /** A version that prevails survives. */
  lemma {:induction false} PrevailingSurvives(first: Option<Record>, tables: seq<seq<Record>>, k: bytes, i: nat)
    requires i < |tables| && Prevails(first, tables, k, i)
    ensures Champion(first, tables, k) == Lookup(tables[i], k)
    decreases |tables|
  {
    hide Lookup, Prevails;
    var n := |tables| - 1;
    if i < n {
      EarlierPrevails(first, tables, k, i);
      PrevailingSurvives(first, tables[..n], k, i);
    } else {
      LastPrevails(first, tables, k);
    }
  }

  /** And when none does, what the merge began with is left. */
  lemma {:induction false} NothingPrevails(first: Option<Record>, tables: seq<seq<Record>>, k: bytes)
    requires forall i :: 0 <= i < |tables| ==> !Prevails(first, tables, k, i)
    ensures Champion(first, tables, k) == first
    decreases |tables|
  {
    hide Lookup, Prevails;
    if tables != [] {
      var n := |tables| - 1;
      var init, r := tables[..n], Lookup(tables[n], k);
      LastPrevails(first, tables, k);
      if w: nat :| w < n && Prevails(first, init, k, w) {
        PrevailingSurvives(first, init, k, w);
        EarlierPrevails(first, tables, k, w);
        assert Champion(first, init, k) == Lookup(tables[w], k);
        NotOutranked(Champion(first, init, k), r);
        assert false;
      }
      NothingPrevails(first, init, k);
    }
  }

  lemma NotOutranked(a: Option<Record>, b: Option<Record>)
    requires a.Some? && !(b.Some? && NewerThan(a, b))
    ensures !Outranks(b, a)
  {
  }

  /** The survivor of a merge, without recursion: the prevailing table version, or `first` if there is none. */
  lemma SurvivorIs(first: Option<Record>, tables: seq<seq<Record>>, k: bytes)
    ensures forall i :: 0 <= i < |tables| && Prevails(first, tables, k, i) ==>
              Champion(first, tables, k) == Lookup(tables[i], k)
    ensures (forall i :: 0 <= i < |tables| ==> !Prevails(first, tables, k, i)) ==> Champion(first, tables, k) == first
  {
    hide Lookup, Prevails, Champion;
    forall i | 0 <= i < |tables| && Prevails(first, tables, k, i)
      ensures Champion(first, tables, k) == Lookup(tables[i], k)
    {
      PrevailingSurvives(first, tables, k, i);
    }
    if forall i :: 0 <= i < |tables| ==> !Prevails(first, tables, k, i) { NothingPrevails(first, tables, k); }
  }

  lemma EarlierPrevails(first: Option<Record>, tables: seq<seq<Record>>, k: bytes, i: nat)
    requires i < |tables| - 1
    ensures var n := |tables| - 1;
            && tables[..n][i] == tables[i]
            && (Prevails(first, tables, k, i)
                <==> Prevails(first, tables[..n], k, i) && !Outranks(Lookup(tables[n], k), Lookup(tables[i], k)))
    ensures Prevails(first, tables, k, i) ==> Lookup(tables[i], k).Some?
  {
    hide Lookup;
    assert forall h :: 0 <= h < |tables| - 1 ==> tables[..|tables| - 1][h] == tables[h];
  }

  /** The last table's version prevails exactly when it outranks the survivor of everything before it. */
  lemma LastPrevails(first: Option<Record>, tables: seq<seq<Record>>, k: bytes)
    requires tables != []
    ensures var n := |tables| - 1;
            Prevails(first, tables, k, n)
            <==> Lookup(tables[n], k).Some? && NewerThan(Champion(first, tables[..n], k), Lookup(tables[n], k))
  {
    hide Lookup, Champion;
    var init := tables[..|tables| - 1];
    SurvivorBound(first, init, k);
    SurvivorFrom(first, init, k);
    if Champion(first, init, k).None? { SurvivorNone(first, init, k); }
    assert forall h :: 0 <= h < |init| ==> init[h] == tables[h];
  }

  /** No table version of k that prevails over the buffered one shows something else than a read. */
  ghost predicate Agrees(mem: Buffer, tables: seq<seq<Record>>, k: bytes) {
    forall i :: 0 <= i < |tables| && Prevails(At(mem, k), tables, k, i) ==>
      Visible(Lookup(tables[i], k)) == Read(mem, tables, k)
  }

  /** Merging shows of a key what reading shows if and only if Agrees. */
  lemma MergeShowsReadIff(mem: Buffer, tables: seq<seq<Record>>, k: bytes)
    ensures Visible(Champion(At(mem, k), tables, k)) == Read(mem, tables, k) <==> Agrees(mem, tables, k)
  {
    hide Lookup, Champion, Prevails;
    SurvivorIs(At(mem, k), tables, k);
    if Champion(At(mem, k), tables, k).None? { SurvivorNone(At(mem, k), tables, k); }
    FindsSome(tables, k);
  }

  /** No table version of k has a number above seqno. */
  ghost predicate Unsurpassed(tables: seq<seq<Record>>, k: bytes, seqno: u64) {
    forall i :: 0 <= i < |tables| && Lookup(tables[i], k).Some? ==> Lookup(tables[i], k).value.seqno <= seqno
  }

  /** Table j is the newest that has k. */
  ghost predicate NewestHolds(tables: seq<seq<Record>>, k: bytes, j: nat) {
    j < |tables| && Lookup(tables[j], k).Some? && forall h :: j < h < |tables| ==> Lookup(tables[h], k).None?
  }

  /** No older version of k has a higher number than table j's, and the oldest version with the same
      number is the same record. */
  ghost predicate NewestStands(tables: seq<seq<Record>>, k: bytes, j: nat)
    requires j < |tables| && Lookup(tables[j], k).Some?
  {
    var newest := Lookup(tables[j], k);
    && (forall i :: 0 <= i < j ==> !Outranks(Lookup(tables[i], k), newest))
    && (forall i :: 0 <= i < j && FirstOfRank(tables, k, i, newest.value.seqno) ==> Lookup(tables[i], k) == newest)
  }

  /** A buffered version survives if and only if no table version of the key has a higher number. */
  lemma BufferedSurvivesIff(mem: Buffer, tables: seq<seq<Record>>, k: bytes)
    requires k in mem
    ensures Champion(At(mem, k), tables, k) == Find(mem, tables, k) <==> Unsurpassed(tables, k, mem[k].seqno)
  {
    hide Lookup, Champion, Prevails;
    var r := At(mem, k);
    SurvivorBound(r, tables, k);
    if Unsurpassed(tables, k, mem[k].seqno) {
      forall i | 0 <= i < |tables| ensures !Prevails(r, tables, k, i) { SurpassedFails(r, tables, k, i); }
      NothingPrevails(r, tables, k);
    } else {
      var i :| 0 <= i < |tables| && Lookup(tables[i], k).Some? && Lookup(tables[i], k).value.seqno > mem[k].seqno;
      assert Outranks(Lookup(tables[i], k), r);
    }
  }

  lemma SurpassedFails(first: Option<Record>, tables: seq<seq<Record>>, k: bytes, i: nat)
    requires first.Some? && Unsurpassed(tables, k, first.value.seqno) && i < |tables|
    ensures !Prevails(first, tables, k, i)
  {
    hide Lookup;
  }

  /** A version in the newest table that has the key survives a merge of the tables if and only if no
      older version has a higher number, and the oldest version with the same number is the same record. */
  lemma NewestSurvivesIff(tables: seq<seq<Record>>, k: bytes, j: nat)
    requires NewestHolds(tables, k, j)
    ensures FindTables(tables, k) == Lookup(tables[j], k)
    ensures Champion(None, tables, k) == Lookup(tables[j], k) <==> NewestStands(tables, k, j)
  {
    hide Lookup, Champion, FindTables, Prevails, FirstOfRank;
    SurvivorBound(None, tables, k);
    NewestFound(tables, k, j);
    var newest := Lookup(tables[j], k);
    if forall i :: 0 <= i < j ==> !Outranks(Lookup(tables[i], k), newest) {
      forall i | 0 <= i < j && FirstOfRank(tables, k, i, newest.value.seqno)
        ensures Champion(None, tables, k) == Lookup(tables[i], k)
      {
        FirstPrevails(tables, k, i, j);
        PrevailingSurvives(None, tables, k, i);
      }
      if Champion(None, tables, k).None? { SurvivorNone(None, tables, k); }
      var w := SomePrevails(tables, k);
      PrevailsFirst(tables, k, w, j);
      PrevailingSurvives(None, tables, k, w);
    }
  }

  lemma SomePrevails(tables: seq<seq<Record>>, k: bytes) returns (w: nat)
    requires Champion(None, tables, k).Some?
    ensures w < |tables| && Prevails(None, tables, k, w)
  {
    hide Lookup, Champion, Prevails;
    if i: nat :| i < |tables| && Prevails(None, tables, k, i) {
      w := i;
    } else {
      w := 0;
      NothingPrevails(None, tables, k);
      assert false;
    }
  }

  /** Told by numbers alone: what a read of k finds is what a merge keeps. */
  ghost predicate Stands(mem: Buffer, tables: seq<seq<Record>>, k: bytes) {
    if k in mem then Unsurpassed(tables, k, mem[k].seqno)
    else forall j: nat :: NewestHolds(tables, k, j) ==> NewestStands(tables, k, j)
  }

  /** A merge keeps the version of k that a read finds if and only if the numbers are so. */
  lemma StandsIff(mem: Buffer, tables: seq<seq<Record>>, k: bytes)
    ensures Champion(At(mem, k), tables, k) == Find(mem, tables, k) <==> Stands(mem, tables, k)
  {
    hide Lookup, Champion, NewestHolds, NewestStands, Unsurpassed, FindTables;
    if k in mem {
      BufferedSurvivesIff(mem, tables, k);
    } else if j: nat :| NewestHolds(tables, k, j) {
      NewestSurvivesIff(tables, k, j);
      forall i: nat | NewestHolds(tables, k, i) ensures i == j { NewestUnique(tables, k, i, j); }
    } else {
      HeldOrAbsent(tables, k);
    }
  }

  lemma NewestUnique(tables: seq<seq<Record>>, k: bytes, i: nat, j: nat)
    requires NewestHolds(tables, k, i) && NewestHolds(tables, k, j)
    ensures i == j
  {
    hide Lookup;
  }

  lemma {:induction false} HeldOrAbsent(tables: seq<seq<Record>>, k: bytes)
    requires forall j: nat :: !NewestHolds(tables, k, j)
    ensures Champion(None, tables, k) == FindTables(tables, k) == None
    decreases |tables|
  {
    hide Lookup;
    if tables != [] {
      var n := |tables| - 1;
      assert !NewestHolds(tables, k, n);
      forall j: nat ensures !NewestHolds(tables[..n], k, j) {
        assert !NewestHolds(tables, k, j);
        assert forall h :: 0 <= h < n ==> tables[..n][h] == tables[h];
      }
      HeldOrAbsent(tables[..n], k);
    }
  }

  lemma FirstPrevails(tables: seq<seq<Record>>, k: bytes, i: nat, j: nat)
    requires i < j && NewestHolds(tables, k, j)
    requires forall h :: 0 <= h < j ==> !Outranks(Lookup(tables[h], k), Lookup(tables[j], k))
    requires FirstOfRank(tables, k, i, Lookup(tables[j], k).value.seqno)
    ensures Prevails(None, tables, k, i)
  {
    hide Lookup;
    var newest := Lookup(tables[j], k);
    forall h | i < h < |tables| ensures !Outranks(Lookup(tables[h], k), Lookup(tables[i], k)) {
      if h < j { assert !Outranks(Lookup(tables[h], k), newest); }
    }
  }

  lemma PrevailsFirst(tables: seq<seq<Record>>, k: bytes, w: nat, j: nat)
    requires w < |tables| && Prevails(None, tables, k, w) && NewestHolds(tables, k, j)
    requires forall h :: 0 <= h < j ==> !Outranks(Lookup(tables[h], k), Lookup(tables[j], k))
    ensures w <= j && (w < j ==> FirstOfRank(tables, k, w, Lookup(tables[j], k).value.seqno))
  {
    hide Lookup;
    if w < j {
      assert !Outranks(Lookup(tables[w], k), Lookup(tables[j], k));
      assert !Outranks(Lookup(tables[j], k), Lookup(tables[w], k));
    }
  }

  /** Table i is the oldest whose version of k has this number, and every older version ranks below it. */
  ghost predicate FirstOfRank(tables: seq<seq<Record>>, k: bytes, i: nat, seqno: u64)
    requires i < |tables|
  {
    var r := Lookup(tables[i], k);
    r.Some? && r.value.seqno == seqno && forall h :: 0 <= h < i ==> NewerThan(Lookup(tables[h], k), r)
  }

  lemma {:induction false} NewestFound(tables: seq<seq<Record>>, k: bytes, j: nat)
    requires NewestHolds(tables, k, j)
    ensures FindTables(tables, k) == Lookup(tables[j], k)
    decreases |tables|
  {
    hide Lookup;
    var n := |tables| - 1;
    if j < n {
      assert forall h :: 0 <= h < n ==> tables[..n][h] == tables[h];
      NewestFound(tables[..n], k, j);
    }
  }

  /** Age order is enough. */
  lemma AgedAgrees(mem: Buffer, tables: seq<seq<Record>>, k: bytes)
    requires AgeOrdered(mem, tables)
    ensures Agrees(mem, tables, k)
  {
    hide Agrees, AgeOrdered, Champion, FindTables;
    MergeIsFind(mem, tables, k);
    MergeShowsReadIff(mem, tables, k);
  }

  // ---- what flush and compaction install ----

  /** rs is the content of m in key order. */
  ghost predicate Lists(rs: seq<Record>, m: Buffer) {
    && Sorted(rs)
    && (forall k :: Lookup(rs, k) == At(m, k))
    && (forall i :: 0 <= i < |rs| ==> rs[i].key in m && m[rs[i].key] == rs[i])
  }

  /** Each entry sits under its own key. */
  ghost predicate Keyed(m: Buffer) {
    forall k :: k in m ==> m[k].key == k
  }

  lemma ListsAll(rs: seq<Record>, m: Buffer)
    requires Sorted(rs) && Keyed(m)
    requires forall i :: 0 <= i < |rs| ==> rs[i].key in m && m[rs[i].key] == rs[i]
    requires forall k :: k in m ==> HasKey(rs, k)
    ensures Lists(rs, m)
  {
    hide Less;
    forall k ensures Lookup(rs, k) == At(m, k) {
      if k in m {
        var i :| 0 <= i < |rs| && rs[i].key == k;
        LookupAt(rs, i);
      } else {
        LookupMissing(rs, k);
      }
    }
  }

  lemma {:induction false} MergeKeyed(best: Buffer, rs: seq<Record>)
    requires Keyed(best)
    ensures Keyed(MergeRun(best, rs))
  {
    if rs != [] { MergeKeyed(best, rs[..|rs| - 1]); }
  }

  lemma {:induction false} MergesKeyed(best: Buffer, runs: seq<seq<Record>>)
    requires Keyed(best)
    ensures Keyed(MergeRuns(best, runs))
  {
    if runs != [] {
      MergesKeyed(best, runs[..|runs| - 1]);
      MergeKeyed(MergeRuns(best, runs[..|runs| - 1]), runs[|runs| - 1]);
    }
  }

  /** Sorting leaves no choice: the order in which Go's map iteration yields the entries is lost. */
  lemma {:induction false} ListingUnique(a: seq<Record>, b: seq<Record>)
    requires Sorted(a) && Sorted(b) && forall k :: Lookup(a, k) == Lookup(b, k)
    ensures a == b
  {
    if a == [] && b != [] {
      LookupAt(b, 0);
    } else if a != [] && b == [] {
      LookupAt(a, 0);
    } else if a != [] {
      var m, n := |a| - 1, |b| - 1;
      LastsAgree(a, b);
      forall k ensures Lookup(a[..m], k) == Lookup(b[..n], k) {
        DropLast(a, k);
        DropLast(b, k);
      }
      ListingUnique(a[..m], b[..n]);
      assert a == a[..m] + [a[m]] && b == b[..n] + [b[n]];
    }
  }

  lemma DropLast(rs: seq<Record>, k: bytes)
    requires Sorted(rs) && rs != []
    ensures Lookup(rs[..|rs| - 1], k) == if k == rs[|rs| - 1].key then None else Lookup(rs, k)
  {
    if k == rs[|rs| - 1].key {
      var init := rs[..|rs| - 1];
      forall i | 0 <= i < |init| ensures init[i].key != k { LessAsymmetric(rs[i].key, k); }
      LookupMissing(init, k);
    }
  }

  lemma LastIsGreatest(rs: seq<Record>, k: bytes)
    requires Sorted(rs) && rs != [] && Lookup(rs, k).Some?
    ensures !Less(rs[|rs| - 1].key, k)
  {
    hide Less;
    LookupSound(rs, k);
    var i :| 0 <= i < |rs| && rs[i].key == k;
    WithinBounds(rs, i);
  }

  lemma {:induction false} LastsAgree(a: seq<Record>, b: seq<Record>)
    requires Sorted(a) && Sorted(b) && a != [] && b != [] && forall k :: Lookup(a, k) == Lookup(b, k)
    ensures a[|a| - 1] == b[|b| - 1]
  {
    hide Less, Lookup, Sorted;
    var x, y := a[|a| - 1].key, b[|b| - 1].key;
    LookupAt(a, |a| - 1);
    LookupAt(b, |b| - 1);
    LastIsGreatest(a, y);
    LastIsGreatest(b, x);
    LessTotal(x, y);
  }

  function Live(m: Buffer): Buffer {
    map k | k in m && m[k].kind == PUT :: m[k]
  }

  lemma FlushKeepsReads(mem: Buffer, tables: seq<seq<Record>>, rs: seq<Record>, k: bytes)
    requires Lists(rs, mem)
    ensures Find(map[], tables + [rs], k) == Find(mem, tables, k)
  {
    hide Sorted;
    assert (tables + [rs])[..|tables|] == tables;
  }

  lemma FlushShows(mem: Buffer, tables: seq<seq<Record>>, rs: seq<Record>, data: map<bytes, bytes>)
    requires Lists(rs, mem) && Shows(mem, tables, data)
    ensures Shows(map[], tables + [rs], data)
  {
    forall k ensures At(data, k) == Read(map[], tables + [rs], k) {
      FlushKeepsReads(mem, tables, rs, k);
      assert At(data, k) == Read(mem, tables, k);
    }
  }

  lemma FlushKeepsAge(mem: Buffer, tables: seq<seq<Record>>, rs: seq<Record>, next: nat)
    requires Lists(rs, mem) && AgeOrdered(mem, tables) && Below(mem, tables, next)
    ensures AgeOrdered(map[], tables + [rs]) && Below(map[], tables + [rs], next)
  {
    hide Sorted, Lookup;
    forall i, j, k | 0 <= i < j < |tables + [rs]|
      ensures NewerThan(Lookup((tables + [rs])[i], k), Lookup((tables + [rs])[j], k))
    {
      assert NewerThan(Lookup(tables[i], k), At(mem, k));
    }
  }

  /** The tables after a compaction whose live output is rs. */
  function Compacted(rs: seq<Record>): seq<seq<Record>> {
    if rs == [] then [] else [rs]
  }

  /** rs is what compacting the tables writes: the surviving versions that are not tombstones. */
  ghost predicate CompactsTo(tables: seq<seq<Record>>, rs: seq<Record>) {
    Lists(rs, Live(MergeRuns(map[], tables)))
  }

  lemma CompactedLookup(tables: seq<seq<Record>>, rs: seq<Record>, k: bytes)
    requires CompactsTo(tables, rs) && forall i :: 0 <= i < |tables| ==> Sorted(tables[i])
    ensures FindTables(Compacted(rs), k) == Lookup(rs, k)
    ensures var c := Champion(None, tables, k);
            Lookup(rs, k) == if c.Some? && c.value.kind == PUT then c else None
  {
    MergeRunsAt(map[], tables, k);
    hide Sorted, MergeRuns;
    if rs != [] { assert FindTables([], k) == None; assert [rs][..0] == []; }
  }

  /** A compaction changes what a read of k shows if and only if k is not buffered and the tables
      disagree on it. Dropping the tombstones themselves is never visible. */
  lemma CompactKeepsReadIff(mem: Buffer, tables: seq<seq<Record>>, rs: seq<Record>, k: bytes)
    requires CompactsTo(tables, rs) && forall i :: 0 <= i < |tables| ==> Sorted(tables[i])
    ensures Read(mem, Compacted(rs), k) == Read(mem, tables, k) <==> k in mem || Agrees(map[], tables, k)
  {
    hide CompactsTo, Compacted, FindTables, Agrees, Champion, Sorted, Lookup;
    CompactedLookup(tables, rs, k);
    MergeShowsReadIff(map[], tables, k);
  }

  /** So over aged tables it changes nothing. */
  lemma CompactKeepsReads(mem: Buffer, tables: seq<seq<Record>>, rs: seq<Record>, k: bytes)
    requires CompactsTo(tables, rs) && forall i :: 0 <= i < |tables| ==> Sorted(tables[i])
    requires TablesAged(tables)
    ensures Read(mem, Compacted(rs), k) == Read(mem, tables, k)
  {
    hide CompactsTo, Compacted, FindTables, Agrees, Sorted;
    CompactKeepsReadIff(mem, tables, rs, k);
    AgedAgrees(map[], tables, k);
  }

  lemma CompactShowsIff(mem: Buffer, tables: seq<seq<Record>>, rs: seq<Record>, data: map<bytes, bytes>)
    requires CompactsTo(tables, rs) && forall i :: 0 <= i < |tables| ==> Sorted(tables[i])
    requires Shows(mem, tables, data)
    ensures Shows(mem, Compacted(rs), data) <==> forall k :: k in mem || Agrees(map[], tables, k)
    ensures TablesAged(tables) ==> Shows(mem, Compacted(rs), data)
  {
    hide CompactsTo, Sorted, FindTables, Agrees, TablesAged, Read;
    forall k ensures Read(mem, Compacted(rs), k) == At(data, k) <==> k in mem || Agrees(map[], tables, k) {
      CompactKeepsReadIff(mem, tables, rs, k);
      assert At(data, k) == Read(mem, tables, k);
    }
    if TablesAged(tables) {
      forall k ensures Agrees(map[], tables, k) { UnbufferedAged(tables); AgedAgrees(map[], tables, k); }
    }
  }

  lemma UnbufferedAged(tables: seq<seq<Record>>)
    requires TablesAged(tables)
    ensures AgeOrdered(map[], tables)
  {
  }

  lemma CompactKeepsAge(mem: Buffer, tables: seq<seq<Record>>, rs: seq<Record>, next: nat)
    requires CompactsTo(tables, rs) && forall i :: 0 <= i < |tables| ==> Sorted(tables[i])
    requires AgeOrdered(mem, tables) && Below(mem, tables, next)
    ensures AgeOrdered(mem, Compacted(rs)) && Below(mem, Compacted(rs), next)
  {
    hide CompactsTo, Lookup, FindTables, Sorted;
    forall k ensures NewerThan(Lookup(rs, k), At(mem, k))
                     && (Lookup(rs, k).Some? ==> Lookup(rs, k).value.seqno < next)
    {
      CompactedLookup(tables, rs, k);
      AgedChampion(tables, k);
      FindsSome(tables, k);
    }
  }

  ghost predicate Shows(mem: Buffer, tables: seq<seq<Record>>, data: map<bytes, bytes>) {
    forall k :: At(data, k) == Read(mem, tables, k)
  }

  function Applied(data: map<bytes, bytes>, r: Record): map<bytes, bytes> {
    if r.kind == PUT then data[r.key := r.value] else data - {r.key}
  }

  lemma PutShows(mem: Buffer, tables: seq<seq<Record>>, data: map<bytes, bytes>, r: Record)
    requires Shows(mem, tables, data)
    ensures Shows(mem[r.key := r], tables, Applied(data, r))
  {
    hide FindTables;
    forall k ensures At(Applied(data, r), k) == Read(mem[r.key := r], tables, k) {
      assert At(data, k) == Read(mem, tables, k);
    }
  }

  lemma PutKeepsAge(mem: Buffer, tables: seq<seq<Record>>, r: Record)
    requires AgeOrdered(mem, tables) && Below(mem, tables, r.seqno)
    ensures AgeOrdered(mem[r.key := r], tables) && Below(mem[r.key := r], tables, r.seqno + 1)
  {
    hide Lookup, TablesAged;
    forall i, k | 0 <= i < |tables| ensures NewerThan(Lookup(tables[i], k), At(mem[r.key := r], k)) {
      assert NewerThan(Lookup(tables[i], k), At(mem, k));
    }
  }

  // ---- rebuilding the buffer from the log ----

  /** A tombstone carries no value. */
  function Stored(r: Record): Record {
    if r.kind == PUT then r else r.(value := [])
  }

  ghost function Rebuild(rs: seq<Record>): Buffer {
    if rs == [] then map[]
    else
      var r := rs[|rs| - 1];
      Rebuild(rs[..|rs| - 1])[r.key := Stored(r)]
  }
}
