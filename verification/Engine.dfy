/** The storage engine object (internal/engine/engine.go): every operation, successful or failed, keeps
    reads equal to one abstract map. */
module Engines {
  import opened Bytes
  import opened Records
  import opened Tables
  import opened Lsm
  import opened Manifests
  import Bloom
  import MemTables
  import SSTables
  import Wal

  /** The float formulas of calcParams, before its clamps. */
  datatype Shape = Shape(bits: u64, hashes: u32)
  type Sizing = nat -> Shape

  datatype Options = Options(fnv: Hash, sizing: Sizing, fprBits: u64, memMax: nat, sstMax: u32)

  // ---- building blocks ----

  ghost function KeysIn(rs: seq<Record>): set<bytes> {
    set r | r in rs :: r.key
  }

  /** At least one bit, and one to sixty-four hashes; within that the shape is what was asked for. */
  ghost predicate ClampedTo(f: Bloom.Filter, shape: Shape) {
    && f.bitCount >= 1 && 1 <= f.hashCount <= 64
    && (shape.bits >= 1 ==> f.bitCount == shape.bits) && (shape.bits == 0 ==> f.bitCount == 1)
    && (1 <= shape.hashes <= 64 ==> f.hashCount == shape.hashes)
    && (shape.hashes == 0 ==> f.hashCount == 1) && (shape.hashes > 64 ==> f.hashCount == 64)
  }

  /** calcParams' clamps, bloom.New, and one Add per key. */
  method BuildBloom(o: Options, rs: seq<Record>) returns (f: Option<Bloom.Filter>)
    requires rs != [] && Bloom.ValidRate(o.fprBits)
    requires forall i :: 0 <= i < |rs| ==> rs[i].key != []
    ensures f.None? <==> o.sizing(|rs|).bits > Bloom.MAX_BITS || |rs| >= U64_SIZE
    ensures f.Some? ==> Bloom.WellFormed(f.value)
                        && forall i :: 0 <= i < |rs| ==> Bloom.Member(o.fnv, f.value, rs[i].key)
    ensures f.Some? ==> Bloom.Reflects(o.fnv, f.value, KeysIn(rs)) && ClampedTo(f.value, o.sizing(|rs|))
    ensures f.Some? ==> f.value.expected == f.value.inserted == |rs| && f.value.fprBits == o.fprBits
  {
    hide Bloom.WellFormed, Bloom.Member, Bloom.Reflects;
    var shape := o.sizing(|rs|);
    var bits := if shape.bits == 0 then 1 else shape.bits;
    var hashes := if shape.hashes < 1 then 1 else if shape.hashes > 64 then 64 else shape.hashes;
    if bits > Bloom.MAX_BITS || |rs| >= U64_SIZE { return None; }
    var filter := new Bloom.BloomFilter(o.fnv, bits, hashes, |rs|, o.fprBits);
    for i := 0 to |rs|
      invariant filter.Valid() && fresh(filter) && fresh(filter.words) && filter.fnv == o.fnv
      invariant filter.keys == KeysIn(rs[..i]) && filter.inserted == i
    {
      assert rs[..i + 1] == rs[..i] + [rs[i]];
      var _ := filter.Add(rs[i].key);
    }
    assert rs[..|rs|] == rs;
    forall i | 0 <= i < |rs| ensures Bloom.Member(o.fnv, filter.Value(), rs[i].key) {
      Bloom.AddedAreMembers(o.fnv, filter.Value(), filter.keys, rs[i].key);
    }
    return Some(filter.Value());
  }

  /** One run merged into the best-per-key map. */
  method MergeInto(best: Buffer, rs: seq<Record>) returns (merged: Buffer)
    ensures merged == MergeRun(best, rs)
  {
    merged := best;
    for i := 0 to |rs|
      invariant merged == MergeRun(best, rs[..i])
    {
      assert rs[..i + 1][..i] == rs[..i] && rs[..i + 1][i] == rs[i];
      var r := rs[i];
      if !(r.key in merged && r.seqno <= merged[r.key].seqno) { merged := merged[r.key := r]; }
    }
    assert rs[..|rs|] == rs;
  }

  /** The live entries of a map in key order; Go's iteration order is the arbitrary choice. */
  method SortLive(best: Buffer) returns (rs: seq<Record>)
    requires Keyed(best)
    ensures Lists(rs, Live(best))
  {
    hide Less, Sorted, SortedKeys, CutAt, Lookup, HasKey;
    var live := Live(best);
    var todo := live.Keys;
    rs := [];
    SortedStart();
    while todo != {}
      invariant todo <= live.Keys && Sorted(rs)
      invariant forall i :: 0 <= i < |rs| ==> rs[i].key in live && live[rs[i].key] == rs[i] && rs[i].key !in todo
      invariant forall k :: k in live && k !in todo ==> HasKey(rs, k)
      decreases todo
    {
      var k :| k in todo;
      KeysSorted(rs);
      var at := Search(Keys(rs), k);
      InsertRecord(rs, live[k], at);
      ghost var was := rs;
      rs := rs[..at] + [live[k]] + rs[at..];
      InsertMembers(was, live[k], at);
      todo := todo - {k};
    }
    ListsAll(rs, live);
  }

  lemma SortedStart()
    ensures Sorted([])
  {
  }

  lemma KeysSorted(rs: seq<Record>)
    requires Sorted(rs)
    ensures SortedKeys(Keys(rs))
  {
  }

  lemma InsertRecord(rs: seq<Record>, r: Record, at: nat)
    requires Sorted(rs) && CutAt(Keys(rs), r.key, at) && forall i :: 0 <= i < |rs| ==> rs[i].key != r.key
    ensures at <= |rs| && Sorted(rs[..at] + [r] + rs[at..])
  {
    hide Less;
    var more := rs[..at] + [r] + rs[at..];
    MemTables.InsertSorted(Keys(rs), r.key, at);
    assert Keys(more) == Keys(rs)[..at] + [r.key] + Keys(rs)[at..];
    forall i, j | 0 <= i < j < |more| ensures Less(more[i].key, more[j].key) {
      assert Keys(more)[i] == more[i].key && Keys(more)[j] == more[j].key;
    }
  }

  lemma InsertMembers(rs: seq<Record>, r: Record, at: nat)
    requires at <= |rs|
    ensures var more := rs[..at] + [r] + rs[at..];
            && (forall i :: 0 <= i < |more| ==> more[i] == r || more[i] in rs)
            && HasKey(more, r.key) && forall k :: HasKey(rs, k) ==> HasKey(more, k)
  {
    var more := rs[..at] + [r] + rs[at..];
    assert more[at] == r;
    forall k | HasKey(rs, k) ensures HasKey(more, k) {
      var i :| 0 <= i < |rs| && rs[i].key == k;
      assert more[if i < at then i else i + 1] == rs[i];
    }
  }

  // ---- the engine ----

  /** The step of a flush or compaction that fails, if one does. */
  datatype Fault = NoFault | Create | BloomWrite | OpenReader | SaveManifest | ReopenWal

  datatype Outcome = Closed | Nothing | Failed | Done | DoneButClosed

  /** A table of these entries and its filter can be written. */
  ghost predicate Buildable(o: Options, rs: seq<Record>) {
    AllStorable(MaxRecord(o.sstMax), rs) && FilterFits(o, |rs|)
  }

  predicate FilterFits(o: Options, count: nat) {
    o.sizing(count).bits <= Bloom.MAX_BITS && count < U64_SIZE
  }

  /** The faults that strike while table and filter are written and read back. */
  predicate StopsBuild(fault: Fault) {
    fault.Create? || fault.BloomWrite? || fault.OpenReader?
  }

  /** The handles are sound, their IDs were handed out below `next`, and the manifest lists them. */
  ghost predicate TablesOk(o: Options, hs: seq<Handle>, next: nat, rows: seq<TableEntry>) {
    && AllSound(o.fnv, hs) && IdsBelow(hs, next) && rows == RowsOf(hs)
    && next > 0 && Bloom.ValidRate(o.fprBits)
  }

  class Engine {
    const options: Options
    var mem: MemTables.MemTable
    var wal: Wal.WAL
    var tables: seq<Handle>
    var nextSeq: u64
    var nextFileId: nat
    var manifest: Manifest
    var closed: bool

    ghost predicate Valid()
      reads this, mem
    {
      mem.Valid() && TablesOk(options, tables, nextFileId, manifest.tables)
    }

    ghost predicate Represents(data: map<bytes, bytes>)
      reads this, mem
    {
      Shows(mem.entries, Contents(tables), data)
    }

    ghost predicate Aged()
      reads this, mem
    {
      AgeOrdered(mem.entries, Contents(tables)) && Below(mem.entries, Contents(tables), nextSeq)
    }

    constructor (options: Options, mem: MemTables.MemTable, wal: Wal.WAL, tables: seq<Handle>, next: u64, m: Manifest)
      ensures this.options == options && this.mem == mem && this.wal == wal && this.tables == tables
      ensures nextSeq == next && nextFileId == m.nextFileId && manifest == m && !closed
    {
      this.options, this.mem, this.wal, this.tables := options, mem, wal, tables;
      nextSeq, nextFileId, manifest, closed := next, m.nextFileId, m, false;
    }

    /** Log first, then the buffer; a failed append gives its number back. */
    method Write(r: Record, io: Wal.WriteIO, ghost data: map<bytes, bytes>) returns (ok: bool)
      requires Valid() && Represents(data) && KnownKind(r.kind) && r == Stored(r)
      modifies this, mem, wal
      ensures Valid() && tables == old(tables) && mem == old(mem) && wal == old(wal) && closed == old(closed)
      ensures ok <==> && !closed && Storable(wal.max, r) && !old(wal.closed)
                      && (io.Written? || (io.SyncError? && !wal.syncOnWrite))
      ensures Represents(if ok then Applied(data, r) else data)
      ensures !ok ==> mem.entries == old(mem.entries) && nextSeq == old(nextSeq)
      ensures ok ==> mem.entries == old(mem.entries)[r.key := r.(seqno := old(nextSeq))]
                     && nextSeq == WrapAdd(old(nextSeq), 1)
      ensures ok ==> wal.seqno == WrapAdd(old(wal.seqno), 1)
                     && wal.file == old(wal.file) + Frame(wal.crc, r.(seqno := wal.seqno))
      ensures old(Aged()) && old(nextSeq) < MAX_U64 ==> Aged()
    {
      hide Frame, TablesOk, AgeOrdered, Below, Shows, MemTables.InStep, MemTables.TotalSize;
      if r.key == [] || closed { return false; }
      var e := r.(seqno := nextSeq);
      nextSeq := WrapAdd(nextSeq, 1);
      var res := wal.Append(e, io);
      if !res.Appended? {
        nextSeq := e.seqno;
        return false;
      }
      ghost var before := mem.entries;
      mem.Upsert(e);
      PutShows(before, Contents(tables), data, e);
      if old(Aged()) { PutKeepsAge(before, Contents(tables), e); }
      return true;
    }

    method Put(key: bytes, value: bytes, io: Wal.WriteIO, ghost data: map<bytes, bytes>) returns (ok: bool)
      requires Valid() && Represents(data)
      modifies this, mem, wal
      ensures Valid() && Represents(if ok then data[key := value] else data)
      ensures ok <==> !closed && Storable(wal.max, Record(key, value, PUT, 0)) && !old(wal.closed)
                      && (io.Written? || (io.SyncError? && !wal.syncOnWrite))
      ensures mem.entries == if ok then old(mem.entries)[key := Record(key, value, PUT, old(nextSeq))]
                             else old(mem.entries)
      ensures old(Aged()) && old(nextSeq) < MAX_U64 ==> Aged()
    {
      ok := Write(Record(key, value, PUT, 0), io, data);
    }

    method Delete(key: bytes, io: Wal.WriteIO, ghost data: map<bytes, bytes>) returns (ok: bool)
      requires Valid() && Represents(data)
      modifies this, mem, wal
      ensures Valid() && Represents(if ok then data - {key} else data)
      ensures ok <==> !closed && Storable(wal.max, Record(key, [], DELETE, 0)) && !old(wal.closed)
                      && (io.Written? || (io.SyncError? && !wal.syncOnWrite))
      ensures mem.entries == if ok then old(mem.entries)[key := Record(key, [], DELETE, old(nextSeq))]
                             else old(mem.entries)
      ensures old(Aged()) && old(nextSeq) < MAX_U64 ==> Aged()
    {
      ok := Write(Record(key, [], DELETE, 0), io, data);
    }

    /** Buffer, then tables newest first, skipping by bounds and by filter. */
    method Get(key: bytes, ghost data: map<bytes, bytes>) returns (ok: bool, value: Option<bytes>)
      requires Valid() && Represents(data)
      ensures ok <==> key == [] || !closed
      ensures ok ==> value == At(data, key)
    {
      if key == [] {
        NoEmptyKey();
        return true, None;
      }
      if closed { return false, None; }
      var inMem := mem.Get(key);
      if inMem.Some? { return true, Visible(inMem); }
      var found := SearchTables(options.fnv, tables, key);
      return true, Visible(found);
    }

    /** Scan merges the buffer, then every table oldest first, by sequence number. In an age-ordered
        state it returns, in strict key order, exactly what Get returns for the keys of the range. */
    method Scan(start: bytes, end: bytes, ghost data: map<bytes, bytes>) returns (ok: bool, rs: seq<Record>)
      requires Valid() && Represents(data)
      ensures ok <==> !closed
      ensures ok ==> Sorted(rs)
      ensures ok ==> forall k :: Lookup(rs, k) == Scanned(mem.entries, Contents(tables), start, end, k)
      ensures ok ==> forall k :: InRange(start, end, k) ==>
                (Visible(Lookup(rs, k)) == At(data, k) <==> Agrees(mem.entries, Contents(tables), k))
      ensures ok ==> forall k :: InRange(start, end, k) ==> KeptByNumbers(mem.entries, Contents(tables), rs, k)
      ensures ok && Aged() ==>
                forall k :: Visible(Lookup(rs, k)) == if InRange(start, end, k) then At(data, k) else None
    {
      hide AllSound, AgeOrdered, Below, Shows, MemTables.InStep, MemTables.TotalSize, IdsBelow, RowsOf,
           Lists, Sorted, Within, InRange, Keyed, MergeRun, Champion, Scanned, Lookup, Find, Agrees, KeptByNumbers;
      if closed { return false, []; }
      var fromMem := mem.Scan(start, end);
      var best := MergeInto(map[], fromMem);
      best := MergeTables(best, tables, start, end);
      ghost var ts := Contents(tables);
      ScanKeyed(fromMem, Ranges(ts, start, end));
      rs := SortLive(best);
      SoundSorted(options.fnv, tables);
      ScanResult(mem.keys, mem.entries, ts, start, end, rs);
      ScanAgreesIff(mem.entries, ts, start, end, rs, data);
      ScanStandsIff(mem.entries, ts, start, end, rs);
      if Aged() { ScanShows(mem.entries, ts, start, end, rs, data); }
      return true, rs;
    }

    /** Every buffered entry is within the table's record limit and a filter for all of them is possible. */
    ghost predicate BufferFits()
      reads this, mem
    {
      && FilterFits(options, |mem.keys|)
      && forall k :: k in mem.entries ==> Storable(MaxRecord(options.sstMax), mem.entries[k])
    }

    /** The part of a flush that can be undone: the new table, or nothing at all. */
    method PrepareFlush(fault: Fault) returns (h: Option<Handle>)
      requires Valid() && mem.entries != map[]
      ensures h.Some? ==> Sound(options.fnv, h.value) && h.value.id == nextFileId && Lists(h.value.table, mem.entries)
      ensures h.Some? <==> BufferFits() && !StopsBuild(fault) && fault != SaveManifest
    {
      EmptyBuffer(mem.keys, mem.entries);
      var rs := mem.Scan([], []);
      FlushedRun(mem.keys, mem.entries, rs);
      UsableRate(options, tables, nextFileId, manifest.tables);
      hide TablesOk, MemTables.InStep, MemTables.TotalSize, Lists, Sorted, Sound, Within;
      ListedStorable(rs, mem.entries, MaxRecord(options.sstMax));
      h := BuildTable(options, nextFileId, rs, fault);
      if fault == SaveManifest { h := None; }
    }

    /** The part after the manifest is saved: swap the table in, empty the buffer, start a new log. */
    method InstallFlush(h: Handle, reopened: bool, logRemoved: bool, ghost data: map<bytes, bytes>)
      requires Valid() && Represents(data) && !closed
      requires Sound(options.fnv, h) && h.id == nextFileId && Lists(h.table, mem.entries)
      modifies this, wal
      ensures Valid() && Represents(data) && mem.entries == map[]
      ensures old(Aged()) ==> Aged()
      ensures tables == old(tables) + [h] && manifest == Manifest(nextFileId, nextSeq, RowsOf(tables))
      ensures nextFileId == old(nextFileId) + 1 && closed == !reopened
      ensures reopened ==> wal.seqno == 0 && !wal.closed && wal.file == (if logRemoved then [] else old(wal.file))
      ensures old(wal).closed && (!reopened ==> wal == old(wal))
    {
      hide TablesOk, AgeOrdered, Below, Shows, MemTables.InStep, MemTables.TotalSize, Lists, Sound;
      Appended(options, tables, h, nextFileId, manifest.tables);
      FlushShows(mem.entries, Contents(tables), h.table, data);
      if Aged() { FlushKeepsAge(mem.entries, Contents(tables), h.table, nextSeq); }
      nextFileId := nextFileId + 1;
      manifest := Manifest(nextFileId, nextSeq, manifest.tables + [RowOf(h)]);
      tables := tables + [h];
      mem := new MemTables.MemTable(options.memMax);
      wal.closed := true;
      if reopened {
        wal := new Wal.WAL(wal.crc, wal.max, wal.syncOnWrite, if logRemoved then [] else wal.file);
      }
      closed := !reopened;
    }

    /** Buffer to table. Before the manifest is saved every failure leaves everything as it was; after
        it the flush stands, and a log that cannot be reopened closes the engine. */
    method Flush(fault: Fault, logRemoved: bool, ghost data: map<bytes, bytes>) returns (r: Outcome)
      requires Valid() && Represents(data)
      modifies this, wal
      ensures Valid() && Represents(data)
      ensures old(Aged()) ==> Aged()
      ensures r.Closed? <==> old(closed)
      ensures r.Nothing? <==> !old(closed) && old(mem.entries) == map[]
      ensures !(r.Done? || r.DoneButClosed?) ==>
                mem == old(mem) && wal == old(wal) && wal.file == old(wal.file) && tables == old(tables)
                && manifest == old(manifest) && nextFileId == old(nextFileId) && closed == old(closed)
      ensures r.Done? || r.DoneButClosed? ==>
                && mem.entries == map[] && |tables| == |old(tables)| + 1 && tables[..|old(tables)|] == old(tables)
                && Lists(tables[|old(tables)|].table, old(mem.entries)) && nextFileId == old(nextFileId) + 1
                && manifest == Manifest(nextFileId, nextSeq, RowsOf(tables)) && (closed <==> r.DoneButClosed?)
      ensures r.Done? ==> wal.seqno == 0 && wal.file == (if logRemoved then [] else old(wal.file))
      ensures r.Failed? <==> !old(closed) && old(mem.entries) != map[]
                             && (StopsBuild(fault) || fault.SaveManifest? || !old(BufferFits()))
      ensures r.Done? || r.DoneButClosed? ==> (r.DoneButClosed? <==> fault.ReopenWal?) && old(wal).closed
      ensures r.Done? ==> !wal.closed
    {
      hide Represents, Valid, Aged, Lists, Sound, RowsOf, BufferFits;
      if closed { return Closed; }
      if mem.entries == map[] { return Nothing; }
      var h := PrepareFlush(fault);
      if h.None? { return Failed; }
      InstallFlush(h.value, fault != ReopenWal, logRemoved, data);
      return if closed then DoneButClosed else Done;
    }

    /** Merge every table by sequence number and sort what is live. */
    method MergeLive() returns (rs: seq<Record>)
      requires Valid()
      ensures CompactsTo(Contents(tables), rs) && Sorted(rs)
      ensures forall i :: 0 <= i < |rs| ==> rs[i].key != [] && KnownKind(rs[i].kind)
    {
      hide MemTables.InStep, MemTables.TotalSize, Lists, Sorted, Sound, MergeRuns, CompactsTo, IdsBelow;
      var best := MergeTables(map[], tables, [], []);
      MergedAll(tables);
      rs := SortLive(best);
      CompactsOk(options.fnv, tables, rs);
    }

    method InstallCompaction(hs: seq<Handle>, next: nat, ghost rs: seq<Record>, ghost data: map<bytes, bytes>)
      requires Valid() && Represents(data) && TablesOk(options, hs, next, RowsOf(hs))
      requires CompactsTo(Contents(tables), rs) && Contents(hs) == Compacted(rs) && AllSorted(Contents(tables))
      modifies `tables, `nextFileId, `manifest
      ensures Valid() && tables == hs && nextFileId == next && manifest == Manifest(next, nextSeq, RowsOf(hs))
      ensures Represents(data) <==> forall k :: k in mem.entries || Agrees(map[], old(Contents(tables)), k)
      ensures TablesAged(old(Contents(tables))) ==> Represents(data)
      ensures old(Aged()) ==> Aged()
    {
      hide Agrees, TablesOk, AgeOrdered, Below, Shows, MemTables.InStep, MemTables.TotalSize, CompactsTo, TablesAged,
           Sorted;
      ghost var ts := Contents(tables);
      CompactShowsIff(mem.entries, ts, rs, data);
      if Aged() { CompactKeepsAge(mem.entries, ts, rs, nextSeq); }
      nextFileId := next;
      manifest := Manifest(nextFileId, nextSeq, RowsOf(hs));
      tables := hs;
    }

    /** All tables into at most one, without tombstones. Every read is kept if and only if the tables
        agree on each key that is not buffered; aged tables always do. */
    method Compact(fault: Fault, ghost data: map<bytes, bytes>) returns (r: Outcome)
      requires Valid() && Represents(data)
      modifies `tables, `nextFileId, `manifest
      ensures Valid()
      ensures r.Done? ==>
                (Represents(data) <==> forall k :: k in mem.entries || Agrees(map[], old(Contents(tables)), k))
      ensures TablesAged(old(Contents(tables))) ==> Represents(data)
      ensures old(Aged()) ==> Aged()
      ensures r.Closed? <==> closed
      ensures r.Nothing? <==> !closed && |old(tables)| <= 1
      ensures !r.Done? ==> tables == old(tables) && manifest == old(manifest) && nextFileId == old(nextFileId)
      ensures r.Done? ==>
                && |tables| <= 1 && CompactsTo(old(Contents(tables)), OnlyTable(tables))
                && (forall k :: KeptByNumbers(map[], old(Contents(tables)), OnlyTable(tables), k))
                && manifest == Manifest(nextFileId, nextSeq, RowsOf(tables))
      ensures !r.DoneButClosed?
      ensures !closed && |old(tables)| > 1 ==>
                forall rs :: CompactsTo(old(Contents(tables)), rs) ==>
                  (r.Failed? <==> fault.SaveManifest? || (rs != [] && (StopsBuild(fault) || !Buildable(options, rs))))
    {
      hide Agrees, Represents, Aged, AllSound, Lists, Sound, RowsOf, CompactsTo, TablesAged, TablesOk,
           MemTables.InStep, MemTables.TotalSize, Sorted, KeptByNumbers, Buildable;
      if closed { return Closed; }
      if |tables| <= 1 { return Nothing; }
      var rs := MergeLive();
      SurvivorsUnique(Contents(tables), rs);
      UsableRate(options, tables, nextFileId, manifest.tables);
      SoundSorted(options.fnv, tables);
      var hs: seq<Handle>, next := [], nextFileId;
      if rs != [] {
        var h := BuildTable(options, nextFileId, rs, fault);
        if h.None? { return Failed; }
        OneTable(options, tables, h.value, nextFileId, manifest.tables);
        hs, next := [h.value], nextFileId + 1;
      }
      if fault == SaveManifest { return Failed; }
      CompactionKept(Contents(tables), rs);
      InstallCompaction(hs, next, rs, data);
      return Done;
    }

    lemma NoEmptyKey()
      requires Valid()
      ensures Find(mem.entries, Contents(tables), []) == None
    {
      hide Lookup, FindTables;
      FindsSome(Contents(tables), []);
      forall i | 0 <= i < |tables| ensures Lookup(tables[i].table, []).None? {
        assert Sound(options.fnv, tables[i]);
        LookupMissing(tables[i].table, []);
      }
    }
  }

  /** What a compaction left: one table's records, or none. */
  function OnlyTable(tables: seq<Handle>): seq<Record> {
    if tables == [] then [] else tables[0].table
  }

  /** The table loop of Get. */
  method SearchTables(fnv: Hash, tables: seq<Handle>, key: bytes) returns (r: Option<Record>)
    requires AllSound(fnv, tables)
    ensures r == FindTables(Contents(tables), key)
  {
    hide Sound, Lookup, OutOfBounds, Bloom.Member;
    var i := |tables|;
    assert Contents(tables)[..i] == Contents(tables);
    while i > 0
      invariant 0 <= i <= |tables|
      invariant FindTables(Contents(tables), key) == FindTables(Contents(tables)[..i], key)
    {
      i := i - 1;
      var h := tables[i];
      assert Contents(tables)[..i + 1][..i] == Contents(tables)[..i] && Contents(tables)[..i + 1][i] == h.table;
      assert Sound(fnv, h);
      if OutOfBounds(h, key) { SkipIsSafe(fnv, h, key); continue; }
      SoundFilter(fnv, h);
      var maybe := Bloom.Query(fnv, h.bloom, key);
      if !maybe { SkipIsSafe(fnv, h, key); continue; }
      r := Lookup(h.table, key);
      if r.Some? { return; }
    }
    return None;
  }

  /** What Scan returns for a key: the survivor of the merge, if it lies in the range and is no tombstone. */
  ghost function Scanned(mem: Buffer, tables: seq<seq<Record>>, start: bytes, end: bytes, k: bytes): Option<Record> {
    var c := Champion(At(mem, k), tables, k);
    if InRange(start, end, k) && c.Some? && c.value.kind == PUT then c else None
  }

  /** The table loop of Scan. */
  method MergeTables(first: Buffer, tables: seq<Handle>, start: bytes, end: bytes) returns (best: Buffer)
    ensures best == MergeRuns(first, Ranges(Contents(tables), start, end))
  {
    hide MergeRun, Within;
    best := first;
    ghost var runs := Ranges(Contents(tables), start, end);
    for i := 0 to |tables|
      invariant best == MergeRuns(first, runs[..i])
    {
      assert runs[..i + 1][..i] == runs[..i] && runs[..i + 1][i] == runs[i];
      best := MergeInto(best, Within(tables[i].table, start, end));
    }
    assert runs[..|tables|] == runs;
  }

  lemma ScanKeyed(fromMem: seq<Record>, runs: seq<seq<Record>>)
    ensures Keyed(MergeRuns(MergeRun(map[], fromMem), runs))
  {
    MergeKeyed(map[], fromMem);
    MergesKeyed(MergeRun(map[], fromMem), runs);
  }

  ghost predicate AllSorted(tables: seq<seq<Record>>) {
    forall i :: 0 <= i < |tables| ==> Sorted(tables[i])
  }

  lemma SoundSorted(fnv: Hash, hs: seq<Handle>)
    requires AllSound(fnv, hs)
    ensures AllSorted(Contents(hs))
  {
    hide Sorted;
    forall i | 0 <= i < |hs| ensures Sorted(hs[i].table) { assert Sound(fnv, hs[i]); }
  }

  lemma {:induction false} WithinSorted(rs: seq<Record>, start: bytes, end: bytes)
    requires Sorted(rs)
    ensures Sorted(Within(rs, start, end))
    ensures forall r :: r in Within(rs, start, end) ==> r in rs
  {
    hide Less;
    if rs != [] {
      var init, r := rs[..|rs| - 1], rs[|rs| - 1];
      WithinSorted(init, start, end);
      var w := Within(init, start, end);
      forall i | 0 <= i < |w| ensures Less(w[i].key, r.key) { assert w[i] in init; }
    }
  }

  lemma ScanResult(keys: seq<bytes>, mem: Buffer, tables: seq<seq<Record>>, start: bytes, end: bytes, rs: seq<Record>)
    requires MemTables.InStep(keys, mem) && AllSorted(tables)
    requires var buffered := MergeRun(map[], Within(MemTables.Listed(keys, mem), start, end));
             Lists(rs, Live(MergeRuns(buffered, Ranges(tables, start, end))))
    ensures Sorted(rs) && forall k :: Lookup(rs, k) == Scanned(mem, tables, start, end, k)
  {
    hide Sorted, Lookup, Within, InRange, Champion, MergeRun, MergeRuns;
    var list, runs := MemTables.Listed(keys, mem), Ranges(tables, start, end);
    var first := MergeRun(map[], Within(list, start, end));
    forall i | 0 <= i < |runs| ensures Sorted(runs[i]) { WithinSorted(tables[i], start, end); }
    forall k ensures Lookup(rs, k) == Scanned(mem, tables, start, end, k) {
      MemTables.ListedLookup(keys, mem, k);
      WithinSorted(list, start, end);
      MergeRunAt(map[], Within(list, start, end), k);
      LookupWithin(list, start, end, k);
      MergeRunsAt(first, runs, k);
      RangeChampion(At(first, k), tables, start, end, k);
    }
  }

  /** Scan shows of a key what Get shows if and only if buffer and tables agree on it. */
  lemma ScanAgreesIff(mem: Buffer, tables: seq<seq<Record>>, start: bytes, end: bytes, rs: seq<Record>,
                      data: map<bytes, bytes>)
    requires Shows(mem, tables, data) && forall k :: Lookup(rs, k) == Scanned(mem, tables, start, end, k)
    ensures forall k :: InRange(start, end, k) ==> (Visible(Lookup(rs, k)) == At(data, k) <==> Agrees(mem, tables, k))
  {
    hide Lookup, Champion, InRange, FindTables, Agrees;
    forall k | InRange(start, end, k) ensures Visible(Lookup(rs, k)) == At(data, k) <==> Agrees(mem, tables, k) {
      MergeShowsReadIff(mem, tables, k);
      assert At(data, k) == Read(mem, tables, k);
    }
  }

  /** A live version of k that a read finds is in rs if and only if its number stands, and a number that
      stands makes rs show what the read shows. */
  ghost predicate KeptByNumbers(mem: Buffer, tables: seq<seq<Record>>, rs: seq<Record>, k: bytes) {
    var found := Find(mem, tables, k);
    && (found.Some? && found.value.kind == PUT ==> (Lookup(rs, k) == found <==> Stands(mem, tables, k)))
    && (Stands(mem, tables, k) ==> Visible(Lookup(rs, k)) == Visible(found))
  }

  lemma ScanStandsIff(mem: Buffer, tables: seq<seq<Record>>, start: bytes, end: bytes, rs: seq<Record>)
    requires forall k :: Lookup(rs, k) == Scanned(mem, tables, start, end, k)
    ensures forall k :: InRange(start, end, k) ==> KeptByNumbers(mem, tables, rs, k)
  {
    hide Lookup, Champion, InRange, Find, Stands;
    forall k | InRange(start, end, k) ensures KeptByNumbers(mem, tables, rs, k) {
      StandsIff(mem, tables, k);
    }
  }

  lemma CompactionKept(tables: seq<seq<Record>>, rs: seq<Record>)
    requires CompactsTo(tables, rs) && AllSorted(tables)
    ensures forall k :: KeptByNumbers(map[], tables, rs, k)
  {
    hide Lookup, Champion, FindTables, Stands, CompactsTo, Sorted, Compacted;
    forall k ensures KeptByNumbers(map[], tables, rs, k) {
      CompactedLookup(tables, rs, k);
      StandsIff(map[], tables, k);
    }
  }

  /** Under age order, the survivor of the merge is what a read by position finds. */
  lemma ScanShows(mem: Buffer, tables: seq<seq<Record>>, start: bytes, end: bytes, rs: seq<Record>,
                  data: map<bytes, bytes>)
    requires AgeOrdered(mem, tables) && Shows(mem, tables, data)
    requires forall k :: Lookup(rs, k) == Scanned(mem, tables, start, end, k)
    ensures forall k :: Visible(Lookup(rs, k)) == if InRange(start, end, k) then At(data, k) else None
  {
    hide AgeOrdered, Lookup, Champion, InRange, FindTables;
    forall k ensures Visible(Lookup(rs, k)) == if InRange(start, end, k) then At(data, k) else None {
      MergeIsFind(mem, tables, k);
      assert At(data, k) == Read(mem, tables, k);
    }
  }

  /** sstable.Create, the Bloom sidecar and the new reader: a sound handle, or nothing. */
  method BuildTable(o: Options, id: nat, rs: seq<Record>, fault: Fault) returns (h: Option<Handle>)
    requires rs != [] && Sorted(rs) && Bloom.ValidRate(o.fprBits)
    requires forall i :: 0 <= i < |rs| ==> rs[i].key != [] && KnownKind(rs[i].kind)
    ensures h.Some? ==> Sound(o.fnv, h.value) && h.value.id == id && h.value.table == rs
    ensures h.Some? <==> Buildable(o, rs) && !StopsBuild(fault)
  {
    hide Less, Bloom.WellFormed, Bloom.Member;
    var err := SSTables.ValidateEntries(rs, MaxRecord(o.sstMax));
    if err.Some? || fault == Create { return None; }
    var bloom := BuildBloom(o, rs);
    if bloom.None? || fault == BloomWrite || fault == OpenReader { return None; }
    return Some(Handle(id, rs, bloom.value, rs[0].key, rs[|rs| - 1].key));
  }

  lemma ListedStorable(rs: seq<Record>, entries: Buffer, max: u32)
    requires Lists(rs, entries)
    ensures AllStorable(max, rs) <==> forall k :: k in entries ==> Storable(max, entries[k])
  {
    hide Sorted, Storable;
    forall k | k in entries ensures exists i :: 0 <= i < |rs| && rs[i] == entries[k] {
      assert Lookup(rs, k) == Some(entries[k]);
      LookupSound(rs, k);
    }
  }

  /** Compaction has one output. */
  lemma SurvivorsUnique(tables: seq<seq<Record>>, rs: seq<Record>)
    requires CompactsTo(tables, rs)
    ensures forall other :: CompactsTo(tables, other) ==> other == rs
  {
    forall other | CompactsTo(tables, other) ensures other == rs {
      hide Sorted, Lookup, MergeRuns, Live;
      ListingUnique(other, rs);
    }
  }

  lemma EmptyBuffer(keys: seq<bytes>, entries: Buffer)
    requires MemTables.InStep(keys, entries)
    ensures |keys| == 0 <==> entries == map[]
  {
    hide Less;
    if |keys| == 0 {
      assert forall k :: k in entries ==> k in keys;
    } else {
      assert keys[0] in entries;
    }
  }

  /** The run a flush writes is the buffer in key order. */
  lemma FlushedRun(keys: seq<bytes>, entries: Buffer, rs: seq<Record>)
    requires MemTables.InStep(keys, entries) && rs == Within(MemTables.Listed(keys, entries), [], [])
    ensures Lists(rs, entries) && Sorted(rs) && |rs| == |keys|
    ensures forall i :: 0 <= i < |rs| ==> rs[i].key != [] && KnownKind(rs[i].kind)
  {
    hide Less, Within;
    WithinAll(MemTables.Listed(keys, entries));
    forall k ensures Lookup(rs, k) == At(entries, k) { MemTables.ListedLookup(keys, entries, k); }
    MemTables.ListedLookup(keys, entries, []);
  }

  lemma UsableRate(o: Options, hs: seq<Handle>, next: nat, rows: seq<TableEntry>)
    requires TablesOk(o, hs, next, rows)
    ensures Bloom.ValidRate(o.fprBits) && AllSound(o.fnv, hs) && rows == RowsOf(hs)
    ensures TablesOk(o, [], next, RowsOf([])) && Contents([]) == []
  {
  }

  lemma OneTable(o: Options, hs: seq<Handle>, h: Handle, next: nat, rows: seq<TableEntry>)
    requires TablesOk(o, hs, next, rows) && Sound(o.fnv, h) && h.id == next
    ensures TablesOk(o, [h], next + 1, RowsOf([h])) && Contents([h]) == [h.table]
  {
    hide Sound;
  }

  lemma Appended(o: Options, hs: seq<Handle>, h: Handle, next: nat, rows: seq<TableEntry>)
    requires TablesOk(o, hs, next, rows) && Sound(o.fnv, h) && h.id == next
    ensures TablesOk(o, hs + [h], next + 1, rows + [RowOf(h)])
    ensures RowsOf(hs + [h]) == rows + [RowOf(h)] && Contents(hs + [h]) == Contents(hs) + [h.table]
  {
    hide Sound;
    assert RowsOf(hs + [h]) == RowsOf(hs) + [RowOf(h)];
  }

  lemma {:induction false} MergedAll(hs: seq<Handle>)
    ensures Ranges(Contents(hs), [], []) == Contents(hs)
    ensures Keyed(MergeRuns(map[], Contents(hs)))
  {
    var ts := Contents(hs);
    forall i | 0 <= i < |ts| ensures Within(ts[i], [], []) == ts[i] { WithinAll(ts[i]); }
    MergesKeyed(map[], ts);
  }

  lemma CompactsOk(fnv: Hash, hs: seq<Handle>, rs: seq<Record>)
    requires AllSound(fnv, hs) && Lists(rs, Live(MergeRuns(map[], Contents(hs))))
    ensures CompactsTo(Contents(hs), rs) && Sorted(rs)
    ensures forall i :: 0 <= i < |rs| ==> rs[i].key != [] && KnownKind(rs[i].kind)
  {
    hide Less, MergeRuns, Lookup;
    forall i | 0 <= i < |rs| ensures rs[i].key != [] {
      SoundSorted(fnv, hs);
      MergeRunsAt(map[], Contents(hs), rs[i].key);
      ChampionKnown(fnv, hs, rs[i].key);
    }
  }

  lemma {:induction false} ChampionKnown(fnv: Hash, hs: seq<Handle>, k: bytes)
    requires AllSound(fnv, hs)
    ensures Champion(None, Contents(hs), k).Some? ==> k != []
  {
    hide Less;
    if hs != [] {
      var n := |hs| - 1;
      assert Sound(fnv, hs[n]);
      ChampionKnown(fnv, hs[..n], k);
      assert Contents(hs)[..n] == Contents(hs[..n]);
      if k == [] { LookupMissing(hs[n].table, []); }
    }
  }

  lemma SoundFilter(fnv: Hash, h: Handle)
    requires Sound(fnv, h)
    ensures Bloom.WellFormed(h.bloom)
  {
  }

  // ---- opening ----

  /** A log record the replay callback accepts. */
  predicate Replayable(r: Record) {
    r.key != [] && KnownKind(r.kind)
  }

  /** Above both the manifest's counter and anything in the log. */
  function ResumeSeq(next: u64, rs: seq<Record>): u64 {
    if Wal.MaxSeq(rs) >= next then WrapAdd(Wal.MaxSeq(rs), 1) else next
  }

  /** A number no write may resume below. */
  ghost predicate Free(next: u64, rs: seq<Record>, s: int) {
    s > 0 && s >= next && forall i :: 0 <= i < |rs| ==> rs[i].seqno < s
  }

  /** The counter resumes at the least positive number that the manifest allows and no log record has reached,
      unless the log is at the end of the numbers. */
  lemma ResumesAtLeast(next: u64, rs: seq<Record>)
    requires Wal.MaxSeq(rs) < MAX_U64
    ensures Free(next, rs, ResumeSeq(next, rs)) && forall s :: Free(next, rs, s) ==> ResumeSeq(next, rs) <= s
  {
    hide Wal.MaxSeq;
  }

  /** Open, once the manifest's tables and filters are loaded: the buffer is rebuilt from the log. */
  method Open(o: Options, m: Manifest, handles: seq<Handle>, wal: Wal.WAL) returns (e: Engine?)
    requires TablesOk(o, handles, m.nextFileId, m.tables) && !wal.closed
    modifies wal`seqno
    ensures var replay := Wal.ReplayFrom(wal.crc, wal.max, wal.file, 0, []);
            && (e != null <==> replay.ok && forall i :: 0 <= i < |replay.records| ==> Replayable(replay.records[i]))
            && (e != null ==>
                  && e.Valid() && !e.closed && e.tables == handles && e.wal == wal && e.manifest == m
                  && e.mem.entries == Rebuild(replay.records) && e.nextSeq == ResumeSeq(m.nextSeq, replay.records))
  {
    hide TablesOk, Wal.ReplayFrom, MemTables.InStep, MemTables.TotalSize, Wal.MaxSeq;
    var replay := wal.Replay();
    if !replay.value.ok { return null; }
    var rs := replay.value.records;
    var mem := new MemTables.MemTable(o.memMax);
    for i := 0 to |rs|
      invariant mem.Valid() && fresh(mem) && mem.entries == Rebuild(rs[..i])
      invariant forall j :: 0 <= j < i ==> Replayable(rs[j])
    {
      assert rs[..i + 1][..i] == rs[..i] && rs[..i + 1][i] == rs[i];
      var ok := false;
      if rs[i].kind == PUT {
        ok := mem.Put(rs[i].key, rs[i].value, rs[i].seqno);
      } else if rs[i].kind == DELETE {
        ok := mem.Delete(rs[i].key, rs[i].seqno);
      }
      if !ok { return null; }
    }
    assert rs[..|rs|] == rs;
    e := new Engine(o, mem, wal, handles, ResumeSeq(m.nextSeq, rs), m);
  }
}
