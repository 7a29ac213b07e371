/** MANIFEST.json (internal/engine/manifest.go): the list of live tables whose atomic replacement is
    the commit point of flush and compaction. */
module Manifests {
  import opened Bytes
  import opened Records
  import opened Tables
  import opened Lsm

  datatype TableEntry = TableEntry(id: nat, count: nat, minKey: bytes, maxKey: bytes)

  datatype Manifest = Manifest(nextFileId: nat, nextSeq: u64, tables: seq<TableEntry>)

  function NewManifest(): Manifest {
    Manifest(1, 1, [])
  }

  // ---- the file ----

  /** One row as JSON holds it: paths and base64 strings. */
  datatype Row = Row(id: nat, sstPath: string, bloomPath: string, count: nat, minKey: string, maxKey: string)

  const VERSION := 1

  datatype File = File(version: int, nextFileId: nat, nextSeq: u64, rows: seq<Row>)

  /** Library code: base64, path building and filepath.IsLocal. */
  datatype Codec = Codec(encode: bytes -> string, decode: string -> Option<bytes>,
                         sstPath: nat -> string, bloomPath: nat -> string, isLocal: string -> bool)

  /** What validateTableEntries asks of one row. */
  predicate RowOk(c: Codec, r: Row) {
    && r.id != 0 && r.count != 0
    && r.sstPath != "" && r.bloomPath != "" && c.isLocal(r.sstPath) && c.isLocal(r.bloomPath)
    && c.decode(r.minKey).Some? && c.decode(r.maxKey).Some?
    && var min, max := c.decode(r.minKey).value, c.decode(r.maxKey).value;
       min != [] && max != [] ==> !Less(max, min)
  }

  ghost predicate Acceptable(c: Codec, rows: seq<Row>) {
    && (forall i :: 0 <= i < |rows| ==> RowOk(c, rows[i]))
    && (forall i, j :: 0 <= i < j < |rows| ==> rows[i].id != rows[j].id)
  }

  /** The loop with its seen-set: row checks and pairwise distinct IDs. */
  method ValidateTableEntries(c: Codec, rows: seq<Row>) returns (ok: bool)
    ensures ok <==> Acceptable(c, rows)
  {
    hide Less;
    var seen: set<nat> := {};
    for i := 0 to |rows|
      invariant Acceptable(c, rows[..i])
      invariant forall n :: n in seen <==> exists j :: 0 <= j < i && rows[j].id == n
    {
      var r := rows[i];
      if r.id == 0 || r.id in seen || r.sstPath == "" || r.bloomPath == "" { return false; }
      seen := seen + {r.id};
      if !c.isLocal(r.sstPath) || !c.isLocal(r.bloomPath) { return false; }
      var min, max := c.decode(r.minKey), c.decode(r.maxKey);
      if min.None? || max.None? { return false; }
      if |min.value| > 0 && |max.value| > 0 && Less(max.value, min.value) { return false; }
      if r.count == 0 { return false; }
    }
    assert rows[..|rows|] == rows;
    return true;
  }

  function Decoded(c: Codec, r: Row): TableEntry
    requires RowOk(c, r)
  {
    TableEntry(r.id, r.count, c.decode(r.minKey).value, c.decode(r.maxKey).value)
  }

  /** A file of this version with both counters and acceptable rows. */
  ghost predicate Loadable(c: Codec, f: File) {
    f.version == 1 && f.nextFileId > 0 && f.nextSeq > 0 && Acceptable(c, f.rows)
  }

  /** loadManifest, with the keys decoded as Open does; a missing file is a new manifest. */
  method LoadManifest(c: Codec, onDisk: Option<File>) returns (m: Option<Manifest>)
    ensures m.Some? <==> onDisk.None? || Loadable(c, onDisk.value)
    ensures m.Some? && onDisk.None? ==> m.value == Manifest(1, 1, [])
    ensures m.Some? && onDisk.Some? ==>
              && m.value == Manifest(onDisk.value.nextFileId, onDisk.value.nextSeq, m.value.tables)
              && |m.value.tables| == |onDisk.value.rows|
              && forall i :: 0 <= i < |onDisk.value.rows| ==>
                   RowOk(c, onDisk.value.rows[i]) && m.value.tables[i] == Decoded(c, onDisk.value.rows[i])
  {
    hide RowOk;
    if onDisk.None? { return Some(NewManifest()); }
    var f := onDisk.value;
    if f.version != VERSION || f.nextFileId == 0 || f.nextSeq == 0 { return None; }
    var ok := ValidateTableEntries(c, f.rows);
    if !ok { return None; }
    var tables: seq<TableEntry> := [];
    for i := 0 to |f.rows|
      invariant |tables| == i
      invariant forall j :: 0 <= j < i ==> RowOk(c, f.rows[j]) && tables[j] == Decoded(c, f.rows[j])
    {
      tables := tables + [Decoded(c, f.rows[i])];
    }
    return Some(Manifest(f.nextFileId, f.nextSeq, tables));
  }

  /** saveManifest: the file of a manifest. */
  function Saved(c: Codec, m: Manifest): File {
    File(VERSION, m.nextFileId, m.nextSeq, seq(|m.tables|, i requires 0 <= i < |m.tables| =>
      var te := m.tables[i];
      Row(te.id, c.sstPath(te.id), c.bloomPath(te.id), te.count, c.encode(te.minKey), c.encode(te.maxKey))))
  }

  ghost predicate ExactCodec(c: Codec) {
    && (forall k :: c.decode(c.encode(k)) == Some(k))
    && (forall id :: c.sstPath(id) != "" && c.isLocal(c.sstPath(id)))
    && (forall id :: c.bloomPath(id) != "" && c.isLocal(c.bloomPath(id)))
  }

  // ---- rows of the tables the engine serves ----

  function RowOf(h: Handle): TableEntry {
    TableEntry(h.id, |h.table|, h.minKey, h.maxKey)
  }

  function RowsOf(hs: seq<Handle>): (rows: seq<TableEntry>)
    ensures |rows| == |hs| && forall i :: 0 <= i < |hs| ==> rows[i] == RowOf(hs[i])
  {
    seq(|hs|, i requires 0 <= i < |hs| => RowOf(hs[i]))
  }

  /** IDs are handed out once, in order. */
  ghost predicate IdsBelow(hs: seq<Handle>, next: nat) {
    && (forall i :: 0 <= i < |hs| ==> 0 < hs[i].id < next)
    && (forall i, j :: 0 <= i < j < |hs| ==> hs[i].id != hs[j].id)
  }

  /** The engine writes a manifest it would refuse to load only when its uint64 counter has wrapped to zero,
      and loads back what it wrote. */
  lemma OwnManifestLoads(c: Codec, fnv: Hash, hs: seq<Handle>, next: nat, m: Manifest)
    requires ExactCodec(c) && AllSound(fnv, hs) && IdsBelow(hs, next) && m.tables == RowsOf(hs) && m.nextFileId > 0
    ensures Loadable(c, Saved(c, m)) <==> m.nextSeq != 0
    ensures Saved(c, m).nextFileId == m.nextFileId && Saved(c, m).nextSeq == m.nextSeq && |Saved(c, m).rows| == |hs|
    ensures forall i :: 0 <= i < |hs| ==>
              RowOk(c, Saved(c, m).rows[i]) && Decoded(c, Saved(c, m).rows[i]) == m.tables[i]
    ensures forall i :: 0 <= i < |hs| ==>
              && Saved(c, m).rows[i].sstPath == c.sstPath(hs[i].id)
              && Saved(c, m).rows[i].bloomPath == c.bloomPath(hs[i].id)
  {
    var rows := Saved(c, m).rows;
    forall i | 0 <= i < |hs| ensures RowOk(c, rows[i]) && Decoded(c, rows[i]) == m.tables[i] {
      assert Sound(fnv, hs[i]) && m.tables[i] == RowOf(hs[i]);
      WithinBounds(hs[i].table, |hs[i].table| - 1);
      hide Sound, Less;
    }
    forall i, j | 0 <= i < j < |rows| ensures rows[i].id != rows[j].id {
      assert m.tables[i] == RowOf(hs[i]) && m.tables[j] == RowOf(hs[j]);
    }
  }
}
