/** Immutable sorted tables (internal/sstable/sstable.go): validation, the file writeTable produces,
    load with its cross-checks, and the indexed reads. */
module SSTables {
  import opened Bytes
  import opened Records
  import opened Tables

  const MAGIC: u64 := 0x4254_4244_4653_4853
  const VERSION := 1
  const HEADER_SIZE := 10
  const FOOTER_SIZE := 36

  datatype IndexEntry = IndexEntry(key: bytes, offset: u64, recordLen: u32)

  /** A loaded table: the file, the decoded index, and the metadata taken from it. */
  datatype Reader = Reader(file: bytes, index: seq<IndexEntry>, max: u32)

  // ---- validation ----

  datatype EntryError = InvalidEntry(at: nat) | RecordTooLarge(at: nat) | DuplicateKey(at: nat) | Unsorted(at: nat)

  /** validateEntries: the loop compares neighbours only, and that is enough for the whole order. */
  method ValidateEntries(rs: seq<Record>, max: u32) returns (err: Option<EntryError>)
    ensures err == None <==> AllStorable(max, rs) && Sorted(rs)
  {
    hide Less;
    for i := 0 to |rs|
      invariant AllStorable(max, rs[..i]) && Sorted(rs[..i])
    {
      var r := rs[i];
      if r.key == [] || !KnownKind(r.kind) { return Some(InvalidEntry(i)); }
      if BODY_FIXED + |r.key| + |r.value| > max { return Some(RecordTooLarge(i)); }
      if i > 0 {
        var prev := rs[i - 1].key;
        if r.key == prev {
          LessIrreflexive(prev);
          assert !Less(rs[i - 1].key, rs[i].key);
          return Some(DuplicateKey(i));
        }
        if Less(r.key, prev) {
          LessAsymmetric(r.key, prev);
          assert !Less(rs[i - 1].key, rs[i].key);
          return Some(Unsorted(i));
        }
        LessTotal(prev, r.key);
      }
      SortedExtend(rs[..i], r);
      assert rs[..i + 1] == rs[..i] + [r];
    }
    assert rs[..|rs|] == rs;
    return None;
  }

  // ---- the file ----

  function EncodeIndexEntry(ie: IndexEntry): (b: bytes)
    requires |ie.key| < U32_SIZE
    ensures |b| == 16 + |ie.key|
  {
    LE32(|ie.key|) + ie.key + LE64(ie.offset) + LE32(ie.recordLen)
  }

  ghost predicate ShortKeys(ix: seq<IndexEntry>) {
    forall i :: 0 <= i < |ix| ==> |ix[i].key| < U32_SIZE
  }

  ghost function IndexBlock(ix: seq<IndexEntry>): bytes
    requires ShortKeys(ix)
  {
    if ix == [] then [] else IndexBlock(ix[..|ix| - 1]) + EncodeIndexEntry(ix[|ix| - 1])
  }

  function FooterFields(indexOffset: u64, indexLen: u64, count: u64): (b: bytes)
    ensures |b| == 24
  {
    LE64(indexOffset) + LE64(indexLen) + LE64(count)
  }

  function Footer(crc: Checksum, indexOffset: u64, indexLen: u64, count: u64): (b: bytes)
    ensures |b| == FOOTER_SIZE
  {
    var fields := FooterFields(indexOffset, indexLen, count);
    fields + LE32(crc(fields)) + LE64(MAGIC)
  }

  function Header(): (b: bytes)
    ensures |b| == HEADER_SIZE
  {
    LE64(MAGIC) + LE16(VERSION)
  }

  /** What a file can hold: every offset is an int64. */
  const MAX_FILE: int := 0x8000_0000_0000_0000

  ghost predicate Fits(crc: Checksum, rs: seq<Record>)
    requires AllEncodable(rs)
  {
    HEADER_SIZE + |Frames(crc, rs)| < MAX_FILE
  }

  lemma FitsPrefix(crc: Checksum, rs: seq<Record>)
    requires AllEncodable(rs) && Fits(crc, rs) && rs != []
    ensures Fits(crc, rs[..|rs| - 1])
  {
  }

  ghost function IndexOf(crc: Checksum, rs: seq<Record>): (ix: seq<IndexEntry>)
    requires AllEncodable(rs) && Fits(crc, rs)
    ensures |ix| == |rs| && ShortKeys(ix)
  {
    if rs == [] then []
    else
      var init, r := rs[..|rs| - 1], rs[|rs| - 1];
      FitsPrefix(crc, rs);
      IndexOf(crc, init) + [IndexEntry(r.key, HEADER_SIZE + |Frames(crc, init)|, BODY_FIXED + |r.key| + |r.value|)]
  }

  ghost predicate Writable(crc: Checksum, rs: seq<Record>) {
    && AllEncodable(rs)
    && Fits(crc, rs)
    && HEADER_SIZE + |Frames(crc, rs)| + |IndexBlock(IndexOf(crc, rs))| + FOOTER_SIZE < MAX_FILE
  }

  /** The whole table file. */
  ghost function TableBytes(crc: Checksum, rs: seq<Record>): bytes
    requires Writable(crc, rs)
  {
    var indexOffset, block := HEADER_SIZE + |Frames(crc, rs)|, IndexBlock(IndexOf(crc, rs));
    Header() + Frames(crc, rs) + block + Footer(crc, indexOffset, |block|, |rs|)
  }

  // ---- writing ----

  datatype Metadata = Metadata(count: nat, minKey: bytes, maxKey: bytes, size: nat)

  /** writeTable's first pass: the framed records, and where each of them went. */
  method WriteRecords(crc: Checksum, rs: seq<Record>) returns (file: bytes, index: seq<IndexEntry>)
    requires AllEncodable(rs) && Fits(crc, rs)
    ensures file == Header() + Frames(crc, rs) && index == IndexOf(crc, rs)
  {
    hide Frame, Header, Frames, IndexOf;
    file, index := Header(), [];
    var offset := HEADER_SIZE;
    StartsEmpty(crc);
    for i := 0 to |rs|
      invariant FitsTo(crc, rs, i)
      invariant file == Header() + Frames(crc, rs[..i]) && offset == |file|
      invariant index == IndexOf(crc, rs[..i])
    {
      FitsNext(crc, rs, i);
      var record := Frame(crc, rs[i]);
      assert Encodable(rs[i]);
      file := file + record;
      index := index + [IndexEntry(rs[i].key, offset, |record| - FRAME_HEADER)];
      offset := offset + |record|;
    }
    assert rs[..|rs|] == rs;
  }

  lemma StartsEmpty(crc: Checksum)
    ensures Frames(crc, []) == [] && IndexOf(crc, []) == []
  {
  }

  /** writeTable's second pass: the index block. */
  method WriteIndex(start: bytes, index: seq<IndexEntry>) returns (file: bytes)
    requires ShortKeys(index)
    ensures file == start + IndexBlock(index)
  {
    hide EncodeIndexEntry;
    file := start;
    for i := 0 to |index|
      invariant ShortKeys(index[..i]) && file == start + IndexBlock(index[..i])
    {
      assert index[..i + 1][..i] == index[..i] && index[..i + 1][i] == index[i];
      file := file + EncodeIndexEntry(index[i]);
    }
    assert index[..|index|] == index;
  }

  /** writeTable, which also sizes the index by a third pass over it. */
  method WriteTable(crc: Checksum, rs: seq<Record>) returns (file: bytes, meta: Metadata)
    requires rs != [] && Writable(crc, rs)
    ensures file == TableBytes(crc, rs)
    ensures meta == Metadata(|rs|, rs[0].key, rs[|rs| - 1].key, |file|)
  {
    hide Frame, Header, Footer, EncodeIndexEntry, Encodable, Frames, IndexOf;
    var index;
    file, index := WriteRecords(crc, rs);
    var indexOffset := |file|;
    file := WriteIndex(file, index);
    var indexLen := 0;
    for i := 0 to |index|
      invariant ShortKeys(index[..i]) && indexLen == |IndexBlock(index[..i])|
    {
      assert index[..i + 1][..i] == index[..i] && index[..i + 1][i] == index[i];
      indexLen := indexLen + 16 + |index[i].key|;
    }
    assert index[..|index|] == index;
    file := file + Footer(crc, indexOffset, indexLen, |rs|);
    meta := Metadata(|rs|, rs[0].key, rs[|rs| - 1].key, indexOffset + indexLen + FOOTER_SIZE);
  }

  ghost predicate FitsTo(crc: Checksum, rs: seq<Record>, i: nat)
    requires i <= |rs|
  {
    AllEncodable(rs[..i]) && Fits(crc, rs[..i])
  }

  lemma {:induction false} FramesMonotone(crc: Checksum, rs: seq<Record>, i: nat)
    requires AllEncodable(rs) && i <= |rs|
    ensures AllEncodable(rs[..i]) && Frames(crc, rs[..i]) <= Frames(crc, rs)
    decreases |rs|
  {
    hide Frame, Encodable;
    if i < |rs| {
      FramesMonotone(crc, rs[..|rs| - 1], i);
      assert rs[..|rs| - 1][..i] == rs[..i];
    } else {
      assert rs[..i] == rs;
    }
  }

  lemma FitsNext(crc: Checksum, rs: seq<Record>, i: nat)
    requires i < |rs| && AllEncodable(rs) && Fits(crc, rs)
    ensures FitsTo(crc, rs, i) && FitsTo(crc, rs, i + 1)
    ensures Frames(crc, rs[..i + 1]) == Frames(crc, rs[..i]) + Frame(crc, rs[i])
    ensures IndexOf(crc, rs[..i + 1]) == IndexOf(crc, rs[..i])
            + [IndexEntry(rs[i].key, HEADER_SIZE + |Frames(crc, rs[..i])|, BODY_FIXED + |rs[i].key| + |rs[i].value|)]
  {
    hide Frame;
    FramesMonotone(crc, rs, i);
    FramesMonotone(crc, rs, i + 1);
    assert rs[..i + 1][..i] == rs[..i] && rs[..i + 1][i] == rs[i];
  }

  // ---- loading ----

  /** The index loop of load, from pos on; None when an entry is truncated. */
  function DecodeIndex(data: bytes, pos: nat, seen: seq<IndexEntry>): Option<seq<IndexEntry>>
    requires pos <= |data|
    decreases |data| - pos
  {
    if pos == |data| then Some(seen)
    else if pos + 4 > |data| then None
    else
      var keyLen: int := FromLE32(data[pos..pos + 4]);
      var key := pos + 4;
      if key + keyLen + 12 > |data| then None
      else
        var trailer := key + keyLen;
        DecodeIndex(data, trailer + 12,
                    seen + [IndexEntry(data[key..trailer], FromLE64(data[trailer..trailer + 8]),
                                       FromLE32(data[trailer + 8..trailer + 12]))])
  }

  /** The checks load makes of entry i: inside the data region, sane length, strictly ascending. */
  predicate EntryOk(index: seq<IndexEntry>, i: nat, indexOffset: u64, max: u32)
    requires i < |index|
  {
    var ie := index[i];
    var recordEnd := WrapAdd(ie.offset, FRAME_HEADER + ie.recordLen);
    && HEADER_SIZE <= ie.offset < indexOffset
    && BODY_FIXED <= ie.recordLen <= max
    && ie.offset <= recordEnd <= indexOffset
    && (i > 0 ==> Less(index[i - 1].key, ie.key))
  }

  datatype LoadError = TooSmall | BadMagic | BadVersion | BadFooter | BadIndexRegion | BadIndex

  datatype Loaded = Opened(reader: Reader) | Refused(err: LoadError)

  function FooterOf(file: bytes): bytes
    requires |file| >= FOOTER_SIZE
  {
    file[|file| - FOOTER_SIZE..]
  }

  /** load(): header, footer, index region, then the index itself. */
  method Load(crc: Checksum, max: u32, file: bytes) returns (r: Loaded)
    requires |file| < MAX_FILE
    ensures r == LoadResult(crc, max, file)
  {
    hide FromLE32, FromLE64, FromLE16, EntryOk;
    if |file| < HEADER_SIZE + FOOTER_SIZE { return Refused(TooSmall); }
    if FromLE64(file[0..8]) != MAGIC { return Refused(BadMagic); }
    if FromLE16(file[8..10]) != VERSION { return Refused(BadVersion); }
    var footer := FooterOf(file);
    if FromLE64(footer[28..36]) != MAGIC || FromLE32(footer[24..28]) != crc(footer[0..24]) {
      return Refused(BadFooter);
    }
    var indexOffset, indexLen := FromLE64(footer[0..8]), FromLE64(footer[8..16]);
    var dataEnd := |file| - FOOTER_SIZE;
    if indexOffset < HEADER_SIZE || indexOffset > dataEnd || indexLen > dataEnd - indexOffset {
      return Refused(BadIndexRegion);
    }
    var data := file[indexOffset..indexOffset + indexLen];
    var index: seq<IndexEntry> := [];
    var pos := 0;
    while pos < |data|
      invariant pos <= |data|
      invariant DecodeIndex(data, 0, []) == DecodeIndex(data, pos, index)
    {
      if pos + 4 > |data| { return Refused(BadIndex); }
      var keyLen: int := FromLE32(data[pos..pos + 4]);
      pos := pos + 4;
      if pos + keyLen + 12 > |data| { return Refused(BadIndex); }
      var key := data[pos..pos + keyLen];
      pos := pos + keyLen;
      index := index + [IndexEntry(key, FromLE64(data[pos..pos + 8]), FromLE32(data[pos + 8..pos + 12]))];
      pos := pos + 12;
    }
    if |index| != FromLE64(footer[16..24]) { return Refused(BadIndex); }
    for i := 0 to |index|
      invariant forall j :: 0 <= j < i ==> EntryOk(index, j, indexOffset, max)
    {
      if !EntryOk(index, i, indexOffset, max) { return Refused(BadIndex); }
    }
    return Opened(Reader(file, index, max));
  }

  ghost function LoadResult(crc: Checksum, max: u32, file: bytes): Loaded {
    if |file| < HEADER_SIZE + FOOTER_SIZE then Refused(TooSmall)
    else if FromLE64(file[0..8]) != MAGIC then Refused(BadMagic)
    else if FromLE16(file[8..10]) != VERSION then Refused(BadVersion)
    else
      var footer := FooterOf(file);
      if FromLE64(footer[28..36]) != MAGIC || FromLE32(footer[24..28]) != crc(footer[0..24])
      then Refused(BadFooter)
      else
        var at: int, len: int, dataEnd := FromLE64(footer[0..8]), FromLE64(footer[8..16]), |file| - FOOTER_SIZE;
        if at < HEADER_SIZE || at > dataEnd || len > dataEnd - at then Refused(BadIndexRegion)
        else match DecodeIndex(file[at..at + len], 0, [])
          case None => Refused(BadIndex)
          case Some(index) =>
            if |index| == FromLE64(footer[16..24]) && forall i :: 0 <= i < |index| ==> EntryOk(index, i, at, max)
            then Opened(Reader(file, index, max))
            else Refused(BadIndex)
  }

  // ---- load accepts what writeTable wrote ----

  lemma EncodedParts(ie: IndexEntry)
    requires |ie.key| < U32_SIZE
    ensures var e, k := EncodeIndexEntry(ie), |ie.key|;
            && FromLE32(e[0..4]) == k && e[4..4 + k] == ie.key
            && FromLE64(e[4 + k..12 + k]) == ie.offset && FromLE32(e[12 + k..16 + k]) == ie.recordLen
  {
    var e, k := EncodeIndexEntry(ie), |ie.key|;
    assert e[0..4] == LE32(k) && e[4..4 + k] == ie.key;
    assert e[4 + k..12 + k] == LE64(ie.offset) && e[12 + k..16 + k] == LE32(ie.recordLen);
    LE32RoundTrip(k);
    LE64RoundTrip(ie.offset);
    LE32RoundTrip(ie.recordLen);
  }

  lemma {:induction false} DecodeOne(data: bytes, pos: nat, seen: seq<IndexEntry>, ie: IndexEntry)
    requires |ie.key| < U32_SIZE && pos + |EncodeIndexEntry(ie)| <= |data|
    requires data[pos..pos + |EncodeIndexEntry(ie)|] == EncodeIndexEntry(ie)
    ensures DecodeIndex(data, pos, seen) == DecodeIndex(data, pos + |EncodeIndexEntry(ie)|, seen + [ie])
  {
    hide EncodeIndexEntry, FromLE32, FromLE64;
    EncodedParts(ie);
    var k, n := |ie.key|, |EncodeIndexEntry(ie)|;
    SubSlice(data, pos, n, 0, 4);
    SubSlice(data, pos, n, 4, 4 + k);
    SubSlice(data, pos, n, 4 + k, 12 + k);
    SubSlice(data, pos, n, 12 + k, 16 + k);
    assert FromLE32(data[pos..pos + 4]) == k;
    var trailer := pos + 4 + k;
    assert data[pos + 4..trailer] == ie.key;
    assert FromLE64(data[trailer..trailer + 8]) == ie.offset;
    assert FromLE32(data[trailer + 8..trailer + 12]) == ie.recordLen;
  }

  lemma {:induction false} DecodeThrough(ix: seq<IndexEntry>, data: bytes)
    requires ShortKeys(ix) && IndexBlock(ix) <= data
    ensures DecodeIndex(data, 0, []) == DecodeIndex(data, |IndexBlock(ix)|, ix)
  {
    hide EncodeIndexEntry, DecodeIndex;
    if ix != [] {
      var init, ie := ix[..|ix| - 1], ix[|ix| - 1];
      DecodeThrough(init, data);
      var at := |IndexBlock(init)|;
      assert data[at..at + |EncodeIndexEntry(ie)|] == EncodeIndexEntry(ie);
      DecodeOne(data, at, init, ie);
      assert init + [ie] == ix;
    }
  }

  lemma {:induction false} IndexAt(crc: Checksum, rs: seq<Record>, i: nat)
    requires AllEncodable(rs) && Fits(crc, rs) && i < |rs|
    ensures FitsTo(crc, rs, i)
    ensures IndexOf(crc, rs)[i]
         == IndexEntry(rs[i].key, HEADER_SIZE + |Frames(crc, rs[..i])|, BODY_FIXED + |rs[i].key| + |rs[i].value|)
    decreases |rs|
  {
    hide Frame, Encodable;
    var init := rs[..|rs| - 1];
    if i < |init| {
      FitsPrefix(crc, rs);
      IndexAt(crc, init, i);
      assert init[..i] == rs[..i];
    } else {
      assert init == rs[..i];
    }
  }

  lemma EntriesOk(crc: Checksum, max: u32, rs: seq<Record>, i: nat)
    requires AllStorable(max, rs) && Sorted(rs) && Fits(crc, rs) && i < |rs|
    ensures EntryOk(IndexOf(crc, rs), i, HEADER_SIZE + |Frames(crc, rs)|, max)
  {
    hide Frame, Frames, IndexOf;
    IndexAt(crc, rs, i);
    if i > 0 { IndexAt(crc, rs, i - 1); }
    FitsNext(crc, rs, i);
    FramesMonotone(crc, rs, i + 1);
  }

  lemma HeaderParts()
    ensures FromLE64(Header()[0..8]) == MAGIC && FromLE16(Header()[8..10]) == VERSION
  {
    assert Header()[0..8] == LE64(MAGIC) && Header()[8..10] == LE16(VERSION);
    LE64RoundTrip(MAGIC);
  }

  lemma FooterParts(crc: Checksum, at: u64, len: u64, count: u64)
    ensures var f := Footer(crc, at, len, count);
            && FromLE64(f[28..36]) == MAGIC && FromLE32(f[24..28]) == crc(f[0..24])
            && FromLE64(f[0..8]) == at && FromLE64(f[8..16]) == len && FromLE64(f[16..24]) == count
  {
    var f, fields := Footer(crc, at, len, count), FooterFields(at, len, count);
    assert f[0..24] == fields && f[24..28] == LE32(crc(fields)) && f[28..36] == LE64(MAGIC);
    assert f[0..8] == LE64(at) && f[8..16] == LE64(len) && f[16..24] == LE64(count);
    LE64RoundTrip(MAGIC);
    LE64RoundTrip(at);
    LE64RoundTrip(len);
    LE64RoundTrip(count);
    LE32RoundTrip(crc(fields));
  }

  /** The three regions of a table file, as load addresses them. */
  lemma FileParts(crc: Checksum, rs: seq<Record>)
    requires Writable(crc, rs)
    ensures var file, at, block := TableBytes(crc, rs), HEADER_SIZE + |Frames(crc, rs)|, IndexBlock(IndexOf(crc, rs));
            && file[0..8] == Header()[0..8] && file[8..10] == Header()[8..10]
            && |file| == at + |block| + FOOTER_SIZE
            && FooterOf(file) == Footer(crc, at, |block|, |rs|)
            && file[at..at + |block|] == block
            && Frames(crc, rs) <= file[HEADER_SIZE..]
  {
    hide Header, Footer, Frames, IndexBlock, IndexOf;
  }

  /** load accepts, under the same record limit, every file writeTable produces from valid entries. */
  lemma LoadWritten(crc: Checksum, max: u32, rs: seq<Record>)
    requires AllStorable(max, rs) && Sorted(rs) && Writable(crc, rs)
    ensures LoadResult(crc, max, TableBytes(crc, rs))
         == Opened(Reader(TableBytes(crc, rs), IndexOf(crc, rs), max))
  {
    hide Header, Footer, Frames, IndexBlock, IndexOf, TableBytes, EntryOk, FooterOf, FromLE16, FromLE32, FromLE64;
    var index, at := IndexOf(crc, rs), HEADER_SIZE + |Frames(crc, rs)|;
    FileParts(crc, rs);
    HeaderParts();
    FooterParts(crc, at, |IndexBlock(index)|, |rs|);
    DecodeThrough(index, IndexBlock(index));
    forall i | 0 <= i < |index| ensures EntryOk(index, i, at, max) { EntriesOk(crc, max, rs, i); }
  }

  // ---- reading ----

  /** readRecord: the header is checked against the limit and the index, then the body's checksum,
      kind, lengths and key. */
  function ReadRecord(crc: Checksum, max: u32, file: bytes, ie: IndexEntry): (r: Option<Record>)
    ensures r.Some? ==> r.value.key == ie.key && KnownKind(r.value.kind)
  {
    if |file| < ie.offset + FRAME_HEADER then None
    else
      var recLen: int := FromLE32(file[ie.offset..ie.offset + 4]);
      if recLen < BODY_FIXED || recLen > max || recLen != ie.recordLen then None
      else if |file| < ie.offset + FRAME_HEADER + recLen then None
      else
        var body := file[ie.offset + 8..ie.offset + 8 + recLen];
        if crc(body) != FromLE32(file[ie.offset + 4..ie.offset + 8]) || !KnownKind(body[8]) then None
        else match DecodeBody(body)
          case None => None
          case Some(r) => if r.key == ie.key then Some(r) else None
  }

  lemma ReadFrame(crc: Checksum, max: u32, file: bytes, ie: IndexEntry, r: Record)
    requires Storable(max, r) && ie.offset + |Frame(crc, r)| <= |file|
    requires ie.key == r.key && ie.recordLen == BODY_FIXED + |r.key| + |r.value|
    requires file[ie.offset..ie.offset + |Frame(crc, r)|] == Frame(crc, r)
    ensures ReadRecord(crc, max, file, ie) == Some(r)
  {
    hide Frame, FromLE32, LE32;
    var n := |Frame(crc, r)|;
    FrameParts(crc, r);
    SubSlice(file, ie.offset, n, 0, 4);
    SubSlice(file, ie.offset, n, 4, 8);
    SubSlice(file, ie.offset, n, 8, n);
    BodyRoundTrip(r);
    assert Body(r)[8] == r.kind;
    hide Body, DecodeBody;
  }

  /** Every index entry leads back to its record. */
  lemma {:induction false} ReadIndexed(crc: Checksum, max: u32, rs: seq<Record>, i: nat)
    requires AllStorable(max, rs) && Writable(crc, rs) && i < |rs|
    ensures ReadRecord(crc, max, TableBytes(crc, rs), IndexOf(crc, rs)[i]) == Some(rs[i])
  {
    hide Frame, Frames, IndexOf, TableBytes, ReadRecord, IndexBlock;
    var file, r := TableBytes(crc, rs), rs[i];
    IndexAt(crc, rs, i);
    FileParts(crc, rs);
    FitsNext(crc, rs, i);
    FramesMonotone(crc, rs, i + 1);
    var at, n := |Frames(crc, rs[..i])|, |Frame(crc, r)|;
    var data := file[HEADER_SIZE..];
    assert data[at..at + n] == Frames(crc, rs[..i + 1])[at..at + n] == Frame(crc, r);
    assert file[HEADER_SIZE + at..HEADER_SIZE + at + n] == data[at..at + n];
    ReadFrame(crc, max, file, IndexOf(crc, rs)[i], r);
  }

  /** The reader serves the table that writeTable made of rs. */
  ghost predicate Holds(crc: Checksum, t: Reader, rs: seq<Record>) {
    && AllStorable(t.max, rs) && Sorted(rs) && Writable(crc, rs)
    && t.file == TableBytes(crc, rs) && t.index == IndexOf(crc, rs)
  }

  function IndexKeys(t: Reader): (ks: seq<bytes>)
    ensures |ks| == |t.index| && forall i :: 0 <= i < |ks| ==> ks[i] == t.index[i].key
  {
    seq(|t.index|, i requires 0 <= i < |t.index| => t.index[i].key)
  }

  lemma HoldsKeys(crc: Checksum, t: Reader, rs: seq<Record>)
    requires Holds(crc, t, rs)
    ensures IndexKeys(t) == Keys(rs) && SortedKeys(Keys(rs))
  {
    hide IndexOf, TableBytes, Frames, IndexBlock, Less, Storable;
    forall i | 0 <= i < |rs| ensures IndexKeys(t)[i] == rs[i].key { IndexAt(crc, rs, i); }
  }

  /** Get: binary search of the index, one record read. On a table writeTable made it is linear lookup. */
  method Get(crc: Checksum, t: Reader, key: bytes, ghost rs: seq<Record>) returns (ok: bool, r: Option<Record>)
    requires SortedKeys(IndexKeys(t))
    ensures ok && r.Some? ==> r.value.key == key && KnownKind(r.value.kind)
    ensures Holds(crc, t, rs) ==> ok && r == Lookup(rs, key)
  {
    hide Less, ReadRecord, Holds, SortedKeys;
    if key == [] {
      if Holds(crc, t, rs) { NoEmptyKey(crc, t, rs); }
      return true, None;
    }
    var idx := Search(IndexKeys(t), key);
    FoundAtCut(IndexKeys(t), key, idx);
    if idx >= |t.index| || t.index[idx].key != key {
      if Holds(crc, t, rs) { MissingKey(crc, t, rs, key); }
      return true, None;
    }
    if Holds(crc, t, rs) { PresentKey(crc, t, rs, idx); }
    r := ReadRecord(crc, t.max, t.file, t.index[idx]);
    ok := r.Some?;
  }

  lemma NoEmptyKey(crc: Checksum, t: Reader, rs: seq<Record>)
    requires Holds(crc, t, rs)
    ensures Lookup(rs, []) == None
  {
    hide TableBytes, IndexOf, Less;
    LookupMissing(rs, []);
  }

  lemma MissingKey(crc: Checksum, t: Reader, rs: seq<Record>, key: bytes)
    requires Holds(crc, t, rs) && key !in IndexKeys(t)
    ensures Lookup(rs, key) == None
  {
    HoldsKeys(crc, t, rs);
    hide Holds;
    assert forall i :: 0 <= i < |rs| ==> Keys(rs)[i] == rs[i].key;
    LookupMissing(rs, key);
  }

  lemma PresentKey(crc: Checksum, t: Reader, rs: seq<Record>, i: nat)
    requires Holds(crc, t, rs) && i < |t.index|
    ensures i < |rs| && Lookup(rs, t.index[i].key) == Some(rs[i])
    ensures ReadRecord(crc, t.max, t.file, t.index[i]) == Some(rs[i])
  {
    hide TableBytes, IndexOf, Less, ReadRecord;
    HoldsKeys(crc, t, rs);
    assert IndexKeys(t)[i] == Keys(rs)[i];
    LookupAt(rs, i);
    ReadIndexed(crc, t.max, rs, i);
  }

  /** Scan: on a table writeTable made it is range filtering, in order and with nothing missing. */
  method Scan(crc: Checksum, t: Reader, start: bytes, end: bytes, ghost rs: seq<Record>)
    returns (ok: bool, got: seq<Record>)
    requires SortedKeys(IndexKeys(t))
    ensures Holds(crc, t, rs) ==> ok && got == Within(rs, start, end) && Sorted(got)
  {
    hide Less, ReadRecord, Holds, SortedKeys, Within, Sorted;
    var lo := 0;
    if start != [] { lo := Search(IndexKeys(t), start); }
    if Holds(crc, t, rs) { HoldsKeys(crc, t, rs); }
    got := [];
    var i := lo;
    while i < |t.index| && (end == [] || Less(t.index[i].key, end))
      invariant lo <= i <= |t.index|
      invariant forall j :: lo <= j < i ==> end == [] || Less(t.index[j].key, end)
      invariant Holds(crc, t, rs) ==> i <= |rs| && got == rs[lo..i]
    {
      if Holds(crc, t, rs) { PresentKey(crc, t, rs, i); }
      var r := ReadRecord(crc, t.max, t.file, t.index[i]);
      if r.None? { return false, []; }
      got := got + [r.value];
      i := i + 1;
    }
    if Holds(crc, t, rs) { ScanSlice(crc, t, start, end, rs, lo, i); }
    ok := true;
  }

  lemma ScanSlice(crc: Checksum, t: Reader, start: bytes, end: bytes, rs: seq<Record>, lo: nat, hi: nat)
    requires Holds(crc, t, rs) && lo <= hi <= |t.index|
    requires if start == [] then lo == 0 else CutAt(IndexKeys(t), start, lo)
    requires forall j :: lo <= j < hi ==> end == [] || Less(t.index[j].key, end)
    requires hi < |t.index| ==> end != [] && !Less(t.index[hi].key, end)
    ensures hi <= |rs| && Within(rs, start, end) == rs[lo..hi] && Sorted(rs[lo..hi])
  {
    HoldsKeys(crc, t, rs);
    hide TableBytes, IndexOf, Less, Within;
    assert forall j :: 0 <= j < |rs| ==> IndexKeys(t)[j] == Keys(rs)[j] == rs[j].key;
    RangeIsSlice(rs, start, end, lo, hi);
  }
}
