/** What the readers of the on-disk formats accept, byte for byte: exactly the files that consist of
    well-formed parts with matching checksums. Anything else, damaged or forged, is refused or cut off
    (internal/replnet/durable_log.go, internal/wal/wal.go, internal/sstable/sstable.go, internal/bloom/bloom.go). */
module Integrity {
  import opened Bytes
  import J = Journal
  import Records
  import Wal
  import SSTables
  import Bloom

  // ---- the journal ----

  /** A journal record around a payload: length, checksum, payload. */
  function Framed(crc: Checksum, p: bytes): (f: bytes)
    requires 4 + |p| < U32_SIZE
    ensures |f| == 8 + |p|
  {
    LE32(4 + |p|) + LE32(crc(p)) + p
  }

  ghost predicate Payloads(ps: seq<bytes>) {
    forall i :: 0 <= i < |ps| ==> 25 <= |ps[i]| && 4 + |ps[i]| < U32_SIZE
  }

  ghost function AllFramed(crc: Checksum, ps: seq<bytes>): bytes
    requires Payloads(ps)
  {
    if ps == [] then [] else AllFramed(crc, ps[..|ps| - 1]) + Framed(crc, ps[|ps| - 1])
  }

  function SeqOf(p: bytes): u64
    requires |p| >= 8
  {
    FromLE64(p[0..8])
  }

  /** The payloads carry base+1, base+2, ... and never MaxUint64. */
  ghost predicate InOrder(base: u64, ps: seq<bytes>)
    requires Payloads(ps)
  {
    forall i :: 0 <= i < |ps| ==> SeqOf(ps[i]) == base + 1 + i < MAX_U64
  }

  ghost function IndexOf(crc: Checksum, ps: seq<bytes>): (ix: seq<J.IndexEntry>)
    requires Payloads(ps)
    ensures |ix| == |ps|
  {
    if ps == [] then []
    else
      var n := |ps| - 1;
      IndexOf(crc, ps[..n]) + [J.IndexEntry(SeqOf(ps[n]), |AllFramed(crc, ps[..n])|)]
  }

  /** What may follow the last record: nothing, or the beginning of one more, but not exactly its length. */
  ghost predicate Partial(rest: bytes) {
    |rest| < 4 || (|rest| > 4 && FromLE32(rest[..4]) > |rest| - 4)
  }

  /** A record is found at an offset exactly when one is there. */
  lemma FoundIsFramed(crc: Checksum, file: bytes, offset: nat) returns (p: bytes)
    requires offset <= |file| && J.ParseAt(crc, file, offset).Record?
    ensures var f := J.ParseAt(crc, file, offset);
            && 25 <= |p| && 4 + |p| < U32_SIZE && f.next == offset + 8 + |p| <= |file|
            && file[offset..f.next] == Framed(crc, p) && f.seqno == SeqOf(p)
  {
    hide FromLE32, LE32, FromLE64;
    var recLen: int := FromLE32(file[offset..offset + 4]);
    var body := file[offset + 4..offset + 4 + recLen];
    p := body[4..];
    LE32Inverse(file[offset..offset + 4]);
    LE32Inverse(body[..4]);
    assert file[offset..offset + 4 + recLen] == file[offset..offset + 4] + body && body == body[..4] + p;
  }

  lemma FramedIsFound(crc: Checksum, file: bytes, offset: nat, p: bytes)
    requires 25 <= |p| && 4 + |p| < U32_SIZE && offset + 8 + |p| <= |file|
    requires file[offset..offset + 8 + |p|] == Framed(crc, p)
    ensures J.ParseAt(crc, file, offset) == J.Record(SeqOf(p), offset + 8 + |p|)
  {
    hide FromLE32, LE32, FromLE64;
    var at, n := file[offset..offset + 8 + |p|], 8 + |p|;
    SubSlice(file, offset, n, 0, 4);
    SubSlice(file, offset, n, 4, n);
    LE32RoundTrip(4 + |p|);
    LE32RoundTrip(crc(p));
    assert file[offset..offset + 4] == at[0..4] == LE32(4 + |p|);
    var body := file[offset + 4..offset + n];
    assert body == at[4..n] == LE32(crc(p)) + p;
    assert body[..4] == LE32(crc(p)) && body[4..] == p;
  }

  /** Replay stops cleanly exactly there. */
  lemma StopsIff(crc: Checksum, file: bytes, offset: nat)
    requires offset <= |file|
    ensures J.ParseAt(crc, file, offset).CleanEnd? || J.ParseAt(crc, file, offset).PartialTail?
       <==> Partial(file[offset..])
  {
    hide FromLE32;
    if |file| - offset >= 4 { assert file[offset..][..4] == file[offset..offset + 4]; }
  }

  lemma Grows(crc: Checksum, base: u64, ps: seq<bytes>, p: bytes)
    requires Payloads(ps) && InOrder(base, ps) && 25 <= |p| && 4 + |p| < U32_SIZE
    ensures Payloads(ps + [p]) && AllFramed(crc, ps + [p]) == AllFramed(crc, ps) + Framed(crc, p)
    ensures IndexOf(crc, ps + [p]) == IndexOf(crc, ps) + [J.IndexEntry(SeqOf(p), |AllFramed(crc, ps)|)]
    ensures InOrder(base, ps + [p]) <==> SeqOf(p) == base + 1 + |ps| < MAX_U64
  {
    hide FromLE64, SeqOf;
    assert (ps + [p])[..|ps|] == ps;
    assert (ps + [p])[|ps|] == p;
    assert forall i :: 0 <= i < |ps| ==> (ps + [p])[i] == ps[i];
  }

  lemma IndexLast(crc: Checksum, ps: seq<bytes>)
    requires Payloads(ps) && ps != []
    ensures IndexOf(crc, ps)[|ps| - 1].seqno == SeqOf(ps[|ps| - 1])
  {
    hide FromLE64;
  }

  lemma NextNumber(base: u64, ix: seq<J.IndexEntry>, s: u64)
    requires ix != [] ==> ix[|ix| - 1].seqno == base + |ix|
    ensures J.SeqAccepted(base, ix, s) <==> s == base + 1 + |ix| < MAX_U64
  {
  }

  /** The sequence check of replay accepts exactly the next number. */
  lemma NextAccepted(crc: Checksum, base: u64, ps: seq<bytes>, s: u64)
    requires Payloads(ps) && InOrder(base, ps)
    ensures J.SeqAccepted(base, IndexOf(crc, ps), s) <==> s == base + 1 + |ps| < MAX_U64
  {
    var ix := IndexOf(crc, ps);
    if ps != [] {
      IndexLast(crc, ps);
      assert SeqOf(ps[|ps| - 1]) == base + |ps| == ix[|ps| - 1].seqno;
    }
    hide IndexOf, AllFramed, InOrder, SeqOf, Payloads;
    NextNumber(base, ix, s);
  }

  lemma {:induction false} OpenedFrom(crc: Checksum, base: u64, file: bytes, seen: seq<bytes>) returns (ps: seq<bytes>)
    requires Payloads(seen) && InOrder(base, seen) && AllFramed(crc, seen) <= file
    requires J.ReplayFrom(crc, base, file, |AllFramed(crc, seen)|, IndexOf(crc, seen)).Opened?
    ensures var outcome := J.ReplayFrom(crc, base, file, |AllFramed(crc, seen)|, IndexOf(crc, seen));
            && Payloads(ps) && InOrder(base, ps) && AllFramed(crc, ps) <= file
            && outcome == J.Opened(IndexOf(crc, ps), |AllFramed(crc, ps)|) && Partial(file[|AllFramed(crc, ps)|..])
    decreases |file| - |AllFramed(crc, seen)|
  {
    hide Framed, AllFramed, IndexOf, InOrder, Payloads, J.ParseAt, J.SeqAccepted, Partial, FromLE64, SeqOf;
    var at := |AllFramed(crc, seen)|;
    var f := J.ParseAt(crc, file, at);
    if f.Record? {
      var p := FoundIsFramed(crc, file, at);
      NextAccepted(crc, base, seen, f.seqno);
      Grows(crc, base, seen, p);
      assert file[..at] == AllFramed(crc, seen) && file[..f.next] == file[..at] + file[at..f.next];
      ps := OpenedFrom(crc, base, file, seen + [p]);
    } else {
      StopsIff(crc, file, at);
      ps := seen;
    }
  }

  lemma {:induction false} FramedFrom(crc: Checksum, base: u64, ps: seq<bytes>, file: bytes)
    requires Payloads(ps) && InOrder(base, ps) && AllFramed(crc, ps) <= file
    ensures J.ReplayFrom(crc, base, file, 0, [])
         == J.ReplayFrom(crc, base, file, |AllFramed(crc, ps)|, IndexOf(crc, ps))
  {
    hide Framed, J.ParseAt, J.SeqAccepted, FromLE64, SeqOf;
    if ps != [] {
      var init, p := ps[..|ps| - 1], ps[|ps| - 1];
      FramedFrom(crc, base, init, file);
      var at := |AllFramed(crc, init)|;
      assert file[at..at + 8 + |p|] == Framed(crc, p);
      FramedIsFound(crc, file, at, p);
      NextAccepted(crc, base, init, SeqOf(p));
    }
  }

  /** A journal file opens exactly when it is a row of framed payloads with the right numbers and, at most,
      the beginning of one more; the index and the size are then theirs. Any other file is refused. */
  lemma JournalOpensIff(crc: Checksum, base: u64, file: bytes, index: seq<J.IndexEntry>, size: nat)
    ensures J.ReplayFrom(crc, base, file, 0, []) == J.Opened(index, size)
       <==> exists ps: seq<bytes> :: MakesUp(crc, base, file, index, size, ps)
  {
    hide J.ReplayFrom;
    if J.ReplayFrom(crc, base, file, 0, []) == J.Opened(index, size) {
      assert AllFramed(crc, []) == [] && IndexOf(crc, []) == [];
      var ps := OpenedFrom(crc, base, file, []);
      assert MakesUp(crc, base, file, index, size, ps);
    }
    forall ps | MakesUp(crc, base, file, index, size, ps)
      ensures J.ReplayFrom(crc, base, file, 0, []) == J.Opened(index, size)
    {
      FramedFrom(crc, base, ps, file);
      StopsIff(crc, file, size);
      StopsHere(crc, base, file, size, index);
    }
  }

  ghost predicate MakesUp(crc: Checksum, base: u64, file: bytes, index: seq<J.IndexEntry>, size: nat, ps: seq<bytes>) {
    && Payloads(ps) && InOrder(base, ps) && AllFramed(crc, ps) <= file
    && size == |AllFramed(crc, ps)| && index == IndexOf(crc, ps) && Partial(file[size..])
  }

  lemma StopsHere(crc: Checksum, base: u64, file: bytes, at: nat, index: seq<J.IndexEntry>)
    requires at <= |file| && (J.ParseAt(crc, file, at).CleanEnd? || J.ParseAt(crc, file, at).PartialTail?)
    ensures J.ReplayFrom(crc, base, file, at, index) == J.Opened(index, at)
  {
    hide J.ParseAt;
  }

  /** A record is read from an offset exactly when its framed payload is there, bytes behind it included. */
  lemma JournalReadsIff(crc: Checksum, file: bytes, offset: nat, e: J.Entry)
    ensures J.ReadRecordAt(crc, file, offset) == Some(e)
       <==> exists p: bytes :: FramedAt(crc, file, offset, p) && J.DecodePayload(p) == Some(e)
  {
    hide FromLE32, J.DecodePayload, LE32;
    if J.ReadRecordAt(crc, file, offset).Some? {
      var recLen: int := FromLE32(file[offset..offset + 4]);
      var body := file[offset + 4..offset + 4 + recLen];
      var p := body[4..];
      LE32Inverse(file[offset..offset + 4]);
      LE32Inverse(body[..4]);
      assert file[offset..offset + 4 + recLen] == file[offset..offset + 4] + body && body == body[..4] + p;
      assert FramedAt(crc, file, offset, p);
    }
    forall p | FramedAt(crc, file, offset, p) ensures J.ReadRecordAt(crc, file, offset) == J.DecodePayload(p) {
      ReadsFramed(crc, file, offset, p);
    }
  }

  ghost predicate FramedAt(crc: Checksum, file: bytes, offset: nat, p: bytes) {
    4 + |p| < U32_SIZE && offset + 8 + |p| <= |file| && file[offset..offset + 8 + |p|] == Framed(crc, p)
  }

  lemma ReadsFramed(crc: Checksum, file: bytes, offset: nat, p: bytes)
    requires FramedAt(crc, file, offset, p)
    ensures J.ReadRecordAt(crc, file, offset) == J.DecodePayload(p)
  {
    hide FromLE32, LE32, J.DecodePayload;
    var at, n := file[offset..offset + 8 + |p|], 8 + |p|;
    SubSlice(file, offset, n, 0, 4);
    SubSlice(file, offset, n, 4, n);
    LE32RoundTrip(4 + |p|);
    LE32RoundTrip(crc(p));
    assert file[offset..offset + 4] == at[0..4] == LE32(4 + |p|);
    var body := file[offset + 4..offset + n];
    assert body == at[4..n] == LE32(crc(p)) + p;
    assert body[..4] == LE32(crc(p)) && body[4..] == p;
  }

  // ---- the write-ahead log ----

  /** A log frame around a body: length, checksum, body. */
  function Boxed(crc: Checksum, b: bytes): (f: bytes)
    requires |b| < U32_SIZE
    ensures |f| == 8 + |b|
  {
    LE32(|b|) + LE32(crc(b)) + b
  }

  /** A body within the limit that begins with the encoding of r. */
  ghost predicate Carries(max: u32, b: bytes, r: Records.Record) {
    Records.BODY_FIXED <= |b| <= max && Records.Encodable(r) && Records.Body(r) <= b
  }

  ghost predicate AllCarry(max: u32, bs: seq<bytes>, rs: seq<Records.Record>) {
    |bs| == |rs| && forall i :: 0 <= i < |bs| ==> Carries(max, bs[i], rs[i])
  }

  ghost predicate Short(bs: seq<bytes>) {
    forall i :: 0 <= i < |bs| ==> |bs[i]| < U32_SIZE
  }

  ghost function AllBoxed(crc: Checksum, bs: seq<bytes>): bytes
    requires Short(bs)
  {
    if bs == [] then [] else AllBoxed(crc, bs[..|bs| - 1]) + Boxed(crc, bs[|bs| - 1])
  }

  /** A header that is not complete, or announces a possible body that is not. */
  ghost predicate Unfinished(max: u32, rest: bytes) {
    || |rest| < 8
    || (Records.BODY_FIXED <= FromLE32(rest[..4]) <= max && |rest| - 8 < FromLE32(rest[..4]))
  }

  ghost predicate BoxedAt(crc: Checksum, max: u32, file: bytes, pos: nat, b: bytes, r: Records.Record) {
    && Carries(max, b, r) && pos + 8 + |b| <= |file| && file[pos..pos + 8 + |b|] == Boxed(crc, b)
  }

  lemma FoundIsBoxed(crc: Checksum, max: u32, file: bytes, pos: nat) returns (b: bytes)
    requires pos <= |file| && Wal.FrameAt(crc, max, file, pos).Whole?
    ensures var f := Wal.FrameAt(crc, max, file, pos);
            BoxedAt(crc, max, file, pos, b, f.record) && f.next == pos + 8 + |b|
  {
    hide FromLE32, LE32, Records.DecodeBody, Records.Body;
    var len: int := FromLE32(file[pos..pos + 4]);
    b := file[pos + 8..pos + 8 + len];
    LE32Inverse(file[pos..pos + 4]);
    LE32Inverse(file[pos + 4..pos + 8]);
    assert file[pos..pos + 8 + len] == file[pos..pos + 4] + file[pos + 4..pos + 8] + b;
    Records.DecodesIff(b, Wal.FrameAt(crc, max, file, pos).record);
  }

  lemma BoxedIsFound(crc: Checksum, max: u32, file: bytes, pos: nat, b: bytes, r: Records.Record)
    requires pos <= |file| && BoxedAt(crc, max, file, pos, b, r)
    ensures Wal.FrameAt(crc, max, file, pos) == Wal.Whole(r, pos + 8 + |b|)
  {
    hide FromLE32, LE32, Records.DecodeBody, Records.Body;
    var at, n := file[pos..pos + 8 + |b|], 8 + |b|;
    SubSlice(file, pos, n, 0, 4);
    SubSlice(file, pos, n, 4, 8);
    SubSlice(file, pos, n, 8, n);
    LE32RoundTrip(|b|);
    LE32RoundTrip(crc(b));
    assert at[0..4] == LE32(|b|) && at[4..8] == LE32(crc(b)) && at[8..n] == b;
    Records.DecodesIff(b, r);
  }

  lemma StopIff(crc: Checksum, max: u32, file: bytes, pos: nat)
    requires pos <= |file|
    ensures Wal.FrameAt(crc, max, file, pos).Stop? <==> Unfinished(max, file[pos..])
  {
    hide FromLE32;
    if |file| - pos >= 4 { assert file[pos..][..4] == file[pos..pos + 4]; }
  }

  /** What follows the last record found: an unfinished frame, or something that is neither that nor a frame. */
  ghost predicate EndsAs(crc: Checksum, max: u32, file: bytes, at: nat, ok: bool)
    requires at <= |file|
  {
    if ok then Unfinished(max, file[at..])
    else !Unfinished(max, file[at..]) && forall b, r :: !BoxedAt(crc, max, file, at, b, r)
  }

  ghost predicate LogMakesUp(crc: Checksum, max: u32, file: bytes, rs: seq<Records.Record>, ok: bool, bs: seq<bytes>) {
    && Short(bs) && AllCarry(max, bs, rs) && AllBoxed(crc, bs) <= file
    && EndsAs(crc, max, file, |AllBoxed(crc, bs)|, ok)
  }

  lemma BoxGrows(crc: Checksum, max: u32, bs: seq<bytes>, rs: seq<Records.Record>, b: bytes, r: Records.Record)
    requires Short(bs) && AllCarry(max, bs, rs) && Carries(max, b, r)
    ensures Short(bs + [b]) && AllCarry(max, bs + [b], rs + [r])
    ensures AllBoxed(crc, bs + [b]) == AllBoxed(crc, bs) + Boxed(crc, b)
  {
    CarriesShort(max, b, r);
    hide Carries;
    assert (bs + [b])[..|bs|] == bs;
  }

  lemma CarriesShort(max: u32, b: bytes, r: Records.Record)
    requires Carries(max, b, r)
    ensures |b| < U32_SIZE
  {
  }

  lemma {:induction false} ReplayedFrom(crc: Checksum, max: u32, file: bytes, seen: seq<bytes>,
                                        rs: seq<Records.Record>) returns (bs: seq<bytes>)
    requires Short(seen) && AllCarry(max, seen, rs) && AllBoxed(crc, seen) <= file
    ensures var outcome := Wal.ReplayFrom(crc, max, file, |AllBoxed(crc, seen)|, rs);
            LogMakesUp(crc, max, file, outcome.records, outcome.ok, bs)
    decreases |file| - |AllBoxed(crc, seen)|
  {
    hide Boxed, AllBoxed, AllCarry, Short, Carries, Wal.FrameAt, Unfinished, BoxedAt;
    var at := |AllBoxed(crc, seen)|;
    var f := Wal.FrameAt(crc, max, file, at);
    StopIff(crc, max, file, at);
    if f.Whole? {
      var b := FoundIsBoxed(crc, max, file, at);
      BoxParts(crc, max, file, at, b, f.record);
      BoxGrows(crc, max, seen, rs, b, f.record);
      assert file[..at] == AllBoxed(crc, seen) && file[..f.next] == file[..at] + file[at..f.next];
      bs := ReplayedFrom(crc, max, file, seen + [b], rs + [f.record]);
    } else {
      bs := seen;
      forall b, r ensures !BoxedAt(crc, max, file, at, b, r) {
        if BoxedAt(crc, max, file, at, b, r) { BoxedIsFound(crc, max, file, at, b, r); }
      }
    }
  }

  lemma BoxParts(crc: Checksum, max: u32, file: bytes, pos: nat, b: bytes, r: Records.Record)
    requires BoxedAt(crc, max, file, pos, b, r)
    ensures Carries(max, b, r) && |b| < U32_SIZE && pos + 8 + |b| <= |file|
    ensures file[pos..pos + 8 + |b|] == Boxed(crc, b)
  {
  }

  lemma {:induction false} BoxedFrom(crc: Checksum, max: u32, bs: seq<bytes>, rs: seq<Records.Record>, file: bytes)
    requires Short(bs) && AllCarry(max, bs, rs) && AllBoxed(crc, bs) <= file
    ensures Wal.ReplayFrom(crc, max, file, 0, []) == Wal.ReplayFrom(crc, max, file, |AllBoxed(crc, bs)|, rs)
  {
    hide Boxed, Wal.FrameAt, Carries;
    if bs != [] {
      var n := |bs| - 1;
      BoxedFrom(crc, max, bs[..n], rs[..n], file);
      var at := |AllBoxed(crc, bs[..n])|;
      assert file[at..at + 8 + |bs[n]|] == Boxed(crc, bs[n]);
      assert BoxedAt(crc, max, file, at, bs[n], rs[n]);
      BoxedIsFound(crc, max, file, at, bs[n], rs[n]);
      assert rs[..n] + [rs[n]] == rs;
    }
  }

  /** Replay of a log, on any bytes: it finds exactly the records of the row of frames the file begins with,
      stops cleanly when an unfinished frame follows, and reports corruption when anything else does. */
  lemma LogReplaysIff(crc: Checksum, max: u32, file: bytes, rs: seq<Records.Record>, ok: bool)
    ensures Wal.ReplayFrom(crc, max, file, 0, []) == Wal.Replayed(rs, ok)
       <==> exists bs :: LogMakesUp(crc, max, file, rs, ok, bs)
  {
    hide Wal.ReplayFrom, LogMakesUp;
    if Wal.ReplayFrom(crc, max, file, 0, []) == Wal.Replayed(rs, ok) {
      assert AllBoxed(crc, []) == [];
      var bs := ReplayedFrom(crc, max, file, [], []);
      assert LogMakesUp(crc, max, file, rs, ok, bs);
    }
    forall bs | LogMakesUp(crc, max, file, rs, ok, bs)
      ensures Wal.ReplayFrom(crc, max, file, 0, []) == Wal.Replayed(rs, ok)
    {
      LogIsReplayed(crc, max, file, rs, ok, bs);
    }
  }

  lemma LogIsReplayed(crc: Checksum, max: u32, file: bytes, rs: seq<Records.Record>, ok: bool, bs: seq<bytes>)
    requires LogMakesUp(crc, max, file, rs, ok, bs)
    ensures Wal.ReplayFrom(crc, max, file, 0, []) == Wal.Replayed(rs, ok)
  {
    hide AllCarry, Short, AllBoxed, Unfinished, BoxedAt, Wal.FrameAt;
    BoxedFrom(crc, max, bs, rs, file);
    var at := |AllBoxed(crc, bs)|;
    StopIff(crc, max, file, at);
    if Wal.FrameAt(crc, max, file, at).Whole? { var b := FoundIsBoxed(crc, max, file, at); }
  }

  // ---- tables ----

  /** Entry i of the index of a table whose records end at `at`: its record lies between header and index
      and has a possible length, and its key is greater than the one before. */
  ghost predicate Addressed(max: u32, at: int, ix: seq<SSTables.IndexEntry>, i: nat)
    requires i < |ix|
  {
    && 10 <= ix[i].offset && ix[i].offset + 8 + ix[i].recordLen <= at
    && 17 <= ix[i].recordLen <= max
    && (i > 0 ==> Less(ix[i - 1].key, ix[i].key))
  }

  ghost predicate Addresses(max: u32, at: int, ix: seq<SSTables.IndexEntry>) {
    SSTables.ShortKeys(ix) && forall i :: 0 <= i < |ix| ==> Addressed(max, at, ix, i)
  }

  /** Header, records, index, anything, footer; the footer says where index and records are. */
  ghost predicate TableOf(crc: Checksum, max: u32, file: bytes, ix: seq<SSTables.IndexEntry>, data: bytes, gap: bytes) {
    var at := 10 + |data|;
    && Addresses(max, at, ix) && at < U64_SIZE && |SSTables.IndexBlock(ix)| < U64_SIZE && |ix| < U64_SIZE
    && file == SSTables.Header() + data + SSTables.IndexBlock(ix) + gap
               + SSTables.Footer(crc, at, |SSTables.IndexBlock(ix)|, |ix|)
  }

  /** One entry of the index loop, and the bytes it came from. */
  lemma EntryBytes(data: bytes, pos: nat)
    requires pos + 4 <= |data| && pos + 16 + FromLE32(data[pos..pos + 4]) <= |data|
    ensures var k := FromLE32(data[pos..pos + 4]);
            var ie := SSTables.IndexEntry(data[pos + 4..pos + 4 + k], FromLE64(data[pos + 4 + k..pos + 12 + k]),
                                          FromLE32(data[pos + 12 + k..pos + 16 + k]));
            data[pos..pos + 16 + k] == SSTables.EncodeIndexEntry(ie)
  {
    hide FromLE32, LE32, FromLE64, LE64;
    var k := FromLE32(data[pos..pos + 4]);
    LE32Inverse(data[pos..pos + 4]);
    LE64Inverse(data[pos + 4 + k..pos + 12 + k]);
    LE32Inverse(data[pos + 12 + k..pos + 16 + k]);
    assert data[pos..pos + 16 + k] == data[pos..pos + 4] + data[pos + 4..pos + 4 + k]
                                      + data[pos + 4 + k..pos + 12 + k] + data[pos + 12 + k..pos + 16 + k];
  }

  lemma {:induction false} DecodedIsBlock(data: bytes, pos: nat, seen: seq<SSTables.IndexEntry>)
    requires pos <= |data| && SSTables.ShortKeys(seen) && data[..pos] == SSTables.IndexBlock(seen)
    ensures var ix := SSTables.DecodeIndex(data, pos, seen);
            ix.Some? ==> SSTables.ShortKeys(ix.value) && SSTables.IndexBlock(ix.value) == data
    decreases |data| - pos
  {
    hide FromLE32, FromLE64, SSTables.EncodeIndexEntry;
    if pos == |data| {
      assert data[..pos] == data;
    } else if pos + 4 <= |data| && pos + 16 + FromLE32(data[pos..pos + 4]) <= |data| {
      var k := FromLE32(data[pos..pos + 4]);
      var ie := SSTables.IndexEntry(data[pos + 4..pos + 4 + k], FromLE64(data[pos + 4 + k..pos + 12 + k]),
                                    FromLE32(data[pos + 12 + k..pos + 16 + k]));
      EntryBytes(data, pos);
      assert (seen + [ie])[..|seen|] == seen;
      assert data[..pos + 16 + k] == data[..pos] + data[pos..pos + 16 + k];
      DecodedIsBlock(data, pos + 16 + k, seen + [ie]);
    }
  }

  /** The decoder of the index accepts exactly the blocks it is written as. */
  lemma DecodesIndexIff(data: bytes, ix: seq<SSTables.IndexEntry>)
    ensures SSTables.DecodeIndex(data, 0, []) == Some(ix) <==> SSTables.ShortKeys(ix) && SSTables.IndexBlock(ix) == data
  {
    assert SSTables.IndexBlock([]) == [] && data[..0] == [];
    DecodedIsBlock(data, 0, []);
    if SSTables.ShortKeys(ix) && SSTables.IndexBlock(ix) == data { SSTables.DecodeThrough(ix, data); }
  }

  /** The wrapping checks of load mean what they say. */
  lemma EntryIff(max: u32, at: u64, ix: seq<SSTables.IndexEntry>, i: nat)
    requires i < |ix|
    ensures SSTables.EntryOk(ix, i, at, max) <==> Addressed(max, at, ix, i)
  {
    hide Less;
    NoWrap(ix[i].offset, ix[i].recordLen, at);
  }

  lemma NoWrap(offset: u64, len: u32, at: u64)
    ensures offset < at && offset <= WrapAdd(offset, 8 + len) <= at <==> offset + 8 + len <= at
  {
  }

  lemma EntriesIff(max: u32, at: u64, ix: seq<SSTables.IndexEntry>)
    ensures (forall i :: 0 <= i < |ix| ==> SSTables.EntryOk(ix, i, at, max))
       <==> (forall i :: 0 <= i < |ix| ==> Addressed(max, at, ix, i))
  {
    forall i | 0 <= i < |ix| ensures SSTables.EntryOk(ix, i, at, max) <==> Addressed(max, at, ix, i) {
      EntryIff(max, at, ix, i);
    }
  }

  /** The first ten and the last thirty-six bytes are checked field by field. */
  lemma HeaderIff(h: bytes)
    requires |h| == 10
    ensures FromLE64(h[0..8]) == SSTables.MAGIC && FromLE16(h[8..10]) == SSTables.VERSION <==> h == SSTables.Header()
  {
    hide FromLE64, LE64, FromLE16, LE16;
    SSTables.HeaderParts();
    LE64Inverse(h[0..8]);
    LE16Inverse(h[8..10]);
    assert h == h[0..8] + h[8..10];
  }

  lemma FooterIff(crc: Checksum, f: bytes, at: u64, len: u64, count: u64)
    requires |f| == 36
    ensures (&& FromLE64(f[28..36]) == SSTables.MAGIC && FromLE32(f[24..28]) == crc(f[0..24])
             && FromLE64(f[0..8]) == at && FromLE64(f[8..16]) == len && FromLE64(f[16..24]) == count)
       <==> f == SSTables.Footer(crc, at, len, count)
  {
    hide FromLE64, LE64, FromLE32, LE32;
    SSTables.FooterParts(crc, at, len, count);
    LE64Inverse(f[0..8]);
    LE64Inverse(f[8..16]);
    LE64Inverse(f[16..24]);
    LE32Inverse(f[24..28]);
    LE64Inverse(f[28..36]);
    assert f == f[0..24] + f[24..28] + f[28..36] && f[0..24] == f[0..8] + f[8..16] + f[16..24];
  }

  lemma TableParts(crc: Checksum, max: u32, file: bytes, ix: seq<SSTables.IndexEntry>, data: bytes, gap: bytes)
    requires TableOf(crc, max, file, ix, data, gap)
    ensures SSTables.LoadResult(crc, max, file) == SSTables.Opened(SSTables.Reader(file, ix, max))
  {
    hide SSTables.Header, SSTables.Footer, SSTables.IndexBlock, SSTables.EntryOk, SSTables.DecodeIndex, FromLE16,
         FromLE32, FromLE64;
    var at, block := 10 + |data|, SSTables.IndexBlock(ix);
    var footer := SSTables.FooterOf(file);
    assert file[..10] == SSTables.Header() && file[0..8] == file[..10][0..8] && file[8..10] == file[..10][8..10];
    assert footer == SSTables.Footer(crc, at, |block|, |ix|);
    assert file[at..at + |block|] == block;
    HeaderIff(file[..10]);
    FooterIff(crc, footer, at, |block|, |ix|);
    DecodesIndexIff(block, ix);
    EntriesIff(max, at, ix);
  }

  lemma LoadedParts(crc: Checksum, max: u32, file: bytes, ix: seq<SSTables.IndexEntry>)
    returns (data: bytes, gap: bytes)
    requires SSTables.LoadResult(crc, max, file) == SSTables.Opened(SSTables.Reader(file, ix, max))
    ensures TableOf(crc, max, file, ix, data, gap)
  {
    hide SSTables.Header, SSTables.Footer, SSTables.IndexBlock, SSTables.EntryOk, SSTables.DecodeIndex, FromLE16,
         FromLE32, FromLE64;
    var footer := SSTables.FooterOf(file);
    var at: int, len: int := FromLE64(footer[0..8]), FromLE64(footer[8..16]);
    data, gap := file[10..at], file[at + len..|file| - 36];
    assert file[0..8] == file[..10][0..8] && file[8..10] == file[..10][8..10];
    HeaderIff(file[..10]);
    FooterIff(crc, footer, at, len, |ix|);
    DecodesIndexIff(file[at..at + len], ix);
    EntriesIff(max, at, ix);
    assert file == file[..10] + data + file[at..at + len] + gap + footer;
  }

  /** Load accepts a table file exactly when it is made up so, and then with the index the file carries. */
  lemma TableLoadsIff(crc: Checksum, max: u32, file: bytes, ix: seq<SSTables.IndexEntry>)
    ensures SSTables.LoadResult(crc, max, file) == SSTables.Opened(SSTables.Reader(file, ix, max))
       <==> exists data, gap :: TableOf(crc, max, file, ix, data, gap)
  {
    hide SSTables.LoadResult, TableOf;
    if SSTables.LoadResult(crc, max, file) == SSTables.Opened(SSTables.Reader(file, ix, max)) {
      var data, gap := LoadedParts(crc, max, file, ix);
    }
    forall data, gap | TableOf(crc, max, file, ix, data, gap)
      ensures SSTables.LoadResult(crc, max, file) == SSTables.Opened(SSTables.Reader(file, ix, max))
    {
      TableParts(crc, max, file, ix, data, gap);
    }
  }

  /** A record is read for an index entry exactly when a frame of that length is at its offset, and its body
      carries the record under the entry's key. */
  lemma RecordReadsIff(crc: Checksum, max: u32, file: bytes, ie: SSTables.IndexEntry, r: Records.Record)
    ensures SSTables.ReadRecord(crc, max, file, ie) == Some(r)
       <==> && r.key == ie.key && Records.KnownKind(r.kind)
            && exists b :: |b| == ie.recordLen && BoxedAt(crc, max, file, ie.offset, b, r)
  {
    hide Records.KnownKind;
    if SSTables.ReadRecord(crc, max, file, ie) == Some(r) {
      var b := ReadIsBoxed(crc, max, file, ie, r);
    }
    hide SSTables.ReadRecord, BoxedAt;
    forall b | r.key == ie.key && Records.KnownKind(r.kind) && |b| == ie.recordLen
               && BoxedAt(crc, max, file, ie.offset, b, r)
      ensures SSTables.ReadRecord(crc, max, file, ie) == Some(r)
    {
      BoxedIsRead(crc, max, file, ie, b, r);
    }
  }

  lemma ReadIsBoxed(crc: Checksum, max: u32, file: bytes, ie: SSTables.IndexEntry, r: Records.Record) returns (b: bytes)
    requires SSTables.ReadRecord(crc, max, file, ie) == Some(r)
    ensures |b| == ie.recordLen && BoxedAt(crc, max, file, ie.offset, b, r)
  {
    hide FromLE32, LE32, Records.DecodeBody, Records.Body;
    var at: int, len: int := ie.offset, FromLE32(file[ie.offset..ie.offset + 4]);
    b := file[at + 8..at + 8 + len];
    LE32Inverse(file[at..at + 4]);
    LE32Inverse(file[at + 4..at + 8]);
    assert file[at..at + 8 + len] == file[at..at + 4] + file[at + 4..at + 8] + b;
    Records.DecodesIff(b, r);
  }

  lemma BoxedIsRead(crc: Checksum, max: u32, file: bytes, ie: SSTables.IndexEntry, b: bytes, r: Records.Record)
    requires r.key == ie.key && Records.KnownKind(r.kind) && |b| == ie.recordLen
    requires BoxedAt(crc, max, file, ie.offset, b, r)
    ensures SSTables.ReadRecord(crc, max, file, ie) == Some(r)
  {
    hide FromLE32, LE32, Records.DecodeBody;
    var at, n := file[ie.offset..ie.offset + 8 + |b|], 8 + |b|;
    SubSlice(file, ie.offset, n, 0, 4);
    SubSlice(file, ie.offset, n, 4, 8);
    SubSlice(file, ie.offset, n, 8, n);
    LE32RoundTrip(|b|);
    LE32RoundTrip(crc(b));
    assert at[0..4] == LE32(|b|) && at[4..8] == LE32(crc(b)) && at[8..n] == b;
    Records.DecodesIff(b, r);
    assert Records.Body(r)[8] == r.kind && b[8] == b[..|Records.Body(r)|][8];
  }

  // ---- filters ----

  /** The parameters a stored filter may have: the word count check is uint64 arithmetic. */
  ghost predicate Storable(f: Bloom.Filter) {
    && f.bitCount != 0 && f.hashCount != 0 && Bloom.ValidRate(f.fprBits) && f.expected != 0
    && |f.words| == (f.bitCount + 63) % U64_SIZE / 64 <= 0x4000_0000
  }

  lemma {:induction false} WordsBack(data: bytes, n: nat)
    requires 54 + 8 * n <= |data|
    ensures Bloom.WordBytes(Bloom.DecodeWords(data, n)) == data[54..54 + 8 * n]
  {
    hide FromLE64, LE64;
    if n > 0 {
      WordsBack(data, n - 1);
      var words := Bloom.DecodeWords(data, n);
      assert words[..n - 1] == Bloom.DecodeWords(data, n - 1);
      LE64Inverse(data[54 + 8 * (n - 1)..54 + 8 * n]);
      assert data[54..54 + 8 * n] == data[54..54 + 8 * (n - 1)] + data[54 + 8 * (n - 1)..54 + 8 * n];
    }
  }

  lemma ParametersBack(data: bytes, f: Bloom.Filter)
    requires |data| >= 54 && FromLE64(data[0..8]) == Bloom.FILTER_MAGIC && FromLE16(data[8..10]) == Bloom.FILTER_VERSION
    requires f == Bloom.Parameters(data).(words := f.words) && FromLE64(data[46..54]) == |f.words|
    ensures data[..54] == Bloom.ParameterBytes(f)
  {
    hide FromLE64, LE64, FromLE32, LE32, FromLE16, LE16;
    LE64Inverse(data[0..8]);
    LE16Inverse(data[8..10]);
    LE64Inverse(data[10..18]);
    LE32Inverse(data[18..22]);
    LE64Inverse(data[22..30]);
    LE64Inverse(data[30..38]);
    LE64Inverse(data[38..46]);
    LE64Inverse(data[46..54]);
    assert data[..54] == data[0..8] + data[8..10] + data[10..18] + data[18..22] + data[22..30] + data[30..38]
                         + data[38..46] + data[46..54];
  }

  lemma AcceptedBack(crc: Checksum, data: bytes, f: Bloom.Filter)
    requires Bloom.Unmarshal(crc, data) == Some(f)
    ensures Storable(f) && data == Bloom.Marshal(crc, f)
  {
    hide FromLE64, LE64, FromLE32, LE32, FromLE16, LE16, Bloom.ParameterBytes, Bloom.WordBytes;
    var n: int := FromLE64(data[46..54]);
    ParametersBack(data, f);
    WordsBack(data, n);
    var end := 54 + 8 * n;
    assert data[..end] == data[..54] + data[54..end] == Bloom.Covered(f);
    LE32Inverse(data[end..end + 4]);
    LE64Inverse(data[|data| - 8..]);
    assert data == data[..end] + data[end..end + 4] + data[|data| - 8..];
  }

  lemma MarshalledIsAccepted(crc: Checksum, f: Bloom.Filter)
    requires Storable(f)
    ensures Bloom.Unmarshal(crc, Bloom.Marshal(crc, f)) == Some(f)
  {
    hide FromLE64, FromLE32, FromLE16, Bloom.Covered, Bloom.Marshal, Bloom.Parameters, Bloom.DecodeWords;
    var data := Bloom.Marshal(crc, f);
    Bloom.TrailerParts(crc, f);
    Bloom.SameParameters(f, data);
    Bloom.DecodeEncoded(f, data, |f.words|);
    assert f.words[..|f.words|] == f.words;
  }

  /** UnmarshalBinary accepts a blob exactly when MarshalBinary writes it for a filter with possible parameters. */
  lemma FilterLoadsIff(crc: Checksum, data: bytes, f: Bloom.Filter)
    ensures Bloom.Unmarshal(crc, data) == Some(f) <==> Storable(f) && data == Bloom.Marshal(crc, f)
  {
    hide Bloom.Unmarshal, Bloom.Marshal;
    if Bloom.Unmarshal(crc, data) == Some(f) { AcceptedBack(crc, data, f); }
    if Storable(f) && data == Bloom.Marshal(crc, f) { MarshalledIsAccepted(crc, f); }
  }
}
