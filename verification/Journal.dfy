/** The primary's durable replication journal (internal/replnet/durable_log.go): its byte
    format, replay with torn-tail truncation, and the append path with rollback and poisoning. */
module Journal {
  import opened Bytes

  datatype Operation = OpPut | OpDelete | OpOther(name: string)

  datatype Entry = Entry(seqno: u64, op: Operation, key: bytes, value: bytes, ts: u64)

  /** Offset of one record's length field. */
  datatype IndexEntry = IndexEntry(seqno: u64, offset: nat)

  datatype JournalError = EndOfFile | Corrupted

  // ---- record codec ----

  /** payloadLen and the buffer size are uint32 sums without an overflow check; this is where they are
      exact. Beyond it the encoder runs out of its own buffer and panics. */
  predicate Fits(key: bytes, value: bytes) {
    33 + |key| + |value| < U32_SIZE
  }

  /** keyLen and valLen are len() truncated to uint32, and only that many bytes are copied. */
  function Cut(b: bytes): (c: bytes)
    ensures c <= b && (c == b <==> |b| < U32_SIZE)
  {
    b[..|b| % U32_SIZE]
  }

  /** What the journal keeps of an entry. */
  function Kept(e: Entry): Entry {
    e.(key := Cut(e.key), value := Cut(e.value))
  }

  function OpByte(op: Operation): byte {
    if op == OpPut then 1 else 2
  }

  function Payload(e: Entry): (p: bytes)
    requires |e.key| < U32_SIZE && |e.value| < U32_SIZE
    ensures |p| == 25 + |e.key| + |e.value|
  {
    LE64(e.seqno) + [OpByte(e.op)] + LE32(|e.key|) + LE32(|e.value|) + LE64(e.ts) + e.key + e.value
  }

  function EncodeRecord(crc: Checksum, e: Entry): (r: bytes)
    requires Fits(e.key, e.value)
    ensures |r| == 33 + |e.key| + |e.value|
  {
    var p := Payload(e);
    LE32(4 + |p|) + LE32(crc(p)) + p
  }

  function DecodePayload(p: bytes): Option<Entry> {
    if |p| < 25 then None else
    var keyLen: int, valLen: int := FromLE32(p[9..13]), FromLE32(p[13..17]);
    if |p| < 25 + keyLen + valLen then None else
    if p[8] != 1 && p[8] != 2 then None else
    Some(Entry(FromLE64(p[0..8]), if p[8] == 1 then OpPut else OpDelete,
               p[25..25 + keyLen], p[25 + keyLen..25 + keyLen + valLen], FromLE64(p[17..25])))
  }

  /** The decoder accepts exactly the payloads of puts and deletes, with or without bytes behind them. */
  lemma DecodesIff(p: bytes, e: Entry)
    ensures DecodePayload(p) == Some(e)
       <==> !e.op.OpOther? && |e.key| < U32_SIZE && |e.value| < U32_SIZE && Payload(e) <= p
  {
    if DecodePayload(p) == Some(e) {
      PayloadParts(p, e);
    } else if !e.op.OpOther? && |e.key| < U32_SIZE && |e.value| < U32_SIZE && Payload(e) <= p {
      PayloadFound(p, e);
      assert false;
    }
  }

  lemma PayloadParts(p: bytes, e: Entry)
    requires DecodePayload(p) == Some(e)
    ensures !e.op.OpOther? && |e.key| < U32_SIZE && |e.value| < U32_SIZE && Payload(e) <= p
  {
    hide FromLE32, FromLE64, LE32, LE64;
    var k, n := |e.key|, 25 + |e.key| + |e.value|;
    LE64Inverse(p[0..8]);
    LE32Inverse(p[9..13]);
    LE32Inverse(p[13..17]);
    LE64Inverse(p[17..25]);
    assert p[8..9] == [OpByte(e.op)];
    assert p[..n] == p[0..8] + p[8..9] + p[9..13] + p[13..17] + p[17..25] + p[25..25 + k] + p[25 + k..n];
  }

  lemma PayloadFound(p: bytes, e: Entry)
    requires !e.op.OpOther? && |e.key| < U32_SIZE && |e.value| < U32_SIZE && Payload(e) <= p
    ensures DecodePayload(p) == Some(e)
  {
    hide FromLE32, FromLE64, LE32, LE64;
    var q, k := Payload(e), |e.key|;
    var n := |q|;
    assert p[..n] == q;
    assert p[0..8] == LE64(e.seqno) && p[8] == OpByte(e.op) && p[9..13] == LE32(k) && p[13..17] == LE32(|e.value|);
    assert p[17..25] == LE64(e.ts) && p[25..25 + k] == e.key && p[25 + k..n] == e.value;
    LE64RoundTrip(e.seqno);
    LE64RoundTrip(e.ts);
    LE32RoundTrip(k);
    LE32RoundTrip(|e.value|);
  }

  lemma PayloadRoundTrip(e: Entry)
    requires Fits(e.key, e.value) && !e.op.OpOther?
    ensures DecodePayload(Payload(e)) == Some(e)
    ensures FromLE64(Payload(e)[0..8]) == e.seqno
  {
    var p := Payload(e);
    var k := |e.key|;
    assert p[0..8] == LE64(e.seqno);
    assert p[8] == OpByte(e.op);
    assert p[9..13] == LE32(k);
    assert p[13..17] == LE32(|e.value|);
    assert p[17..25] == LE64(e.ts);
    assert p[25..25 + k] == e.key;
    assert p[25 + k..25 + k + |e.value|] == e.value;
    LE64RoundTrip(e.seqno);
    LE64RoundTrip(e.ts);
    LE32RoundTrip(k);
    LE32RoundTrip(|e.value|);
  }

  // ---- replay ----

  /** What reading at one record boundary finds. */
  datatype Frame = CleanEnd | PartialTail | BadFrame(err: JournalError) | Record(seqno: u64, next: nat)

  function ParseAt(crc: Checksum, file: bytes, offset: nat): (f: Frame)
    requires offset <= |file|
    ensures f.Record? ==> offset < f.next <= |file|
  {
    var rest := |file| - offset;
    if rest == 0 then CleanEnd
    else if rest < 4 then PartialTail
    else
      var recLen: int := FromLE32(file[offset..offset + 4]);
      // io.ReadFull answers io.EOF, not io.ErrUnexpectedEOF, when it can read no byte at all.
      if recLen > 0 && rest == 4 then BadFrame(EndOfFile)
      else if rest - 4 < recLen then PartialTail
      else if recLen < 4 then BadFrame(Corrupted)
      else
        var body := file[offset + 4..offset + 4 + recLen];
        if FromLE32(body[..4]) != crc(body[4..]) || recLen - 4 < 25 then BadFrame(Corrupted)
        else Record(FromLE64(body[4..][0..8]), offset + 4 + recLen)
  }

  /** Sequence checks of replay: first is base+1 (uint64), then no gap, never 0 or MaxUint64. */
  predicate SeqAccepted(base: u64, index: seq<IndexEntry>, s: u64) {
    && s != 0
    && (if index == [] then s == WrapAdd(base, 1) else s == index[|index| - 1].seqno + 1)
    && s != MAX_U64
  }

  datatype ReplayOutcome = Opened(index: seq<IndexEntry>, size: nat) | OpenFailed(err: JournalError)

  /** `size` is the file length after a partial tail has been truncated. */
  function ReplayFrom(crc: Checksum, base: u64, file: bytes, offset: nat, index: seq<IndexEntry>): ReplayOutcome
    requires offset <= |file|
    decreases |file| - offset
  {
    match ParseAt(crc, file, offset)
    case CleanEnd => Opened(index, offset)
    case PartialTail => Opened(index, offset)
    case BadFrame(err) => OpenFailed(err)
    case Record(s, next) =>
      if SeqAccepted(base, index, s)
      then ReplayFrom(crc, base, file, next, index + [IndexEntry(s, offset)])
      else OpenFailed(Corrupted)
  }

  /** replay(): the loop over the file, for any bytes whatever. */
  method Replay(crc: Checksum, base: u64, file: bytes) returns (outcome: ReplayOutcome)
    ensures outcome == ReplayFrom(crc, base, file, 0, [])
    ensures outcome.Opened? ==> outcome.size <= |file|
  {
    var offset, index := 0, [];
    while true
      invariant offset <= |file|
      invariant ReplayFrom(crc, base, file, 0, []) == ReplayFrom(crc, base, file, offset, index)
      decreases |file| - offset
    {
      var frame := ParseAt(crc, file, offset);
      match frame {
        case CleanEnd => return Opened(index, offset);
        case PartialTail => return Opened(index, offset);
        case BadFrame(err) => return OpenFailed(err);
        case Record(s, next) =>
          if !SeqAccepted(base, index, s) { return OpenFailed(Corrupted); }
          index := index + [IndexEntry(s, offset)];
          offset := next;
      }
    }
  }

  // ---- the files this code writes ----

  /** es is a journal content: contiguous from base+1, below MaxUint64, every record encodable. */
  ghost predicate Contiguous(base: u64, es: seq<Entry>) {
    && (es != [] ==> base + |es| < MAX_U64)
    && forall i :: 0 <= i < |es| ==>
        es[i].seqno == base + 1 + i && Fits(es[i].key, es[i].value) && !es[i].op.OpOther?
  }

  ghost predicate Encodable(es: seq<Entry>) {
    forall i :: 0 <= i < |es| ==> Fits(es[i].key, es[i].value)
  }

  ghost function EncodeAll(crc: Checksum, es: seq<Entry>): bytes
    requires Encodable(es)
  {
    if es == [] then []
    else EncodeAll(crc, es[..|es| - 1]) + EncodeRecord(crc, es[|es| - 1])
  }

  ghost function IndexOf(crc: Checksum, es: seq<Entry>): (ix: seq<IndexEntry>)
    requires Encodable(es)
    ensures |ix| == |es|
  {
    if es == [] then []
    else
      var init := es[..|es| - 1];
      IndexOf(crc, init) + [IndexEntry(es[|es| - 1].seqno, |EncodeAll(crc, init)|)]
  }

  lemma {:induction false} IndexAt(crc: Checksum, es: seq<Entry>, i: nat)
    requires Encodable(es) && i < |es|
    ensures IndexOf(crc, es)[i] == IndexEntry(es[i].seqno, |EncodeAll(crc, es[..i])|)
    decreases |es|
  {
    hide EncodeRecord, Fits, EncodeAll;
    var init := es[..|es| - 1];
    if i < |init| {
      IndexAt(crc, init, i);
      assert init[..i] == es[..i];
    }
  }

  lemma Extend(crc: Checksum, base: u64, es: seq<Entry>, e: Entry)
    requires Contiguous(base, es) && e.seqno == base + |es| + 1 < MAX_U64
    requires Fits(e.key, e.value) && !e.op.OpOther?
    ensures Contiguous(base, es + [e])
    ensures EncodeAll(crc, es + [e]) == EncodeAll(crc, es) + EncodeRecord(crc, e)
    ensures IndexOf(crc, es + [e]) == IndexOf(crc, es) + [IndexEntry(e.seqno, |EncodeAll(crc, es)|)]
  {
    assert (es + [e])[..|es|] == es;
  }

  lemma RecordParts(crc: Checksum, e: Entry)
    requires Fits(e.key, e.value)
    ensures var r, p := EncodeRecord(crc, e), Payload(e);
            r[..4] == LE32(4 + |p|) && r[4..8] == LE32(crc(p)) && r[8..] == p
  {
  }

  /** A complete record is found again wherever it lies, and decodes to its entry. */
  lemma ParseWhole(crc: Checksum, file: bytes, offset: nat, e: Entry)
    requires Fits(e.key, e.value) && !e.op.OpOther?
    requires offset + |EncodeRecord(crc, e)| <= |file|
    requires file[offset..offset + |EncodeRecord(crc, e)|] == EncodeRecord(crc, e)
    ensures ParseAt(crc, file, offset) == Record(e.seqno, offset + |EncodeRecord(crc, e)|)
    ensures ReadRecordAt(crc, file, offset) == Some(e)
  {
    hide EncodeRecord, Payload, DecodePayload, FromLE32, FromLE64, LE32;
    var r, p := EncodeRecord(crc, e), Payload(e);
    RecordParts(crc, e);
    var at := file[offset..offset + |r|];
    assert file[offset..offset + 4] == at[..4];
    LE32RoundTrip(4 + |p|);
    var body := file[offset + 4..offset + |r|];
    assert body == at[4..];
    assert body[..4] == at[4..8] && body[4..] == at[8..];
    LE32RoundTrip(crc(p));
    PayloadRoundTrip(e);
  }

  /** A strict, non-empty prefix of a record is a partial tail, except when it is the length field alone. */
  lemma ParseTorn(crc: Checksum, file: bytes, offset: nat, e: Entry, n: nat)
    requires Fits(e.key, e.value) && 0 < n < |EncodeRecord(crc, e)|
    requires |file| == offset + n && file[offset..] == EncodeRecord(crc, e)[..n]
    ensures ParseAt(crc, file, offset) == if n == 4 then BadFrame(EndOfFile) else PartialTail
  {
    hide EncodeRecord, Payload, FromLE32, LE32;
    var r := EncodeRecord(crc, e);
    RecordParts(crc, e);
    if n >= 4 {
      assert file[offset..offset + 4] == file[offset..][..4] == r[..n][..4] == r[..4];
      LE32RoundTrip(4 + |Payload(e)|);
    }
  }

  lemma ReplayOne(crc: Checksum, base: u64, file: bytes, offset: nat, index: seq<IndexEntry>, e: Entry)
    requires Fits(e.key, e.value) && !e.op.OpOther? && SeqAccepted(base, index, e.seqno)
    requires offset + |EncodeRecord(crc, e)| <= |file|
    requires file[offset..offset + |EncodeRecord(crc, e)|] == EncodeRecord(crc, e)
    ensures ReplayFrom(crc, base, file, offset, index)
         == ReplayFrom(crc, base, file, offset + |EncodeRecord(crc, e)|, index + [IndexEntry(e.seqno, offset)])
  {
    hide EncodeRecord, ParseAt;
    ParseWhole(crc, file, offset, e);
  }

  lemma NextAccepted(crc: Checksum, base: u64, es: seq<Entry>)
    requires Contiguous(base, es) && es != []
    ensures SeqAccepted(base, IndexOf(crc, es[..|es| - 1]), es[|es| - 1].seqno)
  {
    hide EncodeAll, IndexOf;
    if |es| > 1 { IndexAt(crc, es[..|es| - 1], |es| - 2); }
  }

  /** Replay walks through every record this code wrote, whatever follows them. */
  lemma {:induction false} ReplayThrough(crc: Checksum, base: u64, es: seq<Entry>, file: bytes)
    requires Contiguous(base, es) && EncodeAll(crc, es) <= file
    ensures ReplayFrom(crc, base, file, 0, [])
         == ReplayFrom(crc, base, file, |EncodeAll(crc, es)|, IndexOf(crc, es))
  {
    hide EncodeRecord, ReplayFrom, SeqAccepted, Fits;
    if es != [] {
      var init, e := es[..|es| - 1], es[|es| - 1];
      ReplayThrough(crc, base, init, file);
      var at := |EncodeAll(crc, init)|;
      assert file[at..at + |EncodeRecord(crc, e)|] == EncodeRecord(crc, e);
      NextAccepted(crc, base, es);
      ReplayOne(crc, base, file, at, IndexOf(crc, init), e);
    }
  }

  /** Reopening a journal file: complete files rebuild their index, torn ones are cut back. */
  lemma ReopenComplete(crc: Checksum, base: u64, es: seq<Entry>)
    requires Contiguous(base, es)
    ensures ReplayFrom(crc, base, EncodeAll(crc, es), 0, []) == Opened(IndexOf(crc, es), |EncodeAll(crc, es)|)
  {
    ReplayThrough(crc, base, es, EncodeAll(crc, es));
  }

  /** After n bytes of one more record reached the disk: nothing of it, all of it, or, for
      exactly the four length bytes, a journal that cannot be opened. */
  lemma ReopenAfterTear(crc: Checksum, base: u64, es: seq<Entry>, e: Entry, n: nat)
    requires Contiguous(base, es) && Contiguous(base, es + [e])
    requires Fits(e.key, e.value) && n <= |EncodeRecord(crc, e)|
    ensures var file := EncodeAll(crc, es) + EncodeRecord(crc, e)[..n];
            var outcome := ReplayFrom(crc, base, file, 0, []);
            && (outcome.Opened? <==> n != 4)
            && (n == 4 ==> outcome == OpenFailed(EndOfFile))
            && (n == |EncodeRecord(crc, e)| ==> outcome == Opened(IndexOf(crc, es + [e]), |file|))
            && (n != 4 && n < |EncodeRecord(crc, e)| ==>
                  outcome == Opened(IndexOf(crc, es), |EncodeAll(crc, es)|))
  {
    hide ParseAt, EncodeRecord;
    var r := EncodeRecord(crc, e);
    var file := EncodeAll(crc, es) + r[..n];
    assert (es + [e])[..|es|] == es && (es + [e])[|es|] == e;
    if n == |r| {
      assert file == EncodeAll(crc, es + [e]);
      ReopenComplete(crc, base, es + [e]);
    } else if n == 0 {
      assert file == EncodeAll(crc, es);
      ReopenComplete(crc, base, es);
    } else {
      ReplayThrough(crc, base, es, file);
      assert file[|EncodeAll(crc, es)|..] == r[..n];
      ParseTorn(crc, file, |EncodeAll(crc, es)|, e, n);
    }
  }

  // ---- reading ----

  const DEFAULT_ENTRIES_LIMIT := 1000

  function EffectiveLimit(limit: int): (n: nat)
    ensures n > 0
  {
    if limit <= 0 then DEFAULT_ENTRIES_LIMIT else limit
  }

  function ReadRecordAt(crc: Checksum, file: bytes, offset: nat): Option<Entry> {
    if |file| < offset + 4 then None else
    var recLen: int := FromLE32(file[offset..offset + 4]);
    if |file| < offset + 4 + recLen || recLen < 4 then None else
    var body := file[offset + 4..offset + 4 + recLen];
    if FromLE32(body[..4]) != crc(body[4..]) then None else
    DecodePayload(body[4..])
  }

  /** Entries newer than `after`, in order: the meaning of EntriesAfter without its limit. */
  ghost function Newer(es: seq<Entry>, after: u64): (r: seq<Entry>)
    ensures |r| <= |es|
  {
    if es == [] then []
    else
      var e := es[|es| - 1];
      Newer(es[..|es| - 1], after) + if e.seqno > after then [e] else []
  }

  ghost function Batch(es: seq<Entry>, after: u64, limit: int): seq<Entry> {
    var all := Newer(es, after);
    if |all| <= EffectiveLimit(limit) then all else all[..EffectiveLimit(limit)]
  }

  /** A positive limit is the size of a batch, and 1000 when none is given, unless there is less to serve. */
  lemma BatchIsLimited(es: seq<Entry>, after: u64, limit: int)
    ensures Batch(es, after, limit) <= Newer(es, after)
    ensures limit > 0 ==> |Batch(es, after, limit)| == Min(limit, |Newer(es, after)|)
    ensures limit <= 0 ==> |Batch(es, after, limit)| == Min(1000, |Newer(es, after)|)
  {
    hide Newer;
  }

  /** What is served is newer, and everything newer is there to be served. */
  lemma {:induction false} NewerAre(es: seq<Entry>, after: u64, e: Entry)
    ensures e in Newer(es, after) <==> e in es && e.seqno > after
  {
    if es != [] {
      NewerAre(es[..|es| - 1], after, e);
      assert es == es[..|es| - 1] + [es[|es| - 1]];
    }
  }

  lemma {:induction false} NewerPrefix(es: seq<Entry>, n: nat, after: u64)
    requires n <= |es|
    ensures Newer(es[..n], after) <= Newer(es, after)
    decreases |es|
  {
    if n < |es| {
      NewerPrefix(es[..|es| - 1], n, after);
      assert es[..|es| - 1][..n] == es[..n];
    } else {
      assert es[..n] == es;
    }
  }

  lemma {:induction false} NothingNewer(es: seq<Entry>, after: u64)
    requires forall i :: 0 <= i < |es| ==> es[i].seqno <= after
    ensures Newer(es, after) == []
  {
    if es != [] { NothingNewer(es[..|es| - 1], after); }
  }

  lemma SliceEnd(es: seq<Entry>, lo: nat)
    requires lo < |es|
    ensures es[lo..] == es[..|es| - 1][lo..] + [es[|es| - 1]]
  {
  }

  /** When the numbers cross `after` at lo, the newer entries are one suffix. */
  lemma {:induction false} NewerSuffix(es: seq<Entry>, after: u64, lo: nat)
    requires lo <= |es|
    requires forall i :: 0 <= i < lo ==> es[i].seqno <= after
    requires forall i :: lo <= i < |es| ==> after < es[i].seqno
    ensures Newer(es, after) == es[lo..]
    decreases |es|
  {
    if lo == |es| {
      NothingNewer(es, after);
    } else {
      var n := |es| - 1;
      NewerSuffix(es[..n], after, lo);
      assert Newer(es, after) == Newer(es[..n], after) + [es[n]];
      SliceEnd(es, lo);
    }
  }

  function Min(a: nat, b: nat): nat { if a <= b then a else b }

  /** So a batch is a slice starting at the first newer entry. */
  lemma BatchSlice(es: seq<Entry>, after: u64, limit: int, lo: nat)
    requires lo <= |es|
    requires forall i :: 0 <= i < lo ==> es[i].seqno <= after
    requires forall i :: lo <= i < |es| ==> after < es[i].seqno
    ensures Batch(es, after, limit) == es[lo..Min(lo + EffectiveLimit(limit), |es|)]
  {
    hide Newer;
    NewerSuffix(es, after, lo);
    var n := Min(EffectiveLimit(limit), |es| - lo);
    assert es[lo..][..n] == es[lo..lo + n];
  }

  // ---- the log object ----

  /** What the operating system answers during one Append. */
  datatype AppendIO = AppendIO(seek: bool, written: nat, writeError: bool, sync: bool,
                               truncate: bool, seekBack: bool, syncBack: bool)

  datatype Refusal = LogClosed | LogPoisoned | InvalidEntry | SequenceOverflow | EncoderPanics | SeekFailed

  datatype AppendResult = Appended(entry: Entry) | Refused(why: Refusal) | RolledBack | RollbackFailed

  /** The first check that fails is the one that is reported. */
  predicate FirstReason(why: Refusal, invalid: bool, closed: bool, poisoned: bool, full: bool, tooLong: bool) {
    && (why == InvalidEntry <==> invalid)
    && (why == LogClosed <==> !invalid && closed)
    && (why == LogPoisoned <==> !invalid && !closed && poisoned)
    && (why == SequenceOverflow <==> !invalid && !closed && !poisoned && full)
    && (why == EncoderPanics <==> !invalid && !closed && !poisoned && !full && tooLong)
  }

  class DurableLog {
    const crc: Checksum
    const baseSeq: u64
    var file: bytes
    var pos: nat
    var index: seq<IndexEntry>
    var nextSeq: u64
    var closed: bool
    var poisoned: bool

    /** The in-memory index describes es, and the file starts with its encoding. */
    ghost predicate Committed(es: seq<Entry>)
      reads this
    {
      && Contiguous(baseSeq, es)
      && index == IndexOf(crc, es)
      && nextSeq == (if es == [] && baseSeq == MAX_U64 then MAX_U64 else baseSeq + |es| + 1)
      && EncodeAll(crc, es) <= file
    }

    /** The log's content is es; while it is not poisoned the file is exactly the encoding of es. */
    ghost predicate Holds(es: seq<Entry>)
      reads this
    {
      Committed(es) && (!poisoned ==> file == EncodeAll(crc, es) && pos == |file|)
    }

    /** The object OpenDurableLog returns once replay has succeeded and any partial tail is cut off. */
    constructor (crc: Checksum, base: u64, kept: bytes, replayed: seq<IndexEntry>)
      ensures this.crc == crc && baseSeq == base && !closed && !poisoned
      ensures file == kept && pos == |kept| && index == replayed
      ensures nextSeq == if index != [] then WrapAdd(index[|index| - 1].seqno, 1)
                         else if base == MAX_U64 then MAX_U64 else base + 1
    {
      this.crc, baseSeq := crc, base;
      file, pos, index := kept, |kept|, replayed;
      nextSeq := if replayed != [] then WrapAdd(replayed[|replayed| - 1].seqno, 1)
                 else if base == MAX_U64 then MAX_U64
                 else base + 1;
      closed, poisoned := false, false;
    }

    /** rollback(): cut the file back; any failing step poisons the log. */
    method Rollback(offset: nat, io: AppendIO, ghost es: seq<Entry>)
      requires Committed(es) && !poisoned && offset == |EncodeAll(crc, es)|
      modifies `file, `pos, `poisoned
      ensures Holds(es)
      ensures poisoned <==> !(io.truncate && io.seekBack && io.syncBack)
      ensures file == if io.truncate then EncodeAll(crc, es) else old(file)
    {
      if !io.truncate { poisoned := true; return; }
      file := file[..offset];
      if !io.seekBack { poisoned := true; return; }
      pos := offset;
      if !io.syncBack { poisoned := true; }
    }

    /** Append is all-or-nothing: committed, refused or rolled back with nothing changed, or the
        log is poisoned and keeps at most the bytes that landed. What it commits is the entry it
        returns if and only if key and value are shorter than 4 GiB each. */
    method Append(op: Operation, key: bytes, value: bytes, ts: u64, io: AppendIO, ghost es: seq<Entry>)
      returns (r: AppendResult)
      requires Holds(es)
      modifies this
      ensures closed == old(closed)
      ensures match r
              case Appended(e) =>
                && !old(poisoned) && !poisoned
                && e == Entry(old(nextSeq), op, key, value, ts)
                && Holds(es + [Kept(e)])
                && (Kept(e) == e <==> |key| < U32_SIZE && |value| < U32_SIZE)
              case Refused(why) =>
                && file == old(file) && pos == old(pos) && poisoned == old(poisoned)
                && index == old(index) && nextSeq == old(nextSeq)
              case RolledBack =>
                && !poisoned && file == old(file) && pos == old(pos)
                && index == old(index) && nextSeq == old(nextSeq)
              case RollbackFailed =>
                && poisoned && index == old(index) && nextSeq == old(nextSeq) && Holds(es)
                && Fits(Cut(key), Cut(value))
                && var rec := EncodeRecord(crc, Kept(Entry(old(nextSeq), op, key, value, ts)));
                && file == old(file) + rec[..if io.truncate then 0 else Min(io.written, |rec|)]
      ensures old(closed) || old(poisoned) ==> r.Refused?
      ensures !r.Refused? ==> !op.OpOther? && key != [] && old(nextSeq) < MAX_U64
      ensures r.Refused? <==> op.OpOther? || key == [] || old(closed) || old(poisoned)
                              || old(nextSeq) == MAX_U64 || !Fits(Cut(key), Cut(value)) || !io.seek
      ensures !r.Refused? ==>
                (r.Appended? <==> io.written >= 33 + |Cut(key)| + |Cut(value)| && !io.writeError && io.sync)
      ensures !r.Refused? && !r.Appended? ==>
                (r.RolledBack? <==> io.truncate && io.seekBack && io.syncBack)
      ensures r.Refused? ==> FirstReason(r.why, op.OpOther? || key == [], old(closed), old(poisoned),
                                         old(nextSeq) == MAX_U64, !Fits(Cut(key), Cut(value)))
    {
      hide EncodeAll, IndexOf, EncodeRecord, Contiguous, Cut;
      if op.OpOther? || key == [] { return Refused(InvalidEntry); }
      if closed { return Refused(LogClosed); }
      if poisoned { return Refused(LogPoisoned); }
      if nextSeq == MAX_U64 { return Refused(SequenceOverflow); }
      var e := Entry(nextSeq, op, key, value, ts);
      if !Fits(Cut(key), Cut(value)) { return Refused(EncoderPanics); }
      var rec := EncodeRecord(crc, Kept(e));
      if !io.seek { return Refused(SeekFailed); }
      var offset := pos;
      var n := Min(io.written, |rec|);
      file := file + rec[..n];
      pos := |file|;
      if io.writeError || n != |rec| || !io.sync {
        Rollback(offset, io, es);
        if poisoned {
          assert io.truncate ==> file == old(file) + rec[..0];
          return RollbackFailed;
        }
        return RolledBack;
      }
      index := index + [IndexEntry(nextSeq, offset)];
      nextSeq := nextSeq + 1;
      Extend(crc, baseSeq, es, Kept(e));
      return Appended(e);
    }

    /** The binary search of the index for the first entry newer than `after`. */
    method FirstNewer(after: u64, ghost es: seq<Entry>) returns (lo: nat)
      requires Holds(es)
      ensures lo <= |es|
      ensures forall i :: 0 <= i < lo ==> es[i].seqno <= after
      ensures forall i :: lo <= i < |es| ==> after < es[i].seqno
    {
      hide EncodeAll, IndexOf;
      var hi;
      lo, hi := 0, |index|;
      while lo < hi
        invariant 0 <= lo <= hi <= |es|
        invariant forall i :: 0 <= i < lo ==> es[i].seqno <= after
        invariant forall i :: hi <= i < |es| ==> after < es[i].seqno
      {
        var mid := (lo + hi) / 2;
        IndexAt(crc, es, mid);
        if index[mid].seqno <= after { lo := mid + 1; } else { hi := mid; }
      }
    }

    /** One record read per result: the newer entries in order, up to the limit. */
    method EntriesAfter(after: u64, limit: int, ghost es: seq<Entry>) returns (r: Option<seq<Entry>>)
      requires Holds(es)
      ensures r == if closed then None else Some(Batch(es, after, limit))
    {
      hide EncodeAll, IndexOf, ReadRecordAt, Batch;
      if closed { return None; }
      var max := EffectiveLimit(limit);
      var lo := FirstNewer(after, es);
      BatchSlice(es, after, limit, lo);
      var result: seq<Entry> := [];
      var i := lo;
      while i < |index| && |result| < max
        invariant lo <= i <= |es| && i - lo == |result| <= max
        invariant result == es[lo..i]
      {
        IndexAt(crc, es, i);
        RecordInPlace(crc, es, i, file);
        var entry := ReadRecordAt(crc, file, index[i].offset);
        result := result + [entry.value];
        i := i + 1;
      }
      return Some(result);
    }

    method FirstAvailableSeq(ghost es: seq<Entry>) returns (s: u64)
      requires Holds(es)
      ensures s == if es == [] then 0 else baseSeq + 1
    {
      hide EncodeAll, IndexOf;
      if es != [] { IndexAt(crc, es, 0); }
      s := if |index| == 0 then 0 else index[0].seqno;
    }

    method LatestSeq(ghost es: seq<Entry>) returns (s: u64)
      requires Holds(es)
      ensures s == baseSeq + |es|
    {
      hide EncodeAll, IndexOf;
      if es != [] { IndexAt(crc, es, |es| - 1); }
      s := if |index| > 0 then index[|index| - 1].seqno else baseSeq;
    }
  }

  /** Any bytes are either refused or opened as ReplayFrom says; what this code wrote, even torn
      inside one more record, opens as a log holding exactly the committed entries. */
  method OpenDurableLog(crc: Checksum, base: u64, onDisk: bytes, ghost es: seq<Entry>)
    returns (log: DurableLog?)
    ensures log != null <==> ReplayFrom(crc, base, onDisk, 0, []).Opened?
    ensures log != null ==> fresh(log) && !log.poisoned && !log.closed && log.crc == crc && log.baseSeq == base
    ensures (log != null && Contiguous(base, es) && EncodeAll(crc, es) <= onDisk
             && ReplayFrom(crc, base, onDisk, 0, []) == Opened(IndexOf(crc, es), |EncodeAll(crc, es)|))
            ==> log.Holds(es)
  {
    hide ReplayFrom, EncodeAll, IndexOf;
    var outcome := Replay(crc, base, onDisk);
    if outcome.OpenFailed? { return null; }
    log := new DurableLog(crc, base, onDisk[..outcome.size], outcome.index);
    if Contiguous(base, es) && es != [] { IndexAt(crc, es, |es| - 1); }
  }

  /** The i-th record lies at its indexed offset in any file that starts with the encoding. */
  lemma {:induction false} RecordInPlace(crc: Checksum, es: seq<Entry>, i: nat, file: bytes)
    requires Encodable(es) && i < |es| && !es[i].op.OpOther? && EncodeAll(crc, es) <= file
    ensures ReadRecordAt(crc, file, |EncodeAll(crc, es[..i])|) == Some(es[i])
    decreases |es|
  {
    hide ReadRecordAt, EncodeRecord;
    var init, last := es[..|es| - 1], es[|es| - 1];
    if i < |init| {
      RecordInPlace(crc, init, i, file);
      assert init[..i] == es[..i];
    } else {
      var at := |EncodeAll(crc, init)|;
      assert es[..i] == init;
      assert file[at..at + |EncodeRecord(crc, last)|] == EncodeRecord(crc, last);
      ParseWhole(crc, file, at, last);
    }
  }

  /** A value of exactly 4 GiB is acknowledged and read back empty. */
  lemma LongValueIsLost(crc: Checksum, key: bytes, value: bytes)
    requires 0 < |key| && Fits(key, []) && |value| == U32_SIZE
    ensures var e := Entry(1, OpPut, key, value, 0);
            && Kept(e) == e.(value := []) != e
            && ReadRecordAt(crc, EncodeRecord(crc, Kept(e)), 0) == Some(e.(value := []))
  {
    hide EncodeRecord, ReadRecordAt;
    var e := Kept(Entry(1, OpPut, key, value, 0));
    assert e.value == [] && e.key == key;
    ParseWhole(crc, EncodeRecord(crc, e), 0, e);
  }
}
