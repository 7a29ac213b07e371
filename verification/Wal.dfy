/** The engine's write-ahead log (internal/wal/wal.go): an append-only file of frames whose replay
    stops cleanly at a torn tail and whose counter, not the caller, numbers the records. */
module Wal {
  import opened Bytes
  import opened Records

  // ---- replay ----

  /** What Replay finds at one frame boundary. */
  datatype Found = Stop | Corrupt | Whole(record: Record, next: nat)

  function FrameAt(crc: Checksum, max: u32, file: bytes, pos: nat): (f: Found)
    requires pos <= |file|
    ensures f.Whole? ==> pos < f.next <= |file|
  {
    if |file| - pos < FRAME_HEADER then Stop
    else
      var bodyLen: int := FromLE32(file[pos..pos + 4]);
      if bodyLen > max || bodyLen < BODY_FIXED then Corrupt
      else if |file| - pos - FRAME_HEADER < bodyLen then Stop
      else
        var body := file[pos + 8..pos + 8 + bodyLen];
        if crc(body) != FromLE32(file[pos + 4..pos + 8]) then Corrupt
        else match DecodeBody(body)
          case None => Corrupt
          case Some(r) => Whole(r, pos + 8 + bodyLen)
  }

  datatype Replayed = Replayed(records: seq<Record>, ok: bool)

  /** Replay from pos on, when the records seen so far are `seen`. */
  function ReplayFrom(crc: Checksum, max: u32, file: bytes, pos: nat, seen: seq<Record>): Replayed
    requires pos <= |file|
    decreases |file| - pos
  {
    match FrameAt(crc, max, file, pos)
    case Stop => Replayed(seen, true)
    case Corrupt => Replayed(seen, false)
    case Whole(r, next) => ReplayFrom(crc, max, file, next, seen + [r])
  }

  function MaxSeq(rs: seq<Record>): (m: u64)
    ensures forall i :: 0 <= i < |rs| ==> rs[i].seqno <= m
    ensures m == 0 || exists i :: 0 <= i < |rs| && rs[i].seqno == m
  {
    if rs == [] then 0
    else
      var m := MaxSeq(rs[..|rs| - 1]);
      if rs[|rs| - 1].seqno > m then rs[|rs| - 1].seqno else m
  }

  /** A whole frame is found again wherever it lies. */
  lemma FindWhole(crc: Checksum, max: u32, file: bytes, pos: nat, r: Record)
    requires Storable(max, r) && pos + |Frame(crc, r)| <= |file|
    requires file[pos..pos + |Frame(crc, r)|] == Frame(crc, r)
    ensures FrameAt(crc, max, file, pos) == Whole(r, pos + |Frame(crc, r)|)
  {
    hide Frame, Body, DecodeBody, FromLE32, LE32;
    var f := Frame(crc, r);
    FrameParts(crc, r);
    var at := file[pos..pos + |f|];
    SubSlice(file, pos, |f|, 0, 4);
    SubSlice(file, pos, |f|, 4, 8);
    SubSlice(file, pos, |f|, 8, |f|);
    BodyRoundTrip(r);
  }

  /** Every strict prefix of a frame is a clean stop, whatever its length. */
  lemma FindTorn(crc: Checksum, max: u32, file: bytes, pos: nat, r: Record, n: nat)
    requires Storable(max, r) && n < |Frame(crc, r)|
    requires |file| == pos + n && file[pos..] == Frame(crc, r)[..n]
    ensures FrameAt(crc, max, file, pos) == Stop
  {
    hide Frame, Body, DecodeBody, FromLE32, LE32;
    FrameParts(crc, r);
    if n >= 8 {
      assert file[pos..pos + 4] == file[pos..][..4] == Frame(crc, r)[..n][..4] == Frame(crc, r)[..4];
    }
  }

  /** Replay walks through every record this code wrote, whatever follows them. */
  lemma {:induction false} ReplayThrough(crc: Checksum, max: u32, rs: seq<Record>, file: bytes)
    requires AllStorable(max, rs) && Frames(crc, rs) <= file
    ensures ReplayFrom(crc, max, file, 0, []) == ReplayFrom(crc, max, file, |Frames(crc, rs)|, rs)
  {
    hide Frame, FrameAt;
    if rs != [] {
      var init, r := rs[..|rs| - 1], rs[|rs| - 1];
      ReplayThrough(crc, max, init, file);
      var at := |Frames(crc, init)|;
      assert file[at..at + |Frame(crc, r)|] == Frame(crc, r);
      FindWhole(crc, max, file, at, r);
      assert init + [r] == rs;
    }
  }

  /** Torn-tail recovery: n bytes of one more record cost nothing but that record, for every n. */
  lemma ReplayAfterTear(crc: Checksum, max: u32, rs: seq<Record>, r: Record, n: nat)
    requires AllStorable(max, rs) && Storable(max, r) && n <= |Frame(crc, r)|
    ensures ReplayFrom(crc, max, Frames(crc, rs) + Frame(crc, r)[..n], 0, [])
         == Replayed(if n == |Frame(crc, r)| then rs + [r] else rs, true)
  {
    hide Frame, FrameAt;
    var file := Frames(crc, rs) + Frame(crc, r)[..n];
    if n == |Frame(crc, r)| {
      assert (rs + [r])[..|rs|] == rs && Frames(crc, rs + [r]) == file;
      ReplayComplete(crc, max, rs + [r]);
    } else {
      ReplayThrough(crc, max, rs, file);
      assert file[|Frames(crc, rs)|..] == Frame(crc, r)[..n];
      FindTorn(crc, max, file, |Frames(crc, rs)|, r, n);
    }
  }

  lemma StopAtEnd(crc: Checksum, max: u32, file: bytes)
    ensures FrameAt(crc, max, file, |file|) == Stop
  {
  }

  lemma ReplayComplete(crc: Checksum, max: u32, rs: seq<Record>)
    requires AllStorable(max, rs)
    ensures ReplayFrom(crc, max, Frames(crc, rs), 0, []) == Replayed(rs, true)
  {
    hide FrameAt;
    ReplayThrough(crc, max, rs, Frames(crc, rs));
    StopAtEnd(crc, max, Frames(crc, rs));
  }

  // ---- where replay stops ----

  /** The offset replay reads no further than: everything before it is frames, everything after it is
      not found. */
  ghost function EndOf(crc: Checksum, max: u32, file: bytes, pos: nat): (end: nat)
    requires pos <= |file|
    ensures pos <= end <= |file|
    decreases |file| - pos
  {
    match FrameAt(crc, max, file, pos)
    case Whole(_, next) => EndOf(crc, max, file, next)
    case _ => pos
  }

  /** Replay reads the file to its last byte. */
  ghost predicate Clean(crc: Checksum, max: u32, file: bytes) {
    EndOf(crc, max, file, 0) == |file|
  }

  /** Bytes behind a whole frame do not change it. */
  lemma FrameStable(crc: Checksum, max: u32, file: bytes, more: bytes, pos: nat)
    requires pos <= |file| && FrameAt(crc, max, file, pos).Whole?
    ensures FrameAt(crc, max, file + more, pos) == FrameAt(crc, max, file, pos)
  {
    hide DecodeBody, FromLE32;
    var longer := file + more;
    assert longer[pos..pos + 4] == file[pos..pos + 4] && longer[pos + 4..pos + 8] == file[pos + 4..pos + 8];
    var len: int := FromLE32(file[pos..pos + 4]);
    assert longer[pos + 8..pos + 8 + len] == file[pos + 8..pos + 8 + len];
  }

  /** On a clean file replay goes on with whatever is written next. */
  lemma {:induction false} CleanContinues(crc: Checksum, max: u32, file: bytes, more: bytes, pos: nat,
                                          seen: seq<Record>)
    requires pos <= |file| && EndOf(crc, max, file, pos) == |file|
    ensures ReplayFrom(crc, max, file, pos, seen).ok
    ensures ReplayFrom(crc, max, file + more, pos, seen)
         == ReplayFrom(crc, max, file + more, |file|, ReplayFrom(crc, max, file, pos, seen).records)
    ensures EndOf(crc, max, file + more, pos) == EndOf(crc, max, file + more, |file|)
    decreases |file| - pos
  {
    hide FrameAt;
    var found := FrameAt(crc, max, file, pos);
    if found.Whole? {
      FrameStable(crc, max, file, more, pos);
      CleanContinues(crc, max, file, more, found.next, seen + [found.record]);
    } else {
      StopAtEnd(crc, max, file);
    }
  }

  /** Writing n bytes of a frame to a clean file: the record is found exactly when it is whole, nothing
      else changes, and the file stays clean exactly when nothing or everything was written. */
  lemma CleanWrite(crc: Checksum, max: u32, file: bytes, r: Record, n: nat)
    requires Clean(crc, max, file) && Storable(max, r) && n <= |Frame(crc, r)|
    ensures var before, after := ReplayFrom(crc, max, file, 0, []), file + Frame(crc, r)[..n];
            && before.ok
            && ReplayFrom(crc, max, after, 0, [])
               == Replayed(if n == |Frame(crc, r)| then before.records + [r] else before.records, true)
            && (Clean(crc, max, after) <==> n == 0 || n == |Frame(crc, r)|)
  {
    hide Frame, FrameAt;
    var f := Frame(crc, r);
    var after := file + f[..n];
    CleanContinues(crc, max, file, f[..n], 0, []);
    if n == |f| {
      assert f[..n] == f && after[|file|..|file| + |f|] == f;
      FindWhole(crc, max, after, |file|, r);
      StopAtEnd(crc, max, after);
    } else {
      assert after[|file|..] == f[..n];
      FindTorn(crc, max, after, |file|, r, n);
    }
  }

  lemma {:induction false} FramesClean(crc: Checksum, max: u32, rs: seq<Record>)
    requires AllStorable(max, rs)
    ensures Clean(crc, max, Frames(crc, rs))
  {
    hide Frame, FrameAt;
    if rs == [] {
      StopAtEnd(crc, max, []);
    } else {
      var init, r := rs[..|rs| - 1], rs[|rs| - 1];
      FramesClean(crc, max, init);
      CleanWrite(crc, max, Frames(crc, init), r, |Frame(crc, r)|);
      assert Frame(crc, r)[..|Frame(crc, r)|] == Frame(crc, r);
    }
  }

  // ---- writing behind a torn frame ----

  /** The body length replay reads at the start of t. */
  ghost function Claimed(t: bytes): nat
    requires |t| >= FRAME_HEADER
  {
    FromLE32(t[0..4])
  }

  /** t starts with something that passes for a frame: a possible length, all of it there, and a body
      that matches the stored checksum. */
  ghost predicate PassesForFrame(crc: Checksum, max: u32, t: bytes) {
    && |t| >= FRAME_HEADER && BODY_FIXED <= Claimed(t) <= max && FRAME_HEADER + Claimed(t) <= |t|
    && crc(t[8..8 + Claimed(t)]) == FromLE32(t[4..8])
  }

  lemma FrameShift(crc: Checksum, max: u32, pre: bytes, t: bytes)
    ensures FrameAt(crc, max, pre + t, |pre|).Stop? <==> FrameAt(crc, max, t, 0).Stop?
    ensures FrameAt(crc, max, pre + t, |pre|).Corrupt? <==> FrameAt(crc, max, t, 0).Corrupt?
  {
    hide DecodeBody, FromLE32;
    var file, p := pre + t, |pre|;
    assert file[p..p + |t|] == t;
    if |t| >= 8 {
      SubSlice(file, p, |t|, 0, 4);
      SubSlice(file, p, |t|, 4, 8);
      var len: int := FromLE32(t[0..4]);
      if 8 + len <= |t| { SubSlice(file, p, |t|, 8, 8 + len); }
    }
  }

  /** What is known of the header once it is complete. */
  lemma TornHeader(crc: Checksum, torn: Record, n: nat, more: bytes)
    requires Encodable(torn) && n < |Frame(crc, torn)| && n + |more| >= FRAME_HEADER
    ensures var t := Frame(crc, torn)[..n] + more;
            && (n >= 4 ==> Claimed(t) == |Body(torn)|)
            && (n >= 8 ==> FromLE32(t[4..8]) == crc(Body(torn)))
            && (Frame(crc, torn) <= t ==> t[8..8 + |Body(torn)|] == Body(torn) && Claimed(t) == |Body(torn)|)
            && (n >= 8 && 8 + |Body(torn)| <= |t| && t[8..8 + |Body(torn)|] == Body(torn) ==> Frame(crc, torn) <= t)
  {
    hide Frame, FromLE32, LE32, Body;
    FrameParts(crc, torn);
    var f := Frame(crc, torn);
    var t := f[..n] + more;
    if n >= 4 || f <= t { assert t[0..4] == f[..4]; }
    if n >= 8 { assert t[4..8] == f[4..8]; }
    if f <= t { assert t[8..|f|] == f[8..]; }
    if n >= 8 && |f| <= |t| && t[8..|f|] == Body(torn) {
      assert t[..8] == f[..8] && t[..|f|] == t[..8] + t[8..|f|] && f == f[..8] + f[8..];
    }
  }

  /** What the next replay makes of any bytes written behind a frame torn after n bytes: parts of frames,
      whole frames, or both. None of them is found as written. Replay stops cleanly before the tear when
      the header or the claimed body is still incomplete, and refuses the log when the claimed length is
      impossible or the checksum does not match. If the bytes happen to complete the torn frame, the
      record that was lost comes alive and replay goes on behind it. The only other way on is a body
      that matches a checksum not its own. */
  lemma WriteAfterTear(crc: Checksum, max: u32, rs: seq<Record>, torn: Record, n: nat, more: bytes)
    requires AllStorable(max, rs) && Storable(max, torn) && n < |Frame(crc, torn)|
    ensures var t := Frame(crc, torn)[..n] + more;
            var file := Frames(crc, rs) + t;
            var outcome := ReplayFrom(crc, max, file, 0, []);
            && (!PassesForFrame(crc, max, t) ==>
                  outcome == Replayed(rs, |t| < FRAME_HEADER
                                          || (BODY_FIXED <= Claimed(t) <= max && |t| < FRAME_HEADER + Claimed(t))))
            && (Frame(crc, torn) <= t ==>
                  && PassesForFrame(crc, max, t)
                  && outcome == ReplayFrom(crc, max, file, |Frames(crc, rs)| + |Frame(crc, torn)|, rs + [torn]))
            && (n >= 8 && PassesForFrame(crc, max, t) && !(Frame(crc, torn) <= t) ==>
                  t[8..8 + Claimed(t)] != Body(torn) && crc(t[8..8 + Claimed(t)]) == crc(Body(torn)))
  {
    hide Frame, Frames, FromLE32, LE32, DecodeBody, Body;
    var start, f := Frames(crc, rs), Frame(crc, torn);
    var t := f[..n] + more;
    ReplayThrough(crc, max, rs, start + t);
    FrameShift(crc, max, start, t);
    if |t| >= 8 { TornHeader(crc, torn, n, more); }
    if f <= t {
      FrameParts(crc, torn);
      assert t[4..8] == f[4..8];
      assert (start + t)[|start|..|start| + |f|] == f;
      FindWhole(crc, max, start + t, |start|, torn);
    }
  }

  /** A second torn frame can complete the first: one byte of R2's frame is the byte R1's frame missed,
      for every checksum, and a write that an earlier crash had undone is found. */
  lemma SecondTearRevives(crc: Checksum, max: u32)
    requires max >= 19
    ensures var r1, r2 := Record([97], [19], PUT, 1), Record([98], [1], PUT, 1);
            && ReplayFrom(crc, max, Frame(crc, r1)[..26], 0, []) == Replayed([], true)
            && ReplayFrom(crc, max, Frame(crc, r1)[..26] + Frame(crc, r2)[..1], 0, []) == Replayed([r1], true)
  {
    var r1, r2 := Record([97], [19], PUT, 1), Record([98], [1], PUT, 1);
    var f1, f2 := Frame(crc, r1), Frame(crc, r2);
    assert Frames(crc, []) == [];
    assert [] + f1[..26] == f1[..26];
    ReplayAfterTear(crc, max, [], r1, 26);
    assert f2[0] == 19 && f1[26] == 19;
    assert f1[..26] + f2[..1] == f1;
    assert [] + [r1] == [r1] && [] + f1[..27] == f1;
    ReplayAfterTear(crc, max, [], r1, 27);
  }

  // ---- the log object ----

  /** What the operating system does with one write: all of it, or an error after n bytes or on sync. */
  datatype WriteIO = Written | WriteError(n: nat) | SyncError

  datatype AppendResult = Appended(seqno: u64) | InvalidRecord | TooLarge | Closed | IOFailed

  class WAL {
    const crc: Checksum
    const max: u32
    const syncOnWrite: bool
    var file: bytes
    var seqno: u64
    var closed: bool

    /** Open: whatever is on disk stays, and the counter starts at zero until Replay raises it. */
    constructor (crc: Checksum, maxRecordSize: u32, syncOnWrite: bool, onDisk: bytes)
      ensures this.crc == crc && max == MaxRecord(maxRecordSize) && this.syncOnWrite == syncOnWrite
      ensures file == onDisk && seqno == 0 && !closed
    {
      this.crc, max, this.syncOnWrite := crc, MaxRecord(maxRecordSize), syncOnWrite;
      file, seqno, closed := onDisk, 0, false;
    }

    /** The record's own Seq is ignored; a failed write keeps its bytes and its number. */
    method Append(r: Record, io: WriteIO) returns (res: AppendResult)
      modifies this
      ensures closed == old(closed)
      ensures res.Appended? <==> Storable(max, r) && !closed
                                 && (io.Written? || (io.SyncError? && !syncOnWrite))
      ensures res.Appended? ==>
                && res.seqno == WrapAdd(old(seqno), 1) == seqno
                && Storable(max, r) && file == old(file) + Frame(crc, r.(seqno := seqno))
      ensures res.IOFailed? ==>
                && Storable(max, r) && seqno == WrapAdd(old(seqno), 1)
                && exists n :: 0 <= n <= FRAME_HEADER + BODY_FIXED + |r.key| + |r.value|
                     && file == old(file) + Frame(crc, r.(seqno := seqno))[..n]
      ensures !res.Appended? && !res.IOFailed? ==> file == old(file) && seqno == old(seqno)
    {
      if !KnownKind(r.kind) || r.key == [] { return InvalidRecord; }
      if BODY_FIXED + |r.key| + |r.value| > max { return TooLarge; }
      if closed { return Closed; }
      hide Frame;
      seqno := WrapAdd(seqno, 1);
      var buf := Frame(crc, r.(seqno := seqno));
      match io {
        case WriteError(n) =>
          file := file + if n < |buf| then buf[..n] else buf;
          assert n >= |buf| ==> buf == buf[..|buf|];
          return IOFailed;
        case SyncError =>
          file := file + buf;
          assert buf == buf[..|buf|];
          if syncOnWrite { return IOFailed; }
        case Written =>
          file := file + buf;
      }
      return Appended(seqno);
    }

    /** The loop over the file. The records are what the callback sees, in order. */
    method Replay() returns (result: Option<Replayed>)
      modifies `seqno
      ensures result.None? <==> closed
      ensures result.Some? ==> result.value == ReplayFrom(crc, max, file, 0, [])
      ensures result.Some? && result.value.ok ==>
                var found := MaxSeq(result.value.records);
                seqno == (if found > old(seqno) then found else old(seqno))
      ensures result.None? || !result.value.ok ==> seqno == old(seqno)
    {
      hide FrameAt;
      if closed { return None; }
      var pos := 0;
      var records: seq<Record> := [];
      var maxSeq: u64 := 0;
      while true
        invariant pos <= |file| && maxSeq == MaxSeq(records)
        invariant ReplayFrom(crc, max, file, 0, []) == ReplayFrom(crc, max, file, pos, records)
        decreases |file| - pos
      {
        var found := FrameAt(crc, max, file, pos);
        match found {
          case Corrupt =>
            return Some(Replayed(records, false));
          case Stop =>
            break;
          case Whole(r, next) =>
            assert (records + [r])[..|records|] == records;
            if r.seqno > maxSeq { maxSeq := r.seqno; }
            records := records + [r];
            pos := next;
        }
      }
      if maxSeq > seqno { seqno := maxSeq; }
      return Some(Replayed(records, true));
    }
  }
}
