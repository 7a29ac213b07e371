/** The versioned key/value record of the storage engine, and the checksummed frame that both the
    write-ahead log (internal/wal/wal.go) and the SSTables (internal/sstable/sstable.go) store it in. */
module Records {
  import opened Bytes

  const PUT: byte := 1
  const DELETE: byte := 2

  /** `kind` is a raw byte on disk; only PUT and DELETE are ever written. */
  datatype Record = Record(key: bytes, value: bytes, kind: byte, seqno: u64)

  const FRAME_HEADER := 8
  const BODY_FIXED := 17
  const DEFAULT_MAX_RECORD: u32 := 64 * 1024 * 1024

  /** Options.MaxRecordSize, where zero asks for the default. */
  function MaxRecord(option: u32): (max: u32)
    ensures max > 0
  {
    if option == 0 then DEFAULT_MAX_RECORD else option
  }

  predicate KnownKind(kind: byte) {
    kind == PUT || kind == DELETE
  }

  /** What both writers check before they encode: a key, a known kind, and a body within the limit. */
  predicate Storable(max: u32, r: Record) {
    r.key != [] && KnownKind(r.kind) && BODY_FIXED + |r.key| + |r.value| <= max
  }

  ghost predicate AllStorable(max: u32, rs: seq<Record>) {
    forall i :: 0 <= i < |rs| ==> Storable(max, rs[i])
  }

  predicate Encodable(r: Record) {
    BODY_FIXED + |r.key| + |r.value| < U32_SIZE
  }

  function Body(r: Record): (b: bytes)
    requires Encodable(r)
    ensures |b| == BODY_FIXED + |r.key| + |r.value|
  {
    LE64(r.seqno) + [r.kind] + LE32(|r.key|) + LE32(|r.value|) + r.key + r.value
  }

  function Frame(crc: Checksum, r: Record): (f: bytes)
    requires Encodable(r)
    ensures |f| == FRAME_HEADER + BODY_FIXED + |r.key| + |r.value|
  {
    LE32(|Body(r)|) + LE32(crc(Body(r))) + Body(r)
  }

  /** None when the declared lengths exceed the body. */
  function DecodeBody(b: bytes): Option<Record>
    requires |b| >= BODY_FIXED
  {
    var keyLen: int, valueLen: int := FromLE32(b[9..13]), FromLE32(b[13..17]);
    if keyLen + valueLen > |b| - BODY_FIXED then None
    else Some(Record(b[17..17 + keyLen], b[17 + keyLen..17 + keyLen + valueLen], b[8], FromLE64(b[0..8])))
  }

  /** The decoder accepts exactly the bodies of records, with or without bytes behind them. */
  lemma DecodesIff(b: bytes, r: Record)
    requires BODY_FIXED <= |b| < U32_SIZE
    ensures DecodeBody(b) == Some(r) <==> Encodable(r) && Body(r) <= b
  {
    if DecodeBody(b) == Some(r) {
      BodyParts(b, r);
    } else if Encodable(r) && Body(r) <= b {
      BodyFound(b, r);
      assert false;
    }
  }

  lemma BodyParts(b: bytes, r: Record)
    requires BODY_FIXED <= |b| < U32_SIZE && DecodeBody(b) == Some(r)
    ensures Encodable(r) && Body(r) <= b
  {
    hide FromLE32, FromLE64, LE32, LE64;
    var k, n := |r.key|, BODY_FIXED + |r.key| + |r.value|;
    LE64Inverse(b[0..8]);
    LE32Inverse(b[9..13]);
    LE32Inverse(b[13..17]);
    assert b[8..9] == [r.kind];
    assert b[..n] == b[0..8] + b[8..9] + b[9..13] + b[13..17] + b[17..17 + k] + b[17 + k..n];
  }

  lemma BodyFound(b: bytes, r: Record)
    requires BODY_FIXED <= |b| && Encodable(r) && Body(r) <= b
    ensures DecodeBody(b) == Some(r)
  {
    hide FromLE32, FromLE64, LE32, LE64;
    var c, k := Body(r), |r.key|;
    assert b[..|c|] == c;
    assert b[0..8] == LE64(r.seqno) && b[8] == r.kind && b[9..13] == LE32(k) && b[13..17] == LE32(|r.value|);
    assert b[17..17 + k] == r.key && b[17 + k..|c|] == r.value;
    LE64RoundTrip(r.seqno);
    LE32RoundTrip(k);
    LE32RoundTrip(|r.value|);
  }

  lemma BodyRoundTrip(r: Record)
    requires Encodable(r)
    ensures DecodeBody(Body(r)) == Some(r)
  {
    var b, k := Body(r), |r.key|;
    assert b[0..8] == LE64(r.seqno);
    assert b[8] == r.kind;
    assert b[9..13] == LE32(k);
    assert b[13..17] == LE32(|r.value|);
    assert b[17..17 + k] == r.key;
    assert b[17 + k..17 + k + |r.value|] == r.value;
    LE64RoundTrip(r.seqno);
    LE32RoundTrip(k);
    LE32RoundTrip(|r.value|);
  }

  lemma FrameParts(crc: Checksum, r: Record)
    requires Encodable(r)
    ensures var f := Frame(crc, r);
            f[..4] == LE32(|Body(r)|) && f[4..8] == LE32(crc(Body(r))) && f[8..] == Body(r)
    ensures FromLE32(LE32(|Body(r)|)) == |Body(r)| && FromLE32(LE32(crc(Body(r)))) == crc(Body(r))
  {
    LE32RoundTrip(|Body(r)|);
    LE32RoundTrip(crc(Body(r)));
  }

  ghost predicate AllEncodable(rs: seq<Record>) {
    forall i :: 0 <= i < |rs| ==> Encodable(rs[i])
  }

  /** The frames of rs, one after the other. */
  ghost function Frames(crc: Checksum, rs: seq<Record>): (b: bytes)
    requires AllEncodable(rs)
    ensures |b| >= 25 * |rs|
  {
    if rs == [] then [] else Frames(crc, rs[..|rs| - 1]) + Frame(crc, rs[|rs| - 1])
  }

  lemma {:induction false} FramesConcat(crc: Checksum, a: seq<Record>, b: seq<Record>)
    requires AllEncodable(a) && AllEncodable(b)
    ensures AllEncodable(a + b) && Frames(crc, a + b) == Frames(crc, a) + Frames(crc, b)
    decreases |b|
  {
    hide Frame, Encodable;
    if b == [] {
      assert a + b == a;
    } else {
      FramesConcat(crc, a, b[..|b| - 1]);
      assert (a + b)[..|a + b| - 1] == a + b[..|b| - 1];
    }
  }
}
