/** The Bloom filter in front of every SSTable (internal/bloom/bloom.go): double hashing over a
    packed bit array with uint64 wrap-around, and its self-describing serialization. */
module Bloom {
  import opened Bytes

  // ---- bits of a word ----

  predicate TestBit(w: nat, b: nat) {
    if b == 0 then w % 2 == 1 else TestBit(w / 2, b - 1)
  }

  /** w | 1 << b, digit by digit. */
  function OrBit(w: nat, b: nat): (r: nat)
    ensures r >= w
  {
    if b == 0 then 2 * (w / 2) + 1 else 2 * OrBit(w / 2, b - 1) + w % 2
  }

  lemma {:induction false} OrBitTests(w: nat, b: nat, c: nat)
    ensures TestBit(OrBit(w, b), c) <==> b == c || TestBit(w, c)
  {
    if b > 0 && c > 0 { OrBitTests(w / 2, b - 1, c - 1); }
  }

  lemma {:induction false} OrBitBound(w: nat, b: nat, n: nat)
    requires w < Pow2(n) && b < n
    ensures OrBit(w, b) < Pow2(n)
  {
    if b > 0 { OrBitBound(w / 2, b - 1, n - 1); }
  }

  lemma {:induction false} Pow2Split(a: nat, b: nat)
    ensures Pow2(a + b) == Pow2(a) * Pow2(b)
  {
    if a > 0 { Pow2Split(a - 1, b); }
  }

  lemma WordSize()
    ensures Pow2(64) == U64_SIZE
  {
    assert Pow2(8) == 256;
    Pow2Split(8, 8);
    Pow2Split(16, 16);
    Pow2Split(32, 32);
  }

  function OrWord(w: u64, b: nat): u64
    requires b < 64
  {
    WordSize();
    OrBitBound(w, b, 64);
    OrBit(w, b)
  }

  // ---- positions ----

  const H2_SALT: u64 := 0x9e37_79b9_7f4a_7c15

  function SecondHash(fnv: Hash, key: bytes): (h: u64)
    ensures h != 0
  {
    var h := fnv(LE64(H2_SALT) + key);
    if h == 0 then H2_SALT else h
  }

  /** The i-th bit of a key: (h1 + i*h2) in uint64 arithmetic, modulo the bit count. */
  function Position(fnv: Hash, bitCount: u64, key: bytes, i: nat): (p: nat)
    requires bitCount > 0
    ensures p < bitCount
  {
    (fnv(key) + i * SecondHash(fnv, key)) % U64_SIZE % bitCount
  }

  function WordsFor(bitCount: u64): nat {
    (bitCount + 63) / 64
  }

  predicate BitSet(words: seq<u64>, p: nat)
    requires p < 64 * |words|
  {
    TestBit(words[p / 64], p % 64)
  }

  function SetAt(words: seq<u64>, p: nat): (r: seq<u64>)
    requires p < 64 * |words|
    ensures |r| == |words|
  {
    words[p / 64 := OrWord(words[p / 64], p % 64)]
  }

  lemma SetAtSets(words: seq<u64>, p: nat, q: nat)
    requires p < 64 * |words| && q < 64 * |words|
    ensures BitSet(SetAt(words, p), q) <==> p == q || BitSet(words, q)
  {
    hide OrBit, TestBit;
    if p / 64 == q / 64 {
      OrBitTests(words[p / 64], p % 64, q % 64);
    }
  }

  // ---- the filter as a value ----

  const MAX_WORDS := 0x4000_0000
  const MAX_BITS := MAX_WORDS * 64

  /** A float64 bit pattern strictly between 0 and 1: IEEE 754 orders positive values as their bits. */
  predicate ValidRate(fprBits: u64) {
    0 < fprBits < 0x3FF0_0000_0000_0000
  }

  datatype Filter = Filter(words: seq<u64>, bitCount: u64, hashCount: u32,
                           expected: u64, inserted: u64, fprBits: u64)

  /** What New builds and Add keeps. */
  predicate WellFormed(f: Filter) {
    && 0 < f.bitCount <= MAX_BITS && |f.words| == WordsFor(f.bitCount)
    && 0 < f.hashCount && 0 < f.expected && ValidRate(f.fprBits)
  }

  lemma InWords(f: Filter, p: nat)
    requires WellFormed(f) && p < f.bitCount
    ensures p < 64 * |f.words|
  {
  }

  /** One of the first n hash positions of key is p. */
  ghost predicate Hits(fnv: Hash, bitCount: u64, n: nat, key: bytes, p: nat)
    requires bitCount > 0
  {
    exists i :: 0 <= i < n && Position(fnv, bitCount, key, i) == p
  }

  /** Every hash position of key is set. */
  ghost predicate Member(fnv: Hash, f: Filter, key: bytes)
    requires WellFormed(f)
  {
    key != [] && forall p :: 0 <= p < f.bitCount && Hits(fnv, f.bitCount, f.hashCount, key, p) ==> BitSet(f.words, p)
  }

  /** The bits are exactly those of the keys added: independent of order and repetition. */
  ghost predicate Reflects(fnv: Hash, f: Filter, keys: set<bytes>)
    requires WellFormed(f)
  {
    forall p :: 0 <= p < f.bitCount ==>
      (BitSet(f.words, p) <==> exists k :: k in keys && Hits(fnv, f.bitCount, f.hashCount, k, p))
  }

  /** No false negatives. */
  lemma AddedAreMembers(fnv: Hash, f: Filter, keys: set<bytes>, k: bytes)
    requires WellFormed(f) && Reflects(fnv, f, keys) && k in keys && k != []
    ensures Member(fnv, f, k)
  {
  }

  /** Two filters of one shape that were given the same keys answer alike, whatever the order. */
  lemma OrderIrrelevant(fnv: Hash, f: Filter, g: Filter, keys: set<bytes>, k: bytes)
    requires WellFormed(f) && WellFormed(g) && f.bitCount == g.bitCount && f.hashCount == g.hashCount
    requires Reflects(fnv, f, keys) && Reflects(fnv, g, keys)
    ensures Member(fnv, f, k) <==> Member(fnv, g, k)
  {
    forall p | 0 <= p < f.bitCount ensures BitSet(f.words, p) <==> BitSet(g.words, p) {
      assert forall k :: Hits(fnv, f.bitCount, f.hashCount, k, p) <==> Hits(fnv, g.bitCount, g.hashCount, k, p);
    }
  }

  // ---- the filter object ----

  lemma AddStep(fnv: Hash, bitCount: u64, key: bytes, i: nat, before: seq<u64>, was: seq<u64>, bit: nat)
    requires 0 < bitCount && |was| == |before| == WordsFor(bitCount)
    requires bit == (fnv(key) + i * SecondHash(fnv, key)) % U64_SIZE % bitCount
    requires forall p :: 0 <= p < bitCount ==>
               (BitSet(was, p) <==> BitSet(before, p) || Hits(fnv, bitCount, i, key, p))
    ensures forall p :: 0 <= p < bitCount ==>
               (BitSet(SetAt(was, bit), p) <==> BitSet(before, p) || Hits(fnv, bitCount, i + 1, key, p))
  {
    assert bit == Position(fnv, bitCount, key, i);
    hide BitSet, SetAt, Position;
    forall p | 0 <= p < bitCount
      ensures BitSet(SetAt(was, bit), p) <==> BitSet(before, p) || Hits(fnv, bitCount, i + 1, key, p)
    {
      SetAtSets(was, bit, p);
      if Hits(fnv, bitCount, i + 1, key, p) && p != bit {
        var j :| 0 <= j < i + 1 && Position(fnv, bitCount, key, j) == p;
        assert Hits(fnv, bitCount, i, key, p);
      }
    }
  }

  class BloomFilter {
    const fnv: Hash
    const words: array<u64>
    const bitCount: u64
    const hashCount: u32
    const expected: u64
    const fprBits: u64
    var inserted: u64
    ghost var keys: set<bytes>

    function Value(): Filter
      reads this, words
    {
      Filter(words[..], bitCount, hashCount, expected, inserted, fprBits)
    }

    ghost predicate Valid()
      reads this, words
    {
      WellFormed(Value()) && Reflects(fnv, Value(), keys) && [] !in keys
    }

    /** New, after the option checks: an array of zero words. */
    constructor (fnv: Hash, bitCount: u64, hashCount: u32, expected: u64, fprBits: u64)
      requires 0 < bitCount <= MAX_BITS && 0 < hashCount && 0 < expected && ValidRate(fprBits)
      ensures Valid() && keys == {} && inserted == 0 && this.fnv == fnv && fresh(words)
      ensures Value() == Filter(seq(WordsFor(bitCount), _ => 0), bitCount, hashCount, expected, 0, fprBits)
    {
      this.fnv, this.bitCount, this.hashCount := fnv, bitCount, hashCount;
      this.expected, this.fprBits, inserted, keys := expected, fprBits, 0, {};
      var zero: u64 := 0;
      words := new u64[WordsFor(bitCount)](_ => zero);
      new;
      assert words[..] == seq(WordsFor(bitCount), _ => 0);
      forall b: nat ensures !TestBit(0, b) { NoBits(b); }
    }

    /** Add: afterwards exactly the bits of the added keys are set, this one included. */
    method Add(key: bytes) returns (ok: bool)
      requires Valid()
      modifies this, words
      ensures Valid() && (ok <==> key != [])
      ensures keys == if ok then old(keys) + {key} else old(keys)
      ensures inserted == if ok then WrapAdd(old(inserted), 1) else old(inserted)
      ensures !ok ==> words[..] == old(words[..])
    {
      if key == [] { return false; }
      hide Position, BitSet, SetAt, OrWord;
      ghost var before := words[..];
      var h1, h2 := fnv(key), SecondHash(fnv, key);
      for i := 0 to hashCount
        invariant inserted == old(inserted) && keys == old(keys)
        invariant forall p :: 0 <= p < bitCount ==>
                    (BitSet(words[..], p) <==> BitSet(before, p) || Hits(fnv, bitCount, i, key, p))
      {
        var bit := (h1 + i * h2) % U64_SIZE % bitCount;
        ghost var was := words[..];
        words[bit / 64] := OrWord(words[bit / 64], bit % 64);
        assert words[..] == was[bit / 64 := OrWord(was[bit / 64], bit % 64)];
        AddStep(fnv, bitCount, key, i, before, was, bit);
      }
      inserted := WrapAdd(inserted, 1);
      keys := keys + {key};
      return true;
    }

    /** No added key is ever reported absent. */
    method MightContain(key: bytes) returns (r: bool)
      requires Valid()
      ensures r <==> Member(fnv, Value(), key)
      ensures key in keys ==> r
    {
      hide Position, BitSet, Hits;
      if key in keys { AddedAreMembers(fnv, Value(), keys, key); }
      r := Query(fnv, Value(), key);
    }

    method MarshalBinary(crc: Checksum) returns (data: bytes)
      requires Valid()
      ensures data == Marshal(crc, Value())
    {
      hide LE16, LE32, LE64, Reflects;
      data := ParameterBytes(Value());
      ghost var start := data;
      for i := 0 to words.Length
        invariant data == start + WordBytes(words[..i])
      {
        assert words[..i + 1][..i] == words[..i] && words[..i + 1][i] == words[i];
        data := data + LE64(words[i]);
      }
      assert words[..words.Length] == words[..];
      data := data + LE32(crc(data)) + LE64(FILTER_MAGIC);
    }
  }

  /** The loop of MightContain, which stops at the first clear bit. */
  method Query(fnv: Hash, f: Filter, key: bytes) returns (r: bool)
    requires WellFormed(f)
    ensures r <==> Member(fnv, f, key)
  {
    hide BitSet;
    if key == [] { return false; }
    var h1, h2 := fnv(key), SecondHash(fnv, key);
    for i := 0 to f.hashCount
      invariant forall j :: 0 <= j < i ==> BitSet(f.words, Position(fnv, f.bitCount, key, j))
    {
      var bit := (h1 + i * h2) % U64_SIZE % f.bitCount;
      assert bit == Position(fnv, f.bitCount, key, i);
      InWords(f, bit);
      if !BitSet(f.words, bit) {
        assert Hits(fnv, f.bitCount, f.hashCount, key, bit);
        return false;
      }
    }
    return true;
  }

  // ---- serialization ----

  const FILTER_MAGIC: u64 := 0x544c_464d_4f4f_4c42
  const FILTER_VERSION := 1
  const SERIAL_HEADER := 54
  const SERIAL_TRAILER := 12

  function ParameterBytes(f: Filter): (b: bytes)
    requires |f.words| < U64_SIZE
    ensures |b| == SERIAL_HEADER
  {
    LE64(FILTER_MAGIC) + LE16(FILTER_VERSION) + LE64(f.bitCount) + LE32(f.hashCount)
    + LE64(f.expected) + LE64(f.inserted) + LE64(f.fprBits) + LE64(|f.words|)
  }

  function WordBytes(words: seq<u64>): (b: bytes)
    ensures |b| == 8 * |words|
  {
    if words == [] then [] else WordBytes(words[..|words| - 1]) + LE64(words[|words| - 1])
  }

  function Covered(f: Filter): (b: bytes)
    requires |f.words| < U64_SIZE
    ensures |b| == SERIAL_HEADER + 8 * |f.words|
  {
    ParameterBytes(f) + WordBytes(f.words)
  }

  /** The blob MarshalBinary writes. */
  function Marshal(crc: Checksum, f: Filter): (b: bytes)
    requires |f.words| < U64_SIZE
    ensures |b| == SERIAL_HEADER + 8 * |f.words| + SERIAL_TRAILER
  {
    Covered(f) + LE32(crc(Covered(f))) + LE64(FILTER_MAGIC)
  }

  /** The parameters read from the header, with no words yet. */
  function Parameters(data: bytes): Filter
    requires |data| >= SERIAL_HEADER
  {
    Filter([], FromLE64(data[10..18]), FromLE32(data[18..22]), FromLE64(data[22..30]),
           FromLE64(data[30..38]), FromLE64(data[38..46]))
  }

  /** UnmarshalBinary: every check the code makes, in its order, before a word is decoded. */
  predicate Accepts(crc: Checksum, data: bytes) {
    && |data| >= SERIAL_HEADER + SERIAL_TRAILER
    && FromLE64(data[0..8]) == FILTER_MAGIC
    && FromLE16(data[8..10]) == FILTER_VERSION
    && var p := Parameters(data);
       var wordCount: int := FromLE64(data[46..54]);
       && p.bitCount != 0 && p.hashCount != 0 && ValidRate(p.fprBits) && p.expected != 0
       && wordCount == (p.bitCount + 63) % U64_SIZE / 64
       && wordCount <= MAX_WORDS
       && |data| == SERIAL_HEADER + 8 * wordCount + SERIAL_TRAILER
       && var end := SERIAL_HEADER + 8 * wordCount;
          && FromLE32(data[end..end + 4]) == crc(data[..end])
          && FromLE64(data[|data| - 8..]) == FILTER_MAGIC
  }

  /** The first n words after the header. */
  function DecodeWords(data: bytes, n: nat): (words: seq<u64>)
    requires SERIAL_HEADER + 8 * n <= |data|
    ensures |words| == n
  {
    if n == 0 then []
    else DecodeWords(data, n - 1) + [FromLE64(data[SERIAL_HEADER + 8 * (n - 1)..SERIAL_HEADER + 8 * n])]
  }

  function Unmarshal(crc: Checksum, data: bytes): Option<Filter> {
    if Accepts(crc, data) then Some(Parameters(data).(words := DecodeWords(data, FromLE64(data[46..54])))) else None
  }

  /** The word count check is uint64 arithmetic: within 63 of the top it wraps and accepts no words. */
  method UnmarshalBinary(crc: Checksum, data: bytes) returns (f: Option<Filter>)
    ensures f == Unmarshal(crc, data)
    ensures f.Some? ==> (WellFormed(f.value) <==> f.value.bitCount + 63 < U64_SIZE)
  {
    hide FromLE16, FromLE32, FromLE64;
    if !Accepts(crc, data) { return None; }
    var wordCount: int := FromLE64(data[46..54]);
    var words: seq<u64> := [];
    for i := 0 to wordCount
      invariant words == DecodeWords(data, i)
    {
      words := words + [FromLE64(data[SERIAL_HEADER + 8 * i..SERIAL_HEADER + 8 * i + 8])];
    }
    f := Some(Parameters(data).(words := words));
    assert wordCount == (f.value.bitCount + 63) % U64_SIZE / 64;
  }

  lemma {:induction false} NoBits(b: nat)
    ensures !TestBit(0, b)
  {
    if b > 0 { NoBits(b - 1); }
  }

  lemma ParameterParts(f: Filter)
    requires |f.words| < U64_SIZE
    ensures var b := ParameterBytes(f);
            && FromLE64(b[0..8]) == FILTER_MAGIC && FromLE16(b[8..10]) == FILTER_VERSION
            && Parameters(b) == f.(words := []) && FromLE64(b[46..54]) == |f.words|
  {
    var b := ParameterBytes(f);
    assert b[0..8] == LE64(FILTER_MAGIC) && b[8..10] == LE16(FILTER_VERSION);
    assert b[10..18] == LE64(f.bitCount) && b[18..22] == LE32(f.hashCount) && b[22..30] == LE64(f.expected);
    assert b[30..38] == LE64(f.inserted) && b[38..46] == LE64(f.fprBits) && b[46..54] == LE64(|f.words|);
    hide FromLE64, LE64, FromLE32, LE32, ParameterBytes;
    LE64RoundTrip(FILTER_MAGIC);
    LE64RoundTrip(f.bitCount);
    LE32RoundTrip(f.hashCount);
    LE64RoundTrip(f.expected);
    LE64RoundTrip(f.inserted);
    LE64RoundTrip(f.fprBits);
    LE64RoundTrip(|f.words|);
  }

  lemma {:induction false} WordAt(words: seq<u64>, i: nat)
    requires i < |words|
    ensures FromLE64(WordBytes(words)[8 * i..8 * i + 8]) == words[i]
    decreases |words|
  {
    hide LE64, FromLE64;
    var n := |words| - 1;
    var b := WordBytes(words);
    if i < n {
      WordAt(words[..n], i);
      assert b[8 * i..8 * i + 8] == WordBytes(words[..n])[8 * i..8 * i + 8];
    } else {
      LE64RoundTrip(words[n]);
      assert b[8 * n..8 * n + 8] == LE64(words[n]);
    }
  }

  lemma {:induction false} DecodeEncoded(f: Filter, data: bytes, n: nat)
    requires |f.words| < U64_SIZE && Covered(f) <= data && n <= |f.words|
    ensures DecodeWords(data, n) == f.words[..n]
  {
    hide FromLE64, WordBytes, ParameterBytes;
    if n > 0 {
      DecodeEncoded(f, data, n - 1);
      var at := 8 * (n - 1);
      assert data[SERIAL_HEADER + at..SERIAL_HEADER + at + 8] == WordBytes(f.words)[at..at + 8];
      WordAt(f.words, n - 1);
      assert f.words[..n] == f.words[..n - 1] + [f.words[n - 1]];
    }
  }

  lemma SameParameters(f: Filter, data: bytes)
    requires |f.words| < U64_SIZE && Covered(f) <= data
    ensures FromLE64(data[0..8]) == FILTER_MAGIC && FromLE16(data[8..10]) == FILTER_VERSION
    ensures Parameters(data) == f.(words := []) && FromLE64(data[46..54]) == |f.words|
  {
    hide FromLE64, FromLE32, FromLE16, WordBytes, ParameterBytes;
    ParameterParts(f);
    var b := ParameterBytes(f);
    assert forall i, j :: 0 <= i <= j <= SERIAL_HEADER ==> data[i..j] == b[i..j];
  }

  /** Anything New built, with any keys added, survives serialization exactly. */
  lemma MarshalRoundTrip(crc: Checksum, f: Filter)
    requires WellFormed(f)
    ensures Unmarshal(crc, Marshal(crc, f)) == Some(f)
  {
    hide FromLE64, FromLE32, FromLE16, Covered, Marshal, Parameters, DecodeWords;
    var data := Marshal(crc, f);
    TrailerParts(crc, f);
    SameParameters(f, data);
    DecodeEncoded(f, data, |f.words|);
    assert f.words[..|f.words|] == f.words;
  }

  lemma TrailerParts(crc: Checksum, f: Filter)
    requires |f.words| < U64_SIZE
    ensures var data, end := Marshal(crc, f), SERIAL_HEADER + 8 * |f.words|;
            && FromLE32(data[end..end + 4]) == crc(data[..end]) && FromLE64(data[|data| - 8..]) == FILTER_MAGIC
            && Covered(f) <= data
  {
    hide FromLE64, FromLE32, Covered, LE32, LE64;
    var data, end := Marshal(crc, f), SERIAL_HEADER + 8 * |f.words|;
    assert data[end..end + 4] == LE32(crc(Covered(f)));
    assert data[end + 4..] == LE64(FILTER_MAGIC);
    assert data[..end] == Covered(f);
    LE32RoundTrip(crc(Covered(f)));
    LE64RoundTrip(FILTER_MAGIC);
  }

  /** The wrap is real: a blob with the greatest bit count and no words at all is accepted. */
  lemma WrappedBlobAccepted(crc: Checksum)
    ensures var f := Filter([], MAX_U64, 1, 1, 0, 1);
            Unmarshal(crc, Marshal(crc, f)) == Some(f) && !WellFormed(f)
  {
    hide FromLE64, FromLE32, FromLE16, Covered, Marshal, Parameters;
    var f := Filter([], MAX_U64, 1, 1, 0, 1);
    var data := Marshal(crc, f);
    TrailerParts(crc, f);
    SameParameters(f, data);
    DecodeEncoded(f, data, 0);
    assert f.words[..0] == [];
  }
}
