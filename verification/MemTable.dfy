/** The ordered in-memory write buffer (internal/memtable/memtable.go): a map beside a sorted key
    slice, kept in step by upsert, with its size estimate. */
module MemTables {
  import opened Bytes
  import opened Records
  import opened Tables

  const ENTRY_OVERHEAD := 64

  function Size(r: Record): nat {
    |r.key| + |r.value| + ENTRY_OVERHEAD
  }

  ghost function TotalSize(rs: seq<Record>): nat {
    if rs == [] then 0 else TotalSize(rs[..|rs| - 1]) + Size(rs[|rs| - 1])
  }

  ghost function AllBytes(rs: seq<Record>): bytes {
    if rs == [] then [] else AllBytes(rs[..|rs| - 1]) + rs[|rs| - 1].key + rs[|rs| - 1].value
  }

  /** The estimate is the length of all keys and values and 64 bytes for each entry. */
  lemma {:induction false} SizeIs(rs: seq<Record>)
    ensures TotalSize(rs) == |AllBytes(rs)| + 64 * |rs|
  {
    if rs != [] { SizeIs(rs[..|rs| - 1]); }
  }

  /** The entries in key order. */
  ghost function Listed(keys: seq<bytes>, entries: map<bytes, Record>): (rs: seq<Record>)
    requires forall i :: 0 <= i < |keys| ==> keys[i] in entries
    ensures |rs| == |keys| && forall i :: 0 <= i < |keys| ==> rs[i] == entries[keys[i]]
  {
    seq(|keys|, i requires 0 <= i < |keys| => entries[keys[i]])
  }

  lemma {:induction false} SizeConcat(a: seq<Record>, b: seq<Record>)
    ensures TotalSize(a + b) == TotalSize(a) + TotalSize(b)
  {
    if b == [] {
      assert a + b == a;
    } else {
      SizeConcat(a, b[..|b| - 1]);
      assert (a + b)[..|a + b| - 1] == a + b[..|b| - 1];
    }
  }

  lemma SizeMiddle(a: seq<Record>, r: Record, b: seq<Record>)
    ensures TotalSize(a + [r] + b) == TotalSize(a + b) + Size(r)
  {
    SizeConcat(a, b);
    SizeConcat(a + [r], b);
    SizeConcat(a, [r]);
    assert TotalSize([r]) == TotalSize([]) + Size(r);
  }

  lemma InsertSorted(keys: seq<bytes>, k: bytes, at: nat)
    requires SortedKeys(keys) && CutAt(keys, k, at) && k !in keys
    ensures SortedKeys(keys[..at] + [k] + keys[at..])
  {
    hide Less;
    var ks := keys[..at] + [k] + keys[at..];
    forall i, j | 0 <= i < j < |ks| ensures Less(ks[i], ks[j]) {
      if i == at {
        LessTotal(k, keys[j - 1]);
      } else if j == at {
        assert ks[i] == keys[i];
      } else {
        var a, b := if i < at then i else i - 1, if j < at then j else j - 1;
        assert ks[i] == keys[a] && ks[j] == keys[b];
      }
    }
  }

  /** keys lists entries in order, and each entry sits under its own non-empty key. */
  ghost predicate InStep(keys: seq<bytes>, entries: map<bytes, Record>) {
    && SortedKeys(keys)
    && (forall i :: 0 <= i < |keys| ==> keys[i] in entries)
    && (forall k :: k in entries ==> k in keys && k != [] && entries[k].key == k && KnownKind(entries[k].kind))
  }

  lemma SplitAt(rs: seq<Record>, at: nat)
    requires at < |rs|
    ensures rs == rs[..at] + [rs[at]] + rs[at + 1..]
  {
  }

  /** Two runs that differ in one place differ in size by that place. */
  lemma SizeReplace(before: seq<Record>, after: seq<Record>, at: nat)
    requires |before| == |after| && at < |after|
    requires forall i :: 0 <= i < |after| && i != at ==> after[i] == before[i]
    ensures TotalSize(after) + Size(before[at]) == TotalSize(before) + Size(after[at])
  {
    hide TotalSize, Size;
    var a, b := before[..at], before[at + 1..];
    assert after[..at] == a && after[at + 1..] == b;
    SplitAt(before, at);
    SplitAt(after, at);
    SizeMiddle(a, before[at], b);
    SizeMiddle(a, after[at], b);
  }

  lemma SizeInsert(before: seq<Record>, after: seq<Record>, at: nat)
    requires |after| == |before| + 1 && at <= |before|
    requires forall i :: 0 <= i < |after| && i != at ==> after[i] == before[if i < at then i else i - 1]
    ensures TotalSize(after) == TotalSize(before) + Size(after[at])
  {
    hide TotalSize, Size;
    var a, b := before[..at], before[at..];
    assert after[..at] == a && after[at + 1..] == b && before == a + b;
    SplitAt(after, at);
    SizeMiddle(a, after[at], b);
  }

  lemma Replaced(keys: seq<bytes>, entries: map<bytes, Record>, e: Record)
    requires InStep(keys, entries) && e.key in entries && KnownKind(e.kind)
    ensures InStep(keys, entries[e.key := e])
    ensures TotalSize(Listed(keys, entries[e.key := e])) + Size(entries[e.key])
         == TotalSize(Listed(keys, entries)) + Size(e)
  {
    hide Less, TotalSize, Size, SortedKeys;
    var at :| 0 <= at < |keys| && keys[at] == e.key;
    var before, after := Listed(keys, entries), Listed(keys, entries[e.key := e]);
    forall i | 0 <= i < |keys| && i != at ensures after[i] == before[i] {
      DistinctKeys(keys, i, at);
    }
    SizeReplace(before, after, at);
  }

  lemma InsertedInStep(keys: seq<bytes>, entries: map<bytes, Record>, e: Record, at: nat)
    requires InStep(keys, entries) && e.key !in entries && e.key != [] && KnownKind(e.kind) && CutAt(keys, e.key, at)
    ensures InStep(keys[..at] + [e.key] + keys[at..], entries[e.key := e])
  {
    hide Less, SortedKeys;
    var more := keys[..at] + [e.key] + keys[at..];
    InsertSorted(keys, e.key, at);
    hide CutAt;
    assert more[at] == e.key;
    forall i | 0 <= i < |more| ensures more[i] in entries[e.key := e] {
      assert i != at ==> more[i] == keys[if i < at then i else i - 1];
    }
    forall k | k in entries ensures k in more {
      var i :| 0 <= i < |keys| && keys[i] == k;
      assert more[if i < at then i else i + 1] == k;
    }
  }

  lemma Inserted(keys: seq<bytes>, entries: map<bytes, Record>, e: Record, at: nat)
    requires InStep(keys, entries) && e.key !in entries && e.key != [] && KnownKind(e.kind) && CutAt(keys, e.key, at)
    ensures var more := keys[..at] + [e.key] + keys[at..];
            && InStep(more, entries[e.key := e])
            && TotalSize(Listed(more, entries[e.key := e])) == TotalSize(Listed(keys, entries)) + Size(e)
  {
    hide Less, TotalSize, Size, SortedKeys;
    var more := keys[..at] + [e.key] + keys[at..];
    InsertedInStep(keys, entries, e, at);
    hide CutAt, KnownKind;
    var before, after := Listed(keys, entries), Listed(more, entries[e.key := e]);
    forall i | 0 <= i < |after| ensures after[i] == if i == at then e else before[if i < at then i else i - 1] {
      assert more[i] == if i == at then e.key else keys[if i < at then i else i - 1];
    }
    SizeInsert(before, after, at);
  }

  /** uint64 sums may be taken modulo 2^64 at every step. */
  lemma Wrapped(t: int, a: int)
    ensures (t % U64_SIZE + a) % U64_SIZE == (t + a) % U64_SIZE
  {
    assert t == U64_SIZE * (t / U64_SIZE) + t % U64_SIZE;
  }

  lemma Ranged(keys: seq<bytes>, entries: map<bytes, Record>, start: bytes, end: bytes, lo: nat, hi: nat)
    requires InStep(keys, entries) && lo <= hi <= |keys|
    requires if start == [] then lo == 0 else CutAt(keys, start, lo)
    requires forall j :: lo <= j < hi ==> end == [] || Less(keys[j], end)
    requires hi < |keys| ==> end != [] && !Less(keys[hi], end)
    ensures Within(Listed(keys, entries), start, end) == Listed(keys, entries)[lo..hi]
    ensures Sorted(Listed(keys, entries)[lo..hi])
  {
    hide Less;
    var rs := Listed(keys, entries);
    assert Keys(rs) == keys;
    RangeIsSlice(rs, start, end, lo, hi);
  }

  class MemTable {
    var entries: map<bytes, Record>
    var keys: seq<bytes>
    var used: u64
    const maxBytes: nat

    ghost predicate Valid()
      reads this
    {
      && InStep(keys, entries)
      && used == TotalSize(List()) % U64_SIZE
    }

    ghost function List(): seq<Record>
      reads this
      requires forall i :: 0 <= i < |keys| ==> keys[i] in entries
    {
      Listed(keys, entries)
    }

    constructor (maxBytes: nat)
      ensures Valid() && entries == map[] && this.maxBytes == if maxBytes == 0 then 64 * 1024 * 1024 else maxBytes
    {
      entries, keys, used := map[], [], 0;
      this.maxBytes := if maxBytes == 0 then 64 * 1024 * 1024 else maxBytes;
    }

    /** Replace in place, or shift the sorted keys right to make room. */
    method Upsert(e: Record)
      requires Valid() && e.key != [] && KnownKind(e.kind)
      modifies this
      ensures Valid() && entries == old(entries)[e.key := e]
    {
      hide Less, TotalSize, SortedKeys, Size;
      var k := e.key;
      ghost var total: int := TotalSize(List());
      if k in entries {
        Replaced(keys, entries, e);
        var was: int := Size(entries[k]);
        Wrapped(total, 0 - was);
        used := (used - was) % U64_SIZE;
        total := total - was;
      } else {
        var at := Search(keys, k);
        Inserted(keys, entries, e, at);
        keys := keys[..at] + [k] + keys[at..];
      }
      Wrapped(total, Size(e));
      used := (used + Size(e)) % U64_SIZE;
      entries := entries[k := e];
    }

    method Put(key: bytes, value: bytes, seqno: u64) returns (ok: bool)
      requires Valid()
      modifies this
      ensures Valid() && (ok <==> key != [])
      ensures entries == if ok then old(entries)[key := Record(key, value, PUT, seqno)] else old(entries)
    {
      if key == [] { return false; }
      Upsert(Record(key, value, PUT, seqno));
      return true;
    }

    /** A tombstone is an entry of its own, stored whether or not the key is there. */
    method Delete(key: bytes, seqno: u64) returns (ok: bool)
      requires Valid()
      modifies this
      ensures Valid() && (ok <==> key != [])
      ensures entries == if ok then old(entries)[key := Record(key, [], DELETE, seqno)] else old(entries)
    {
      if key == [] { return false; }
      Upsert(Record(key, [], DELETE, seqno));
      return true;
    }

    method Get(key: bytes) returns (r: Option<Record>)
      requires Valid()
      ensures r == Lookup(List(), key)
      ensures r == if key in entries then Some(entries[key]) else None
    {
      ListedLookup(keys, entries, key);
      if key == [] { return None; }
      r := if key in entries then Some(entries[key]) else None;
    }

    /** Binary search for start, then a walk that stops at end: exactly the range, in key order. */
    method Scan(start: bytes, end: bytes) returns (rs: seq<Record>)
      requires Valid()
      ensures rs == Within(List(), start, end) && Sorted(rs)
    {
      hide Less, TotalSize, SortedKeys, Sorted, Within, KnownKind, InRange;
      var lo := 0;
      if start != [] { lo := Search(keys, start); }
      rs := [];
      var i := lo;
      while i < |keys| && (end == [] || Less(keys[i], end))
        invariant lo <= i <= |keys| && |rs| == i - lo
        invariant forall j :: 0 <= j < |rs| ==> rs[j] == entries[keys[lo + j]]
        invariant forall j :: lo <= j < i ==> end == [] || Less(keys[j], end)
      {
        rs := rs + [entries[keys[i]]];
        i := i + 1;
      }
      assert rs == List()[lo..i];
      Ranged(keys, entries, start, end, lo, i);
    }

    method ShouldFlush() returns (b: bool)
      requires Valid()
      ensures b <==> TotalSize(List()) % U64_SIZE >= maxBytes
    {
      b := used >= maxBytes;
    }
  }

  lemma DistinctKeys(keys: seq<bytes>, i: nat, j: nat)
    requires SortedKeys(keys) && i < |keys| && j < |keys| && i != j
    ensures keys[i] != keys[j]
  {
    LessIrreflexive(keys[i]);
  }

  lemma ListedLookup(keys: seq<bytes>, entries: map<bytes, Record>, k: bytes)
    requires InStep(keys, entries)
    ensures Sorted(Listed(keys, entries))
    ensures Lookup(Listed(keys, entries), k) == if k in entries then Some(entries[k]) else None
  {
    hide Less;
    var rs := Listed(keys, entries);
    if k in entries {
      var i :| 0 <= i < |keys| && keys[i] == k;
      LookupAt(rs, i);
    } else {
      LookupMissing(rs, k);
    }
  }
}
