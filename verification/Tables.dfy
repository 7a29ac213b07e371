/** Sorted runs of records: what a MemTable and an SSTable both mean. Lookup and range filtering are
    defined by linear search, and the searches of both are proved to agree with them. */
module Tables {
  import opened Bytes
  import opened Records

  ghost predicate SortedKeys(ks: seq<bytes>) {
    forall i, j :: 0 <= i < j < |ks| ==> Less(ks[i], ks[j])
  }

  ghost predicate Sorted(rs: seq<Record>) {
    forall i, j :: 0 <= i < j < |rs| ==> Less(rs[i].key, rs[j].key)
  }

  function Keys(rs: seq<Record>): (ks: seq<bytes>)
    ensures |ks| == |rs| && forall i :: 0 <= i < |rs| ==> ks[i] == rs[i].key
  {
    seq(|rs|, i requires 0 <= i < |rs| => rs[i].key)
  }

  /** Linear lookup. */
  function Lookup(rs: seq<Record>, k: bytes): Option<Record> {
    if rs == [] then None
    else if rs[|rs| - 1].key == k then Some(rs[|rs| - 1])
    else Lookup(rs[..|rs| - 1], k)
  }

  /** The half-open range; an empty bound is no bound. */
  predicate InRange(start: bytes, end: bytes, k: bytes) {
    (start == [] || !Less(k, start)) && (end == [] || Less(k, end))
  }

  function Within(rs: seq<Record>, start: bytes, end: bytes): seq<Record> {
    if rs == [] then []
    else
      var r := rs[|rs| - 1];
      Within(rs[..|rs| - 1], start, end) + if InRange(start, end, r.key) then [r] else []
  }

  ghost predicate HasKey(rs: seq<Record>, k: bytes) {
    exists i :: 0 <= i < |rs| && rs[i].key == k
  }

  lemma {:induction false} LookupSound(rs: seq<Record>, k: bytes)
    ensures Lookup(rs, k).Some? <==> HasKey(rs, k)
    ensures Lookup(rs, k).Some? ==> Lookup(rs, k).value in rs && Lookup(rs, k).value.key == k
  {
    if rs != [] {
      LookupSound(rs[..|rs| - 1], k);
      assert rs == rs[..|rs| - 1] + [rs[|rs| - 1]];
    }
  }

  /** Distinct keys leave a lookup only one answer. */
  lemma {:induction false} LookupAt(rs: seq<Record>, i: nat)
    requires Sorted(rs) && i < |rs|
    ensures Lookup(rs, rs[i].key) == Some(rs[i])
  {
    if i < |rs| - 1 {
      LessAsymmetric(rs[i].key, rs[|rs| - 1].key);
      LookupAt(rs[..|rs| - 1], i);
    }
  }

  lemma LookupMissing(rs: seq<Record>, k: bytes)
    requires forall i :: 0 <= i < |rs| ==> rs[i].key != k
    ensures Lookup(rs, k) == None
  {
    LookupSound(rs, k);
  }

  /** Adjacent order is pairwise order. */
  lemma {:induction false} SortedExtend(rs: seq<Record>, r: Record)
    requires Sorted(rs) && (rs != [] ==> Less(rs[|rs| - 1].key, r.key))
    ensures Sorted(rs + [r])
  {
    forall i | 0 <= i < |rs| - 1 ensures Less(rs[i].key, r.key) {
      LessTransitive(rs[i].key, rs[|rs| - 1].key, r.key);
    }
  }

  /** Where a sorted run is cut at the first key that is not below k (sort.Search). */
  ghost predicate CutAt(ks: seq<bytes>, k: bytes, at: nat) {
    && at <= |ks|
    && (forall i :: 0 <= i < at ==> Less(ks[i], k))
    && (forall i :: at <= i < |ks| ==> !Less(ks[i], k))
  }

  lemma SortedPrefix(ks: seq<bytes>, k: bytes, mid: nat)
    requires SortedKeys(ks) && mid < |ks|
    ensures Less(ks[mid], k) ==> forall i :: 0 <= i <= mid ==> Less(ks[i], k)
    ensures !Less(ks[mid], k) ==> forall i :: mid <= i < |ks| ==> !Less(ks[i], k)
  {
    forall i | 0 <= i < mid && Less(ks[mid], k) ensures Less(ks[i], k) {
      LessTransitive(ks[i], ks[mid], k);
    }
    forall i | mid < i < |ks| && !Less(ks[mid], k) ensures !Less(ks[i], k) {
      if Less(ks[i], k) { LessTransitive(ks[mid], ks[i], k); }
    }
  }

  /** sort.SearchStrings. */
  method Search(ks: seq<bytes>, k: bytes) returns (at: nat)
    requires SortedKeys(ks)
    ensures CutAt(ks, k, at)
  {
    hide Less;
    var hi;
    at, hi := 0, |ks|;
    while at < hi
      invariant 0 <= at <= hi <= |ks|
      invariant forall i :: 0 <= i < at ==> Less(ks[i], k)
      invariant forall i :: hi <= i < |ks| ==> !Less(ks[i], k)
    {
      var mid := (at + hi) / 2;
      SortedPrefix(ks, k, mid);
      if Less(ks[mid], k) { at := mid + 1; } else { hi := mid; }
    }
  }

  /** After the cut, k can only be the very next key. */
  lemma FoundAtCut(ks: seq<bytes>, k: bytes, at: nat)
    requires SortedKeys(ks) && CutAt(ks, k, at)
    ensures k in ks <==> at < |ks| && ks[at] == k
  {
    LessIrreflexive(k);
    if k in ks {
      var i :| 0 <= i < |ks| && ks[i] == k;
      if i > at { assert Less(ks[at], ks[i]); }
    }
  }

  lemma {:induction false} WithinTail(rs: seq<Record>, start: bytes, end: bytes, lo: nat)
    requires lo <= |rs|
    requires forall i :: 0 <= i < lo ==> !InRange(start, end, rs[i].key)
    requires forall i :: lo <= i < |rs| ==> InRange(start, end, rs[i].key)
    ensures Within(rs, start, end) == rs[lo..]
    decreases |rs|
  {
    hide InRange;
    if rs != [] {
      var n := |rs| - 1;
      if lo <= n {
        WithinTail(rs[..n], start, end, lo);
        assert rs[lo..] == rs[..n][lo..] + [rs[n]];
      } else {
        WithinTail(rs[..n], start, end, n);
      }
    }
  }

  /** A range of a sorted run is one slice: lo cuts at start, hi at end. */
  lemma {:induction false} WithinSlice(rs: seq<Record>, start: bytes, end: bytes, lo: nat, hi: nat)
    requires lo <= hi <= |rs|
    requires forall i :: 0 <= i < lo ==> !InRange(start, end, rs[i].key)
    requires forall i :: lo <= i < hi ==> InRange(start, end, rs[i].key)
    requires forall i :: hi <= i < |rs| ==> !InRange(start, end, rs[i].key)
    ensures Within(rs, start, end) == rs[lo..hi]
    decreases |rs|
  {
    hide InRange;
    if hi == |rs| {
      WithinTail(rs, start, end, lo);
    } else {
      WithinSlice(rs[..|rs| - 1], start, end, lo, hi);
      SubSlice(rs, 0, |rs| - 1, lo, hi);
    }
  }

  /** What both Scans compute: cut at start, walk on to the first key that is not below end. */
  lemma RangeIsSlice(rs: seq<Record>, start: bytes, end: bytes, lo: nat, hi: nat)
    requires Sorted(rs) && lo <= hi <= |rs|
    requires if start == [] then lo == 0 else CutAt(Keys(rs), start, lo)
    requires forall j :: lo <= j < hi ==> end == [] || Less(rs[j].key, end)
    requires hi < |rs| ==> end != [] && !Less(rs[hi].key, end)
    ensures Within(rs, start, end) == rs[lo..hi] && Sorted(rs[lo..hi])
  {
    hide Less;
    if hi < |rs| { SortedPrefix(Keys(rs), end, hi); }
    assert forall i :: 0 <= i < |rs| ==> Keys(rs)[i] == rs[i].key;
    WithinSlice(rs, start, end, lo, hi);
  }

  lemma {:induction false} WithinAll(rs: seq<Record>)
    ensures Within(rs, [], []) == rs
  {
    WithinSlice(rs, [], [], 0, |rs|);
  }

  /** Filtering keeps order and answers lookups inside the range. */
  lemma {:induction false} LookupWithin(rs: seq<Record>, start: bytes, end: bytes, k: bytes)
    ensures Lookup(Within(rs, start, end), k) == if InRange(start, end, k) then Lookup(rs, k) else None
  {
    if rs != [] {
      var init, r := rs[..|rs| - 1], rs[|rs| - 1];
      LookupWithin(init, start, end, k);
      var w := Within(init, start, end);
      assert (w + [r])[..|w|] == w && w + [] == w;
    }
  }
}
