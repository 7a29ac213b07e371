/** The follower's background sync worker (internal/node/background_sync.go): its counters, its blocked
    state, and its exponential backoff in int64 nanoseconds. */
module Worker {
  import opened Bytes

  const TOP: int := 0x8000_0000_0000_0000

  type i64 = x: int | -0x8000_0000_0000_0000 <= x < 0x8000_0000_0000_0000

  /** What one call of the sync function ends with. */
  datatype Outcome =
    | Success(lagKnown: bool, primaryLatest: u64, lastApplied: u64)
    | Busy
    | Cancelled
    | Gap
    | Failure

  // ---- backoff ----

  /** int64 doubling, wrapping as Go's does. */
  function Twice(x: i64): i64 {
    var y := 2 * x;
    if y >= TOP then y - U64_SIZE else if y < -TOP then y + U64_SIZE else y
  }

  function NextBackoff(initial: i64, max: i64, current: i64): i64 {
    var next := if current <= 0 then initial else Twice(current);
    if next > max then max else next
  }

  function BackoffAfter(initial: i64, max: i64, os: seq<Outcome>): i64 {
    if os == [] then 0
    else
      var before := BackoffAfter(initial, max, os[..|os| - 1]);
      match os[|os| - 1]
      case Success(_, _, _) => 0
      case Busy => 0
      case Failure => NextBackoff(initial, max, before)
      case _ => before
  }

  /** Failures since the last success or busy skip. */
  ghost function Streak(os: seq<Outcome>): nat {
    if os == [] then 0
    else
      var n := Streak(os[..|os| - 1]);
      match os[|os| - 1]
      case Success(_, _, _) => 0
      case Busy => 0
      case Failure => n + 1
      case _ => n
  }

  /** The closed form: min(initial * 2^(n-1), max). */
  ghost function Ideal(initial: i64, max: i64, n: nat): int {
    if n == 0 then 0
    else
      var raw := initial * Pow2(n - 1);
      if raw <= max then raw else max
  }

  lemma DoubledIdeal(initial: i64, max: i64, n: nat)
    requires 0 < initial <= max && n > 0
    ensures 0 < Ideal(initial, max, n) <= max
    ensures Ideal(initial, max, n + 1) == if 2 * Ideal(initial, max, n) <= max then 2 * Ideal(initial, max, n) else max
  {
    var a, b := Pow2(n - 1), Pow2(n);
    assert b == 2 * a;
    assert initial * b == 2 * (initial * a);
    PowPositive(n - 1);
    assert initial * a >= initial;
  }

  lemma {:induction false} PowPositive(n: nat)
    ensures Pow2(n) > 0
  {
    if n > 0 { PowPositive(n - 1); }
  }

  /** Below 2^62 the loop computes the closed form, after any sequence of outcomes. */
  lemma {:induction false} BackoffIsIdeal(initial: i64, max: i64, os: seq<Outcome>)
    requires 0 < initial <= max < TOP / 2
    ensures BackoffAfter(initial, max, os) == Ideal(initial, max, Streak(os))
  {
    if os != [] {
      var init := os[..|os| - 1];
      BackoffIsIdeal(initial, max, init);
      var n := Streak(init);
      if n > 0 {
        DoubledIdeal(initial, max, n);
      } else {
        assert initial * Pow2(0) == initial;
      }
    }
  }

  ghost function Failures(n: nat): (os: seq<Outcome>)
    ensures |os| == n && forall i :: 0 <= i < n ==> os[i] == Failure
  {
    seq(n, _ => Failure)
  }

  lemma {:induction false} FailuresStreak(n: nat)
    ensures Streak(Failures(n)) == n
  {
    if n > 0 {
      assert Failures(n)[..n - 1] == Failures(n - 1);
      FailuresStreak(n - 1);
    }
  }

  lemma OneMoreFailure(initial: i64, max: i64, n: nat)
    ensures BackoffAfter(initial, max, Failures(n + 1))
         == NextBackoff(initial, max, BackoffAfter(initial, max, Failures(n)))
  {
    assert Failures(n + 1)[..n] == Failures(n);
  }

  /** Doubling from 2^62 on wraps to a negative number, doubling below it does not wrap. */
  lemma NextWraps(initial: i64, max: i64, now: i64)
    requires 0 < now <= max
    ensures now >= TOP / 2 ==> NextBackoff(initial, max, now) < 0
    ensures now < TOP / 2 ==> NextBackoff(initial, max, now) == if 2 * now <= max then 2 * now else max
  {
  }

  /** From 2^62 on it does not: some number of failures in a row overflows the doubling. */
  lemma {:induction false} BackoffOverflows(initial: i64, max: i64, n: nat) returns (m: nat)
    requires 0 < initial <= max && max >= TOP / 2 && n > 0
    requires BackoffAfter(initial, max, Failures(n)) == Ideal(initial, max, n)
    ensures BackoffAfter(initial, max, Failures(m)) != Ideal(initial, max, m)
    decreases max - Ideal(initial, max, n)
  {
    DoubledIdeal(initial, max, n);
    DoubledIdeal(initial, max, n + 1);
    hide BackoffAfter, Ideal, NextBackoff, Failures;
    OneMoreFailure(initial, max, n);
    NextWraps(initial, max, Ideal(initial, max, n));
    if Ideal(initial, max, n) >= TOP / 2 {
      m := n + 1;
    } else {
      m := BackoffOverflows(initial, max, n + 1);
    }
  }

  /** The closed form holds for every run exactly when the configured maximum is below 2^62 ns. */
  lemma BackoffIdealIff(initial: i64, max: i64)
    requires 0 < initial <= max
    ensures max < TOP / 2
        <==> forall os :: BackoffAfter(initial, max, os) == Ideal(initial, max, Streak(os))
  {
    if max < TOP / 2 {
      forall os ensures BackoffAfter(initial, max, os) == Ideal(initial, max, Streak(os)) {
        BackoffIsIdeal(initial, max, os);
      }
    } else {
      assert Failures(1)[..0] == [];
      assert initial * Pow2(0) == initial;
      var m := BackoffOverflows(initial, max, 1);
      FailuresStreak(m);
    }
  }

  // ---- counters ----

  datatype Counts = Counts(attempts: nat, successes: nat, failures: nat, skipped: nat, consecutive: nat)

  function Count(os: seq<Outcome>): Counts {
    if os == [] then Counts(0, 0, 0, 0, 0)
    else
      var c := Count(os[..|os| - 1]);
      match os[|os| - 1]
      case Success(_, _, _) => c.(attempts := c.attempts + 1, successes := c.successes + 1, consecutive := 0)
      case Busy => c.(skipped := c.skipped + 1)
      case Cancelled => c
      case _ => c.(attempts := c.attempts + 1, failures := c.failures + 1, consecutive := c.consecutive + 1)
  }

  /** Between syncs every attempt was a success or a failure. */
  lemma {:induction false} AttemptsBalance(os: seq<Outcome>)
    ensures Count(os).attempts == Count(os).successes + Count(os).failures
    ensures Streak(os) <= Count(os).consecutive <= Count(os).failures
  {
    if os != [] { AttemptsBalance(os[..|os| - 1]); }
  }

  datatype Class = Good | Bad | Skipped | BadSinceGood | FailedInARow

  /** What outcome i counts as: a success, a failure of any kind, a skip, a failure since the last success,
      or a retried failure since the last success or skip. */
  ghost predicate CountsAs(os: seq<Outcome>, i: nat, c: Class)
    requires i < |os|
  {
    match c
    case Good => os[i].Success?
    case Bad => os[i].Gap? || os[i].Failure?
    case Skipped => os[i].Busy?
    case BadSinceGood => (os[i].Gap? || os[i].Failure?) && forall j :: i < j < |os| ==> !os[j].Success?
    case FailedInARow => os[i].Failure? && forall j :: i < j < |os| ==> !os[j].Success? && !os[j].Busy?
  }

  ghost function Where(os: seq<Outcome>, c: Class): set<nat> {
    set i: nat | i < |os| && CountsAs(os, i, c)
  }

  lemma WhereLast(os: seq<Outcome>, c: Class)
    requires os != []
    ensures var n := |os| - 1;
            var kept := if (c.BadSinceGood? && os[n].Success?) || (c.FailedInARow? && (os[n].Success? || os[n].Busy?))
                        then {} else Where(os[..n], c);
            n !in kept && Where(os, c) == kept + if CountsAs(os, n, c) then {n} else {}
  {
    var n := |os| - 1;
    forall i: nat | i < n
      ensures CountsAs(os, i, c) <==> && CountsAs(os[..n], i, c)
                                      && !(c.BadSinceGood? && os[n].Success?)
                                      && !(c.FailedInARow? && (os[n].Success? || os[n].Busy?))
    {
      assert forall j :: i < j < n ==> os[..n][j] == os[j];
    }
  }

  ghost function NumberOf(os: seq<Outcome>, c: Class): nat {
    match c
    case Good => Count(os).successes
    case Bad => Count(os).failures
    case Skipped => Count(os).skipped
    case BadSinceGood => Count(os).consecutive
    case FailedInARow => Streak(os)
  }

  /** The counters, and the streak the backoff follows, are numbers of outcomes. */
  lemma {:induction false} CountsAre(os: seq<Outcome>, c: Class)
    ensures NumberOf(os, c) == |Where(os, c)|
  {
    if os == [] {
      assert Where(os, c) == {};
    } else {
      CountsAre(os[..|os| - 1], c);
      WhereLast(os, c);
      hide Where;
    }
  }

  // ---- the worker ----

  /** Go's conversion of a uint64 to int64. */
  function ToInt64(x: u64): i64 {
    if x >= TOP then x - U64_SIZE else x
  }

  datatype State = Running | BackingOff | Blocked

  class SyncWorker {
    const initial: i64
    const max: i64
    var attempts: nat
    var successes: nat
    var failures: nat
    var skipped: nat
    var consecutive: nat
    var state: State
    var lag: Option<i64>
    var backoff: i64

    /** A validated configuration has 0 < InitialBackoff <= MaxBackoff. */
    constructor (initial: i64, max: i64)
      requires 0 < initial <= max
      ensures this.initial == initial && this.max == max && Tracks([]) && state == Running && lag == None
    {
      this.initial, this.max := initial, max;
      attempts, successes, failures, skipped, consecutive := 0, 0, 0, 0, 0;
      state, lag, backoff := Running, None, 0;
    }

    /** The counters and the backoff are those of the outcomes so far. */
    ghost predicate Tracks(os: seq<Outcome>)
      reads this
    {
      && Counts(attempts, successes, failures, skipped, consecutive) == Count(os)
      && backoff == BackoffAfter(initial, max, os)
    }

    /** doSync: the attempt counter goes up first and is taken back for skips and shutdown. */
    method DoSync(o: Outcome, ghost os: seq<Outcome>) returns (blocked: bool)
      requires Tracks(os) && state != Blocked
      modifies this
      ensures Tracks(os + [o]) && (blocked <==> o.Gap?) && state == if blocked then Blocked else Running
      ensures o.Success? ==>
                lag == if o.lagKnown
                       then Some(if o.primaryLatest >= o.lastApplied
                                 then ToInt64(o.primaryLatest - o.lastApplied) else 0)
                       else None
      ensures o.Gap? || o.Failure? ==> lag == None
      ensures o.Busy? || o.Cancelled? ==> lag == old(lag)
    {
      assert (os + [o])[..|os|] == os;
      state := Running;
      attempts := attempts + 1;
      match o {
        case Busy =>
          attempts, skipped := attempts - 1, skipped + 1;
          backoff := 0;
        case Cancelled =>
          attempts := attempts - 1;
        case Gap =>
          failures, consecutive, state, lag := failures + 1, consecutive + 1, Blocked, None;
        case Failure =>
          failures, consecutive, lag := failures + 1, consecutive + 1, None;
          backoff := if backoff <= 0 then initial else Twice(backoff);
          if backoff > max { backoff := max; }
        case Success(known, latest, applied) =>
          backoff := 0;
          successes, consecutive := successes + 1, 0;
          lag := if known then Some(if latest >= applied then ToInt64(latest - applied) else 0) else None;
      }
      return o.Gap?;
    }

    /** run: sync until a gap blocks the worker or the outcomes end with shutdown. No attempt follows
        a gap, and between syncs the counters balance. */
    method Run(outcomes: seq<Outcome>) returns (n: nat)
      requires Tracks([]) && state != Blocked
      modifies this
      ensures n <= |outcomes| && Tracks(outcomes[..n])
      ensures attempts == successes + failures
      ensures forall i :: 0 <= i < n - 1 ==> !outcomes[i].Gap?
      ensures n < |outcomes| ==> n > 0 && outcomes[n - 1].Gap?
      ensures state == Blocked <==> n > 0 && outcomes[n - 1].Gap?
      ensures n > 0 && state != Blocked ==> (state == BackingOff <==> backoff > 0)
      ensures max < TOP / 2 && 0 < initial <= max ==> backoff == Ideal(initial, max, Streak(outcomes[..n]))
    {
      n := 0;
      while n < |outcomes|
        invariant n <= |outcomes| && Tracks(outcomes[..n]) && state != Blocked
        invariant n > 0 ==> (state == BackingOff <==> backoff > 0)
        invariant forall i :: 0 <= i < n ==> !outcomes[i].Gap?
      {
        var blocked := DoSync(outcomes[n], outcomes[..n]);
        n := n + 1;
        assert outcomes[..n] == outcomes[..n - 1] + [outcomes[n - 1]];
        if blocked { break; }
        state := if backoff > 0 then BackingOff else Running;
      }
      AttemptsBalance(outcomes[..n]);
      if 0 < initial <= max < TOP / 2 { BackoffIsIdeal(initial, max, outcomes[..n]); }
    }
  }
}
