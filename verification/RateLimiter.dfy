/** Run quotas. */
module RateLimiter {
  // A sliding one-minute window and a bounded number of concurrent permits.

  import opened Prelude

  const WINDOW := 60.0

  /** Drops the samples at the front that are older than the window. */
  function Expire(window: seq<real>, now: real): (r: seq<real>)
    ensures |r| <= |window| && r == window[|window| - |r|..]
    ensures r != [] ==> now - r[0] <= WINDOW
    ensures forall i :: 0 <= i < |window| - |r| ==> now - window[i] > WINDOW
  {
    if window != [] && now - window[0] > WINDOW then Expire(window[1..], now) else window
  }

  /** One request: the new window and whether the request was accepted. */
  function Count(perMinute: int, window: seq<real>, now: real): (seq<real>, bool) {
    var live := Expire(window, now);
    if |live| >= perMinute then (live, false) else (live + [now], true)
  }

  // ---- Histories of requests, by clock sample ----

  datatype Tally = Tally(window: seq<real>, log: seq<real>)

  /** The window and the log of accepted samples after a history of requests. */
  function Tallied(perMinute: int, samples: seq<real>): Tally {
    if samples == [] then Tally([], [])
    else
      var before, now := Tallied(perMinute, samples[..|samples| - 1]), samples[|samples| - 1];
      var (window, ok) := Count(perMinute, before.window, now);
      Tally(window, if ok then before.log + [now] else before.log)
  }

  predicate Nondecreasing(s: seq<real>) {
    forall i, j :: 0 <= i <= j < |s| ==> s[i] <= s[j]
  }

  /** `window` is the suffix of `log` that is no older than a minute at `now`. */
  ghost predicate IsRecentSuffix(window: seq<real>, log: seq<real>, now: real) {
    && |window| <= |log| && window == log[|log| - |window|..]
    && (forall i :: 0 <= i < |log| - |window| ==> now - log[i] > WINDOW)
    && (forall i :: |log| - |window| <= i < |log| ==> now - log[i] <= WINDOW)
  }

  /** Positions of the accepted requests inside the closed interval from..to. */
  function Within(log: seq<real>, from: real, to: real): set<int> {
    set i | 0 <= i < |log| && from <= log[i] <= to
  }

  /** No accepted request comes within a minute of the one `perMinute` places before it. */
  ghost predicate Spaced(perMinute: int, log: seq<real>) {
    forall i :: 0 <= i < |log| && 0 <= i - perMinute < |log| ==> log[i] - log[i - perMinute] > WINDOW
  }

  ghost predicate TallyInv(perMinute: int, t: Tally, now: real) {
    && Nondecreasing(t.log) && (forall i :: 0 <= i < |t.log| ==> t.log[i] <= now)
    && IsRecentSuffix(t.window, t.log, now) && |t.window| <= perMinute
    && Spaced(perMinute, t.log)
  }

  lemma ExpireKeepsRecent(window: seq<real>, log: seq<real>, earlier: real, now: real)
    requires Nondecreasing(log) && earlier <= now
    requires IsRecentSuffix(window, log, earlier)
    ensures IsRecentSuffix(Expire(window, now), log, now)
  {
    hide Expire, Nondecreasing;
    var k, m := |log| - |window|, |window| - |Expire(window, now)|;
    SuffixOfSuffix(log, window, m);
    forall i | 0 <= i < k + m ensures now - log[i] > WINDOW {
      if i >= k {
        assert window[i - k] == log[i];
      }
    }
    if m < |window| {
      assert window[m] == log[k + m];
      NoneExpireLater(log, k + m, now);
    }
  }

  lemma SuffixOfSuffix(log: seq<real>, window: seq<real>, m: nat)
    requires m <= |window| <= |log| && window == log[|log| - |window|..]
    ensures window[m..] == log[|log| - |window| + m..]
  {
  }

  lemma NoneExpireLater(log: seq<real>, n: nat, now: real)
    requires Nondecreasing(log) && n < |log| && now - log[n] <= WINDOW
    ensures forall i :: n <= i < |log| ==> now - log[i] <= WINDOW
  {
  }

  lemma CountKeepsInv(perMinute: int, t: Tally, earlier: real, now: real)
    requires perMinute > 0 && TallyInv(perMinute, t, earlier) && earlier <= now
    ensures var (window, ok) := Count(perMinute, t.window, now);
      TallyInv(perMinute, Tally(window, if ok then t.log + [now] else t.log), now)
  {
    hide TallyInv;
    ExpireKeepsInv(perMinute, t, earlier, now);
    var live := Expire(t.window, now);
    if |live| < perMinute {
      AppendKeepsRecent(perMinute, live, t.log, now);
    }
  }

  lemma ExpireKeepsInv(perMinute: int, t: Tally, earlier: real, now: real)
    requires TallyInv(perMinute, t, earlier) && earlier <= now
    ensures TallyInv(perMinute, Tally(Expire(t.window, now), t.log), now)
  {
    ExpireKeepsRecent(t.window, t.log, earlier, now);
  }

  lemma AppendKeepsRecent(perMinute: int, live: seq<real>, log: seq<real>, now: real)
    requires perMinute > 0 && |live| < perMinute && TallyInv(perMinute, Tally(live, log), now)
    ensures TallyInv(perMinute, Tally(live + [now], log + [now]), now)
  {
    var log' := log + [now];
    assert log'[|log'| - |live + [now]|..] == live + [now];
    forall i | 0 <= i < |log'| && 0 <= i - perMinute < |log'| ensures log'[i] - log'[i - perMinute] > WINDOW {
      assert log'[i - perMinute] == log[i - perMinute];
      assert i < |log| ==> log'[i] == log[i];
    }
  }

  lemma {:induction false} TallyInvHolds(perMinute: int, samples: seq<real>)
    requires perMinute > 0 && samples != [] && Nondecreasing(samples)
    ensures TallyInv(perMinute, Tallied(perMinute, samples), samples[|samples| - 1])
  {
    var past, now := samples[..|samples| - 1], samples[|samples| - 1];
    var before := Tallied(perMinute, past);
    hide TallyInv, Count;
    if past == [] {
      EmptyTally(perMinute, now);
      CountKeepsInv(perMinute, before, now, now);
    } else {
      PrefixNondecreasing(samples);
      TallyInvHolds(perMinute, past);
      CountKeepsInv(perMinute, before, past[|past| - 1], now);
    }
  }

  lemma PrefixNondecreasing(s: seq<real>)
    requires Nondecreasing(s) && |s| > 1
    ensures Nondecreasing(s[..|s| - 1]) && s[|s| - 2] <= s[|s| - 1]
  {
  }

  lemma EmptyTally(perMinute: int, now: real)
    requires perMinute > 0
    ensures TallyInv(perMinute, Tally([], []), now)
  {
  }

  /** After every request the deque is exactly the accepted requests no older than a minute. */
  lemma WindowIsTheLastMinute(perMinute: int, samples: seq<real>)
    requires perMinute > 0 && samples != [] && Nondecreasing(samples)
    ensures var t, now := Tallied(perMinute, samples), samples[|samples| - 1];
      IsRecentSuffix(t.window, t.log, now) && |t.window| == |Within(t.log, now - WINDOW, now)|
  {
    hide Tallied, Count, Spaced;
    TallyInvHolds(perMinute, samples);
    var t, now := Tallied(perMinute, samples), samples[|samples| - 1];
    SuffixSize(t.window, t.log, now);
  }

  lemma SuffixSize(window: seq<real>, log: seq<real>, now: real)
    requires IsRecentSuffix(window, log, now) && forall i :: 0 <= i < |log| ==> log[i] <= now
    ensures |Within(log, now - WINDOW, now)| == |window|
  {
    assert Within(log, now - WINDOW, now) == Interval(|log| - |window|, |log|);
  }

  /** The integers from lo up to but not including hi. */
  function Interval(lo: int, hi: int): (s: set<int>)
    ensures forall i :: i in s <==> lo <= i < hi
    ensures |s| == if lo <= hi then hi - lo else 0
    decreases hi - lo
  {
    if lo >= hi then {} else Interval(lo, hi - 1) + {hi - 1}
  }

  /** No closed one-minute interval ever holds more than `perMinute` accepted requests. */
  lemma NoMinuteHoldsMore(perMinute: int, samples: seq<real>, from: real)
    requires perMinute > 0 && Nondecreasing(samples)
    ensures |Within(Tallied(perMinute, samples).log, from, from + WINDOW)| <= perMinute
  {
    var log := Tallied(perMinute, samples).log;
    var inside := Within(log, from, from + WINDOW);
    if exists i :: i in inside {
      TallyInvHolds(perMinute, samples);
      var some :| some in inside;
      var last := Greatest(inside, some, |log|);
      assert 0 <= last - perMinute ==> log[last] - log[last - perMinute] > WINDOW;
      assert inside <= Interval(last - perMinute + 1, last + 1);
      SubsetCardinality(inside, Interval(last - perMinute + 1, last + 1));
    } else {
      assert inside == {};
    }
  }

  lemma {:induction false} Greatest(s: set<int>, some: int, n: nat) returns (m: int)
    requires some in s && forall i :: i in s ==> 0 <= i < n
    ensures m in s && forall i :: i in s ==> i <= m
    decreases n
  {
    if n - 1 in s {
      m := n - 1;
    } else {
      m := Greatest(s, some, n - 1);
    }
  }

  /** A request is refused exactly when the minute ending at it already holds `perMinute` accepted ones. */
  lemma RefusedIffFull(perMinute: int, samples: seq<real>, now: real)
    requires perMinute > 0 && Nondecreasing(samples + [now])
    ensures var t := Tallied(perMinute, samples);
      !Count(perMinute, t.window, now).1 <==> |Within(t.log, now - 60.0, now)| == perMinute
  {
    hide Tallied, Spaced;
    var t := Tallied(perMinute, samples);
    if samples == [] {
      NothingTallied(perMinute);
    } else {
      assert (samples + [now])[..|samples|] == samples;
      PrefixNondecreasing(samples + [now]);
      TallyInvHolds(perMinute, samples);
      ExpireKeepsRecent(t.window, t.log, samples[|samples| - 1], now);
    }
    SuffixSize(Expire(t.window, now), t.log, now);
  }

  lemma NothingTallied(perMinute: int)
    ensures Tallied(perMinute, []) == Tally([], [])
  {
  }

  // ---- Samples that reach the window late ----

  /** No sample is more than `d` behind an earlier one. */
  predicate WithinLateness(samples: seq<real>, d: real) {
    forall i, j :: 0 <= i <= j < |samples| ==> samples[j] >= samples[i] - d
  }

  /** No closed minute holds more than `perMinute` of the requests accepted from these samples. */
  ghost predicate RespectsQuota(perMinute: int, samples: seq<real>) {
    forall from :: MinuteFits(perMinute, Tallied(perMinute, samples).log, from)
  }

  ghost predicate MinuteFits(perMinute: int, log: seq<real>, from: real) {
    |Within(log, from, from + WINDOW)| <= perMinute
  }

  /** With a quota of one the window is the last accepted sample, and accepted samples are over a minute apart. */
  ghost predicate SingleInv(t: Tally) {
    && t.window == (if t.log == [] then [] else [t.log[|t.log| - 1]])
    && forall i, j :: 0 <= i < j < |t.log| ==> t.log[j] - t.log[i] > WINDOW
  }

  lemma {:induction false} SingleInvHolds(samples: seq<real>)
    ensures SingleInv(Tallied(1, samples))
  {
    if samples != [] {
      var before, now := Tallied(1, samples[..|samples| - 1]), samples[|samples| - 1];
      SingleInvHolds(samples[..|samples| - 1]);
      SingleStep(before, now);
    }
  }

  lemma SingleStep(t: Tally, now: real)
    requires SingleInv(t)
    ensures var (window, ok) := Count(1, t.window, now);
      SingleInv(Tally(window, if ok then t.log + [now] else t.log))
  {
    if t.log != [] {
      var last := t.log[|t.log| - 1];
      assert [last][1..] == [];
      var log' := t.log + [now];
      if now - last > WINDOW {
        forall i | 0 <= i < |t.log| ensures now - log'[i] > WINDOW {
          assert i < |t.log| - 1 ==> last - t.log[i] > WINDOW;
        }
      }
    }
  }

  /** A quota of one holds whatever the order of the samples. */
  lemma QuotaOfOneAlwaysHolds(samples: seq<real>)
    ensures RespectsQuota(1, samples)
  {
    hide Tallied;
    SingleInvHolds(samples);
    var log := Tallied(1, samples).log;
    forall from ensures MinuteFits(1, log, from) {
      var inside := Within(log, from, from + WINDOW);
      if inside != {} {
        var i :| i in inside;
        assert inside == {i};
      }
    }
  }

  function Repeat(x: real, n: nat): (s: seq<real>)
    ensures |s| == n && forall i :: 0 <= i < n ==> s[i] == x
  {
    seq(n, _ => x)
  }

  /** `k` requests at once, one just after their minute, and one that is `d` late. */
  function LateHistory(k: nat, d: real): seq<real> {
    Repeat(0.0, k) + [WINDOW + d] + [WINDOW]
  }

  lemma {:induction false} SimultaneousTally(k: nat, n: nat)
    requires n <= k
    ensures Tallied(k, Repeat(0.0, n)) == Tally(Repeat(0.0, n), Repeat(0.0, n))
  {
    hide Tallied;
    if n == 0 {
      NothingTallied(k);
      assert Repeat(0.0, 0) == [];
    } else {
      var r := Repeat(0.0, n - 1);
      SimultaneousTally(k, n - 1);
      assert Expire(r, 0.0) == r;
      TallyOne(k, r, Tally(r, r), 0.0, r);
      assert r + [0.0] == Repeat(0.0, n);
    }
  }

  lemma {:induction false} AllExpire(n: nat, now: real)
    requires now > WINDOW
    ensures Expire(Repeat(0.0, n), now) == []
  {
    if n > 0 {
      assert Repeat(0.0, n)[1..] == Repeat(0.0, n - 1);
      AllExpire(n - 1, now);
    }
  }

  lemma NothingExpires(sample: real, now: real)
    requires now - sample <= WINDOW
    ensures Expire([sample], now) == [sample]
  {
  }

  /** Any lateness at all lets one request too many into a minute of a quota of two or more. */
  lemma OutOfOrderSamplesOverfill(k: nat, d: real)
    requires k >= 2 && d > 0.0
    ensures WithinLateness(LateHistory(k, d), d)
    ensures |Within(Tallied(k, LateHistory(k, d)).log, 0.0, WINDOW)| == k + 1
  {
    hide Tallied, Within, Expire, Repeat;
    var zeros := Repeat(0.0, k);
    SimultaneousTally(k, k);
    AllExpire(k, WINDOW + d);
    TallyOne(k, zeros, Tally(zeros, zeros), WINDOW + d, []);
    var next := zeros + [WINDOW + d];
    assert [] + [WINDOW + d] == [WINDOW + d];
    NothingExpires(WINDOW + d, WINDOW);
    TallyOne(k, next, Tally([WINDOW + d], next), WINDOW, [WINDOW + d]);
    assert Tallied(k, LateHistory(k, d)).log == LateHistory(k, d);
    InsideFirstMinute(k, d);
  }

  lemma InsideFirstMinute(k: nat, d: real)
    requires d > 0.0
    ensures |Within(LateHistory(k, d), 0.0, WINDOW)| == k + 1
  {
    hide Repeat;
    var log := LateHistory(k, d);
    assert |log| == k + 2 && log[k] == WINDOW + d && log[k + 1] == WINDOW;
    forall i | 0 <= i < k ensures log[i] == 0.0 {
      assert log[i] == Repeat(0.0, k)[i];
    }
    hide LateHistory;
    assert Within(log, 0.0, WINDOW) == Interval(0, k) + {k + 1};
  }

  /** Every history whose samples are at most `d` late respects the quota exactly when the quota is one or `d` is zero. */
  lemma QuotaHoldsIff(perMinute: int, d: real)
    requires perMinute > 0 && d >= 0.0
    ensures (forall samples :: WithinLateness(samples, d) ==> RespectsQuota(perMinute, samples))
       <==> perMinute == 1 || d == 0.0
  {
    hide Tallied, Within;
    if perMinute == 1 || d == 0.0 {
      forall samples | WithinLateness(samples, d) ensures RespectsQuota(perMinute, samples) {
        if perMinute == 1 {
          QuotaOfOneAlwaysHolds(samples);
        } else {
          forall from ensures MinuteFits(perMinute, Tallied(perMinute, samples).log, from) {
            NoMinuteHoldsMore(perMinute, samples, from);
          }
        }
      }
    } else {
      OutOfOrderSamplesOverfill(perMinute, d);
      var samples := LateHistory(perMinute, d);
      assert !MinuteFits(perMinute, Tallied(perMinute, samples).log, 0.0);
    }
  }

  lemma TallyOne(perMinute: int, samples: seq<real>, t: Tally, now: real, live: seq<real>)
    requires Tallied(perMinute, samples) == t && live == Expire(t.window, now) && |live| < perMinute
    ensures Tallied(perMinute, samples + [now]) == Tally(live + [now], t.log + [now])
  {
    assert (samples + [now])[..|samples|] == samples;
  }

  // ---- The limiter object ----

  datatype Refusal = RunInProgress | RateExceeded

  class RunRateLimiter {
    const perMinute: int
    const maxConcurrent: int
    var free: int
    var window: seq<real>

    constructor (perMinute: int, maxConcurrent: int)
      requires maxConcurrent >= 0
      ensures free == maxConcurrent && window == []
      ensures this.perMinute == perMinute && this.maxConcurrent == maxConcurrent
    {
      this.perMinute, this.maxConcurrent := perMinute, maxConcurrent;
      free, window := maxConcurrent, [];
    }

    method CountRequest(now: real) returns (ok: bool)
      modifies this`window
      ensures (window, ok) == Count(perMinute, old(window), now)
    {
      while |window| > 0 && now - window[0] > WINDOW
        invariant Expire(window, now) == Expire(old(window), now)
        decreases |window|
      {
        window := window[1..];
      }
      if |window| >= perMinute {
        return false;
      }
      window := window + [now];
      return true;
    }

    /** Takes a permit and counts the request; a refusal of either kind keeps every permit. */
    method Acquire(now: real) returns (refusal: Option<Refusal>)
      modifies this
      ensures (free, window, refusal) == AcquireSpec(perMinute, old(free), old(window), now)
    {
      if free <= 0 {
        return Some(RunInProgress);
      }
      free := free - 1;
      var ok := CountRequest(now);
      if !ok {
        free := free + 1;
        return Some(RateExceeded);
      }
      return None;
    }

    /** A bounded semaphore: releasing a permit that was never taken is an error. */
    method Release() returns (ok: bool)
      modifies this`free
      ensures ok <==> old(free) < maxConcurrent
      ensures free == if ok then old(free) + 1 else old(free)
    {
      if free >= maxConcurrent {
        return false;
      }
      free := free + 1;
      return true;
    }
  }

  function AcquireSpec(perMinute: int, free: int, window: seq<real>, now: real): (int, seq<real>, Option<Refusal>) {
    if free <= 0 then (free, window, Some(RunInProgress))
    else
      var (w, ok) := Count(perMinute, window, now);
      if ok then (free - 1, w, None) else (free, w, Some(RateExceeded))
  }

  /** A refused admission keeps every permit, and one refused for concurrency takes no window slot. */
  lemma RefusalTakesNothing(perMinute: int, free: int, window: seq<real>, now: real)
    ensures var (f, w, r) := AcquireSpec(perMinute, free, window, now);
      && (r.Some? ==> f == free && |w| <= |window|)
      && (r == Some(RunInProgress) <==> free <= 0)
      && (r == Some(RunInProgress) ==> w == window)
      && (r.None? ==> f == free - 1 && w != [] && w[|w| - 1] == now)
  {
  }
}
