/** The sliding-window limiter in front of tool execution
    (src/cland/internal/toolexec/ratelimit.go; the peer-add limiter of
    src/cland/internal/peers/peers.go runs the same algorithm) and the fixed-window
    bucket in front of knocks (src/cland/internal/membership/knock.go). */
module RateLimit {
  import opened Wrappers

  // ---------- sliding window ----------

  /** The timestamps after `cutoff`. */
  function Kept(ts: seq<Instant>, cutoff: int): seq<Instant> {
    if ts == [] then []
    else Kept(ts[..|ts| - 1], cutoff) + if ts[|ts| - 1] > cutoff then [ts[|ts| - 1]] else []
  }

  function Admit(ts: seq<Instant>, now: Instant, burst: nat, window: nat): (seq<Instant>, bool) {
    var kept := Kept(ts, now - window);
    if |kept| >= burst then (kept, false) else (kept + [now], true)
  }

  type Buckets = map<string, seq<Instant>>

  function BucketOf(b: Buckets, origin: string): seq<Instant> { if origin in b then b[origin] else [] }

  function Allowed(b: Buckets, origin: string, now: Instant, burst: nat, window: nat): (Buckets, bool) {
    if origin == "" then (b, true)
    else
      var (ts, ok) := Admit(BucketOf(b, origin), now, burst, window);
      (b[origin := ts], ok)
  }

  class RateLimiter {
    const burst: nat
    const window: nat
    var buckets: Buckets

    constructor (burst: int, window: int)
      ensures buckets == map[]
      ensures this.burst == (if burst <= 0 then 10 else burst) && this.window == (if window <= 0 then 60 else window)
    {
      this.burst := if burst <= 0 then 10 else burst;
      this.window := if window <= 0 then 60 else window;
      buckets := map[];
    }

    method Allow(origin: string, now: Instant) returns (ok: bool)
      modifies this
      ensures (buckets, ok) == Allowed(old(buckets), origin, now, burst, window)
    {
      if origin == "" { return true; }
      var ts := if origin in buckets then buckets[origin] else [];
      var kept := [];
      for i := 0 to |ts|
        invariant kept == Kept(ts[..i], now - window)
      {
        assert ts[..i + 1][..i] == ts[..i];
        if ts[i] > now - window { kept := kept + [ts[i]]; }
      }
      assert ts[..|ts|] == ts;
      if |kept| >= burst {
        buckets := buckets[origin := kept];
        return false;
      }
      buckets := buckets[origin := kept + [now]];
      ok := true;
    }
  }

  datatype Call = Call(origin: string, now: Instant)

  ghost predicate ClockRuns(calls: seq<Call>) {
    forall i, j :: 0 <= i < j < |calls| ==> calls[i].now <= calls[j].now
  }

  lemma ClockRunsPrefix(calls: seq<Call>)
    requires ClockRuns(calls) && calls != []
    ensures ClockRuns(calls[..|calls| - 1])
    ensures |calls| > 1 ==> calls[|calls| - 2].now <= calls[|calls| - 1].now
  {
  }

  function RunCalls(calls: seq<Call>, burst: nat, window: nat): Buckets {
    if calls == [] then map[]
    else
      var c := calls[|calls| - 1];
      Allowed(RunCalls(calls[..|calls| - 1], burst, window), c.origin, c.now, burst, window).0
  }

  /** The instants at which `origin` was admitted. */
  function Admitted(calls: seq<Call>, origin: string, burst: nat, window: nat): seq<Instant> {
    if calls == [] then []
    else
      var before, c := calls[..|calls| - 1], calls[|calls| - 1];
      Admitted(before, origin, burst, window)
      + if c.origin == origin && Allowed(RunCalls(before, burst, window), origin, c.now, burst, window).1
        then [c.now] else []
  }

  /** How many elements of `ts` lie in `[lo, lo + width]`. */
  function Within(ts: seq<Instant>, lo: int, width: int): nat {
    if ts == [] then 0
    else Within(ts[..|ts| - 1], lo, width) + if lo <= ts[|ts| - 1] <= lo + width then 1 else 0
  }

  /** No admission sees more than `burst` admissions, itself included, in the window
      that ends with it. */
  ghost predicate Bounded(a: seq<Instant>, burst: nat, window: nat) {
    forall i :: 0 < i <= |a| ==> |Kept(a[..i], a[i - 1] - window)| <= burst
  }

  lemma {:induction false} KeptTwice(ts: seq<Instant>, c: int, d: int)
    requires c <= d
    ensures Kept(Kept(ts, c), d) == Kept(ts, d)
  {
    if ts != [] {
      KeptTwice(ts[..|ts| - 1], c, d);
      var k := Kept(ts[..|ts| - 1], c);
      if ts[|ts| - 1] > c {
        assert Kept(ts, c)[..|k|] == k;
      } else {
        assert k + [] == k && Kept(ts[..|ts| - 1], d) + [] == Kept(ts[..|ts| - 1], d);
      }
    }
  }

  lemma KeptAppend(a: seq<Instant>, x: Instant, c: int)
    ensures Kept(a + [x], c) == Kept(a, c) + if x > c then [x] else []
  {
    assert (a + [x])[..|a|] == a;
  }

  /** The positions of the stamps after the cutoff. */
  ghost function Later(ts: seq<Instant>, cutoff: int): set<nat> { set i: nat | i < |ts| && ts[i] > cutoff }

  lemma {:induction false} KeptIsLater(ts: seq<Instant>, cutoff: int)
    ensures |Kept(ts, cutoff)| == |Later(ts, cutoff)|
  {
    if ts == [] {
      assert Later(ts, cutoff) == {};
    } else {
      var n := |ts| - 1;
      KeptIsLater(ts[..n], cutoff);
      assert Later(ts, cutoff) == Later(ts[..n], cutoff) + if ts[n] > cutoff then {n} else {};
    }
  }

  /** The whole limiter, in its own terms: the empty origin always passes and leaves no
      trace; a named one passes when fewer than `burst` of its stamps are later than a
      window ago, and then leaves one. What is older is forgotten, in order. */
  lemma AllowedSpelled(b: Buckets, origin: string, now: Instant, burst: nat, window: nat)
    ensures var (d, ok) := Allowed(b, origin, now, burst, window);
            var ts := if origin in b then b[origin] else [];
            && (ok <==> origin == "" || |Later(ts, now - window)| < burst)
            && d == (if origin == "" then b else b[origin := Kept(ts, now - window) + if ok then [now] else []])
  {
    var ts := if origin in b then b[origin] else [];
    KeptIsLater(ts, now - window);
    assert Kept(ts, now - window) + [] == Kept(ts, now - window);
  }

  lemma {:induction false} KeptSpelled(a: seq<Instant>, b: seq<Instant>, cutoff: int)
    ensures Kept(a + b, cutoff) == Kept(a, cutoff) + Kept(b, cutoff)
    ensures |b| == 1 ==> Kept(b, cutoff) == if b[0] > cutoff then b else []
  {
    if b == [] {
      assert a + b == a;
    } else {
      assert (a + b)[..|a + b| - 1] == a + b[..|b| - 1];
      KeptSpelled(a, b[..|b| - 1], cutoff);
    }
  }

  lemma {:induction false} KeptKeeps(ts: seq<Instant>, c: int, t: Instant)
    requires t in ts && t > c
    ensures t in Kept(ts, c)
  {
    var before, last := ts[..|ts| - 1], ts[|ts| - 1];
    assert ts == before + [last];
    if t in before { KeptKeeps(before, c, t); }
  }

  /** Past the last cutoff, the bucket and the admissions are the same. */
  lemma {:induction false} AdmissionsFollowBucket(calls: seq<Call>, origin: string, burst: nat, window: nat, cutoff: int)
    requires ClockRuns(calls) && origin != ""
    requires calls != [] ==> cutoff >= calls[|calls| - 1].now - window
    ensures Kept(BucketOf(RunCalls(calls, burst, window), origin), cutoff)
            == Kept(Admitted(calls, origin, burst, window), cutoff)
  {
    if calls != [] {
      var before, c := calls[..|calls| - 1], calls[|calls| - 1];
      ClockRunsPrefix(calls);
      AdmissionsFollowBucket(before, origin, burst, window, cutoff);
      BucketStep(RunCalls(before, burst, window), Admitted(before, origin, burst, window), c, origin, burst, window, cutoff);
    }
  }

  lemma BucketStep(b: Buckets, a: seq<Instant>, c: Call, origin: string, burst: nat, window: nat, cutoff: int)
    requires origin != "" && cutoff >= c.now - window
    requires Kept(BucketOf(b, origin), cutoff) == Kept(a, cutoff)
    ensures var (d, ok) := Allowed(b, c.origin, c.now, burst, window);
            Kept(BucketOf(d, origin), cutoff) == Kept(a + if c.origin == origin && ok then [c.now] else [], cutoff)
  {
    assert a + [] == a;
    if c.origin == origin {
      AdmitStep(BucketOf(b, origin), c.now, burst, window, cutoff);
      KeptAppend(a, c.now, cutoff);
    }
  }

  lemma AdmitStep(ts: seq<Instant>, now: Instant, burst: nat, window: nat, cutoff: int)
    requires cutoff >= now - window
    ensures var (d, ok) := Admit(ts, now, burst, window);
            Kept(d, cutoff) == Kept(ts, cutoff) + if ok && now > cutoff then [now] else []
  {
    var kept := Kept(ts, now - window);
    KeptTwice(ts, now - window, cutoff);
    AdmitOnto(kept, Kept(ts, cutoff), now, |kept| < burst, cutoff);
  }

  lemma AdmitOnto(kept: seq<Instant>, before: seq<Instant>, now: Instant, ok: bool, cutoff: int)
    requires Kept(kept, cutoff) == before
    ensures Kept(if ok then kept + [now] else kept, cutoff) == before + if ok && now > cutoff then [now] else []
  {
    if ok { KeptAppend(kept, now, cutoff); } else { assert before + [] == before; }
  }

  lemma BoundedAppend(a: seq<Instant>, x: Instant, burst: nat, window: nat)
    requires Bounded(a, burst, window) && |Kept(a, x - window)| < burst
    ensures Bounded(a + [x], burst, window)
  {
    var b := a + [x];
    assert |Kept(b, x - window)| <= burst by { KeptAppend(a, x, x - window); }
    forall i | 0 < i <= |b| ensures |Kept(b[..i], b[i - 1] - window)| <= burst {
      if i <= |a| {
        assert b[..i] == a[..i] && b[i - 1] == a[i - 1];
      } else {
        assert b[..i] == b;
      }
    }
  }

  lemma {:induction false} AdmissionsBounded(calls: seq<Call>, origin: string, burst: nat, window: nat)
    requires ClockRuns(calls) && origin != ""
    ensures Bounded(Admitted(calls, origin, burst, window), burst, window)
  {
    if calls != [] {
      var before, c := calls[..|calls| - 1], calls[|calls| - 1];
      ClockRunsPrefix(calls);
      AdmissionsBounded(before, origin, burst, window);
      AdmissionsFollowBucket(before, origin, burst, window, c.now - window);
      BoundedStep(RunCalls(before, burst, window), Admitted(before, origin, burst, window), origin, c, burst, window);
    }
  }

  lemma BoundedStep(b: Buckets, a: seq<Instant>, origin: string, c: Call, burst: nat, window: nat)
    requires origin != "" && Bounded(a, burst, window)
    requires Kept(BucketOf(b, origin), c.now - window) == Kept(a, c.now - window)
    ensures Bounded(a + if c.origin == origin && Allowed(b, origin, c.now, burst, window).1 then [c.now] else [], burst, window)
  {
    assert a + [] == a;
    if c.origin == origin && Allowed(b, origin, c.now, burst, window).1 {
      BoundedAppend(a, c.now, burst, window);
    }
  }

  lemma {:induction false} WithinKept(a: seq<Instant>, lo: int, width: int)
    ensures Within(a, lo, width) <= |Kept(a, lo - 1)|
  {
    if a != [] { WithinKept(a[..|a| - 1], lo, width); }
  }

  lemma {:induction false} KeptMonotone(a: seq<Instant>, c: int, d: int)
    requires c <= d
    ensures |Kept(a, d)| <= |Kept(a, c)|
  {
    if a != [] { KeptMonotone(a[..|a| - 1], c, d); }
  }

  lemma BoundedPrefix(a: seq<Instant>, burst: nat, window: nat)
    requires Bounded(a, burst, window) && a != []
    ensures Bounded(a[..|a| - 1], burst, window)
    ensures |Kept(a, a[|a| - 1] - window)| <= burst
  {
    var b := a[..|a| - 1];
    forall i | 0 < i <= |b| ensures |Kept(b[..i], b[i - 1] - window)| <= burst { assert b[..i] == a[..i]; }
    assert a[..|a|] == a;
  }

  lemma {:induction false} BoundedWindows(a: seq<Instant>, burst: nat, window: nat, lo: int)
    requires Bounded(a, burst, window) && window > 0
    ensures Within(a, lo, window - 1) <= burst
  {
    if a != [] {
      var b, last := a[..|a| - 1], a[|a| - 1];
      BoundedPrefix(a, burst, window);
      if lo <= last <= lo + window - 1 {
        WithinKept(a, lo, window - 1);
        KeptMonotone(a, last - window, lo - 1);
      } else {
        BoundedWindows(b, burst, window, lo);
      }
    }
  }

  /** Over any run with a forward clock, every window of length `window`, one end open,
      holds at most `burst` admissions of a named origin. */
  lemma SlidingWindowBound(calls: seq<Call>, origin: string, burst: nat, window: nat, lo: int)
    requires ClockRuns(calls) && origin != "" && window > 0
    ensures Within(Admitted(calls, origin, burst, window), lo, window - 1) <= burst
  {
    AdmissionsBounded(calls, origin, burst, window);
    BoundedWindows(Admitted(calls, origin, burst, window), burst, window, lo);
  }

  /** The empty origin is never limited: the bound is exactly for named origins. */
  lemma EmptyOriginUnlimited(n: nat, burst: nat, window: nat)
    ensures var calls := seq(n, _ => Call("", 1)); Admitted(calls, "", burst, window) == seq(n, _ => 1)
    decreases n
  {
    if n > 0 {
      var calls := seq(n, _ => Call("", 1));
      assert calls[..n - 1] == seq(n - 1, _ => Call("", 1));
      EmptyOriginUnlimited(n - 1, burst, window);
      assert calls[n - 1] == Call("", 1);
    }
  }

  // ---------- fixed window ----------

  datatype Bucket = Bucket(count: nat, windowEnd: Instant)

  function AllowFixed(b: Bucket, limit: nat, window: nat, now: Instant): (Bucket, bool) {
    var c := if now > b.windowEnd then Bucket(0, now + window) else b;
    if c.count >= limit then (c, false) else (c.(count := c.count + 1), true)
  }

  /** The fixed window, in its own terms: past its end a new one opens with this knock, and
      a knock passes while its window has room. */
  lemma FixedSpelled(b: Bucket, limit: nat, window: nat, now: Instant)
    ensures var (c, ok) := AllowFixed(b, limit, window, now);
            && (ok <==> limit > 0 && (now > b.windowEnd || b.count < limit))
            && c.windowEnd == (if now > b.windowEnd then now + window else b.windowEnd)
            && c.count == (if now > b.windowEnd then 0 else b.count) + if ok then 1 else 0
  {
  }

  class KnockBucket {
    var count: nat
    var windowEnd: Instant

    constructor ()
      ensures Bucket(count, windowEnd) == Bucket(0, 0)
    {
      count, windowEnd := 0, 0;
    }

    method Allow(limit: nat, window: nat, now: Instant) returns (ok: bool)
      modifies this
      ensures (Bucket(count, windowEnd), ok) == AllowFixed(old(Bucket(count, windowEnd)), limit, window, now)
    {
      if now > windowEnd {
        count := 0;
        windowEnd := now + window;
      }
      if count >= limit { return false; }
      count := count + 1;
      ok := true;
    }
  }

  function RunFixed(times: seq<Instant>, limit: nat, window: nat): Bucket {
    if times == [] then Bucket(0, 0)
    else AllowFixed(RunFixed(times[..|times| - 1], limit, window), limit, window, times[|times| - 1]).0
  }

  function AdmittedFixed(times: seq<Instant>, limit: nat, window: nat): seq<Instant> {
    if times == [] then []
    else
      var before, now := times[..|times| - 1], times[|times| - 1];
      AdmittedFixed(before, limit, window)
      + if AllowFixed(RunFixed(before, limit, window), limit, window, now).1 then [now] else []
  }

  /** `earlier` are the admissions of past windows and `current` those of the open one,
      whose first admission opened it. */
  ghost predicate Epochs(earlier: seq<Instant>, current: seq<Instant>, b: Bucket, limit: nat, window: nat) {
    var start := b.windowEnd - window;
    && |current| == b.count <= limit
    && (b.windowEnd > 0 ==> current != [] && current[0] == start)
    && (b.windowEnd == 0 ==> current == [])
    && (forall t :: t in current ==> start <= t <= b.windowEnd)
    && (forall lo :: lo >= start ==> Within(earlier, lo, window) == 0)
    && (forall lo :: lo + window >= start ==> Within(earlier, lo, window) < limit)
    && (forall lo :: Within(earlier, lo, window) < 2 * limit)
  }

  lemma {:induction false} WithinAppend(a: seq<Instant>, b: seq<Instant>, lo: int, width: int)
    ensures Within(a + b, lo, width) == Within(a, lo, width) + Within(b, lo, width)
  {
    if b == [] {
      assert a + b == a;
    } else {
      assert (a + b)[..|a + b| - 1] == a + b[..|b| - 1];
      WithinAppend(a, b[..|b| - 1], lo, width);
    }
  }

  lemma {:induction false} WithinFacts(a: seq<Instant>, lo: int, width: int)
    ensures Within(a, lo, width) <= |a|
    ensures (forall t :: t in a ==> t < lo || t > lo + width) ==> Within(a, lo, width) == 0
    ensures (exists t :: t in a && (t < lo || t > lo + width)) ==> Within(a, lo, width) < |a|
  {
    if a != [] {
      var b, last := a[..|a| - 1], a[|a| - 1];
      WithinFacts(b, lo, width);
      assert a == b + [last];
      assert last in a && forall t :: t in b ==> t in a;
    }
  }

  /** A new window opens: what was current becomes past. */
  lemma EpochEnds(earlier: seq<Instant>, current: seq<Instant>, b: Bucket, limit: nat, window: nat, now: Instant)
    requires Epochs(earlier, current, b, limit, window) && now > b.windowEnd && limit > 0 && now > 0
    ensures Epochs(earlier + current, [now], Bucket(1, now + window), limit, window)
  {
    var start := b.windowEnd - window;
    forall lo: int {:trigger Within(earlier + current, lo, window)}
      ensures lo >= now ==> Within(earlier + current, lo, window) == 0
      ensures lo + window >= now ==> Within(earlier + current, lo, window) < limit
      ensures Within(earlier + current, lo, window) < 2 * limit
    {
      WithinAppend(earlier, current, lo, window);
      WithinFacts(current, lo, window);
      if current != [] { assert current[0] in current; }
    }
  }

  /** Clock readings: never the zero time, never running backwards. */
  ghost predicate Readings(times: seq<Instant>) {
    && (forall i, j :: 0 <= i < j < |times| ==> times[i] <= times[j])
    && (forall i :: 0 <= i < |times| ==> times[i] > 0)
  }

  lemma ReadingsPrefix(times: seq<Instant>)
    requires Readings(times) && times != []
    ensures Readings(times[..|times| - 1]) && times[|times| - 1] > 0
    ensures |times| > 1 ==> times[|times| - 2] <= times[|times| - 1]
  {
  }

  lemma {:induction false} EpochsOfRun(times: seq<Instant>, limit: nat, window: nat)
    returns (earlier: seq<Instant>, current: seq<Instant>)
    requires limit > 0 && window > 0
    requires Readings(times)
    ensures AdmittedFixed(times, limit, window) == earlier + current
    ensures var b := RunFixed(times, limit, window);
            && Epochs(earlier, current, b, limit, window)
            && (times != [] ==> b.windowEnd - window <= times[|times| - 1] <= b.windowEnd)
            && (times == [] ==> b.windowEnd == 0)
  {
    if times == [] {
      earlier, current := [], [];
    } else {
      var before, now := times[..|times| - 1], times[|times| - 1];
      ReadingsPrefix(times);
      earlier, current := EpochsOfRun(before, limit, window);
      earlier, current := EpochStep(earlier, current, RunFixed(before, limit, window), limit, window, now);
    }
  }

  lemma EpochStep(earlier: seq<Instant>, current: seq<Instant>, b: Bucket, limit: nat, window: nat, now: Instant)
    returns (earlier': seq<Instant>, current': seq<Instant>)
    requires Epochs(earlier, current, b, limit, window) && limit > 0 && now > 0
    requires b.windowEnd > 0 ==> b.windowEnd - window <= now
    ensures var (c, ok) := AllowFixed(b, limit, window, now);
            && earlier' + current' == (earlier + current) + (if ok then [now] else [])
            && Epochs(earlier', current', c, limit, window)
            && c.windowEnd - window <= now <= c.windowEnd
  {
    earlier', current' := earlier, current;
    if now > b.windowEnd {
      EpochEnds(earlier, current, b, limit, window, now);
      earlier', current' := earlier + current, [now];
    } else if b.count < limit {
      EpochContinues(earlier, current, b, limit, window, now);
      assert earlier + (current + [now]) == (earlier + current) + [now];
      current' := current + [now];
    } else {
      assert (earlier + current) + [] == earlier + current;
    }
  }

  lemma EpochContinues(earlier: seq<Instant>, current: seq<Instant>, b: Bucket, limit: nat, window: nat, now: Instant)
    requires Epochs(earlier, current, b, limit, window) && b.count < limit
    requires b.windowEnd > 0 && b.windowEnd - window <= now <= b.windowEnd
    ensures Epochs(earlier, current + [now], b.(count := b.count + 1), limit, window)
  {
  }

  /** Over any run with a forward clock, a closed interval of length `window` holds
      fewer than twice `limit` admissions. */
  lemma FixedWindowBound(times: seq<Instant>, limit: nat, window: nat, lo: int)
    requires limit > 0 && window > 0
    requires Readings(times)
    ensures Within(AdmittedFixed(times, limit, window), lo, window) < 2 * limit
  {
    var earlier, current := EpochsOfRun(times, limit, window);
    WithinAppend(earlier, current, lo, window);
    WithinFacts(current, lo, window);
    var b := RunFixed(times, limit, window);
    if current != [] { assert current[0] in current; }
  }

  lemma FixedSnoc(times: seq<Instant>, now: Instant, limit: nat, window: nat)
    ensures var (b, ok) := AllowFixed(RunFixed(times, limit, window), limit, window, now);
            && RunFixed(times + [now], limit, window) == b
            && AdmittedFixed(times + [now], limit, window) == AdmittedFixed(times, limit, window) + if ok then [now] else []
  {
    assert (times + [now])[..|times|] == times;
  }

  function Repeat(now: Instant, k: nat): seq<Instant> { seq(k, _ => now) }

  /** `k` knocks at one instant of the open window, with room for all of them. */
  lemma {:induction false} RoomForAll(times: seq<Instant>, now: Instant, k: nat, limit: nat, window: nat)
    requires var b := RunFixed(times, limit, window); now <= b.windowEnd && b.count + k <= limit
    ensures var b := RunFixed(times, limit, window);
            && RunFixed(times + Repeat(now, k), limit, window) == Bucket(b.count + k, b.windowEnd)
            && AdmittedFixed(times + Repeat(now, k), limit, window) == AdmittedFixed(times, limit, window) + Repeat(now, k)
  {
    var admitted := AdmittedFixed(times, limit, window);
    if k == 0 {
      assert times + Repeat(now, 0) == times && admitted + Repeat(now, 0) == admitted;
    } else {
      RoomForAll(times, now, k - 1, limit, window);
      FixedSnoc(times + Repeat(now, k - 1), now, limit, window);
      RepeatSnoc(times, now, k);
      RepeatSnoc(admitted, now, k);
    }
  }

  lemma RepeatSnoc(s: seq<Instant>, now: Instant, k: nat)
    requires k > 0
    ensures s + Repeat(now, k) == (s + Repeat(now, k - 1)) + [now]
  {
  }

  lemma {:induction false} WithinRepeat(now: Instant, k: nat, lo: int, width: int)
    ensures Within(Repeat(now, k), lo, width) == if lo <= now <= lo + width then k else 0
  {
    if k > 0 {
      WithinRepeat(now, k - 1, lo, width);
      assert Repeat(now, k)[..k - 1] == Repeat(now, k - 1);
    }
  }

  /** One knock opens a window, the rest of its allowance comes at its very end, and a
      full allowance right after. */
  function Burst(limit: nat, window: nat): seq<Instant>
    requires limit > 0
  {
    [1] + Repeat(1 + window, limit - 1) + [2 + window] + Repeat(2 + window, limit - 1)
  }

  /** The bound is met for every limit and window: those knocks put one less than twice
      the limit of admissions inside one interval. */
  lemma FixedWindowBoundIsTight(limit: nat, window: nat)
    requires limit > 0 && window > 0
    ensures Readings(Burst(limit, window))
    ensures Within(AdmittedFixed(Burst(limit, window), limit, window), 1 + window, window) == 2 * limit - 1
  {
    BurstAdmitted(limit, window);
    BurstReads(limit, window);
    BurstCount(limit, window);
  }

  lemma BurstReads(limit: nat, window: nat)
    requires limit > 0 && window > 0
    ensures Readings(Burst(limit, window))
  {
    var times := Burst(limit, window);
    forall i | 0 <= i < |times|
      ensures times[i] == if i == 0 then 1 else if i < limit then 1 + window else 2 + window
    {
    }
  }

  lemma BurstCount(limit: nat, window: nat)
    requires limit > 0 && window > 0
    ensures Within(Burst(limit, window), 1 + window, window) == 2 * limit - 1
  {
    var end, next := Repeat(1 + window, limit - 1), Repeat(2 + window, limit - 1);
    WithinRepeat(1 + window, limit - 1, 1 + window, window);
    WithinRepeat(2 + window, limit - 1, 1 + window, window);
    WithinAppend([1] + end + [2 + window], next, 1 + window, window);
    WithinAppend([1] + end, [2 + window], 1 + window, window);
    WithinAppend([1], end, 1 + window, window);
    WithinOne(1, 1 + window, window);
    WithinOne(2 + window, 1 + window, window);
  }

  /** Every knock of the burst is admitted. */
  lemma BurstAdmitted(limit: nat, window: nat)
    requires limit > 0 && window > 0
    ensures AdmittedFixed(Burst(limit, window), limit, window) == Burst(limit, window)
  {
    var first := [1] + Repeat(1 + window, limit - 1);
    FirstWindow(limit, window);
    FixedSnoc(first, 2 + window, limit, window);
    RoomForAll(first + [2 + window], 2 + window, limit - 1, limit, window);
  }

  lemma WithinOne(now: Instant, lo: int, width: int)
    ensures Within([now], lo, width) == if lo <= now <= lo + width then 1 else 0
  {
    assert [now][..0] == [];
  }

  lemma FirstWindow(limit: nat, window: nat)
    requires limit > 0 && window > 0
    ensures var times := [1] + Repeat(1 + window, limit - 1);
            RunFixed(times, limit, window) == Bucket(limit, 1 + window) && AdmittedFixed(times, limit, window) == times
  {
    FixedSnoc([], 1, limit, window);
    assert [] + [1] == [1];
    RoomForAll([1], 1 + window, limit - 1, limit, window);
  }
}
