/** Execution tokens at their target: claim checks, the replay cache, the handler's
    check order and the at-most-once guarantee (src/cland/internal/toolexec). */
module ToolExec {
  import opened Wrappers
  import opened Ordering
  import opened KeyProvider
  import opened RateLimit
  import Text

  // Milliseconds.
  const CLOCK_SKEW_TOLERANCE: int := 60_000
  const DEFAULT_MAX_LIFETIME: int := 600_000
  const DEFAULT_CACHE_TTL: nat := 900_000
  const DEFAULT_CACHE_SIZE: nat := 100_000

  /** HMAC taken as unforgeable: a tag is the key and the text it was made from. */
  datatype Tag = Hmac(key: Key, text: string)

  datatype Signature = Missing | NotHex | Hex(tag: Tag)

  datatype Token = Token(requestId: string, origin: string, target: string, tool: string, argsHash: string,
                         approvedAt: int, exp: int, sig: Signature)

  datatype Request = Request(token: Token, args: string)

  function FormatInt(i: int): string { if i < 0 then "-" + Decimal(-i) else Decimal(i) }

  function Fields(t: Token): seq<string> {
    [t.requestId, t.origin, t.target, t.tool, t.argsHash, FormatInt(t.approvedAt), FormatInt(t.exp)]
  }

  /** The text that is signed. */
  function CanonicalText(t: Token): string { Text.Join(Fields(t), '\n') }

  /** `VerifyHMAC`: the tag is one of the given keys' tags over the canonical text. */
  predicate Verified(t: Token, keys: seq<Key>) {
    t.sig.Hex? && exists k :: k in keys && k != [] && t.sig.tag == Hmac(k, CanonicalText(t))
  }

  datatype Denial = ArgsHashMismatch | BadSignature | WrongTarget | Expired | ApprovedInFuture | Malformed
                  | Replay | RateLimited | ArgsNotObject

  method VerifyHmac(t: Token, keys: seq<Key>) returns (ok: bool)
    ensures ok <==> Verified(t, keys)
  {
    if !t.sig.Hex? { return false; }
    for i := 0 to |keys|
      invariant forall k :: k in keys[..i] && k != [] ==> t.sig.tag != Hmac(k, CanonicalText(t))
    {
      if keys[i] != [] && t.sig.tag == Hmac(keys[i], CanonicalText(t)) { return true; }
    }
    ok := false;
  }

  function VerifyClaims(t: Token, self: string, now: Instant, maxLifetime: int): Option<Denial> {
    if t.target != self then Some(WrongTarget)
    else if t.exp <= now then Some(Expired)
    else if t.approvedAt - now > CLOCK_SKEW_TOLERANCE then Some(ApprovedInFuture)
    else if maxLifetime > 0 && t.exp - t.approvedAt > maxLifetime then Some(Malformed)
    else None
  }

  // ---------- replay cache ----------

  datatype Cache = Cache(entries: map<string, Instant>, overflow: nat)

  function Live(entries: map<string, Instant>, now: Instant): map<string, Instant> {
    map k | k in entries && now < entries[k] :: entries[k]
  }

  function Checked(c: Cache, id: string, now: Instant, maxSize: nat, ttl: nat): (Cache, bool) {
    if id in c.entries && now < c.entries[id] then (c, false)
    else
      var e := if |c.entries| >= maxSize then Live(c.entries, now) else c.entries;
      if |e| >= maxSize then (Cache(e, c.overflow + 1), false)
      else (c.(entries := e[id := now + ttl]), true)
  }

  class ReplayCache {
    const maxSize: nat
    const ttl: nat
    var entries: map<string, Instant>
    var overflow: nat

    function View(): Cache
      reads this
    {
      Cache(entries, overflow)
    }

    constructor (maxSize: int, ttl: int)
      ensures this.maxSize == if maxSize <= 0 then 100_000 else maxSize
      ensures this.ttl == if ttl <= 0 then 900_000 else ttl
      ensures View() == Cache(map[], 0)
    {
      this.maxSize := if maxSize <= 0 then DEFAULT_CACHE_SIZE else maxSize;
      this.ttl := if ttl <= 0 then DEFAULT_CACHE_TTL else ttl;
      entries, overflow := map[], 0;
    }

    method CheckAndStore(id: string, now: Instant) returns (unseen: bool)
      modifies this
      ensures (View(), unseen) == Checked(old(View()), id, now, maxSize, ttl)
    {
      if id in entries && now < entries[id] { return false; }
      if |entries| >= maxSize {
        var todo := entries.Keys;
        while todo != {}
          invariant todo <= old(entries).Keys
          invariant overflow == old(overflow)
          invariant entries == map k | k in old(entries) && (k in todo || now < old(entries)[k]) :: old(entries)[k]
          decreases todo
        {
          var k :| k in todo;
          if now >= entries[k] { entries := entries - {k}; }
          todo := todo - {k};
        }
        assert entries == Live(old(entries), now);
        if |entries| >= maxSize {
          overflow := overflow + 1;
          return false;
        }
      }
      entries := entries[id := now + ttl];
      unseen := true;
    }
  }

  /** The cache never forgets an entry before it expires, and never outgrows its cap. */
  lemma CacheKeepsLiveEntries(c: Cache, id: string, now: Instant, maxSize: nat, ttl: nat, k: string)
    requires k in c.entries && now < c.entries[k]
    ensures var (d, _) := Checked(c, id, now, maxSize, ttl); k in d.entries && d.entries[k] == c.entries[k]
  {
  }

  lemma CacheWithinCap(c: Cache, id: string, now: Instant, maxSize: nat, ttl: nat)
    requires |c.entries| <= maxSize
    ensures var (d, ok) := Checked(c, id, now, maxSize, ttl);
            |d.entries| <= maxSize && (ok ==> id in d.entries && d.entries[id] == now + ttl)
  {
    var e := Live(c.entries, now);
    LiveIsSmaller(c.entries, now);
    if !(id in c.entries && now < c.entries[id]) {
      var f := if |c.entries| >= maxSize then e else c.entries;
      assert f[id := now + ttl].Keys == f.Keys + {id};
    }
  }

  lemma LiveIsSmaller(entries: map<string, Instant>, now: Instant)
    ensures |Live(entries, now)| <= |entries|
  {
    SubsetSize(Live(entries, now).Keys, entries.Keys);
  }

  /** A fresh id is refused only when the cache is full of live entries. */
  lemma RefusalMeansReplayOrFull(c: Cache, id: string, now: Instant, maxSize: nat, ttl: nat)
    requires |c.entries| <= maxSize
    ensures !Checked(c, id, now, maxSize, ttl).1
            <==> (id in c.entries && now < c.entries[id]) || |Live(c.entries, now)| >= maxSize
  {
    LiveIsSmaller(c.entries, now);
    if |Live(c.entries, now)| >= maxSize {
      assert |Live(c.entries, now)| == |c.entries| == maxSize;
    }
  }

  // ---------- the handler ----------

  /** What a target is configured with: its id, the lifetime cap, the cache and limiter
      sizes, the argument hash and whether argument bytes parse as an object. */
  datatype Config = Config(self: string, maxLifetime: int, maxSize: nat, ttl: nat, limiter: bool, burst: nat, window: nat,
                           hashArgs: string -> string, parses: string -> bool)

  datatype State = State(cache: Cache, buckets: Buckets)

  datatype Outcome = Executed | Denied(why: Denial)

  /** The checks in the order the handler makes them. */
  function Handle(cfg: Config, s: State, r: Request, keys: seq<Key>, now: Instant): (State, Outcome) {
    var t := r.token;
    if cfg.hashArgs(r.args) != t.argsHash then (s, Denied(ArgsHashMismatch))
    else if !Verified(t, keys) then (s, Denied(BadSignature))
    else if VerifyClaims(t, cfg.self, now, cfg.maxLifetime).Some? then
      (s, Denied(VerifyClaims(t, cfg.self, now, cfg.maxLifetime).value))
    else
      var (cache, unseen) := Checked(s.cache, t.requestId, now, cfg.maxSize, cfg.ttl);
      if !unseen then (s.(cache := cache), Denied(Replay))
      else
        var (buckets, ok) := if cfg.limiter then Allowed(s.buckets, t.origin, now, cfg.burst, cfg.window)
                             else (s.buckets, true);
        var u := State(cache, buckets);
        if !ok then (u, Denied(RateLimited))
        else if r.args != "" && !cfg.parses(r.args) then (u, Denied(ArgsNotObject))
        else (u, Executed)
  }

  class Handler {
    const cfg: Config
    const keys: SimpleKeyProvider
    const replay: ReplayCache
    const limiter: RateLimiter

    ghost predicate Wired()
    {
      && replay.maxSize == cfg.maxSize && replay.ttl == cfg.ttl
      && limiter.burst == cfg.burst && limiter.window == cfg.window
    }

    function View(): State
      reads replay, limiter
    {
      State(replay.View(), limiter.buckets)
    }

    constructor (cfg: Config, keys: SimpleKeyProvider, replay: ReplayCache, limiter: RateLimiter)
      requires replay.maxSize == cfg.maxSize && replay.ttl == cfg.ttl
      requires limiter.burst == cfg.burst && limiter.window == cfg.window
      ensures Wired() && this.cfg == cfg && this.keys == keys && this.replay == replay && this.limiter == limiter
    {
      this.cfg, this.keys, this.replay, this.limiter := cfg, keys, replay, limiter;
    }

    /** The keys tried are the current one and, in its window, the grace key. */
    method HandleExecute(r: Request, now: Instant) returns (o: Outcome)
      requires Wired()
      modifies replay, limiter
      ensures var grace := GraceAt(old(keys.View()), now);
              var tried := [old(keys.current)] + if grace.Some? then [grace.value] else [];
              (View(), o) == Handle(cfg, old(View()), r, tried, now)
    {
      if cfg.hashArgs(r.args) != r.token.argsHash { return Denied(ArgsHashMismatch); }
      var grace := keys.Grace(now);
      var tried := [keys.current] + if grace.Some? then [grace.value] else [];
      var ok := VerifyHmac(r.token, tried);
      if !ok { return Denied(BadSignature); }
      var claims := VerifyClaims(r.token, cfg.self, now, cfg.maxLifetime);
      if claims.Some? { return Denied(claims.value); }
      var unseen := replay.CheckAndStore(r.token.requestId, now);
      if !unseen { return Denied(Replay); }
      if cfg.limiter {
        var allowed := limiter.Allow(r.token.origin, now);
        if !allowed { return Denied(RateLimited); }
      }
      if r.args != "" && !cfg.parses(r.args) { return Denied(ArgsNotObject); }
      o := Executed;
    }
  }

  // ---------- at most once ----------

  datatype Arrival = Arrival(req: Request, keys: seq<Key>, now: Instant)

  function Run(cfg: Config, calls: seq<Arrival>): State {
    if calls == [] then State(Cache(map[], 0), map[])
    else
      var c := calls[|calls| - 1];
      Handle(cfg, Run(cfg, calls[..|calls| - 1]), c.req, c.keys, c.now).0
  }

  function OutcomeAt(cfg: Config, calls: seq<Arrival>, i: nat): Outcome
    requires i < |calls|
  {
    Handle(cfg, Run(cfg, calls[..i]), calls[i].req, calls[i].keys, calls[i].now).1
  }

  ghost predicate ClockForward(calls: seq<Arrival>) {
    forall i, j :: 0 <= i < j < |calls| ==> calls[i].now <= calls[j].now
  }

  lemma RunStep(cfg: Config, calls: seq<Arrival>, j: nat)
    requires 0 < j <= |calls|
    ensures var c := calls[j - 1];
            Run(cfg, calls[..j]) == Handle(cfg, Run(cfg, calls[..j - 1]), c.req, c.keys, c.now).0
  {
    assert calls[..j][..j - 1] == calls[..j - 1];
  }

  lemma HandleKeepsLive(cfg: Config, s: State, r: Request, keys: seq<Key>, now: Instant, id: string)
    requires id in s.cache.entries && now < s.cache.entries[id]
    ensures var e := Handle(cfg, s, r, keys, now).0.cache.entries; id in e && e[id] == s.cache.entries[id]
  {
    CacheKeepsLiveEntries(s.cache, r.token.requestId, now, cfg.maxSize, cfg.ttl, id);
  }

  /** After call `i` executed, its id stays cached for the full time to live. */
  lemma {:induction false} EntryStays(cfg: Config, calls: seq<Arrival>, i: nat, j: nat)
    requires i < j <= |calls|
    requires OutcomeAt(cfg, calls, i) == Executed
    requires forall k :: i < k < j ==> calls[k].now < calls[i].now + cfg.ttl
    ensures var e := Run(cfg, calls[..j]).cache.entries; var id := calls[i].req.token.requestId;
            id in e && e[id] == calls[i].now + cfg.ttl
    decreases j
  {
    var c := calls[j - 1];
    RunStep(cfg, calls, j);
    if j == i + 1 {
    } else {
      EntryStays(cfg, calls, i, j - 1);
      HandleKeepsLive(cfg, Run(cfg, calls[..j - 1]), c.req, c.keys, c.now, calls[i].req.token.requestId);
    }
  }

  /** At most once: whatever else arrives, two executed calls never carry the same
      request id and expiry, so no token reaches the executor twice, as long as the
      cache remembers an id for the longest a token can be valid. */
  lemma AtMostOnce(cfg: Config, calls: seq<Arrival>, i: nat, j: nat)
    requires cfg.maxLifetime > 0 && cfg.ttl >= cfg.maxLifetime + CLOCK_SKEW_TOLERANCE
    requires ClockForward(calls) && i < j < |calls|
    requires OutcomeAt(cfg, calls, i) == Executed && OutcomeAt(cfg, calls, j) == Executed
    ensures var a, b := calls[i].req.token, calls[j].req.token;
            a.requestId != b.requestId || a.exp != b.exp
  {
    var a, b := calls[i].req.token, calls[j].req.token;
    if a.requestId == b.requestId && a.exp == b.exp {
      assert a.exp <= calls[i].now + cfg.ttl;
      assert forall k :: i < k < j ==> calls[k].now <= calls[j].now;
      EntryStays(cfg, calls, i, j);
    }
  }

  lemma DefaultsSuffice()
    ensures DEFAULT_CACHE_TTL >= DEFAULT_MAX_LIFETIME + CLOCK_SKEW_TOLERANCE
  {
  }

  /** How long one token can be valid: from the skew before its approval to its expiry. */
  function Longest(cfg: Config): int { cfg.maxLifetime + CLOCK_SKEW_TOLERANCE }

  /** The limiter, if there is one, lets the origin through twice within that time. */
  predicate LimiterAllowsTwo(cfg: Config, origin: string) {
    !cfg.limiter || origin == "" || cfg.burst >= 2 || (cfg.burst == 1 && cfg.window < Longest(cfg))
  }

  /** Two calls of the run execute under one origin, request id and expiry. */
  ghost predicate Repeats(cfg: Config, calls: seq<Arrival>, i: nat, j: nat, origin: string) {
    && ClockForward(calls) && i < j < |calls|
    && OutcomeAt(cfg, calls, i) == Executed && OutcomeAt(cfg, calls, j) == Executed
    && var a, b := calls[i].req.token, calls[j].req.token;
       a.origin == b.origin == origin && a.requestId == b.requestId && a.exp == b.exp
  }

  /** The exact condition for a target that caps lifetimes: nothing of an origin executes
      twice, in any run, if and only if the cache outlasts the longest validity or the
      limiter does. */
  lemma AtMostOnceIff(cfg: Config, key: Key, origin: string)
    requires cfg.maxLifetime > 0 && 0 < cfg.maxSize && key != []
    ensures (forall calls, i, j :: !Repeats(cfg, calls, i, j, origin))
            <==> cfg.ttl >= Longest(cfg) || !LimiterAllowsTwo(cfg, origin)
  {
    if cfg.ttl >= Longest(cfg) {
      forall calls, i: nat, j: nat ensures !Repeats(cfg, calls, i, j, origin) {
        if Repeats(cfg, calls, i, j, origin) { AtMostOnce(cfg, calls, i, j); }
      }
    } else if !LimiterAllowsTwo(cfg, origin) {
      forall calls, i: nat, j: nat ensures !Repeats(cfg, calls, i, j, origin) {
        if Repeats(cfg, calls, i, j, origin) { LimiterStops(cfg, calls, i, j, origin); }
      }
    } else {
      var calls := ShorterCacheRepeats(cfg, key, origin);
      assert Repeats(cfg, calls, 0, 1, origin);
    }
  }

  /** A limiter of burst one remembers an execution for its whole window. */
  lemma LimiterStops(cfg: Config, calls: seq<Arrival>, i: nat, j: nat, origin: string)
    requires cfg.maxLifetime > 0 && !LimiterAllowsTwo(cfg, origin)
    ensures !Repeats(cfg, calls, i, j, origin)
  {
    if Repeats(cfg, calls, i, j, origin) {
      assert calls[j].now < calls[i].now + Longest(cfg);
      if cfg.burst == 1 {
        assert forall k :: i < k < j ==> calls[k].now <= calls[j].now;
        StampStays(cfg, calls, i, j, origin);
        FullBucketRefuses(cfg, Run(cfg, calls[..j]), calls[j], calls[i].now, origin);
      }
    }
  }

  lemma FullBucketRefuses(cfg: Config, s: State, c: Arrival, t: Instant, origin: string)
    requires cfg.limiter && cfg.burst <= 1 && c.req.token.origin == origin != ""
    requires t in BucketOf(s.buckets, origin) && t > c.now - cfg.window
    ensures Handle(cfg, s, c.req, c.keys, c.now).1 != Executed
  {
    KeptKeeps(BucketOf(s.buckets, origin), c.now - cfg.window, t);
  }

  lemma {:induction false} StampStays(cfg: Config, calls: seq<Arrival>, i: nat, j: nat, origin: string)
    requires cfg.limiter && i < j <= |calls| && calls[i].req.token.origin == origin != ""
    requires OutcomeAt(cfg, calls, i) == Executed
    requires forall k :: i < k < j ==> calls[k].now < calls[i].now + cfg.window
    ensures calls[i].now in BucketOf(Run(cfg, calls[..j]).buckets, origin)
    decreases j
  {
    RunStep(cfg, calls, j);
    if j > i + 1 {
      StampStays(cfg, calls, i, j - 1, origin);
      StampKept(cfg, Run(cfg, calls[..j - 1]), calls[j - 1], calls[i].now, origin);
    }
  }

  lemma StampKept(cfg: Config, s: State, c: Arrival, t: Instant, origin: string)
    requires cfg.limiter && t in BucketOf(s.buckets, origin) && t > c.now - cfg.window
    ensures t in BucketOf(Handle(cfg, s, c.req, c.keys, c.now).0.buckets, origin)
  {
    KeptKeeps(BucketOf(s.buckets, origin), c.now - cfg.window, t);
  }

  /** When both cache and limiter have forgotten a call made at 0. */
  function Forgotten(cfg: Config, origin: string): Instant {
    if cfg.limiter && origin != "" && cfg.burst == 1 && cfg.window > cfg.ttl then cfg.window else cfg.ttl
  }

  /** With a shorter time to live some token executes twice. */
  lemma ShorterCacheRepeats(cfg: Config, key: Key, origin: string) returns (calls: seq<Arrival>)
    requires cfg.maxLifetime > 0 && 0 < cfg.maxSize && key != []
    requires cfg.ttl < Longest(cfg) && LimiterAllowsTwo(cfg, origin)
    ensures ClockForward(calls) && |calls| == 2 && calls[0].req == calls[1].req
    ensures calls[0].req.token.origin == origin
    ensures OutcomeAt(cfg, calls, 0) == Executed && OutcomeAt(cfg, calls, 1) == Executed
  {
    var r := Request(LastingToken(cfg, key, origin), "");
    var again := Forgotten(cfg, origin);
    var s1 := State(Cache(map["r" := cfg.ttl], 0), Counted(cfg, map[], origin, 0).0);
    var s2 := State(Cache(map["r" := again + cfg.ttl], 0), Counted(cfg, s1.buckets, origin, again).0);
    FirstTwoAllowed(cfg, origin);
    LastingTokenExecutes(cfg, key, origin, State(Cache(map[], 0), map[]), s1, 0);
    ExpiredIsFresh(cfg.maxSize, cfg.ttl, again);
    LastingTokenExecutes(cfg, key, origin, s1, s2, again);
    TwoCalls(cfg, r, key, again, s1, s2);
    calls := [Arrival(r, [key], 0), Arrival(r, [key], again)];
  }

  lemma TwoCalls(cfg: Config, r: Request, key: Key, again: Instant, s1: State, s2: State)
    requires Handle(cfg, State(Cache(map[], 0), map[]), r, [key], 0) == (s1, Executed)
    requires Handle(cfg, s1, r, [key], again) == (s2, Executed)
    ensures var calls := [Arrival(r, [key], 0), Arrival(r, [key], again)];
            ClockForward(calls) && OutcomeAt(cfg, calls, 0) == Executed && OutcomeAt(cfg, calls, 1) == Executed
  {
    var calls := [Arrival(r, [key], 0), Arrival(r, [key], again)];
    assert calls[..0] == [];
    RunStep(cfg, calls, 1);
  }

  /** The limiter's part of the handler. */
  function Counted(cfg: Config, b: Buckets, origin: string, now: Instant): (Buckets, bool) {
    if cfg.limiter then Allowed(b, origin, now, cfg.burst, cfg.window) else (b, true)
  }

  lemma FirstTwoAllowed(cfg: Config, origin: string)
    requires LimiterAllowsTwo(cfg, origin)
    ensures var (b, ok) := Counted(cfg, map[], origin, 0); ok && Counted(cfg, b, origin, Forgotten(cfg, origin)).1
  {
    assert Kept([], 0 - cfg.window) == [] && [] + [0] == [0];
    KeptAppend([], 0, Forgotten(cfg, origin) - cfg.window);
  }

  lemma ExpiredIsFresh(maxSize: nat, ttl: nat, now: Instant)
    requires maxSize > 0 && now >= ttl
    ensures Checked(Cache(map["r" := ttl], 0), "r", now, maxSize, ttl) == (Cache(map["r" := now + ttl], 0), true)
  {
    assert Live(map["r" := ttl], now) == map[];
    assert map["r" := ttl]["r" := now + ttl] == map["r" := now + ttl];
  }

  /** Approved as far ahead as the skew allows and for as long as the cap allows. */
  function LastingToken(cfg: Config, key: Key, origin: string): Token {
    var unsigned := Token("r", origin, cfg.self, "tool", cfg.hashArgs(""), CLOCK_SKEW_TOLERANCE,
                          CLOCK_SKEW_TOLERANCE + cfg.maxLifetime, Missing);
    unsigned.(sig := Hex(Hmac(key, CanonicalText(unsigned))))
  }

  lemma LastingTokenExecutes(cfg: Config, key: Key, origin: string, s: State, t: State, now: Instant)
    requires cfg.maxLifetime > 0 && key != [] && now < Longest(cfg)
    requires Checked(s.cache, "r", now, cfg.maxSize, cfg.ttl) == (t.cache, true)
    requires Counted(cfg, s.buckets, origin, now) == (t.buckets, true)
    ensures Handle(cfg, s, Request(LastingToken(cfg, key, origin), ""), [key], now) == (t, Executed)
  {
    var token := LastingToken(cfg, key, origin);
    assert Fields(token) == Fields(token.(sig := Missing));
    ValidTokenExecutes(cfg, s, t, Request(token, ""), key, now);
  }

  lemma ValidTokenExecutes(cfg: Config, s: State, t: State, r: Request, key: Key, now: Instant)
    requires cfg.hashArgs(r.args) == r.token.argsHash && r.args == ""
    requires key != [] && r.token.sig == Hex(Hmac(key, CanonicalText(r.token)))
    requires VerifyClaims(r.token, cfg.self, now, cfg.maxLifetime) == None
    requires Checked(s.cache, r.token.requestId, now, cfg.maxSize, cfg.ttl) == (t.cache, true)
    requires Counted(cfg, s.buckets, r.token.origin, now) == (t.buckets, true)
    ensures Handle(cfg, s, r, [key], now) == (t, Executed)
  {
    assert key in [key];
  }

  ghost predicate LineFree(t: Token) {
    '\n' !in t.requestId && '\n' !in t.origin && '\n' !in t.target && '\n' !in t.tool && '\n' !in t.argsHash
  }

  lemma FormatIntFacts(i: int, j: int)
    ensures '\n' !in FormatInt(i)
    ensures FormatInt(i) == FormatInt(j) ==> i == j
  {
    DecimalIsDigits(if i < 0 then -i else i);
    DecimalIsDigits(if j < 0 then -j else j);
    if FormatInt(i) == FormatInt(j) {
      assert FormatInt(i)[0] == FormatInt(j)[0];
      if i < 0 { assert FormatInt(i)[1..] == Decimal(-i) && FormatInt(j)[1..] == Decimal(-j); }
      DecimalInjective(if i < 0 then -i else i, if j < 0 then -j else j);
    }
  }

  /** Nothing else is signed by the text of a token with line-free fields. */
  lemma SignedTextDeterminesToken(a: Token, b: Token)
    requires LineFree(a) && CanonicalText(a) == CanonicalText(b)
    ensures a.(sig := Missing) == b.(sig := Missing)
  {
    FormatIntFacts(a.approvedAt, b.approvedAt);
    FormatIntFacts(a.exp, b.exp);
    var f, g := Fields(a), Fields(b);
    Text.JoinReads(f, g, '\n');
    assert f[0] == g[0] && f[1] == g[1] && f[2] == g[2] && f[3] == g[3] && f[4] == g[4] && f[5] == g[5] && f[6] == g[6];
  }

  /** Moving one boundary between two fields to a line break next to it. */
  lemma BoundaryMoves(a: Token, b: Token, k: nat, x: string, y: string)
    requires k < 4 && Fields(a)[k] == x + ['\n'] + y
    requires Fields(b) == Fields(a)[k := x][k + 1 := y + ['\n'] + Fields(a)[k + 1]]
    ensures CanonicalText(b) == CanonicalText(a) && Fields(a) != Fields(b)
  {
    Text.JoinShift(Fields(a), k, x, y, '\n');
    assert |Fields(b)[k]| < |Fields(a)[k]|;
  }

  lemma Breaks(s: string) returns (x: string, y: string)
    requires '\n' in s
    ensures s == x + ['\n'] + y
  {
    var i :| 0 <= i < |s| && s[i] == '\n';
    x, y := s[..i], s[i + 1..];
  }

  /** A line break in a field can be taken for a boundary: another token is signed by the same text. */
  lemma LineBreakIsAmbiguous(a: Token) returns (b: Token)
    requires !LineFree(a)
    ensures CanonicalText(b) == CanonicalText(a) && b.(sig := Missing) != a.(sig := Missing)
  {
    if '\n' in a.requestId {
      var x, y := Breaks(a.requestId);
      b := a.(requestId := x, origin := y + ['\n'] + a.origin);
      BoundaryMoves(a, b, 0, x, y);
    } else if '\n' in a.origin {
      var x, y := Breaks(a.origin);
      b := a.(origin := x, target := y + ['\n'] + a.target);
      BoundaryMoves(a, b, 1, x, y);
    } else if '\n' in a.target {
      var x, y := Breaks(a.target);
      b := a.(target := x, tool := y + ['\n'] + a.tool);
      BoundaryMoves(a, b, 2, x, y);
    } else if '\n' in a.tool {
      var x, y := Breaks(a.tool);
      b := a.(tool := x, argsHash := y + ['\n'] + a.argsHash);
      BoundaryMoves(a, b, 3, x, y);
    } else {
      var x, y := Breaks(a.argsHash);
      b := a.(tool := a.tool + ['\n'] + x, argsHash := y);
      BoundaryMoves(b, a, 3, a.tool, x);
    }
  }

  /** The exact condition: the signed text determines every signed field of a token if and
      only if none of them holds a line break. */
  lemma SignedTextDeterminesIffLineFree(a: Token)
    ensures (forall b :: CanonicalText(b) == CanonicalText(a) ==> b.(sig := Missing) == a.(sig := Missing))
            <==> LineFree(a)
  {
    if LineFree(a) {
      forall b | CanonicalText(b) == CanonicalText(a) ensures b.(sig := Missing) == a.(sig := Missing) {
        SignedTextDeterminesToken(a, b);
      }
    } else {
      var b := LineBreakIsAmbiguous(a);
      assert CanonicalText(b) == CanonicalText(a);
    }
  }

  /** One signed approval executes at most once: no token signed by the text of a
      line-free one executes beside it, whatever its own fields. */
  lemma OneApprovalOneExecution(cfg: Config, calls: seq<Arrival>, i: nat, j: nat)
    requires cfg.maxLifetime > 0 && cfg.ttl >= cfg.maxLifetime + CLOCK_SKEW_TOLERANCE
    requires ClockForward(calls) && i < j < |calls|
    requires LineFree(calls[i].req.token) || LineFree(calls[j].req.token)
    requires OutcomeAt(cfg, calls, i) == Executed && OutcomeAt(cfg, calls, j) == Executed
    ensures CanonicalText(calls[i].req.token) != CanonicalText(calls[j].req.token)
  {
    AtMostOnce(cfg, calls, i, j);
    var a, b := calls[i].req.token, calls[j].req.token;
    if CanonicalText(a) == CanonicalText(b) {
      if LineFree(a) { SignedTextDeterminesToken(a, b); } else { SignedTextDeterminesToken(b, a); }
    }
  }

  /** The cache stays within its cap through every run. */
  lemma {:induction false} RunWithinCap(cfg: Config, calls: seq<Arrival>)
    ensures |Run(cfg, calls).cache.entries| <= cfg.maxSize
  {
    if calls != [] {
      var c := calls[|calls| - 1];
      RunWithinCap(cfg, calls[..|calls| - 1]);
      CacheWithinCap(Run(cfg, calls[..|calls| - 1]).cache, c.req.token.requestId, c.now, cfg.maxSize, cfg.ttl);
    }
  }
}
