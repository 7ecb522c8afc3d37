/** What reaches the executor and what a caller is told, in the request's own fields
    (src/cland/internal/toolexec/handlers.go, token.go, replay.go, ratelimit.go). */
module ExecRules {
  import opened Wrappers
  import opened KeyProvider
  import opened RateLimit
  import opened ToolExec
  import Text

  // ---------- what is signed ----------

  function Line(text: string, rest: string): string { text + ['\n'] + rest }

  /** The signed text, spelled: five fields and two decimal stamps, one to a line. */
  lemma SignedTextSpelled(t: Token)
    ensures CanonicalText(t)
            == Line(t.requestId, Line(t.origin, Line(t.target, Line(t.tool, Line(t.argsHash,
                 Line(FormatInt(t.approvedAt), FormatInt(t.exp)))))))
  {
    var f := Fields(t);
    assert f[0..] == f && f[6..] == [f[6]];
    FirstLine(f, 5);
    FirstLine(f, 4);
    FirstLine(f, 3);
    FirstLine(f, 2);
    FirstLine(f, 1);
    FirstLine(f, 0);
  }

  lemma FirstLine(f: seq<string>, i: nat)
    requires i + 1 < |f|
    ensures Text.Join(f[i..], '\n') == Line(f[i], Text.Join(f[i + 1..], '\n'))
  {
    assert f[i..][1..] == f[i + 1..];
  }

  // ---------- who gets through ----------

  /** The tag is the HMAC of the signed text under one of the non-empty keys. */
  ghost predicate SignedBy(t: Token, keys: seq<Key>) {
    exists k :: k in keys && k != [] && t.sig == Hex(Hmac(k, CanonicalText(t)))
  }

  /** The id was accepted before and its time has not run out. */
  predicate IsLive(s: State, id: string, now: Instant) { id in s.cache.entries && now < s.cache.entries[id] }

  ghost function LiveIds(s: State, now: Instant): set<string> {
    set id | id in s.cache.entries && now < s.cache.entries[id]
  }

  /** The admissions of the origin that are still in its window, by position. */
  ghost function Recent(s: State, origin: string, now: Instant, window: nat): set<nat> {
    if origin in s.buckets then Later(s.buckets[origin], now - window) else {}
  }

  lemma RecentCounted(s: State, origin: string, now: Instant, window: nat)
    ensures |Kept(BucketOf(s.buckets, origin), now - window)| == |Recent(s, origin, now, window)|
  {
    KeptIsLater(BucketOf(s.buckets, origin), now - window);
  }

  /** The exact rule, at any point of any run: a call reaches the executor if and only if
      the token is for these arguments, signed, for this member, unexpired, not from the
      future and not too long-lived; its id is new and fits in the cache; the origin has
      room; and the arguments parse. */
  lemma ExecutedIff(cfg: Config, calls: seq<Arrival>, r: Request, keys: seq<Key>, now: Instant)
    ensures var s, t := Run(cfg, calls), r.token;
            Handle(cfg, s, r, keys, now).1 == Executed
            <==> && cfg.hashArgs(r.args) == t.argsHash
                 && SignedBy(t, keys)
                 && t.target == cfg.self && t.exp > now && t.approvedAt - now <= 60_000
                 && (cfg.maxLifetime <= 0 || t.exp - t.approvedAt <= cfg.maxLifetime)
                 && !IsLive(s, t.requestId, now) && |LiveIds(s, now)| < cfg.maxSize
                 && (cfg.limiter && t.origin != "" ==> |Recent(s, t.origin, now, cfg.window)| < cfg.burst)
                 && (r.args == "" || cfg.parses(r.args))
  {
    var s, t := Run(cfg, calls), r.token;
    RunWithinCap(cfg, calls);
    LiveCounted(s, now);
    RefusalMeansReplayOrFull(s.cache, t.requestId, now, cfg.maxSize, cfg.ttl);
    VerifiedIsSigned(t, keys);
    AnswerSpelled(cfg, s, r, keys, now);
  }

  lemma VerifiedIsSigned(t: Token, keys: seq<Key>)
    ensures Verified(t, keys) <==> SignedBy(t, keys)
  {
  }

  lemma LiveCounted(s: State, now: Instant)
    ensures |Live(s.cache.entries, now)| == |LiveIds(s, now)|
  {
    assert Live(s.cache.entries, now).Keys == LiveIds(s, now);
  }

  /** The answer is the first of these that holds. */
  lemma AnswerSpelled(cfg: Config, s: State, r: Request, keys: seq<Key>, now: Instant)
    ensures var t, o := r.token, Handle(cfg, s, r, keys, now).1;
            if cfg.hashArgs(r.args) != t.argsHash then o == Denied(ArgsHashMismatch)
            else if !SignedBy(t, keys) then o == Denied(BadSignature)
            else if t.target != cfg.self then o == Denied(WrongTarget)
            else if t.exp <= now then o == Denied(Expired)
            else if t.approvedAt > now + 60_000 then o == Denied(ApprovedInFuture)
            else if cfg.maxLifetime > 0 && t.exp > t.approvedAt + cfg.maxLifetime then o == Denied(Malformed)
            else if !Checked(s.cache, t.requestId, now, cfg.maxSize, cfg.ttl).1 then o == Denied(Replay)
            else if cfg.limiter && t.origin != "" && |Recent(s, t.origin, now, cfg.window)| >= cfg.burst
            then o == Denied(RateLimited)
            else if r.args != "" && !cfg.parses(r.args) then o == Denied(ArgsNotObject)
            else o == Executed
  {
    VerifiedIsSigned(r.token, keys);
    RecentCounted(s, r.token.origin, now, cfg.window);
  }

  /** The replay cache, in its own terms: a live id is refused without a trace; at the cap
      the expired ids go, and if none did the call is refused and counted; otherwise the
      id is stored for its time. Below the cap nothing is swept. */
  lemma CacheSpelled(c: Cache, id: string, now: Instant, maxSize: nat, ttl: nat)
    ensures var swept := if |c.entries| < maxSize then c.entries else Unexpired(c.entries, now);
            Checked(c, id, now, maxSize, ttl)
            == if id in c.entries && now < c.entries[id] then (c, false)
               else if |swept| >= maxSize then (Cache(swept, c.overflow + 1), false)
               else (Cache(swept[id := now + ttl], c.overflow), true)
  {
    assert Live(c.entries, now) == Unexpired(c.entries, now);
  }

  function Unexpired(entries: map<string, Instant>, now: Instant): map<string, Instant> {
    map k | k in entries && entries[k] > now :: entries[k]
  }

  /** An executed call, or one denied for its rate or its arguments, spends its id for the
      full time to live; a call denied before that spends nothing. */
  lemma SpentIff(cfg: Config, s: State, r: Request, keys: seq<Key>, now: Instant)
    ensures var (u, o) := Handle(cfg, s, r, keys, now);
            if o == Executed || o == Denied(RateLimited) || o == Denied(ArgsNotObject)
            then r.token.requestId in u.cache.entries && u.cache.entries[r.token.requestId] == now + cfg.ttl
            else u.buckets == s.buckets && (o != Denied(Replay) ==> u == s)
    ensures var u := Handle(cfg, s, r, keys, now).0;
            forall id :: id != r.token.requestId && id in u.cache.entries ==>
              id in s.cache.entries && u.cache.entries[id] == s.cache.entries[id]
  {
  }
}
