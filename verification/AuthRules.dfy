/** Which requests are served and what the others are told, in the request's own fields
    (src/cland/internal/transport/server.go, nonce.go, src/cland/internal/crypto/hmac.go). */
module AuthRules {
  import opened Wrappers
  import opened KeyProvider
  import opened NonceCache

  /** The current key, or the grace key until its window closes. */
  predicate Open(keys: Keys, k: Key, now: Instant) {
    k == keys.current || (keys.grace == Some(k) && now <= keys.graceExpiry)
  }

  predicate HeadersPresent(r: Request) { r.member != "" && r.tsHeader != "" && r.nonce != "" && r.macHeader != "" }

  /** The timestamp parses and is within a minute of the clock, either way. */
  predicate Timely(r: Request, now: Instant) { r.ts.Some? && -60_000 <= now - r.ts.value <= 60_000 }

  /** The MAC is that of this very request, every signed part of it, under a key that is open. */
  ghost predicate SignedAsSent(r: Request, keys: Keys, now: Instant) {
    r.ts.Some? &&
    exists k :: Open(keys, k, now) && r.mac == Some(Hmac(k, r.httpMethod, r.path, r.body, r.ts.value, r.nonce))
  }

  /** The nonce is among those the member had accepted and that have not expired. */
  ghost predicate Spent(l: seq<Entry>, nonce: string, now: Instant, ttl: nat) {
    exists e :: e in l && e.nonce == nonce && now - e.added <= ttl
  }

  lemma ScreenSpelled(r: Request, keys: Keys, now: Instant)
    ensures if !HeadersPresent(r) then Screen(r, keys, now) == Some(MissingHeaders)
            else if r.ts.None? then Screen(r, keys, now) == Some(BadTimestamp)
            else if !Timely(r, now) then Screen(r, keys, now) == Some(TimestampSkew)
            else if !SignedAsSent(r, keys, now) then Screen(r, keys, now) == Some(HmacMismatch)
            else Screen(r, keys, now) == None
  {
    if r.ts.Some? && SignedAsSent(r, keys, now) {
      var k :| Open(keys, k, now) && r.mac == Some(Hmac(k, r.httpMethod, r.path, r.body, r.ts.value, r.nonce));
    }
    assert Open(keys, keys.current, now);
    if GraceAt(keys, now).Some? { assert Open(keys, GraceAt(keys, now).value, now); }
  }

  lemma {:induction false} UnexpiredSpelled(l: seq<Entry>, nonce: string, now: Instant, ttl: nat, last: Instant)
    requires OrderedBy(l, last)
    ensures Has(Unexpired(l, now, ttl), nonce) <==> Spent(l, nonce, now, ttl)
  {
    if l == [] || now - l[0].added <= ttl {
      forall e | e in l ensures l == [] || now - e.added <= ttl { assert l[0].added <= e.added; }
    } else {
      assert forall e :: e in l[1..] ==> e in l;
      assert forall e :: e in l ==> e == l[0] || e in l[1..];
      UnexpiredSpelled(l[1..], nonce, now, ttl, last);
    }
  }

  /** The exact rule, at any point of any run with a forward clock: a request is served if
      and only if its headers are there, its timestamp is within a minute of the clock,
      its MAC is that of this very request under an open key, and its member has not
      spent its nonce. */
  lemma ServedIff(arrivals: seq<Arrival>, i: nat, cap: nat, ttl: nat)
    requires cap > 0 && ClockForward(arrivals) && i < |arrivals|
    ensures var a := arrivals[i];
            OutcomeAt(arrivals, i, cap, ttl) == Served
            <==> && HeadersPresent(a.req) && Timely(a.req, a.now) && SignedAsSent(a.req, a.keys, a.now)
                 && !Spent(ListOf(Run(arrivals[..i], cap, ttl), a.req.member), a.req.nonce, a.now, ttl)
  {
    var a, l := arrivals[i], ListOf(Run(arrivals[..i], cap, ttl), arrivals[i].req.member);
    assert ClockForward(arrivals[..i]);
    RunOrdered(arrivals[..i], a.req.member, cap, ttl);
    var last := if i == 0 then 0 else arrivals[i - 1].now;
    assert OrderedBy(l, last);
    UnexpiredSpelled(l, a.req.nonce, a.now, ttl, last);
    ScreenSpelled(a.req, a.keys, a.now);
  }

  /** What the others are told: the first of these that holds. */
  lemma RefusalSpelled(arrivals: seq<Arrival>, i: nat, cap: nat, ttl: nat)
    requires cap > 0 && ClockForward(arrivals) && i < |arrivals|
    ensures var a, o := arrivals[i], OutcomeAt(arrivals, i, cap, ttl);
            if !HeadersPresent(a.req) then o == Rejected(MissingHeaders)
            else if a.req.ts.None? then o == Rejected(BadTimestamp)
            else if !Timely(a.req, a.now) then o == Rejected(TimestampSkew)
            else if !SignedAsSent(a.req, a.keys, a.now) then o == Rejected(HmacMismatch)
            else o == Served || o == Rejected(Replay)
  {
    ScreenSpelled(arrivals[i].req, arrivals[i].keys, arrivals[i].now);
  }

  /** What is served is what was signed: with the MAC of a served request, nothing else
      is, whatever its method, path, body, timestamp or nonce was changed to. */
  lemma AlteredIsNotServed(s: Lists, a: Arrival, t: Lists, b: Arrival, cap: nat, ttl: nat)
    requires Handle(s, a, cap, ttl).1 == Served && b.req.mac == a.req.mac
    requires b.req.httpMethod != a.req.httpMethod || b.req.path != a.req.path || b.req.body != a.req.body
             || b.req.ts != a.req.ts || b.req.nonce != a.req.nonce
    ensures Handle(t, b, cap, ttl).1 != Served
  {
    ScreenSpelled(a.req, a.keys, a.now);
    ScreenSpelled(b.req, b.keys, b.now);
  }

  /** The request at position `i` was served to `member` and left the entry. */
  ghost predicate Left(arrivals: seq<Arrival>, i: nat, member: string, e: Entry, cap: nat, ttl: nat) {
    i < |arrivals| && OutcomeAt(arrivals, i, cap, ttl) == Served
    && arrivals[i].req.member == member && e == Entry(arrivals[i].req.nonce, arrivals[i].now)
  }

  /** What a member's list holds: nonces it was served, each at the moment it was. */
  lemma {:induction false} ListedWereServed(arrivals: seq<Arrival>, member: string, cap: nat, ttl: nat, e: Entry)
    returns (i: nat)
    requires e in ListOf(Run(arrivals, cap, ttl), member)
    ensures Left(arrivals, i, member, e, cap, ttl)
  {
    var before, a := arrivals[..|arrivals| - 1], arrivals[|arrivals| - 1];
    if e in ListOf(Run(before, cap, ttl), member) {
      i := ListedWereServed(before, member, cap, ttl, e);
      LeftBefore(arrivals, i, member, e, cap, ttl);
    } else {
      NewlyListed(Run(before, cap, ttl), a, member, cap, ttl, e);
      i := |before|;
    }
  }

  lemma LeftBefore(arrivals: seq<Arrival>, i: nat, member: string, e: Entry, cap: nat, ttl: nat)
    requires arrivals != [] && Left(arrivals[..|arrivals| - 1], i, member, e, cap, ttl)
    ensures Left(arrivals, i, member, e, cap, ttl)
  {
    assert arrivals[..|arrivals| - 1][..i] == arrivals[..i];
  }

  /** What a list becomes: it loses its expired front, and a nonce it does not hold goes to
      the back, the oldest giving way past the cap. */
  lemma StoredSpelled(l: seq<Entry>, nonce: string, now: Instant, cap: nat, ttl: nat) returns (k: nat)
    ensures k <= |l| && (forall i :: 0 <= i < k ==> now - l[i].added > ttl) && (k < |l| ==> now - l[k].added <= ttl)
    ensures var taken := forall e :: e in l[k..] ==> e.nonce != nonce;
            var full := l[k..] + [Entry(nonce, now)];
            Stored(l, nonce, now, cap, ttl)
            == if !taken then (l[k..], false)
               else (if |full| > cap then full[|full| - cap..] else full, true)
  {
    k := FrontExpired(l, now, ttl);
  }

  lemma {:induction false} FrontExpired(l: seq<Entry>, now: Instant, ttl: nat) returns (k: nat)
    ensures k <= |l| && (forall i :: 0 <= i < k ==> now - l[i].added > ttl) && (k < |l| ==> now - l[k].added <= ttl)
    ensures Unexpired(l, now, ttl) == l[k..]
  {
    k := 0;
    if l != [] && now - l[0].added > ttl {
      k := FrontExpired(l[1..], now, ttl);
      assert l[1..][k..] == l[k + 1..];
      k := k + 1;
    }
  }

  lemma NewlyListed(s: Lists, a: Arrival, member: string, cap: nat, ttl: nat, e: Entry)
    requires e in ListOf(Handle(s, a, cap, ttl).0, member) && e !in ListOf(s, member)
    ensures Handle(s, a, cap, ttl).1 == Served && a.req.member == member && e == Entry(a.req.nonce, a.now)
  {
    UnexpiredTaken(ListOf(s, member), a.now, ttl);
  }

  lemma {:induction false} UnexpiredTaken(l: seq<Entry>, now: Instant, ttl: nat)
    ensures forall e :: e in Unexpired(l, now, ttl) ==> e in l
  {
    if l != [] && now - l[0].added > ttl { UnexpiredTaken(l[1..], now, ttl); }
  }
}
