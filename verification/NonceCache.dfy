/** The per-member nonce cache and the request authentication around it
    (src/cland/internal/transport/nonce.go, server.go). */
module NonceCache {
  import opened Wrappers
  import opened KeyProvider

  // Milliseconds.
  const TIMESTAMP_SKEW_MAX: int := 60_000
  const DEFAULT_CAP: nat := 10_000
  const DEFAULT_TTL: nat := 300_000

  datatype Entry = Entry(nonce: string, added: Instant)

  /** A member's bucket: the index by nonce, and the list, oldest first. */
  datatype Bucket = Bucket(entries: map<string, Entry>, lru: seq<Entry>)

  // ---------- what the list alone says ----------

  function Unexpired(l: seq<Entry>, now: Instant, ttl: nat): seq<Entry> {
    if l == [] || now - l[0].added <= ttl then l else Unexpired(l[1..], now, ttl)
  }

  predicate Has(l: seq<Entry>, nonce: string) { exists e :: e in l && e.nonce == nonce }

  /** The newest `cap` entries. */
  function Newest(l: seq<Entry>, cap: nat): seq<Entry> { if |l| > cap then l[|l| - cap..] else l }

  function Stored(l: seq<Entry>, nonce: string, now: Instant, cap: nat, ttl: nat): (seq<Entry>, bool) {
    var kept := Unexpired(l, now, ttl);
    if Has(kept, nonce) then (kept, false) else (Newest(kept + [Entry(nonce, now)], cap), true)
  }

  // ---------- the class ----------

  /** The index holds exactly the entries of the list, each nonce once. */
  ghost predicate Mirrors(b: Bucket) {
    && (forall i, j :: 0 <= i < j < |b.lru| ==> b.lru[i].nonce != b.lru[j].nonce)
    && (forall e :: e in b.lru ==> e.nonce in b.entries && b.entries[e.nonce] == e)
    && (forall n :: n in b.entries ==> b.entries[n] in b.lru && b.entries[n].nonce == n)
  }

  class NonceCache {
    const capPerMember: nat
    const ttl: nat
    var members: map<string, Bucket>

    ghost predicate Valid()
      reads this
    {
      capPerMember > 0 &&
      forall m :: m in members ==> Mirrors(members[m]) && |members[m].lru| <= capPerMember
    }

    constructor (capPerMember: int, ttl: int)
      ensures Valid() && members == map[]
      ensures this.capPerMember == if capPerMember <= 0 then 10_000 else capPerMember
      ensures this.ttl == if ttl <= 0 then 300_000 else ttl
    {
      this.capPerMember := if capPerMember <= 0 then DEFAULT_CAP else capPerMember;
      this.ttl := if ttl <= 0 then DEFAULT_TTL else ttl;
      members := map[];
    }

    function List(member: string): seq<Entry>
      reads this
    {
      if member in members then members[member].lru else []
    }

    method CheckAndStore(member: string, nonce: string, now: Instant) returns (unseen: bool)
      requires Valid()
      modifies this
      ensures Valid()
      ensures (List(member), unseen) == Stored(old(List(member)), nonce, now, capPerMember, ttl)
      ensures forall m :: m != member ==> List(m) == old(List(m))
      ensures member in members && List(member) == members[member].lru
    {
      var b := if member in members then members[member] else Bucket(map[], []);
      b := DropExpired(b, now, ttl);
      if nonce in b.entries {
        assert b.entries[nonce] in b.lru;
        members := members[member := b];
        return false;
      }
      assert !Has(b.lru, nonce);
      b := PushBounded(b, Entry(nonce, now), capPerMember);
      members := members[member := b];
      unseen := true;
    }
  }

  /** The lazy sweep from the front of the list. */
  method DropExpired(start: Bucket, now: Instant, ttl: nat) returns (b: Bucket)
    requires Mirrors(start)
    ensures Mirrors(b) && b.lru == Unexpired(start.lru, now, ttl) && |b.lru| <= |start.lru|
  {
    b := start;
    while b.lru != [] && now - b.lru[0].added > ttl
      invariant Mirrors(b) && |b.lru| <= |start.lru|
      invariant Unexpired(b.lru, now, ttl) == Unexpired(start.lru, now, ttl)
      decreases |b.lru|
    {
      FrontMirrors(b);
      b := WithoutFront(b);
    }
  }

  /** Push at the back, then evict from the front past the cap. */
  method PushBounded(start: Bucket, e: Entry, cap: nat) returns (b: Bucket)
    requires Mirrors(start) && e.nonce !in start.entries && cap > 0
    ensures Mirrors(b) && b.lru == Newest(start.lru + [e], cap) && |b.lru| <= cap
  {
    PushMirrors(start, e);
    b := Bucket(start.entries[e.nonce := e], start.lru + [e]);
    while |b.lru| > cap
      invariant Mirrors(b) && b.lru != []
      invariant Newest(b.lru, cap) == Newest(start.lru + [e], cap)
      decreases |b.lru|
    {
      FrontMirrors(b);
      b := WithoutFront(b);
    }
  }

  function WithoutFront(b: Bucket): Bucket
    requires b.lru != []
  {
    Bucket(b.entries - {b.lru[0].nonce}, b.lru[1..])
  }

  lemma PushMirrors(b: Bucket, e: Entry)
    requires Mirrors(b) && e.nonce !in b.entries
    ensures Mirrors(Bucket(b.entries[e.nonce := e], b.lru + [e]))
  {
    forall i | 0 <= i < |b.lru| ensures b.lru[i].nonce != e.nonce { assert b.lru[i] in b.lru; }
  }

  lemma FrontMirrors(b: Bucket)
    requires Mirrors(b) && b.lru != []
    ensures Mirrors(WithoutFront(b))
  {
  }

  // ---------- request authentication ----------

  datatype Mac = Hmac(key: Key, httpMethod: string, path: string, body: string, ts: int, nonce: string)

  /** A header that is absent is empty; `ts` is `None` when it does not parse. */
  datatype Request = Request(member: string, tsHeader: string, ts: Option<int>, nonce: string, macHeader: string,
                             mac: Option<Mac>, httpMethod: string, path: string, body: string)

  datatype Rejection = MissingHeaders | BadTimestamp | TimestampSkew | HmacMismatch | Replay

  datatype Outcome = Served | Rejected(why: Rejection)

  predicate MacVerified(r: Request, key: Key)
    requires r.ts.Some?
  {
    r.mac == Some(Hmac(key, r.httpMethod, r.path, r.body, r.ts.value, r.nonce))
  }

  /** Everything the middleware checks before the nonce. */
  function Screen(r: Request, keys: Keys, now: Instant): Option<Rejection> {
    if r.member == "" || r.tsHeader == "" || r.nonce == "" || r.macHeader == "" then Some(MissingHeaders)
    else if r.ts == None then Some(BadTimestamp)
    else if now - r.ts.value > TIMESTAMP_SKEW_MAX || now - r.ts.value < -TIMESTAMP_SKEW_MAX then Some(TimestampSkew)
    else if !MacVerified(r, keys.current)
            && (GraceAt(keys, now) == None || !MacVerified(r, GraceAt(keys, now).value)) then Some(HmacMismatch)
    else None
  }

  class Server {
    const keys: SimpleKeyProvider
    const nonces: NonceCache

    constructor (keys: SimpleKeyProvider, nonces: NonceCache)
      ensures this.keys == keys && this.nonces == nonces
    {
      this.keys, this.nonces := keys, nonces;
    }

    method Authenticate(r: Request, now: Instant) returns (o: Outcome)
      requires nonces.Valid()
      modifies nonces
      ensures nonces.Valid()
      ensures var screened := Screen(r, old(keys.View()), now);
              if screened.Some? then o == Rejected(screened.value) && nonces.members == old(nonces.members)
              else var (l, unseen) := Stored(old(nonces.List(r.member)), r.nonce, now, nonces.capPerMember, nonces.ttl);
                   && nonces.List(r.member) == l && o == (if unseen then Served else Rejected(Replay))
                   && forall m :: m != r.member ==> nonces.List(m) == old(nonces.List(m))
    {
      if r.member == "" || r.tsHeader == "" || r.nonce == "" || r.macHeader == "" { return Rejected(MissingHeaders); }
      if r.ts == None { return Rejected(BadTimestamp); }
      var skew := now - r.ts.value;
      if skew > TIMESTAMP_SKEW_MAX || skew < -TIMESTAMP_SKEW_MAX { return Rejected(TimestampSkew); }
      var ok := MacVerified(r, keys.current);
      if !ok {
        var grace := keys.Grace(now);
        if grace.Some? { ok := MacVerified(r, grace.value); }
      }
      if !ok { return Rejected(HmacMismatch); }
      var unseen := nonces.CheckAndStore(r.member, r.nonce, now);
      o := if unseen then Served else Rejected(Replay);
    }
  }

  /** A request signed with either key of an open grace window passes the key check. */
  lemma GraceSignaturesPass(r: Request, keys: Keys, now: Instant, key: Key)
    requires Screen(r, keys, now) != Some(MissingHeaders) && r.ts.Some?
    requires -TIMESTAMP_SKEW_MAX <= now - r.ts.value <= TIMESTAMP_SKEW_MAX
    requires r.mac == Some(Hmac(key, r.httpMethod, r.path, r.body, r.ts.value, r.nonce))
    ensures Screen(r, keys, now) == None <==> Accepts(keys, key, now)
  {
  }

  // ---------- runs ----------

  datatype Arrival = Arrival(req: Request, keys: Keys, now: Instant)

  type Lists = map<string, seq<Entry>>

  function ListOf(s: Lists, member: string): seq<Entry> { if member in s then s[member] else [] }

  /** The step of `Server.Authenticate` on the lists. */
  function Handle(s: Lists, a: Arrival, cap: nat, ttl: nat): (Lists, Outcome) {
    var screened := Screen(a.req, a.keys, a.now);
    if screened.Some? then (s, Rejected(screened.value))
    else
      var (l, unseen) := Stored(ListOf(s, a.req.member), a.req.nonce, a.now, cap, ttl);
      (s[a.req.member := l], if unseen then Served else Rejected(Replay))
  }

  function Run(arrivals: seq<Arrival>, cap: nat, ttl: nat): Lists {
    if arrivals == [] then map[]
    else Handle(Run(arrivals[..|arrivals| - 1], cap, ttl), arrivals[|arrivals| - 1], cap, ttl).0
  }

  function OutcomeAt(arrivals: seq<Arrival>, i: nat, cap: nat, ttl: nat): Outcome
    requires i < |arrivals|
  {
    Handle(Run(arrivals[..i], cap, ttl), arrivals[i], cap, ttl).1
  }

  /** Requests of `member` served at positions `[first, end)`. */
  function ServedBetween(arrivals: seq<Arrival>, member: string, first: nat, end: nat, cap: nat, ttl: nat): nat
    requires first <= end <= |arrivals|
    decreases end
  {
    if first == end then 0
    else
      ServedBetween(arrivals, member, first, end - 1, cap, ttl)
      + if arrivals[end - 1].req.member == member && OutcomeAt(arrivals, end - 1, cap, ttl) == Served then 1 else 0
  }

  ghost predicate ClockForward(arrivals: seq<Arrival>) {
    forall i, j :: 0 <= i < j < |arrivals| ==> arrivals[i].now <= arrivals[j].now
  }

  ghost predicate OrderedBy(l: seq<Entry>, now: Instant) {
    (forall i, j :: 0 <= i < j < |l| ==> l[i].added <= l[j].added) && (forall e :: e in l ==> e.added <= now)
  }

  /** Where an entry is, counted from the newest end. */
  ghost predicate AtDepth(l: seq<Entry>, e: Entry, depth: nat) {
    depth < |l| && l[|l| - 1 - depth] == e
  }

  lemma {:induction false} UnexpiredKeeps(l: seq<Entry>, now: Instant, ttl: nat, e: Entry, depth: nat)
    requires AtDepth(l, e, depth) && now - e.added <= ttl
    ensures AtDepth(Unexpired(l, now, ttl), e, depth)
  {
    if l != [] && now - l[0].added > ttl { UnexpiredKeeps(l[1..], now, ttl, e, depth); }
  }

  lemma {:induction false} UnexpiredOrdered(l: seq<Entry>, now: Instant, ttl: nat, last: Instant)
    requires OrderedBy(l, last)
    ensures OrderedBy(Unexpired(l, now, ttl), last)
    ensures forall e :: e in Unexpired(l, now, ttl) ==> now - e.added <= ttl
  {
    if l != [] && now - l[0].added > ttl {
      assert OrderedBy(l[1..], last) by { assert forall e :: e in l[1..] ==> e in l; }
      UnexpiredOrdered(l[1..], now, ttl, last);
    } else {
      assert forall e :: e in l ==> l[0].added <= e.added;
    }
  }

  /** The list stays in time order, within its cap, and holds no expired nonce. */
  lemma StoredOrdered(l: seq<Entry>, nonce: string, now: Instant, cap: nat, ttl: nat, last: Instant)
    requires OrderedBy(l, last) && last <= now && |l| <= cap && cap > 0
    ensures var (m, _) := Stored(l, nonce, now, cap, ttl);
            OrderedBy(m, now) && |m| <= cap && forall e :: e in m ==> now - e.added <= ttl
  {
    UnexpiredOrdered(l, now, ttl, last);
    UnexpiredShorter(l, now, ttl);
    NewestOrdered(Unexpired(l, now, ttl), Entry(nonce, now), cap, ttl, last);
  }

  lemma NewestOrdered(kept: seq<Entry>, e: Entry, cap: nat, ttl: nat, last: Instant)
    requires OrderedBy(kept, last) && last <= e.added && cap > 0
    requires forall x :: x in kept ==> e.added - x.added <= ttl
    ensures var m := Newest(kept + [e], cap);
            OrderedBy(m, e.added) && |m| <= cap && forall x :: x in m ==> e.added - x.added <= ttl
    ensures OrderedBy(kept, e.added)
  {
    var full := kept + [e];
    assert forall x :: x in full ==> x in kept || x == e;
    assert forall x :: x in Newest(full, cap) ==> x in full;
  }

  lemma {:induction false} UnexpiredShorter(l: seq<Entry>, now: Instant, ttl: nat)
    ensures |Unexpired(l, now, ttl)| <= |l|
  {
    if l != [] { UnexpiredShorter(l[1..], now, ttl); }
  }

  /** So it is for every member throughout a run with a forward clock. */
  lemma {:induction false} RunOrdered(arrivals: seq<Arrival>, member: string, cap: nat, ttl: nat)
    requires cap > 0 && ClockForward(arrivals)
    ensures var l := ListOf(Run(arrivals, cap, ttl), member);
            |l| <= cap && (arrivals == [] ==> l == []) && (arrivals != [] ==> OrderedBy(l, arrivals[|arrivals| - 1].now))
  {
    if arrivals != [] {
      var before, a := arrivals[..|arrivals| - 1], arrivals[|arrivals| - 1];
      RunOrdered(before, member, cap, ttl);
      var last := if before == [] then 0 else before[|before| - 1].now;
      StoredOrdered(ListOf(Run(before, cap, ttl), member), a.req.nonce, a.now, cap, ttl, last);
    }
  }

  /** An unexpired entry moves one place deeper with each nonce accepted after it and
      leaves only past the cap. */
  lemma StoredKeeps(l: seq<Entry>, nonce: string, now: Instant, cap: nat, ttl: nat, e: Entry, depth: nat)
    requires AtDepth(l, e, depth) && now - e.added <= ttl
    ensures nonce == e.nonce ==> !Stored(l, nonce, now, cap, ttl).1
    ensures var (m, unseen) := Stored(l, nonce, now, cap, ttl);
            var d := if unseen then depth + 1 else depth;
            d < cap || !unseen ==> AtDepth(m, e, d)
  {
    UnexpiredKeeps(l, now, ttl, e, depth);
    var kept := Unexpired(l, now, ttl);
    assert e in kept;
  }

  lemma RunStep(arrivals: seq<Arrival>, j: nat, cap: nat, ttl: nat)
    requires 0 < j <= |arrivals|
    ensures Run(arrivals[..j], cap, ttl) == Handle(Run(arrivals[..j - 1], cap, ttl), arrivals[j - 1], cap, ttl).0
  {
    assert arrivals[..j][..j - 1] == arrivals[..j - 1];
  }

  lemma {:induction false} EntryStays(arrivals: seq<Arrival>, i: nat, j: nat, cap: nat, ttl: nat)
    requires i < j <= |arrivals| && cap > 0
    requires OutcomeAt(arrivals, i, cap, ttl) == Served
    requires forall k :: i < k < j ==> arrivals[k].now - arrivals[i].now <= ttl
    ensures var served := ServedBetween(arrivals, arrivals[i].req.member, i + 1, j, cap, ttl);
            served < cap ==>
              AtDepth(ListOf(Run(arrivals[..j], cap, ttl), arrivals[i].req.member),
                      Entry(arrivals[i].req.nonce, arrivals[i].now), served)
    decreases j
  {
    RunStep(arrivals, j, cap, ttl);
    if j == i + 1 {
      ServedIsNewest(Run(arrivals[..i], cap, ttl), arrivals[i], cap, ttl);
    } else {
      EntryStays(arrivals, i, j - 1, cap, ttl);
      StaysOneMore(arrivals, i, j, cap, ttl);
    }
  }

  lemma StaysOneMore(arrivals: seq<Arrival>, i: nat, j: nat, cap: nat, ttl: nat)
    requires i + 1 < j <= |arrivals| && arrivals[j - 1].now - arrivals[i].now <= ttl
    requires var served := ServedBetween(arrivals, arrivals[i].req.member, i + 1, j - 1, cap, ttl);
             served < cap ==> AtDepth(ListOf(Run(arrivals[..j - 1], cap, ttl), arrivals[i].req.member),
                                      Entry(arrivals[i].req.nonce, arrivals[i].now), served)
    ensures var served := ServedBetween(arrivals, arrivals[i].req.member, i + 1, j, cap, ttl);
            served < cap ==> AtDepth(ListOf(Run(arrivals[..j], cap, ttl), arrivals[i].req.member),
                                     Entry(arrivals[i].req.nonce, arrivals[i].now), served)
  {
    RunStep(arrivals, j, cap, ttl);
    var member := arrivals[i].req.member;
    var served := ServedBetween(arrivals, member, i + 1, j - 1, cap, ttl);
    if served < cap {
      HandleKeeps(Run(arrivals[..j - 1], cap, ttl), arrivals[j - 1], cap, ttl, member,
                  Entry(arrivals[i].req.nonce, arrivals[i].now), served);
    }
  }

  lemma ServedIsNewest(s: Lists, a: Arrival, cap: nat, ttl: nat)
    requires cap > 0 && Handle(s, a, cap, ttl).1 == Served
    ensures AtDepth(ListOf(Handle(s, a, cap, ttl).0, a.req.member), Entry(a.req.nonce, a.now), 0)
  {
  }

  /** One more request of any member leaves an unexpired entry in place, or one deeper if
      that member was served. */
  lemma HandleKeeps(s: Lists, a: Arrival, cap: nat, ttl: nat, member: string, e: Entry, depth: nat)
    requires AtDepth(ListOf(s, member), e, depth) && a.now - e.added <= ttl
    ensures var (t, o) := Handle(s, a, cap, ttl);
            var d := if a.req.member == member && o == Served then depth + 1 else depth;
            d < cap || d == depth ==> AtDepth(ListOf(t, member), e, d)
  {
    if a.req.member == member { StoredKeeps(ListOf(s, member), a.req.nonce, a.now, cap, ttl, e, depth); }
  }

  /** Replay bound: a served (member, nonce, timestamp) is not served again until at
      least `cap` later nonces of that member have been, since both requests lie within
      the skew of one timestamp and twice the skew fits in the time to live. */
  lemma ReplayNeedsEviction(arrivals: seq<Arrival>, i: nat, j: nat, cap: nat, ttl: nat)
    requires cap > 0 && 2 * TIMESTAMP_SKEW_MAX <= ttl && ClockForward(arrivals)
    requires i < j < |arrivals|
    requires OutcomeAt(arrivals, i, cap, ttl) == Served && OutcomeAt(arrivals, j, cap, ttl) == Served
    requires var a, b := arrivals[i].req, arrivals[j].req; a.member == b.member && a.nonce == b.nonce && a.ts == b.ts
    ensures ServedBetween(arrivals, arrivals[i].req.member, i + 1, j, cap, ttl) >= cap
  {
    assert arrivals[j].now - arrivals[i].now <= ttl;
    assert forall k :: i < k < j ==> arrivals[k].now <= arrivals[j].now;
    EntryStays(arrivals, i, j, cap, ttl);
    var served := ServedBetween(arrivals, arrivals[i].req.member, i + 1, j, cap, ttl);
    if served < cap {
      var b := arrivals[j];
      StoredKeeps(ListOf(Run(arrivals[..j], cap, ttl), b.req.member), b.req.nonce, b.now, cap, ttl,
                  Entry(b.req.nonce, arrivals[i].now), served);
    }
  }

  /** The signed text does not name the member: a request that is served passes under
      any other name that has not used the nonce lately, signature and all. */
  lemma OtherNameIsServed(s: Lists, a: Arrival, member: string, later: Instant, cap: nat, ttl: nat)
    requires Screen(a.req, a.keys, later) == None && member != ""
    requires !Has(Unexpired(ListOf(s, member), later, ttl), a.req.nonce)
    ensures Handle(s, Arrival(a.req.(member := member), a.keys, later), cap, ttl).1 == Served
  {
  }

  /** The requests of a run at the given positions carry one signed text and are served. */
  ghost predicate ServedCopies(arrivals: seq<Arrival>, at: set<nat>, nonce: string, ts: Option<int>, cap: nat, ttl: nat) {
    forall i :: i in at ==>
      i < |arrivals| && OutcomeAt(arrivals, i, cap, ttl) == Served
      && arrivals[i].req.nonce == nonce && arrivals[i].req.ts == ts
  }

  function NamesAt(arrivals: seq<Arrival>, at: set<nat>): set<string> {
    set i | i in at && i < |arrivals| :: arrivals[i].req.member
  }

  /** Between two of the positions, the first one's name never had as many nonces accepted
      as the cap holds. */
  ghost predicate FewBetween(arrivals: seq<Arrival>, at: set<nat>, cap: nat, ttl: nat) {
    forall i, j :: i in at && j in at && i < j < |arrivals| ==>
      ServedBetween(arrivals, arrivals[i].req.member, i + 1, j, cap, ttl) < cap
  }

  /** How often one signed text can be served: while no name has as many nonces accepted
      as the cap holds, at most once for every name it is presented under. */
  lemma OncePerName(arrivals: seq<Arrival>, at: set<nat>, nonce: string, ts: Option<int>, cap: nat, ttl: nat)
    requires cap > 0 && 2 * TIMESTAMP_SKEW_MAX <= ttl && ClockForward(arrivals)
    requires ServedCopies(arrivals, at, nonce, ts, cap, ttl)
    requires FewBetween(arrivals, at, cap, ttl)
    ensures |at| == |NamesAt(arrivals, at)|
  {
    var name := (i: nat) => if i < |arrivals| then arrivals[i].req.member else "";
    forall i, j | i in at && j in at && i != j ensures name(i) != name(j) {
      CopiesDiffer(arrivals, at, nonce, ts, cap, ttl, i, j);
    }
    InjectiveImage(at, name);
    assert NamesAt(arrivals, at) == set i | i in at :: name(i);
  }

  lemma {:induction false} InjectiveImage(at: set<nat>, name: nat -> string)
    requires forall i, j :: i in at && j in at && i != j ==> name(i) != name(j)
    ensures |set i | i in at :: name(i)| == |at|
    decreases at
  {
    if at != {} {
      var i :| i in at;
      InjectiveImage(at - {i}, name);
      assert (set j | j in at :: name(j)) == (set j | j in at - {i} :: name(j)) + {name(i)};
    }
  }

  lemma CopiesDiffer(arrivals: seq<Arrival>, at: set<nat>, nonce: string, ts: Option<int>, cap: nat, ttl: nat, i: nat, j: nat)
    requires cap > 0 && 2 * TIMESTAMP_SKEW_MAX <= ttl && ClockForward(arrivals)
    requires ServedCopies(arrivals, at, nonce, ts, cap, ttl) && FewBetween(arrivals, at, cap, ttl)
    requires i in at && j in at && i != j
    ensures arrivals[j].req.member != arrivals[i].req.member
  {
    var a, b := if i < j then i else j, if i < j then j else i;
    if arrivals[a].req.member == arrivals[b].req.member {
      ReplayNeedsEviction(arrivals, a, b, cap, ttl);
    }
  }

  lemma DefaultsSuffice()
    ensures 2 * TIMESTAMP_SKEW_MAX <= DEFAULT_TTL
  {
  }

  /** The count is exact: a full list loses its oldest nonce to the next one, and then
      takes that oldest nonce again. */
  lemma EvictedNonceIsTakenAgain(l: seq<Entry>, nonce: string, now: Instant, cap: nat, ttl: nat)
    requires cap > 0 && |l| == cap && !Has(l, nonce)
    requires forall i, j :: 0 <= i < j < |l| ==> l[i].nonce != l[j].nonce
    requires forall e :: e in l ==> now - e.added <= ttl
    ensures Stored(l, nonce, now, cap, ttl).1
    ensures Stored(Stored(l, nonce, now, cap, ttl).0, l[0].nonce, now, cap, ttl).1
  {
    assert l[0] in l;
    assert Unexpired(l, now, ttl) == l;
    var m := Stored(l, nonce, now, cap, ttl).0;
    assert m == l[1..] + [Entry(nonce, now)];
    assert m[0].added == now || m[0] in l;
    assert Unexpired(m, now, ttl) == m;
    assert forall e :: e in l[1..] ==> e.nonce != l[0].nonce;
  }
}
