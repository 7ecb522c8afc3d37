/** The revocation list: its union merge, when gossip saves it, and the operation that
    appends to it (src/cland/internal/state/state.go, src/cland/internal/revocations/sync.go,
    src/cland/internal/membership/service.go). */
module Revocations {
  import opened Wrappers
  import opened Ordering
  import opened MemoryDigest
  import Roster
  import Text

  datatype Revocation = Revocation(memberId: string, pubKeyHash: string, revokedAt: Instant, revokedBy: string, reason: string)

  function RevokedId(r: Revocation): string { r.memberId }

  /** The ids on the list. */
  function RevokedIds(s: seq<Revocation>): set<string> {
    if s == [] then {} else RevokedIds(s[..|s| - 1]) + {s[|s| - 1].memberId}
  }

  ghost predicate NoRepeats(s: seq<Revocation>) {
    forall i, j :: 0 <= i < j < |s| ==> s[i].memberId != s[j].memberId
  }

  /** The entries of `s` whose id is neither in `seen` nor earlier in `s`. */
  function Fresh(seen: set<string>, s: seq<Revocation>): seq<Revocation> {
    if s == [] then []
    else
      var before, x := s[..|s| - 1], s[|s| - 1];
      Fresh(seen, before) + if x.memberId in seen + RevokedIds(before) then [] else [x]
  }

  function MergedList(local: seq<Revocation>, other: seq<Revocation>): seq<Revocation> {
    Fresh({}, local) + Fresh(RevokedIds(local), other)
  }

  method Merge(local: seq<Revocation>, other: seq<Revocation>) returns (out: seq<Revocation>)
    ensures out == MergedList(local, other)
  {
    out := [];
    var seen: set<string> := {};
    for i := 0 to |local|
      invariant out == Fresh({}, local[..i]) && seen == RevokedIds(local[..i])
    {
      assert local[..i + 1][..i] == local[..i];
      if local[i].memberId !in seen {
        out := out + [local[i]];
        seen := seen + {local[i].memberId};
      }
    }
    assert local[..|local|] == local;
    for i := 0 to |other|
      invariant out == Fresh({}, local) + Fresh(RevokedIds(local), other[..i])
      invariant seen == RevokedIds(local) + RevokedIds(other[..i])
    {
      assert other[..i + 1][..i] == other[..i];
      if other[i].memberId !in seen {
        out := out + [other[i]];
        seen := seen + {other[i].memberId};
      }
    }
    assert other[..|other|] == other;
  }

  lemma {:induction false} IdsFacts(s: seq<Revocation>)
    ensures forall r :: r in s ==> r.memberId in RevokedIds(s)
    ensures forall x :: x in RevokedIds(s) ==> exists r :: r in s && r.memberId == x
  {
    if s != [] {
      var t := s[..|s| - 1];
      IdsFacts(t);
      assert s == t + [s[|s| - 1]];
    }
  }

  lemma {:induction false} IdsConcat(a: seq<Revocation>, b: seq<Revocation>)
    ensures RevokedIds(a + b) == RevokedIds(a) + RevokedIds(b)
  {
    if b == [] {
      assert a + b == a;
    } else {
      assert (a + b)[..|a + b| - 1] == a + b[..|b| - 1];
      IdsConcat(a, b[..|b| - 1]);
    }
  }

  /** A list without repeats is as long as its set of ids. */
  lemma {:induction false} IdCount(s: seq<Revocation>)
    ensures |RevokedIds(s)| <= |s|
    ensures |RevokedIds(s)| == |s| <==> NoRepeats(s)
  {
    if s != [] {
      IdCount(s[..|s| - 1]);
      RepeatsAppend(s[..|s| - 1], s[|s| - 1]);
      assert s == s[..|s| - 1] + [s[|s| - 1]];
    }
  }

  lemma RepeatsAppend(t: seq<Revocation>, x: Revocation)
    ensures NoRepeats(t + [x]) <==> NoRepeats(t) && x.memberId !in RevokedIds(t)
  {
    var s := t + [x];
    IdsFacts(t);
    assert forall i :: 0 <= i < |t| ==> s[i] == t[i] && t[i] in t;
    if x.memberId in RevokedIds(t) {
      var i :| 0 <= i < |t| && t[i].memberId == x.memberId;
      assert s[i].memberId == s[|t|].memberId;
    }
    if NoRepeats(s) {
      assert forall i, j :: 0 <= i < j < |t| ==> s[i].memberId != s[j].memberId;
    }
  }

  lemma {:induction false} FreshFacts(seen: set<string>, s: seq<Revocation>)
    ensures RevokedIds(Fresh(seen, s)) == RevokedIds(s) - seen
    ensures |Fresh(seen, s)| == |RevokedIds(s) - seen|
    ensures forall r :: r in Fresh(seen, s) ==> r in s
  {
    if s != [] {
      var t, x := s[..|s| - 1], s[|s| - 1];
      FreshFacts(seen, t);
      assert s == t + [x];
      assert Fresh(seen, s) == Fresh(seen, t) + if x.memberId in seen + RevokedIds(t) then [] else [x];
      IdsSnoc(Fresh(seen, t), x);
      NewId(RevokedIds(t), seen, x.memberId);
      assert Fresh(seen, t) + [] == Fresh(seen, t);
    }
  }

  lemma IdsSnoc(s: seq<Revocation>, x: Revocation)
    ensures RevokedIds(s + [x]) == RevokedIds(s) + {x.memberId}
  {
    assert (s + [x])[..|s|] == s;
  }

  lemma NewId(ids: set<string>, seen: set<string>, id: string)
    ensures if id in seen + ids then ids + {id} - seen == ids - seen
            else ids + {id} - seen == (ids - seen) + {id} && |ids + {id} - seen| == |ids - seen| + 1
  {
    if id !in seen + ids { assert ids + {id} - seen == (ids - seen) + {id}; }
  }

  /** The merge is the union of ids, each once, with the local entry kept for ids known
      on both sides. */
  lemma MergeIsUnion(local: seq<Revocation>, other: seq<Revocation>)
    ensures var out := MergedList(local, other);
            && RevokedIds(out) == RevokedIds(local) + RevokedIds(other)
            && NoRepeats(out)
            && |out| == |RevokedIds(local) + RevokedIds(other)|
            && (forall r :: r in out && r.memberId in RevokedIds(local) ==> r in local)
  {
    var a, b := Fresh({}, local), Fresh(RevokedIds(local), other);
    FreshFacts({}, local);
    FreshFacts(RevokedIds(local), other);
    IdsConcat(a, b);
    var mine, theirs := RevokedIds(local), RevokedIds(other);
    assert mine - {} == mine;
    UnionSize(mine, theirs);
    IdCount(a + b);
    NewcomersAreNew(local, b);
  }

  /** The entry at that position is the first of its id. */
  ghost predicate IsFirst(s: seq<Revocation>, i: nat) {
    i < |s| && forall j :: 0 <= j < i ==> s[j].memberId != s[i].memberId
  }

  lemma {:induction false} FreshIsFirst(seen: set<string>, s: seq<Revocation>)
    ensures forall r :: r in Fresh(seen, s) <==> r.memberId !in seen && exists i: nat :: IsFirst(s, i) && s[i] == r
  {
    if s != [] {
      var t, x := s[..|s| - 1], s[|s| - 1];
      FreshIsFirst(seen, t);
      IdsFacts(t);
      forall i: nat ensures IsFirst(s, i) <==> IsFirst(t, i) || (i == |t| && x.memberId !in RevokedIds(t)) {
        if IsFirst(s, i) && i < |t| { assert forall j :: 0 <= j < i ==> t[j] == s[j]; }
        if IsFirst(t, i) { assert forall j :: 0 <= j < i ==> t[j] == s[j]; }
        if i == |t| { LastIsFirst(s); }
      }
    }
  }

  lemma LastIsFirst(s: seq<Revocation>)
    requires s != []
    ensures IsFirst(s, |s| - 1) <==> s[|s| - 1].memberId !in RevokedIds(s[..|s| - 1])
  {
    var t := s[..|s| - 1];
    IdsFacts(t);
    if s[|s| - 1].memberId in RevokedIds(t) {
      var r :| r in t && r.memberId == s[|s| - 1].memberId;
      var j :| 0 <= j < |t| && t[j] == r;
      assert s[j].memberId == s[|s| - 1].memberId;
    } else {
      forall j | 0 <= j < |t| ensures s[j].memberId != s[|s| - 1].memberId { assert s[j] == t[j] && t[j] in t; }
    }
  }

  /** Which entry stays for an id: the first local one, or the first fetched one if there
      is no local one; a local list without repeats stays in front as it is. */
  lemma MergeKeepsFirst(local: seq<Revocation>, other: seq<Revocation>)
    ensures forall r :: r in MergedList(local, other)
              <==> (exists i: nat :: IsFirst(local, i) && local[i] == r)
                   || (r.memberId !in RevokedIds(local) && exists i: nat :: IsFirst(other, i) && other[i] == r)
    ensures NoRepeats(local) ==> local <= MergedList(local, other)
  {
    FreshIsFirst({}, local);
    FreshIsFirst(RevokedIds(local), other);
    if NoRepeats(local) { AllFresh(local); }
  }

  lemma {:induction false} AllFresh(s: seq<Revocation>)
    requires NoRepeats(s)
    ensures Fresh({}, s) == s
  {
    if s != [] {
      var t, x := s[..|s| - 1], s[|s| - 1];
      assert s == t + [x];
      RepeatsAppend(t, x);
      AllFresh(t);
    }
  }

  lemma NewcomersAreNew(local: seq<Revocation>, b: seq<Revocation>)
    requires RevokedIds(b) !! RevokedIds(local)
    ensures forall r :: r in b ==> r.memberId !in RevokedIds(local)
  {
    IdsFacts(b);
  }

  lemma UnionSize(a: set<string>, b: set<string>)
    ensures a + b == a + (b - a) && |a + b| == |a| + |b - a|
  {
    assert a + b == a + (b - a);
  }

  /** What gossip saves: only a list that got longer. */
  predicate Saves(local: seq<Revocation>, merged: seq<Revocation>) { |merged| > |local| }

  /** The exact rule: a merge is saved when the new ids outnumber the repeats that the
      local list already held. */
  lemma SavedIffNewOutnumberRepeats(local: seq<Revocation>, other: seq<Revocation>)
    ensures Saves(local, MergedList(local, other))
            <==> |RevokedIds(other) - RevokedIds(local)| > |local| - |RevokedIds(local)|
  {
    MergeIsUnion(local, other);
    var mine, theirs := RevokedIds(local), RevokedIds(other);
    UnionSize(mine, theirs);
  }

  /** Hence "saved exactly when it adds an id", for every fetched list, is a property of
      the local list: it must hold no id twice. */
  lemma SavedExactlyOnNewIffNoRepeats(local: seq<Revocation>)
    ensures (forall other :: Saves(local, MergedList(local, other)) <==> !(RevokedIds(other) <= RevokedIds(local)))
            <==> NoRepeats(local)
  {
    IdCount(local);
    if NoRepeats(local) {
      forall other ensures Saves(local, MergedList(local, other)) <==> !(RevokedIds(other) <= RevokedIds(local)) {
        SavedIffNewOutnumberRepeats(local, other);
        assert RevokedIds(other) <= RevokedIds(local) <==> RevokedIds(other) - RevokedIds(local) == {};
      }
    } else {
      var id := FreshId(RevokedIds(local));
      var news := Revocation(id, "", 0, "", "");
      OneNewId(local, news);
      assert !(RevokedIds([news]) <= RevokedIds(local));
    }
  }

  /** A single new id is saved exactly when the list held no repeats. */
  lemma OneNewId(local: seq<Revocation>, news: Revocation)
    requires news.memberId !in RevokedIds(local)
    ensures RevokedIds([news]) == {news.memberId}
    ensures Saves(local, MergedList(local, [news])) <==> NoRepeats(local)
  {
    assert [news][..0] == [];
    SavedIffNewOutnumberRepeats(local, [news]);
    assert RevokedIds([news]) - RevokedIds(local) == {news.memberId};
    IdCount(local);
  }

  /** Some id outside a finite set: one longer than all of them. */
  lemma FreshId(ids: set<string>) returns (id: string)
    ensures id !in ids
  {
    var bound := LengthBound(ids);
    id := seq(bound + 1, _ => 'x');
  }

  lemma {:induction false} LengthBound(ids: set<string>) returns (n: nat)
    ensures forall x :: x in ids ==> |x| <= n
  {
    n := 0;
    if ids != {} {
      var x :| x in ids;
      n := LengthBound(ids - {x});
      if |x| > n { n := |x|; }
    }
  }

  // ---------- gossip ----------

  function RevocationDigest(s: seq<Revocation>): Hash { Sha256(Text.Join(SortSlice(Lines(s, RevokedId), Less), '\n')) }

  /** What one heartbeat from a peer holding `other` leaves of `local`: equal digests skip
      the fetch, and only a longer merge is saved. */
  function Pulled(local: seq<Revocation>, other: seq<Revocation>): seq<Revocation> {
    if RevocationDigest(local) != RevocationDigest(other) && Saves(local, MergedList(local, other))
    then MergedList(local, other)
    else local
  }

  /** The saved list, which gossip and the membership service share. */
  class Store {
    var entries: seq<Revocation>

    constructor (entries: seq<Revocation>)
      ensures this.entries == entries
    {
      this.entries := entries;
    }
  }

  /** Gossip, with the registry's snapshot of who is revoked. */
  class Syncer {
    const store: Store
    var snapshot: set<string>
    var inflight: set<string>

    constructor (store: Store)
      ensures this.store == store && snapshot == RevokedIds(store.entries) && inflight == {}
    {
      this.store, inflight := store, {};
      snapshot := RevokedIds(store.entries);
    }

    method MaybeSync(sender: string, theirs: Option<Hash>, addr: Option<string>, fetched: Option<seq<Revocation>>)
      returns (triggered: bool)
      modifies this, store
      ensures inflight == old(inflight)
      ensures triggered <==> theirs.Some? && RevocationDigest(old(store.entries)) != theirs.value
                             && sender !in old(inflight) && addr.Some?
      ensures if triggered && fetched.Some? && Saves(old(store.entries), MergedList(old(store.entries), fetched.value))
              then store.entries == MergedList(old(store.entries), fetched.value) && snapshot == RevokedIds(store.entries)
              else store.entries == old(store.entries) && snapshot == old(snapshot)
      ensures sender !in old(inflight) && addr.Some? && fetched.Some? && theirs == Some(RevocationDigest(fetched.value))
              ==> store.entries == Pulled(old(store.entries), fetched.value)
    {
      if theirs.None? || RevocationDigest(store.entries) == theirs.value { return false; }
      if sender in inflight { return false; }
      inflight := inflight + {sender};
      if addr.None? {
        inflight := inflight - {sender};
        return false;
      }
      if fetched.Some? {
        var merged := Merge(store.entries, fetched.value);
        if |merged| > |store.entries| {
          store.entries := merged;
          snapshot := RevokedIds(merged);
        }
      }
      inflight := inflight - {sender};
      triggered := true;
    }
  }

  datatype RevokeError = NoMemberId | NotInRoster

  /** The membership service, as far as it revokes. */
  class Membership {
    const roster: Roster.Membership
    const store: Store

    constructor (roster: Roster.Membership, store: Store)
      ensures this.roster == roster && this.store == store
    {
      this.roster, this.store := roster, store;
    }

    /** The first roster entry of the id is marked, and an entry with its key's hash is
        appended to the list whether or not the id is there already. */
    method Revoke(memberId: string, reason: string, revoker: string, hashKey: string -> string, now: Instant)
      returns (r: Result<Revocation, RevokeError>)
      modifies store, roster
      ensures var key := Roster.KeyOf(old(roster.roster), memberId);
              && r == (if memberId == "" then Err(NoMemberId)
                       else if key.None? then Err(NotInRoster)
                       else Ok(Revocation(memberId, "sha256:" + hashKey(key.value), now, revoker, reason)))
      ensures r.Err? ==> store.entries == old(store.entries) && roster.roster == old(roster.roster)
      ensures r.Ok? ==>
                && store.entries == old(store.entries) + [r.value]
                && roster.roster == Roster.RevokedIn(old(roster.roster), memberId)
    {
      if memberId == "" { return Err(NoMemberId); }
      ghost var before := roster.roster;
      var key := roster.MarkRevoked(memberId);
      if key.None? {
        Roster.NobodyRevoked(before, memberId);
        return Err(NotInRoster);
      }
      var entry := Revocation(memberId, "sha256:" + hashKey(key.value), now, revoker, reason);
      store.entries := store.entries + [entry];
      r := Ok(entry);
    }
  }

  /** Revoking the same member twice leaves a repeat, after which one new id from a peer
      is merged but not saved. */
  lemma RevokingTwiceHidesNews(local: seq<Revocation>, entry: Revocation, news: Revocation)
    requires NoRepeats(local) && entry.memberId in RevokedIds(local)
    requires news.memberId !in RevokedIds(local)
    ensures !Saves(local + [entry], MergedList(local + [entry], [news]))
    ensures Saves(local, MergedList(local, [news]))
  {
    var twice := local + [entry];
    assert twice[..|local|] == local;
    assert RevokedIds(twice) == RevokedIds(local);
    IdCount(local);
    IdCount(twice);
    OneNewId(local, news);
    OneNewId(twice, news);
  }

  // ---------- where gossip ends ----------

  ghost predicate LineClean(s: seq<Revocation>) {
    forall r :: r in s ==> r.memberId != "" && '\n' !in r.memberId
  }

  /** The ids as often as they occur, which is what the digest speaks of. */
  ghost function IdBag(s: seq<Revocation>): multiset<string> { multiset(Lines(s, RevokedId)) }

  /** The digest counts repeats: it tells the ids on the list and how often each occurs. */
  lemma RevocationDigestFaithful(a: seq<Revocation>, b: seq<Revocation>)
    requires LineClean(a) && LineClean(b)
    ensures RevocationDigest(a) == RevocationDigest(b) <==> IdBag(a) == IdBag(b)
  {
    var x, y := SortSlice(Lines(a, RevokedId), Less), SortSlice(Lines(b, RevokedId), Less);
    SortedLines(a, RevokedId);
    SortedLines(b, RevokedId);
    if RevocationDigest(a) == RevocationDigest(b) { Text.JoinInjective(x, y, '\n'); }
    if IdBag(a) == IdBag(b) {
      LessIsStrictOrder();
      SortedUnique(x, y, Less);
    }
  }

  lemma BagFacts(s: seq<Revocation>)
    ensures forall x :: x in IdBag(s) <==> x in RevokedIds(s)
    ensures |IdBag(s)| == |s|
  {
    IdsFacts(s);
    LinesSpell(s, RevokedId);
    var ids := Lines(s, RevokedId);
    forall x ensures x in ids <==> x in RevokedIds(s) {
      if x in ids { var r :| r in s && x == RevokedId(r); }
      if x in RevokedIds(s) { var r :| r in s && r.memberId == x; assert RevokedId(r) in ids; }
    }
  }

  lemma BagCounts(s: seq<Revocation>)
    requires NoRepeats(s)
    ensures forall x :: IdBag(s)[x] == if x in IdBag(s) then 1 else 0
  {
    var ids := Lines(s, RevokedId);
    forall i, j | 0 <= i < j < |ids| ensures ids[i] != ids[j] { assert s[i].memberId != s[j].memberId; }
    NoDupMultiplicity(ids);
  }

  lemma EqualBags(a: seq<Revocation>, b: seq<Revocation>)
    requires IdBag(a) == IdBag(b)
    ensures RevokedIds(a) == RevokedIds(b) && |a| == |b| && (NoRepeats(a) <==> NoRepeats(b))
  {
    BagFacts(a);
    BagFacts(b);
    assert forall x :: x in RevokedIds(a) <==> x in RevokedIds(b);
    assert RevokedIds(a) == RevokedIds(b);
    IdCount(a);
    IdCount(b);
  }

  lemma SameIdsSameBag(a: seq<Revocation>, b: seq<Revocation>)
    requires NoRepeats(a) && NoRepeats(b) && RevokedIds(a) == RevokedIds(b)
    ensures IdBag(a) == IdBag(b)
  {
    BagFacts(a);
    BagFacts(b);
    BagCounts(a);
    BagCounts(b);
    forall x ensures IdBag(a)[x] == IdBag(b)[x] { assert x in IdBag(a) <==> x in IdBag(b); }
  }

  /** The ids to learn from `other` outnumber the repeats on the list. */
  ghost predicate Takes(local: seq<Revocation>, other: seq<Revocation>) {
    |RevokedIds(other) - RevokedIds(local)| > |local| - |RevokedIds(local)|
  }

  ghost predicate Settles(local: seq<Revocation>, other: seq<Revocation>) { NoRepeats(local) || Takes(local, other) }

  lemma PulledFacts(local: seq<Revocation>, other: seq<Revocation>)
    requires LineClean(local) && LineClean(other)
    ensures var out := Pulled(local, other);
            && LineClean(out)
            && (if Takes(local, other)
                then NoRepeats(out) && RevokedIds(out) == RevokedIds(local) + RevokedIds(other)
                else out == local)
  {
    SavedIffNewOutnumberRepeats(local, other);
    MergeIsUnion(local, other);
    MergeTakesFrom(local, other);
    RevocationDigestFaithful(local, other);
    if IdBag(local) == IdBag(other) {
      EqualBags(local, other);
      IdCount(local);
      assert RevokedIds(other) - RevokedIds(local) == {};
    }
  }

  lemma MergeTakesFrom(local: seq<Revocation>, other: seq<Revocation>)
    ensures forall r :: r in MergedList(local, other) ==> r in local || r in other
  {
    FreshFacts({}, local);
    FreshFacts(RevokedIds(local), other);
  }

  /** After `n` rounds, in each of which `b` hears of `a` and then `a` of `b`. */
  function Rounds(a: seq<Revocation>, b: seq<Revocation>, n: nat): (seq<Revocation>, seq<Revocation>) {
    if n == 0 then (a, b)
    else
      var (x, y) := Rounds(a, b, n - 1);
      (Pulled(x, Pulled(y, x)), Pulled(y, x))
  }

  /** Having heard of `other`, a peer takes nothing from a list with the same news. */
  lemma TakesOnce(local: seq<Revocation>, other: seq<Revocation>, again: seq<Revocation>)
    requires LineClean(local) && LineClean(other)
    requires RevokedIds(again) - RevokedIds(local) == RevokedIds(other) - RevokedIds(local)
    ensures !Takes(Pulled(local, other), again)
  {
    PulledFacts(local, other);
    var out := Pulled(local, other);
    IdCount(out);
    if Takes(local, other) { NewsGone(RevokedIds(local), RevokedIds(other), RevokedIds(again)); }
  }

  lemma NewsGone(mine: set<string>, theirs: set<string>, again: set<string>)
    requires again - mine == theirs - mine
    ensures again - (mine + theirs) == {}
  {
    forall x | x in again ensures x in mine + theirs {
      if x !in mine { assert x in again - mine; }
    }
  }

  /** After one round no further one changes anything. */
  lemma RoundIsLast(a: seq<Revocation>, b: seq<Revocation>)
    requires LineClean(a) && LineClean(b)
    ensures var y := Pulled(b, a);
            var x := Pulled(a, y);
            Pulled(y, x) == y && Pulled(x, y) == x
  {
    var y := Pulled(b, a);
    var x := Pulled(a, y);
    PulledFacts(b, a);
    PulledFacts(a, y);
    SameNews(a, b, x, y);
    TakesOnce(b, a, x);
    TakesOnce(a, y, y);
    PulledFacts(y, x);
    PulledFacts(x, y);
  }

  lemma SameNews(a: seq<Revocation>, b: seq<Revocation>, x: seq<Revocation>, y: seq<Revocation>)
    requires RevokedIds(y) == RevokedIds(b) || RevokedIds(y) == RevokedIds(b) + RevokedIds(a)
    requires RevokedIds(x) == RevokedIds(a) || RevokedIds(x) == RevokedIds(a) + RevokedIds(y)
    ensures RevokedIds(x) - RevokedIds(b) == RevokedIds(a) - RevokedIds(b)
  {
  }

  lemma RoundSettlesIff(a: seq<Revocation>, b: seq<Revocation>)
    requires LineClean(a) && LineClean(b)
    ensures var y := Pulled(b, a);
            RevocationDigest(Pulled(a, y)) == RevocationDigest(y)
            <==> RevocationDigest(a) == RevocationDigest(b) || (Settles(a, b) && Settles(b, a))
  {
    var y := Pulled(b, a);
    var x := Pulled(a, y);
    var mine, theirs := RevokedIds(a), RevokedIds(b);
    PulledFacts(b, a);
    PulledFacts(a, y);
    assert (theirs + mine) - mine == theirs - mine;
    assert Takes(a, y) <==> Takes(a, b);
    IdCount(a);
    IdCount(b);
    RevocationDigestFaithful(a, b);
    RevocationDigestFaithful(x, y);
    if NoRepeats(x) && NoRepeats(y) && RevokedIds(x) == RevokedIds(y) { SameIdsSameBag(x, y); }
    if IdBag(x) == IdBag(y) { EqualBags(x, y); }
    SameOrMissing(mine, theirs);
    SameOrMissing(theirs, mine);
  }

  lemma SameOrMissing(a: set<string>, b: set<string>)
    ensures |b - a| == 0 <==> a + b == a
    ensures a + b == b + a
  {
    if |b - a| == 0 { assert forall x :: x in b ==> x in a || x in b - a; }
    if a + b == a { assert forall x :: x in b ==> x in a + b; }
  }

  lemma {:induction false} RoundsAreOne(a: seq<Revocation>, b: seq<Revocation>, n: nat)
    requires LineClean(a) && LineClean(b)
    ensures n > 0 ==> Rounds(a, b, n) == (Pulled(a, Pulled(b, a)), Pulled(b, a))
  {
    if n == 1 {
      assert Rounds(a, b, 0) == (a, b);
    } else if n > 1 {
      RoundsAreOne(a, b, n - 1);
      RoundIsLast(a, b);
    }
  }

  predicate AgreeAfter(a: seq<Revocation>, b: seq<Revocation>, n: nat) {
    RevocationDigest(Rounds(a, b, n).0) == RevocationDigest(Rounds(a, b, n).1)
  }

  /** The exact condition: two peers that hear of each other any number of times come to
      equal digests if and only if they had them, or each one's list is free of repeats
      or has fewer of them than ids to learn. Otherwise they fetch on every heartbeat. */
  lemma GossipSettlesIff(a: seq<Revocation>, b: seq<Revocation>)
    requires LineClean(a) && LineClean(b)
    ensures (exists n: nat :: AgreeAfter(a, b, n))
            <==> RevocationDigest(a) == RevocationDigest(b) || (Settles(a, b) && Settles(b, a))
  {
    RoundSettlesIff(a, b);
    RoundsAreOne(a, b, 1);
    assert AgreeAfter(a, b, 0) <==> RevocationDigest(a) == RevocationDigest(b);
    assert AgreeAfter(a, b, 1)
      <==> RevocationDigest(a) == RevocationDigest(b) || (Settles(a, b) && Settles(b, a));
    if n: nat :| AgreeAfter(a, b, n) {
      RoundsAreOne(a, b, n);
    }
  }
}
