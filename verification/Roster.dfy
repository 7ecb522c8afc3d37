/** The roster: its state-ranked merge, its gossip, and the operations that produce
    roster states (src/cland/internal/state/state.go, src/cland/internal/rostersync/sync.go,
    src/cland/internal/membership/service.go). */
module Roster {
  import opened Wrappers
  import opened Ordering
  import opened Keyed
  import opened MemoryDigest
  import Text

  // Seconds.
  const ZOMBIE_MAX_AGE: int := 86_400

  datatype Member = Member(memberId: string, pubKey: string, state: string, admittedAt: Instant, lastSeenAt: Instant)

  function MemberId(m: Member): string { m.memberId }

  /** A state outside the table ranks as the zero value of a Go map. */
  function Rank(state: string): nat {
    if state == "admitted" then 1 else if state == "active" then 2 else if state == "revoked" then 3 else 0
  }

  predicate Known(state: string) { state in {"unaffiliated", "admitted", "active", "revoked"} }

  // ---------- merge ----------

  function Absorb(byId: map<string, Member>, m: Member): map<string, Member> {
    if m.memberId !in byId then byId[m.memberId := m]
    else if Rank(m.state) > Rank(byId[m.memberId].state) then byId[m.memberId := byId[m.memberId].(state := m.state)]
    else byId
  }

  function AbsorbAll(byId: map<string, Member>, s: seq<Member>): map<string, Member> {
    if s == [] then byId else Absorb(AbsorbAll(byId, s[..|s| - 1]), s[|s| - 1])
  }

  /** The ids of `s` that are not in `seen`, each once, in order. */
  function NewIds(seen: set<string>, s: seq<Member>): seq<string> {
    if s == [] then []
    else
      var before := NewIds(seen, s[..|s| - 1]);
      if s[|s| - 1].memberId in seen || s[|s| - 1].memberId in before then before else before + [s[|s| - 1].memberId]
  }

  function Ids(s: seq<Member>): seq<string> { seq(|s|, i requires 0 <= i < |s| => s[i].memberId) }

  ghost function MergedIds(local: seq<Member>, other: seq<Member>): seq<string> {
    Ids(local) + NewIds(KeySet(local, MemberId), other)
  }

  ghost predicate IsMerge(out: seq<Member>, local: seq<Member>, other: seq<Member>) {
    var byId := AbsorbAll(LastMap(local, MemberId), other);
    && Ids(out) == MergedIds(local, other)
    && forall m :: m in out ==> m.memberId in byId && byId[m.memberId] == m
  }

  method MergeRosterStates(local: seq<Member>, other: seq<Member>) returns (out: seq<Member>)
    ensures IsMerge(out, local, other)
  {
    var byId := IndexById(local, other);
    AbsorbAllKeys(LastMap(local, MemberId), other);
    LastMapFacts(local, MemberId);
    var seen;
    out, seen := ListLocal(local, byId);
    out := AppendNew(out, seen, byId, other);
  }

  method ListLocal(local: seq<Member>, byId: map<string, Member>) returns (out: seq<Member>, seen: set<string>)
    requires KeyedBy(byId, MemberId) && KeySet(local, MemberId) <= byId.Keys
    ensures Ids(out) == Ids(local) && seen == KeySet(local, MemberId)
    ensures forall m :: m in out ==> m.memberId in byId && byId[m.memberId] == m
  {
    out, seen := [], {};
    for i := 0 to |local|
      invariant Ids(out) == Ids(local[..i])
      invariant seen == KeySet(local[..i], MemberId)
      invariant forall m :: m in out ==> m.memberId in byId && byId[m.memberId] == m
    {
      var id := local[i].memberId;
      assert local[..i + 1] == local[..i] + [local[i]];
      assert local[i] in local && MemberId(local[i]) in KeySet(local, MemberId);
      assert KeySet(local[..i + 1], MemberId) == KeySet(local[..i], MemberId) + {MemberId(local[i])};
      assert MemberId(byId[id]) == id;
      assert Ids(out + [byId[id]]) == Ids(out) + [id];
      out := out + [byId[id]];
      seen := seen + {id};
    }
    assert local[..|local|] == local;
  }

  method IndexById(local: seq<Member>, other: seq<Member>) returns (byId: map<string, Member>)
    ensures byId == AbsorbAll(LastMap(local, MemberId), other)
  {
    byId := map[];
    for i := 0 to |local|
      invariant byId == LastMap(local[..i], MemberId)
    {
      assert local[..i + 1][..i] == local[..i];
      byId := byId[local[i].memberId := local[i]];
    }
    assert local[..|local|] == local;
    for i := 0 to |other|
      invariant byId == AbsorbAll(LastMap(local, MemberId), other[..i])
    {
      assert other[..i + 1][..i] == other[..i];
      var m := other[i];
      if m.memberId !in byId {
        byId := byId[m.memberId := m];
      } else if Rank(m.state) > Rank(byId[m.memberId].state) {
        byId := byId[m.memberId := byId[m.memberId].(state := m.state)];
      }
    }
    assert other[..|other|] == other;
  }

  method AppendNew(start: seq<Member>, localIds: set<string>, byId: map<string, Member>, other: seq<Member>)
    returns (out: seq<Member>)
    requires KeyedBy(byId, MemberId) && KeySet(other, MemberId) <= byId.Keys
    requires forall m :: m in start ==> m.memberId in byId && byId[m.memberId] == m
    ensures Ids(out) == Ids(start) + NewIds(localIds, other)
    ensures forall m :: m in out ==> m.memberId in byId && byId[m.memberId] == m
  {
    out := start;
    var seen := localIds;
    for i := 0 to |other|
      invariant Ids(out) == Ids(start) + NewIds(localIds, other[..i])
      invariant forall x :: x in seen <==> x in localIds || x in NewIds(localIds, other[..i])
      invariant forall m :: m in out ==> m.memberId in byId && byId[m.memberId] == m
    {
      assert other[..i + 1][..i] == other[..i];
      var id := other[i].memberId;
      assert other[i] in other && MemberId(other[i]) in KeySet(other, MemberId);
      assert MemberId(byId[id]) == id;
      if id !in seen {
        assert Ids(out + [byId[id]]) == Ids(out) + [id];
        out := out + [byId[id]];
        seen := seen + {id};
      }
    }
    assert other[..|other|] == other;
  }

  lemma {:induction false} AbsorbAllKeys(m: map<string, Member>, s: seq<Member>)
    ensures AbsorbAll(m, s).Keys == m.Keys + KeySet(s, MemberId)
    ensures KeyedBy(m, MemberId) ==> KeyedBy(AbsorbAll(m, s), MemberId)
  {
    if s != [] {
      var t, x := s[..|s| - 1], s[|s| - 1];
      AbsorbAllKeys(m, t);
      AbsorbKeys(AbsorbAll(m, t), x);
      KeySetSnoc(s, MemberId);
    }
  }

  lemma AbsorbKeys(m: map<string, Member>, x: Member)
    ensures Absorb(m, x).Keys == m.Keys + {MemberId(x)}
    ensures KeyedBy(m, MemberId) ==> KeyedBy(Absorb(m, x), MemberId)
  {
  }

  // ---------- ranks ----------

  type RankMap = map<string, nat>

  function Ranks(m: map<string, Member>): RankMap { map k | k in m :: Rank(m[k].state) }

  function RanksOf(s: seq<Member>): RankMap { Ranks(LastMap(s, MemberId)) }

  function MaxRank(m: RankMap, n: RankMap): RankMap {
    map k | k in m.Keys + n.Keys ::
      if k !in n then m[k] else if k !in m then n[k] else if m[k] < n[k] then n[k] else m[k]
  }

  lemma AbsorbIsMax(m: map<string, Member>, x: Member)
    ensures Ranks(Absorb(m, x)) == MaxRank(Ranks(m), map[x.memberId := Rank(x.state)])
  {
  }

  lemma {:induction false} AbsorbAllIsMax(m: map<string, Member>, s: seq<Member>)
    requires Distinct(s, MemberId)
    ensures Ranks(AbsorbAll(m, s)) == MaxRank(Ranks(m), RanksOf(s))
  {
    if s == [] {
      assert RanksOf(s) == map[];
    } else {
      var t, x := s[..|s| - 1], s[|s| - 1];
      var r := map[x.memberId := Rank(x.state)];
      AbsorbAllIsMax(m, t);
      AbsorbIsMax(AbsorbAll(m, t), x);
      MaxRankAssociative(Ranks(m), RanksOf(t), r);
      RanksAppend(s);
    }
  }

  lemma RanksAppend(s: seq<Member>)
    requires s != [] && Distinct(s, MemberId)
    ensures var x := s[|s| - 1];
            RanksOf(s) == MaxRank(RanksOf(s[..|s| - 1]), map[x.memberId := Rank(x.state)])
  {
    LastIsNew(s);
  }

  lemma MaxRankAssociative(a: RankMap, b: RankMap, c: RankMap)
    ensures MaxRank(MaxRank(a, b), c) == MaxRank(a, MaxRank(b, c))
  {
    var l, r := MaxRank(MaxRank(a, b), c), MaxRank(a, MaxRank(b, c));
    assert l.Keys == r.Keys;
    forall k | k in l ensures l[k] == r[k] { }
  }

  lemma LastIsNew(s: seq<Member>)
    requires s != [] && Distinct(s, MemberId)
    ensures s[|s| - 1].memberId !in LastMap(s[..|s| - 1], MemberId)
  {
    LastMapFacts(s[..|s| - 1], MemberId);
  }

  /** The merge is the pointwise maximum of ranks, keeps the local order in front, and
      repeats no id. */
  lemma MergeIsMax(out: seq<Member>, local: seq<Member>, other: seq<Member>)
    requires Distinct(local, MemberId) && Distinct(other, MemberId) && IsMerge(out, local, other)
    ensures RanksOf(out) == MaxRank(RanksOf(local), RanksOf(other))
    ensures Distinct(out, MemberId)
    ensures |out| >= |local| && forall i :: 0 <= i < |local| ==> out[i].memberId == local[i].memberId
  {
    var byId := AbsorbAll(LastMap(local, MemberId), other);
    AbsorbAllIsMax(LastMap(local, MemberId), other);
    AbsorbAllKeys(LastMap(local, MemberId), other);
    LastMapFacts(local, MemberId);
    LastMapFacts(out, MemberId);
    NewIdsFacts(KeySet(local, MemberId), other);
    MergedDistinct(out, local, other);
    IdsAreKeys(out, local, other);
    assert LastMap(out, MemberId) == byId;
  }

  lemma {:induction false} NewIdsFacts(seen: set<string>, s: seq<Member>)
    ensures forall x :: x in NewIds(seen, s) <==> x in KeySet(s, MemberId) && x !in seen
    ensures NoDup(NewIds(seen, s))
  {
    if s != [] {
      NewIdsFacts(seen, s[..|s| - 1]);
      KeySetSnoc(s, MemberId);
    }
  }

  lemma MergedDistinct(out: seq<Member>, local: seq<Member>, other: seq<Member>)
    requires Distinct(local, MemberId) && IsMerge(out, local, other)
    ensures Distinct(out, MemberId)
    ensures |out| >= |local| && forall i :: 0 <= i < |local| ==> out[i].memberId == local[i].memberId
  {
    var ids := MergedIds(local, other);
    NewIdsFacts(KeySet(local, MemberId), other);
    assert |ids| == |out|;
    forall i, j | 0 <= i < j < |out| ensures MemberId(out[i]) != MemberId(out[j]) {
      assert ids[i] == out[i].memberId && ids[j] == out[j].memberId;
      if j < |local| {
        assert MemberId(local[i]) != MemberId(local[j]);
      } else if i < |local| {
        assert ids[j] in NewIds(KeySet(local, MemberId), other);
        assert MemberId(local[i]) in KeySet(local, MemberId);
      }
    }
    forall i | 0 <= i < |local| ensures out[i].memberId == local[i].memberId { assert ids[i] == out[i].memberId; }
  }

  lemma IdsAreKeys(out: seq<Member>, local: seq<Member>, other: seq<Member>)
    requires Ids(out) == MergedIds(local, other)
    ensures KeySet(out, MemberId) == KeySet(local, MemberId) + KeySet(other, MemberId)
  {
    NewIdsFacts(KeySet(local, MemberId), other);
    var ids := MergedIds(local, other);
    forall x ensures x in KeySet(out, MemberId) <==> x in ids {
      if x in KeySet(out, MemberId) {
        var i :| 0 <= i < |out| && MemberId(out[i]) == x;
        assert ids[i] == x;
      }
      if x in ids {
        var i :| 0 <= i < |ids| && ids[i] == x;
        assert Ids(out)[i] == x && out[i] in out && MemberId(out[i]) == x;
      }
    }
    forall x ensures x in Ids(local) <==> x in KeySet(local, MemberId) {
      if x in KeySet(local, MemberId) {
        var i :| 0 <= i < |local| && MemberId(local[i]) == x;
        assert Ids(local)[i] == x;
      }
      if x in Ids(local) {
        var i :| 0 <= i < |local| && Ids(local)[i] == x;
        assert local[i] in local && MemberId(local[i]) == x;
      }
    }
  }

  /** Any merge order gives the same ranks, merging again changes nothing, and no member
      is ever demoted. */
  lemma RankLaws(a: RankMap, b: RankMap, c: RankMap)
    ensures MaxRank(a, b) == MaxRank(b, a)
    ensures MaxRank(MaxRank(a, b), c) == MaxRank(a, MaxRank(b, c))
    ensures MaxRank(MaxRank(a, b), b) == MaxRank(a, b)
    ensures forall k :: k in a ==> k in MaxRank(a, b) && a[k] <= MaxRank(a, b)[k]
  {
    MaxRankAssociative(a, b, c);
  }

  /** With known states the ranks say it all. */
  lemma RankDeterminesState(s: string, t: string)
    requires Known(s) && Known(t)
    ensures Rank(s) == Rank(t) <==> s == t
  {
  }

  // ---------- persisting exactly on change ----------

  predicate SameProjection(a: seq<Member>, b: seq<Member>) {
    |a| == |b| && forall i :: 0 <= i < |a| ==> a[i].memberId == b[i].memberId && a[i].state == b[i].state
  }

  method RosterEqual(a: seq<Member>, b: seq<Member>) returns (eq: bool)
    ensures eq <==> SameProjection(a, b)
  {
    if |a| != |b| { return false; }
    for i := 0 to |a|
      invariant forall j :: 0 <= j < i ==> a[j].memberId == b[j].memberId && a[j].state == b[j].state
    {
      if a[i].memberId != b[i].memberId || a[i].state != b[i].state { return false; }
    }
    eq := true;
  }

  /** `rosterEqual` reports no change exactly when the peer has no member the local
      roster lacks and none further along. */
  lemma EqualIffNothingNew(out: seq<Member>, local: seq<Member>, other: seq<Member>)
    requires Distinct(local, MemberId) && Distinct(other, MemberId) && IsMerge(out, local, other)
    ensures SameProjection(out, local)
            <==> forall m :: m in other ==> m.memberId in RanksOf(local) && Rank(m.state) <= RanksOf(local)[m.memberId]
  {
    if SameProjection(out, local) { SameMeansNothingNew(out, local, other); }
    if forall m :: m in other ==> m.memberId in RanksOf(local) && Rank(m.state) <= RanksOf(local)[m.memberId] {
      NothingNewMeansSame(out, local, other);
    }
  }

  lemma SameMeansNothingNew(out: seq<Member>, local: seq<Member>, other: seq<Member>)
    requires Distinct(local, MemberId) && Distinct(other, MemberId) && IsMerge(out, local, other)
    requires SameProjection(out, local)
    ensures forall m :: m in other ==> m.memberId in RanksOf(local) && Rank(m.state) <= RanksOf(local)[m.memberId]
  {
    MergeIsMax(out, local, other);
    SameProjectionSameRanks(out, local);
    forall m | m in other ensures m.memberId in RanksOf(local) && Rank(m.state) <= RanksOf(local)[m.memberId] {
      DistinctMember(other, MemberId, m);
      assert RanksOf(other)[m.memberId] == Rank(m.state) && m.memberId in RanksOf(out);
    }
  }

  lemma NothingNewMeansSame(out: seq<Member>, local: seq<Member>, other: seq<Member>)
    requires Distinct(local, MemberId) && IsMerge(out, local, other)
    requires forall m :: m in other ==> m.memberId in RanksOf(local) && Rank(m.state) <= RanksOf(local)[m.memberId]
    ensures SameProjection(out, local)
  {
    NothingNewKeeps(LastMap(local, MemberId), other);
    LastMapFacts(local, MemberId);
    NoNewIds(KeySet(local, MemberId), other);
    assert |Ids(out)| == |local|;
    forall i | 0 <= i < |local| ensures out[i].memberId == local[i].memberId && out[i].state == local[i].state {
      DistinctMember(local, MemberId, local[i]);
      assert out[i] in out && Ids(out)[i] == out[i].memberId && Ids(local)[i] == local[i].memberId;
    }
  }

  lemma {:induction false} NoNewIds(seen: set<string>, s: seq<Member>)
    requires forall m :: m in s ==> m.memberId in seen
    ensures NewIds(seen, s) == []
  {
    if s != [] {
      assert s[|s| - 1] in s && forall x :: x in s[..|s| - 1] ==> x in s;
      NoNewIds(seen, s[..|s| - 1]);
    }
  }

  lemma {:induction false} SameProjectionSameRanks(a: seq<Member>, b: seq<Member>)
    requires SameProjection(a, b)
    ensures RanksOf(a) == RanksOf(b)
  {
    if a != [] {
      SameProjectionSameRanks(a[..|a| - 1], b[..|b| - 1]);
      assert RanksOf(a) == RanksOf(a[..|a| - 1])[a[|a| - 1].memberId := Rank(a[|a| - 1].state)];
      assert RanksOf(b) == RanksOf(b[..|b| - 1])[b[|b| - 1].memberId := Rank(b[|b| - 1].state)];
    }
  }

  lemma {:induction false} NothingNewKeeps(m: map<string, Member>, s: seq<Member>)
    requires forall x :: x in s ==> x.memberId in m && Rank(x.state) <= Rank(m[x.memberId].state)
    ensures AbsorbAll(m, s) == m
  {
    if s != [] {
      assert s[|s| - 1] in s && forall x :: x in s[..|s| - 1] ==> x in s;
      NothingNewKeeps(m, s[..|s| - 1]);
    }
  }

  // ---------- gossip ----------

  function Line(m: Member): string { m.memberId + ":" + m.state }

  function RosterDigest(s: seq<Member>): Hash { Sha256(Text.Join(SortSlice(Lines(s, Line), Less), '\n')) }

  /** What one heartbeat from a peer holding `other` leaves of `local`: equal digests skip
      the fetch, and only a merge that changes an id or a state is kept. */
  ghost predicate Pulls(out: seq<Member>, local: seq<Member>, other: seq<Member>) {
    if RosterDigest(local) == RosterDigest(other) then out == local
    else exists m :: IsMerge(m, local, other) && out == if SameProjection(m, local) then local else m
  }

  class Syncer {
    var roster: seq<Member>
    var saves: nat
    var inflight: set<string>

    constructor (roster: seq<Member>)
      ensures this.roster == roster && saves == 0 && inflight == {}
    {
      this.roster, saves, inflight := roster, 0, {};
    }

    method MaybeSync(sender: string, theirs: Option<Hash>, addr: Option<string>, fetched: Option<seq<Member>>)
      returns (triggered: bool)
      modifies this
      ensures inflight == old(inflight)
      ensures triggered <==> theirs.Some? && RosterDigest(old(roster)) != theirs.value
                             && sender !in old(inflight) && addr.Some?
      ensures !(triggered && fetched.Some?) ==> roster == old(roster) && saves == old(saves)
      ensures triggered && fetched.Some? ==>
                if roster == old(roster) && saves == old(saves)
                then exists out :: IsMerge(out, roster, fetched.value) && SameProjection(out, roster)
                else IsMerge(roster, old(roster), fetched.value) && !SameProjection(roster, old(roster))
                     && saves == old(saves) + 1
      ensures sender !in old(inflight) && addr.Some? && fetched.Some? && theirs == Some(RosterDigest(fetched.value))
              ==> Pulls(roster, old(roster), fetched.value)
    {
      if theirs.None? || RosterDigest(roster) == theirs.value { return false; }
      if sender in inflight { return false; }
      inflight := inflight + {sender};
      if addr.None? {
        inflight := inflight - {sender};
        return false;
      }
      if fetched.Some? {
        var merged := MergeRosterStates(roster, fetched.value);
        var same := RosterEqual(merged, roster);
        if !same {
          roster := merged;
          saves := saves + 1;
        }
      }
      inflight := inflight - {sender};
      triggered := true;
    }
  }

  ghost predicate LineClean(s: seq<Member>) {
    forall m :: m in s ==> '\n' !in m.memberId && Known(m.state)
  }

  /** Equal digests: there is nothing to merge, so not fetching loses nothing. */
  lemma EqualDigestsNothingNew(a: seq<Member>, b: seq<Member>)
    requires LineClean(a) && LineClean(b) && Distinct(a, MemberId) && Distinct(b, MemberId)
    requires RosterDigest(a) == RosterDigest(b)
    ensures forall m :: m in b ==> m.memberId in RanksOf(a) && Rank(m.state) == RanksOf(a)[m.memberId]
  {
    SortedAreClean(a);
    SortedAreClean(b);
    Text.JoinInjective(SortSlice(Lines(a, Line), Less), SortSlice(Lines(b, Line), Less), '\n');
    SameLinesSameItems(b, a, Line);
    forall m | m in b ensures m.memberId in RanksOf(a) && Rank(m.state) == RanksOf(a)[m.memberId] {
      var n :| n in a && Line(n) == Line(m);
      SameLineSameMember(m, n);
      DistinctMember(a, MemberId, n);
    }
  }

  lemma SameLineSameMember(m: Member, n: Member)
    requires Known(m.state) && Known(n.state) && Line(m) == Line(n)
    ensures m.memberId == n.memberId && m.state == n.state
  {
    assert Line(n) == n.memberId + [':'] + n.state && Line(m) == m.memberId + [':'] + m.state;
    KnownIsPlain(m.state);
    KnownIsPlain(n.state);
    Text.SplitLast(':', n.memberId, n.state, m.memberId, m.state);
  }

  lemma KnownIsPlain(state: string)
    requires Known(state)
    ensures ':' !in state && '\n' !in state
  {
  }

  lemma SortedAreClean(s: seq<Member>)
    requires LineClean(s)
    ensures forall p :: p in SortSlice(Lines(s, Line), Less) ==> '\n' !in p && p != ""
  {
    SortedLines(s, Line);
    forall m | m in s ensures '\n' !in Line(m) && Line(m) != "" { KnownIsPlain(m.state); }
  }

  // ---------- producers ----------

  function Upsert(s: seq<Member>, m: Member): seq<Member> {
    if s == [] then [m]
    else if s[0].memberId == m.memberId then [m] + s[1..]
    else [s[0]] + Upsert(s[1..], m)
  }

  lemma {:induction false} UpsertFacts(s: seq<Member>, m: Member)
    requires Distinct(s, MemberId)
    ensures Distinct(Upsert(s, m), MemberId)
    ensures forall x :: x in Upsert(s, m) <==> x == m || (x in s && x.memberId != m.memberId)
  {
    if s != [] {
      assert s == [s[0]] + s[1..];
      if s[0].memberId != m.memberId {
        assert Distinct(s[1..], MemberId);
        UpsertFacts(s[1..], m);
      }
      assert forall x :: x in s[1..] ==> MemberId(x) != MemberId(s[0]);
      HeadDistinct(s[0], if s[0].memberId == m.memberId then s[1..] else Upsert(s[1..], m));
      HeadDistinct(m, s[1..]);
    }
  }

  lemma HeadDistinct(x: Member, t: seq<Member>)
    requires Distinct(t, MemberId)
    ensures (forall y :: y in t ==> MemberId(y) != MemberId(x)) ==> Distinct([x] + t, MemberId)
  {
    var u := [x] + t;
    if forall y :: y in t ==> MemberId(y) != MemberId(x) {
      forall i, j | 0 <= i < j < |u| ensures MemberId(u[i]) != MemberId(u[j]) {
        assert u[j] in t;
        if i > 0 { assert u[i] == t[i - 1] && u[j] == t[j - 1]; }
      }
    }
  }

  lemma {:induction false} FirstUpserted(s: seq<Member>, m: Member, i: nat)
    requires i < |s| && s[i].memberId == m.memberId && forall j :: 0 <= j < i ==> s[j].memberId != m.memberId
    ensures Upsert(s, m) == s[i := m]
  {
    if i > 0 {
      FirstUpserted(s[1..], m, i - 1);
      assert s == [s[0]] + s[1..];
    }
  }

  lemma {:induction false} NewUpserted(s: seq<Member>, m: Member)
    requires forall j :: 0 <= j < |s| ==> s[j].memberId != m.memberId
    ensures Upsert(s, m) == s + [m]
  {
    if s != [] {
      NewUpserted(s[1..], m);
      assert s == [s[0]] + s[1..];
    }
  }

  /** A join writes its member's rank over whatever was there. */
  lemma UpsertRanks(s: seq<Member>, m: Member)
    requires Distinct(s, MemberId)
    ensures RanksOf(Upsert(s, m)) == RanksOf(s)[m.memberId := Rank(m.state)]
  {
    UpsertFacts(s, m);
    DistinctMember(Upsert(s, m), MemberId, m);
    forall k | k != m.memberId
      ensures k in RanksOf(s) <==> k in RanksOf(Upsert(s, m))
      ensures k in RanksOf(s) ==> RanksOf(Upsert(s, m))[k] == RanksOf(s)[k]
    {
      UpsertKeeps(s, m, k);
    }
  }

  lemma UpsertKeeps(s: seq<Member>, m: Member, k: string)
    requires Distinct(s, MemberId) && k != m.memberId
    ensures k in LastMap(s, MemberId) <==> k in LastMap(Upsert(s, m), MemberId)
    ensures k in LastMap(s, MemberId) ==> LastMap(Upsert(s, m), MemberId)[k] == LastMap(s, MemberId)[k]
  {
    var t := Upsert(s, m);
    UpsertFacts(s, m);
    LastMapFacts(s, MemberId);
    LastMapFacts(t, MemberId);
    if k in LastMap(s, MemberId) { DistinctMember(t, MemberId, LastMap(s, MemberId)[k]); }
    if k in LastMap(t, MemberId) { DistinctMember(s, MemberId, LastMap(t, MemberId)[k]); }
  }

  /** A join demotes nobody exactly when the member is new or joins at no lower a rank
      than it had. */
  lemma JoinDemotesIffHigherBefore(s: seq<Member>, m: Member)
    requires Distinct(s, MemberId)
    ensures (forall k :: k in RanksOf(s) ==> k in RanksOf(Upsert(s, m)) && RanksOf(s)[k] <= RanksOf(Upsert(s, m))[k])
            <==> (m.memberId in RanksOf(s) ==> RanksOf(s)[m.memberId] <= Rank(m.state))
  {
    UpsertRanks(s, m);
  }

  /** The service admits at rank 1, so a join keeps every rank exactly when the joiner is
      new or not yet past "admitted": "revoked" is sticky in the merge, not in the service. */
  lemma RejoinDemotes(s: seq<Member>, m: Member)
    requires Distinct(s, MemberId) && (forall x :: x in s ==> Known(x.state)) && m.state == "admitted"
    ensures (forall k :: k in RanksOf(s) ==> k in RanksOf(Upsert(s, m)) && RanksOf(s)[k] <= RanksOf(Upsert(s, m))[k])
            <==> forall x :: x in s && x.memberId == m.memberId ==> x.state !in {"active", "revoked"}
  {
    JoinDemotesIffHigherBefore(s, m);
    LastMapFacts(s, MemberId);
    forall x | x in s && x.memberId == m.memberId ensures LastMap(s, MemberId)[m.memberId] == x {
      DistinctMember(s, MemberId, x);
    }
  }

  /** The roster with the first entry of that id revoked. */
  function RevokedIn(s: seq<Member>, id: string): seq<Member> {
    if s == [] then []
    else if s[0].memberId == id then [s[0].(state := "revoked")] + s[1..]
    else [s[0]] + RevokedIn(s[1..], id)
  }

  /** The key of the first entry of that id. */
  function KeyOf(s: seq<Member>, id: string): (key: Option<string>)
    ensures key.None? <==> forall m :: m in s ==> m.memberId != id
  {
    if s == [] then None else if s[0].memberId == id then Some(s[0].pubKey) else KeyOf(s[1..], id)
  }

  /** Revoking raises its member to the top rank and touches nobody else, in place. */
  lemma {:induction false} RevokingRaises(s: seq<Member>, id: string)
    requires Distinct(s, MemberId)
    ensures var t := RevokedIn(s, id);
            |t| == |s| && forall i :: 0 <= i < |s| ==>
              t[i] == if s[i].memberId == id then s[i].(state := "revoked") else s[i]
    ensures RanksOf(RevokedIn(s, id)) == Raised(RanksOf(s), id)
  {
    RevokedAt(s, id);
    SameIdsRanks(s, RevokedIn(s, id), id);
  }

  lemma {:induction false} RevokedAt(s: seq<Member>, id: string)
    requires Distinct(s, MemberId)
    ensures var t := RevokedIn(s, id);
            |t| == |s| && forall i :: 0 <= i < |s| ==>
              t[i] == if s[i].memberId == id then s[i].(state := "revoked") else s[i]
  {
    if s != [] {
      if s[0].memberId == id {
        assert forall i :: 0 < i < |s| ==> MemberId(s[0]) != MemberId(s[i]);
      } else {
        assert Distinct(s[1..], MemberId);
        RevokedAt(s[1..], id);
      }
    }
  }

  function Raised(m: RankMap, id: string): RankMap { if id in m then m[id := Rank("revoked")] else m }

  lemma {:induction false} SameIdsRanks(s: seq<Member>, t: seq<Member>, id: string)
    requires |t| == |s|
    requires forall i :: 0 <= i < |s| ==> t[i] == if s[i].memberId == id then s[i].(state := "revoked") else s[i]
    ensures RanksOf(t) == Raised(RanksOf(s), id)
  {
    if s != [] {
      var n := |s| - 1;
      SameIdsRanks(s[..n], t[..n], id);
      RanksSnoc(s);
      RanksSnoc(t);
      RaisedStep(RanksOf(s[..n]), s[n], id);
    }
  }

  lemma RanksSnoc(s: seq<Member>)
    requires s != []
    ensures RanksOf(s) == RanksOf(s[..|s| - 1])[s[|s| - 1].memberId := Rank(s[|s| - 1].state)]
  {
  }

  lemma RaisedStep(m: RankMap, x: Member, id: string)
    ensures Raised(m[x.memberId := Rank(x.state)], id)
            == Raised(m, id)[x.memberId := if x.memberId == id then Rank("revoked") else Rank(x.state)]
  {
  }

  lemma {:induction false} FirstRevoked(s: seq<Member>, id: string, i: nat)
    requires i < |s| && s[i].memberId == id && forall j :: 0 <= j < i ==> s[j].memberId != id
    ensures RevokedIn(s, id) == s[i := s[i].(state := "revoked")] && KeyOf(s, id) == Some(s[i].pubKey)
  {
    if i > 0 {
      FirstRevoked(s[1..], id, i - 1);
      assert s == [s[0]] + s[1..];
    }
  }

  lemma {:induction false} NobodyRevoked(s: seq<Member>, id: string)
    requires forall m :: m in s ==> m.memberId != id
    ensures RevokedIn(s, id) == s
  {
    if s != [] {
      assert s[0] in s && forall m :: m in s[1..] ==> m in s;
      NobodyRevoked(s[1..], id);
    }
  }

  function PromotedIn(s: seq<Member>, id: string): seq<Member> {
    if s == [] then []
    else if s[0].memberId == id && s[0].state == "admitted" then [s[0].(state := "active")] + s[1..]
    else [s[0]] + PromotedIn(s[1..], id)
  }

  lemma {:induction false} FirstPromoted(s: seq<Member>, id: string, i: nat)
    requires i < |s| && s[i].memberId == id && s[i].state == "admitted"
    requires forall j :: 0 <= j < i ==> !(s[j].memberId == id && s[j].state == "admitted")
    ensures PromotedIn(s, id) == s[i := s[i].(state := "active")]
  {
    if i > 0 {
      FirstPromoted(s[1..], id, i - 1);
      assert s == [s[0]] + s[1..];
    }
  }

  lemma {:induction false} NobodyPromoted(s: seq<Member>, id: string)
    requires forall j :: 0 <= j < |s| ==> !(s[j].memberId == id && s[j].state == "admitted")
    ensures PromotedIn(s, id) == s
  {
    if s != [] {
      NobodyPromoted(s[1..], id);
      assert s == [s[0]] + s[1..];
    }
  }

  /** Promotion changes one entry in place, and none demotes. */
  lemma {:induction false} PromotionRaises(s: seq<Member>, id: string)
    requires Distinct(s, MemberId)
    ensures var t := PromotedIn(s, id);
            |t| == |s| && forall i :: 0 <= i < |s| ==>
              t[i] == (if s[i].memberId == id && s[i].state == "admitted" then s[i].(state := "active") else s[i])
              && Rank(s[i].state) <= Rank(t[i].state)
  {
    if s != [] {
      if s[0].memberId == id && s[0].state == "admitted" {
        assert forall i :: 0 < i < |s| ==> MemberId(s[0]) != MemberId(s[i]);
      } else {
        assert Distinct(s[1..], MemberId);
        PromotionRaises(s[1..], id);
      }
    }
  }

  /** The operations of the membership service on the roster. */
  class Membership {
    var roster: seq<Member>

    constructor (roster: seq<Member>)
      ensures this.roster == roster
    {
      this.roster := roster;
    }

    method Join(m: Member)
      modifies this
      ensures roster == Upsert(old(roster), m)
    {
      var out := roster;
      for i := 0 to |out|
        invariant roster == out == old(roster)
        invariant forall j :: 0 <= j < i ==> out[j].memberId != m.memberId
      {
        if out[i].memberId == m.memberId {
          FirstUpserted(out, m, i);
          roster := out[i := m];
          return;
        }
      }
      NewUpserted(out, m);
      roster := out + [m];
    }

    /** The roster's part of `Revoke`: the member's key, or `None` if there is no such member. */
    method MarkRevoked(id: string) returns (key: Option<string>)
      modifies this
      ensures roster == RevokedIn(old(roster), id)
      ensures key == KeyOf(old(roster), id)
    {
      for i := 0 to |roster|
        invariant roster == old(roster)
        invariant forall j :: 0 <= j < i ==> roster[j].memberId != id
      {
        if roster[i].memberId == id {
          FirstRevoked(roster, id, i);
          key := Some(roster[i].pubKey);
          roster := roster[i := roster[i].(state := "revoked")];
          return;
        }
      }
      NobodyRevoked(roster, id);
      key := None;
    }

    /** The first admitted entry of that id, and only that one, turns active. */
    method PromoteToActive(id: string) returns (changed: bool)
      modifies this
      ensures roster == if id == "" then old(roster) else PromotedIn(old(roster), id)
      ensures changed <==> id != "" && exists m :: m in old(roster) && m.memberId == id && m.state == "admitted"
    {
      if id == "" { return false; }
      for i := 0 to |roster|
        invariant roster == old(roster)
        invariant forall j :: 0 <= j < i ==> !(roster[j].memberId == id && roster[j].state == "admitted")
      {
        if roster[i].memberId == id && roster[i].state == "admitted" {
          FirstPromoted(roster, id, i);
          roster := roster[i := roster[i].(state := "active")];
          return true;
        }
      }
      NobodyPromoted(roster, id);
      changed := false;
    }

    method SweepZombies(now: Instant) returns (purged: nat)
      modifies this
      ensures roster == Survivors(old(roster), now)
      ensures purged == |old(roster)| - |roster|
    {
      var kept := [];
      purged := 0;
      for i := 0 to |roster|
        invariant roster == old(roster)
        invariant kept == Survivors(roster[..i], now) && purged == i - |kept|
      {
        assert roster[..i + 1][..i] == roster[..i];
        if roster[i].state == "admitted" && now - roster[i].admittedAt > ZOMBIE_MAX_AGE {
          purged := purged + 1;
        } else {
          kept := kept + [roster[i]];
        }
      }
      assert roster[..|roster|] == roster;
      if purged == 0 {
        SurvivorsAll(roster, now);
        return;
      }
      roster := kept;
    }
  }

  function Survivors(s: seq<Member>, now: Instant): seq<Member> {
    if s == [] then []
    else
      var m := s[|s| - 1];
      Survivors(s[..|s| - 1], now)
      + if m.state == "admitted" && now - m.admittedAt > ZOMBIE_MAX_AGE then [] else [m]
  }

  /** The sweep takes out exactly the members admitted more than a day ago, one by one,
      and leaves the rest in order. */
  lemma {:induction false} SurvivorsSpelled(a: seq<Member>, b: seq<Member>, now: Instant)
    ensures Survivors(a + b, now) == Survivors(a, now) + Survivors(b, now)
    ensures |b| == 1 ==>
              Survivors(b, now) == if b[0].state == "admitted" && now > b[0].admittedAt + 86_400 then [] else b
  {
    if b == [] {
      assert a + b == a;
    } else {
      assert (a + b)[..|a + b| - 1] == a + b[..|b| - 1];
      SurvivorsSpelled(a, b[..|b| - 1], now);
    }
  }

  lemma {:induction false} SurvivorsAll(s: seq<Member>, now: Instant)
    ensures |Survivors(s, now)| <= |s|
    ensures |Survivors(s, now)| == |s| ==> Survivors(s, now) == s
  {
    if s != [] {
      SurvivorsAll(s[..|s| - 1], now);
      assert s == s[..|s| - 1] + [s[|s| - 1]];
    }
  }
}
