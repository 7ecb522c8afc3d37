/** Where roster gossip between two peers ends (src/cland/internal/rostersync/sync.go,
    src/cland/internal/state/state.go). */
module RosterGossip {
  import opened Ordering
  import opened Keyed
  import opened MemoryDigest
  import opened Roster
  import Text

  /** The state each id is in. */
  function States(m: map<string, Member>): map<string, string> { map k | k in m :: m[k].state }

  function StatesOf(s: seq<Member>): map<string, string> { States(LastMap(s, MemberId)) }

  /** The state further along for each id, the first one between equals. */
  function Further(m: map<string, string>, n: map<string, string>): map<string, string> {
    map k | k in m.Keys + n.Keys ::
      if k !in n then m[k] else if k !in m then n[k] else if Rank(n[k]) > Rank(m[k]) then n[k] else m[k]
  }

  /** Ids and states that cannot be taken for other roster lines; any states, known or not. */
  ghost predicate Plain(s: seq<Member>) {
    forall m :: m in s ==> '\n' !in m.memberId && '\n' !in m.state && ':' !in m.state
  }

  ghost predicate PlainStates(m: map<string, string>) {
    forall k :: k in m ==> '\n' !in k && '\n' !in m[k] && ':' !in m[k]
  }

  lemma StatesFacts(s: seq<Member>)
    requires Distinct(s, MemberId)
    ensures forall m :: m in s ==> m.memberId in StatesOf(s) && StatesOf(s)[m.memberId] == m.state
    ensures forall k :: k in StatesOf(s) ==> exists m :: m in s && m.memberId == k && m.state == StatesOf(s)[k]
    ensures Plain(s) <==> PlainStates(StatesOf(s))
  {
    LastMapFacts(s, MemberId);
    forall m | m in s ensures m.memberId in StatesOf(s) && StatesOf(s)[m.memberId] == m.state {
      DistinctMember(s, MemberId, m);
    }
    forall k | k in StatesOf(s) ensures exists m :: m in s && m.memberId == k && m.state == StatesOf(s)[k] {
      var m := LastMap(s, MemberId)[k];
      assert m in s && MemberId(m) == k;
    }
  }

  // ---------- the digest tells the states ----------

  lemma LinesPlain(s: seq<Member>)
    requires Plain(s)
    ensures forall p :: p in SortSlice(Lines(s, Line), Less) ==> '\n' !in p && p != ""
  {
    SortedLines(s, Line);
  }

  lemma SameLineSameState(m: Member, n: Member)
    requires ':' !in m.state && ':' !in n.state && Line(m) == Line(n)
    ensures m.memberId == n.memberId && m.state == n.state
  {
    assert Line(n) == n.memberId + [':'] + n.state && Line(m) == m.memberId + [':'] + m.state;
    Text.SplitLast(':', n.memberId, n.state, m.memberId, m.state);
  }

  lemma LinesDistinct(s: seq<Member>)
    requires Plain(s) && Distinct(s, MemberId)
    ensures NoDup(Lines(s, Line))
  {
    var l := Lines(s, Line);
    forall i, j | 0 <= i < j < |l| ensures l[i] != l[j] {
      assert MemberId(s[i]) != MemberId(s[j]) && s[i] in s && s[j] in s;
      if l[i] == l[j] { SameLineSameState(s[i], s[j]); }
    }
  }

  /** Two rosters digest alike exactly when they give the same ids the same states. */
  lemma RosterDigestFaithful(a: seq<Member>, b: seq<Member>)
    requires Plain(a) && Plain(b) && Distinct(a, MemberId) && Distinct(b, MemberId)
    ensures RosterDigest(a) == RosterDigest(b) <==> StatesOf(a) == StatesOf(b)
  {
    if RosterDigest(a) == RosterDigest(b) {
      LinesPlain(a);
      LinesPlain(b);
      Text.JoinInjective(SortSlice(Lines(a, Line), Less), SortSlice(Lines(b, Line), Less), '\n');
      StatesCovered(a, b);
      StatesCovered(b, a);
    }
    if StatesOf(a) == StatesOf(b) {
      LinesCovered(a, b);
      LinesCovered(b, a);
      LinesDistinct(a);
      LinesDistinct(b);
      SameItemsSameLines(a, b, Line);
    }
  }

  lemma StatesCovered(a: seq<Member>, b: seq<Member>)
    requires Plain(a) && Plain(b) && Distinct(a, MemberId) && Distinct(b, MemberId)
    requires SortSlice(Lines(a, Line), Less) == SortSlice(Lines(b, Line), Less)
    ensures forall k :: k in StatesOf(a) ==> k in StatesOf(b) && StatesOf(b)[k] == StatesOf(a)[k]
  {
    SameLinesSameItems(a, b, Line);
    StatesFacts(a);
    StatesFacts(b);
    forall k | k in StatesOf(a) ensures k in StatesOf(b) && StatesOf(b)[k] == StatesOf(a)[k] {
      var m :| m in a && m.memberId == k && m.state == StatesOf(a)[k];
      var n :| n in b && Line(n) == Line(m);
      SameLineSameState(m, n);
    }
  }

  lemma LinesCovered(a: seq<Member>, b: seq<Member>)
    requires Distinct(a, MemberId) && Distinct(b, MemberId) && StatesOf(a) == StatesOf(b)
    ensures forall m :: m in a ==> exists n :: n in b && Line(n) == Line(m)
  {
    LastMapFacts(b, MemberId);
    forall m | m in a ensures exists n :: n in b && Line(n) == Line(m) {
      DistinctMember(a, MemberId, m);
      assert m.memberId in StatesOf(a) && StatesOf(a)[m.memberId] == m.state;
      var n := LastMap(b, MemberId)[m.memberId];
      assert n in b && MemberId(n) == m.memberId && StatesOf(b)[m.memberId] == n.state;
      assert Line(n) == Line(m);
    }
  }

  // ---------- what a pull does to the states ----------

  lemma AbsorbFurthers(m: map<string, Member>, x: Member)
    ensures States(Absorb(m, x)) == Further(States(m), map[x.memberId := x.state])
  {
  }

  lemma FurtherOne(m: map<string, string>, n: map<string, string>, id: string, state: string)
    requires id !in n
    ensures Further(Further(m, n), map[id := state]) == Further(m, n[id := state])
  {
  }

  lemma StatesAppend(s: seq<Member>)
    requires s != [] && Distinct(s, MemberId)
    ensures var x := s[|s| - 1];
            x.memberId !in StatesOf(s[..|s| - 1]) && StatesOf(s) == StatesOf(s[..|s| - 1])[x.memberId := x.state]
  {
    LastIsNew(s);
  }

  lemma {:induction false} AbsorbAllFurthers(m: map<string, Member>, s: seq<Member>)
    requires Distinct(s, MemberId)
    ensures States(AbsorbAll(m, s)) == Further(States(m), StatesOf(s))
  {
    if s == [] {
      assert StatesOf(s) == map[];
    } else {
      var t, x := s[..|s| - 1], s[|s| - 1];
      AbsorbAllFurthers(m, t);
      AbsorbFurthers(AbsorbAll(m, t), x);
      StatesAppend(s);
      FurtherOne(States(m), StatesOf(t), x.memberId, x.state);
    }
  }

  lemma MergeFurthers(out: seq<Member>, local: seq<Member>, other: seq<Member>)
    requires Distinct(local, MemberId) && Distinct(other, MemberId) && IsMerge(out, local, other)
    ensures Distinct(out, MemberId) && StatesOf(out) == Further(StatesOf(local), StatesOf(other))
  {
    AbsorbAllFurthers(LastMap(local, MemberId), other);
    AbsorbAllKeys(LastMap(local, MemberId), other);
    MergedDistinct(out, local, other);
    LastMapFacts(local, MemberId);
    LastMapFacts(other, MemberId);
    LastMapFacts(out, MemberId);
    IdsAreKeys(out, local, other);
    assert LastMap(out, MemberId) == AbsorbAll(LastMap(local, MemberId), other);
  }

  lemma {:induction false} SameProjectionSameStates(a: seq<Member>, b: seq<Member>)
    requires SameProjection(a, b)
    ensures StatesOf(a) == StatesOf(b)
  {
    if a != [] {
      SameProjectionSameStates(a[..|a| - 1], b[..|b| - 1]);
      assert StatesOf(a) == StatesOf(a[..|a| - 1])[a[|a| - 1].memberId := a[|a| - 1].state];
      assert StatesOf(b) == StatesOf(b[..|b| - 1])[b[|b| - 1].memberId := b[|b| - 1].state];
    }
  }

  lemma FurtherFacts(m: map<string, string>, n: map<string, string>)
    ensures Further(m, m) == m
    ensures PlainStates(m) && PlainStates(n) ==> PlainStates(Further(m, n))
  {
  }

  lemma PullStates(out: seq<Member>, local: seq<Member>, other: seq<Member>)
    requires Plain(local) && Plain(other) && Distinct(local, MemberId) && Distinct(other, MemberId)
    requires Pulls(out, local, other)
    ensures Distinct(out, MemberId) && StatesOf(out) == Further(StatesOf(local), StatesOf(other))
  {
    if RosterDigest(local) == RosterDigest(other) {
      RosterDigestFaithful(local, other);
      FurtherFacts(StatesOf(local), StatesOf(local));
    } else {
      var m :| IsMerge(m, local, other) && out == if SameProjection(m, local) then local else m;
      MergeFurthers(m, local, other);
      if SameProjection(m, local) { SameProjectionSameStates(m, local); }
    }
  }

  /** A heartbeat moves every id to the state further along, whether or not it fetches. */
  lemma PullFurthers(out: seq<Member>, local: seq<Member>, other: seq<Member>)
    requires Plain(local) && Plain(other) && Distinct(local, MemberId) && Distinct(other, MemberId)
    requires Pulls(out, local, other)
    ensures Plain(out) && Distinct(out, MemberId) && StatesOf(out) == Further(StatesOf(local), StatesOf(other))
  {
    PullStates(out, local, other);
    assert PlainStates(StatesOf(local)) by { StatesFacts(local); }
    assert PlainStates(StatesOf(other)) by { StatesFacts(other); }
    FurtherFacts(StatesOf(local), StatesOf(other));
    assert Plain(out) by { StatesFacts(out); }
  }

  /** Nothing further along: nothing is kept. */
  lemma PullKeeps(out: seq<Member>, local: seq<Member>, other: seq<Member>)
    requires Distinct(local, MemberId) && Distinct(other, MemberId) && Pulls(out, local, other)
    requires StatesOf(other).Keys <= StatesOf(local).Keys
    requires forall k :: k in StatesOf(other) ==> Rank(StatesOf(other)[k]) <= Rank(StatesOf(local)[k])
    ensures out == local
  {
    if RosterDigest(local) != RosterDigest(other) {
      var m :| IsMerge(m, local, other) && out == if SameProjection(m, local) then local else m;
      StatesFacts(other);
      StatesFacts(local);
      forall x | x in other ensures x.memberId in RanksOf(local) && Rank(x.state) <= RanksOf(local)[x.memberId] {
        assert x.memberId in StatesOf(other) && x.memberId in StatesOf(local);
      }
      EqualIffNothingNew(m, local, other);
    }
  }

  // ---------- the merge, member by member ----------

  /** The roster has the member in that state. */
  ghost predicate InState(s: seq<Member>, id: string, state: string) {
    exists m :: m in s && m.memberId == id && m.state == state
  }

  /** The state of a member after a merge of rosters with known states: revoked if either
      side says so, else active if either does, else admitted, else unaffiliated. So a
      merge never takes a revocation back. */
  lemma MergedStateSpelled(out: seq<Member>, local: seq<Member>, other: seq<Member>, m: Member)
    requires Distinct(local, MemberId) && Distinct(other, MemberId) && IsMerge(out, local, other)
    requires forall x :: x in local || x in other ==> Known(x.state)
    requires m in out
    ensures m.state == if InState(local, m.memberId, "revoked") || InState(other, m.memberId, "revoked") then "revoked"
                       else if InState(local, m.memberId, "active") || InState(other, m.memberId, "active") then "active"
                       else if InState(local, m.memberId, "admitted") || InState(other, m.memberId, "admitted") then "admitted"
                       else "unaffiliated"
  {
    var a, b := StatesOf(local), StatesOf(other);
    MergeFurthers(out, local, other);
    assert m.memberId in StatesOf(out) && StatesOf(out)[m.memberId] == m.state by { StatesFacts(out); }
    KnownHeld(local, m.memberId);
    KnownHeld(other, m.memberId);
    FurtherSpelled(a, b, m.memberId);
    StateHeld(local, m.memberId);
    StateHeld(other, m.memberId);
    assert forall state :: InState(local, m.memberId, state) <==> Says(a, m.memberId, state);
    assert forall state :: InState(other, m.memberId, state) <==> Says(b, m.memberId, state);
  }

  predicate Says(m: map<string, string>, id: string, state: string) { id in m && m[id] == state }

  lemma KnownHeld(s: seq<Member>, id: string)
    requires Distinct(s, MemberId) && forall x :: x in s ==> Known(x.state)
    ensures id in StatesOf(s) ==> Known(StatesOf(s)[id])
  {
    StatesFacts(s);
  }

  lemma FurtherSpelled(m: map<string, string>, n: map<string, string>, id: string)
    requires (id in m ==> Known(m[id])) && (id in n ==> Known(n[id])) && id in Further(m, n)
    ensures Further(m, n)[id]
            == if Says(m, id, "revoked") || Says(n, id, "revoked") then "revoked"
               else if Says(m, id, "active") || Says(n, id, "active") then "active"
               else if Says(m, id, "admitted") || Says(n, id, "admitted") then "admitted"
               else "unaffiliated"
  {
  }

  lemma StateHeld(s: seq<Member>, id: string)
    requires Distinct(s, MemberId)
    ensures forall state :: InState(s, id, state) <==> id in StatesOf(s) && StatesOf(s)[id] == state
  {
    StatesFacts(s);
  }

  /** A revoked member stays revoked through every merge with any roster, and a revocation
      on either side reaches the result. */
  lemma RevokedStaysRevoked(out: seq<Member>, local: seq<Member>, other: seq<Member>, id: string)
    requires Distinct(local, MemberId) && Distinct(other, MemberId) && IsMerge(out, local, other)
    ensures InState(local, id, "revoked") ==> InState(out, id, "revoked")
    ensures InState(other, id, "revoked") ==> InState(out, id, "revoked")
  {
    MergeFurthers(out, local, other);
    StateHeld(local, id);
    StateHeld(other, id);
    StateHeld(out, id);
    RevokedIsTop(id, StatesOf(local), StatesOf(other));
  }

  lemma RevokedIsTop(id: string, m: map<string, string>, n: map<string, string>)
    ensures id in m && m[id] == "revoked" ==> id in Further(m, n) && Further(m, n)[id] == "revoked"
    ensures id in n && n[id] == "revoked" ==> id in Further(m, n) && Further(m, n)[id] == "revoked"
  {
    if id in m { RankOfRevoked(m[id]); }
    if id in n { RankOfRevoked(n[id]); }
  }

  lemma RankOfRevoked(state: string)
    ensures state == "revoked" <==> Rank(state) >= Rank("revoked")
  {
  }

  /** Everything else about a member is the local entry's, or the other side's if it is
      the only one. */
  lemma MergedEntrySpelled(out: seq<Member>, local: seq<Member>, other: seq<Member>, m: Member)
    requires Distinct(local, MemberId) && Distinct(other, MemberId) && IsMerge(out, local, other) && m in out
    ensures if x :| x in local && x.memberId == m.memberId then m == x.(state := m.state) else m in other
  {
    var base := LastMap(local, MemberId);
    LastMapFacts(local, MemberId);
    AbsorbedEntry(base, other, m.memberId);
    forall x | x in local && x.memberId == m.memberId ensures m == x.(state := m.state) {
      DistinctMember(local, MemberId, x);
    }
  }

  lemma {:induction false} AbsorbedEntry(base: map<string, Member>, s: seq<Member>, id: string)
    requires Distinct(s, MemberId) && id in AbsorbAll(base, s)
    ensures var m := AbsorbAll(base, s)[id]; if id in base then m == base[id].(state := m.state) else m in s
  {
    if s != [] {
      var t, x := s[..|s| - 1], s[|s| - 1];
      assert s == t + [x];
      if id in AbsorbAll(base, t) {
        AbsorbedEntry(base, t, id);
        if id !in base { SeenBefore(base, s, id); }
      } else {
        AbsorbAllKeys(base, t);
      }
    }
  }

  /** An id taken in from earlier entries is not that of the last one. */
  lemma SeenBefore(base: map<string, Member>, s: seq<Member>, id: string)
    requires Distinct(s, MemberId) && s != [] && id !in base && id in AbsorbAll(base, s[..|s| - 1])
    ensures s[|s| - 1].memberId != id
  {
    AbsorbAllKeys(base, s[..|s| - 1]);
    LastMapFacts(s[..|s| - 1], MemberId);
    LastIsNew(s);
  }

  // ---------- where it ends ----------

  /** Equally far along means in the same state, for every member both rosters know. */
  ghost predicate Comparable(a: seq<Member>, b: seq<Member>) {
    forall k :: k in StatesOf(a) && k in StatesOf(b) && Rank(StatesOf(a)[k]) == Rank(StatesOf(b)[k]) ==>
      StatesOf(a)[k] == StatesOf(b)[k]
  }

  /** The exact condition: after `b` has heard of `a` and then `a` of `b`, no further
      heartbeat changes either, and the digests are equal if and only if no member both
      know was in two different states of the same rank. */
  lemma TwoWayGossipSettlesIff(a: seq<Member>, b: seq<Member>, x: seq<Member>, y: seq<Member>)
    requires Plain(a) && Plain(b) && Distinct(a, MemberId) && Distinct(b, MemberId)
    requires Pulls(y, b, a) && Pulls(x, a, y)
    ensures RosterDigest(x) == RosterDigest(y) <==> Comparable(a, b)
    ensures forall z :: (Pulls(z, y, x) ==> z == y) && (Pulls(z, x, y) ==> z == x)
  {
    PullFurthers(y, b, a);
    PullFurthers(x, a, y);
    RosterDigestFaithful(x, y);
    FurtherTwice(StatesOf(a), StatesOf(b));
    forall z ensures (Pulls(z, y, x) ==> z == y) && (Pulls(z, x, y) ==> z == x) {
      if Pulls(z, y, x) { PullKeeps(z, y, x); }
      if Pulls(z, x, y) { PullKeeps(z, x, y); }
    }
  }

  lemma FurtherTwice(m: map<string, string>, n: map<string, string>)
    ensures var y := Further(n, m);
            var x := Further(m, y);
            && x.Keys == y.Keys
            && (forall k :: k in x ==> Rank(x[k]) == Rank(y[k]))
            && (x == y <==> forall k :: k in m && k in n && Rank(m[k]) == Rank(n[k]) ==> m[k] == n[k])
  {
    var y := Further(n, m);
    var x := Further(m, y);
    forall k | k in m && k in n && Rank(m[k]) == Rank(n[k]) ensures x[k] == m[k] && y[k] == n[k] { }
  }

  /** So rosters whose states are all known ones always end in equal digests. */
  lemma KnownStatesSettle(a: seq<Member>, b: seq<Member>, x: seq<Member>, y: seq<Member>)
    requires Roster.LineClean(a) && Roster.LineClean(b) && Distinct(a, MemberId) && Distinct(b, MemberId)
    requires Pulls(y, b, a) && Pulls(x, a, y)
    ensures RosterDigest(x) == RosterDigest(y)
  {
    StatesFacts(a);
    StatesFacts(b);
    forall k | k in StatesOf(a) && k in StatesOf(b) && Rank(StatesOf(a)[k]) == Rank(StatesOf(b)[k])
      ensures StatesOf(a)[k] == StatesOf(b)[k]
    {
      RankDeterminesState(StatesOf(a)[k], StatesOf(b)[k]);
    }
    forall m | m in a || m in b ensures '\n' !in m.state && ':' !in m.state { KnownIsPlain(m.state); }
    TwoWayGossipSettlesIff(a, b, x, y);
  }
}
