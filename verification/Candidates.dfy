/** Who should lead and who should be the scribe, and what counts as a quorum
    (src/cland/internal/election/engine.go, src/cland/internal/peers/peers.go). */
module Candidates {
  import opened Wrappers
  import opened Ordering

  // Seconds.
  const LIVE_WINDOW: int := 4
  const AD_FRESH_WINDOW: int := 90

  datatype Candidate = Candidate(memberId: string, score: int, pinned: bool, admittedAt: Instant)

  /** What a member says about itself; the role it is for decides which fields count. */
  datatype Ad = Ad(score: int, reasoning: bool, pinnedOrchestrator: bool, scribeCapable: bool, pinnedScribe: bool)

  datatype Peer = Peer(memberId: string, ad: Option<Ad>, heartbeatSeen: bool, lastAd: Instant, lastSeen: Instant)

  datatype RosterMember = RosterMember(memberId: string, state: string, admittedAt: Instant)

  datatype Role = Orchestrator | Scribe

  predicate Live(p: Peer, now: Instant) { p.lastSeen != 0 && now - p.lastSeen < LIVE_WINDOW }

  predicate AdFresh(p: Peer, now: Instant) { p.lastAd != 0 && now - p.lastAd < AD_FRESH_WINDOW }

  predicate Capable(ad: Ad, role: Role) { if role == Orchestrator then ad.reasoning else ad.scribeCapable }

  predicate Pinned(ad: Ad, role: Role) { if role == Orchestrator then ad.pinnedOrchestrator else ad.pinnedScribe }

  predicate Eligible(p: Peer, role: Role, now: Instant) {
    p.ad.Some? && Capable(p.ad.value, role) && if p.heartbeatSeen then Live(p, now) else AdFresh(p, now)
  }

  function AdmittedAt(roster: seq<RosterMember>, id: string): Instant {
    if roster == [] then 0
    else if roster[0].memberId == id then roster[0].admittedAt
    else AdmittedAt(roster[1..], id)
  }

  function CandidateOf(p: Peer, role: Role, roster: seq<RosterMember>): Candidate
    requires p.ad.Some?
  {
    Candidate(p.memberId, p.ad.value.score, Pinned(p.ad.value, role), AdmittedAt(roster, p.memberId))
  }

  /** The candidates a member sees, as a set: its own entry if it is capable, and every
      eligible peer. */
  ghost function Field(self: Peer, peers: set<Peer>, role: Role, roster: seq<RosterMember>, selfAdmitted: Instant, now: Instant)
    : set<Candidate>
  {
    (if self.ad.Some? && Capable(self.ad.value, role)
     then {CandidateOf(self, role, roster).(admittedAt := selfAdmitted)} else {})
    + set p | p in peers && Eligible(p, role, now) :: CandidateOf(p, role, roster)
  }

  predicate ById(c: Candidate, d: Candidate) { Less(c.memberId, d.memberId) }

  /** Score first (highest for the orchestrator, lowest for the scribe), then the oldest
      admission, then the lowest id. */
  predicate ByScore(role: Role, c: Candidate, d: Candidate) {
    if c.score != d.score then (if role == Orchestrator then c.score > d.score else c.score < d.score)
    else if c.admittedAt != d.admittedAt then c.admittedAt < d.admittedAt
    else Less(c.memberId, d.memberId)
  }

  /** The whole preference: any pin beats no pin, pins go by id, the rest by score. */
  predicate Beats(role: Role, c: Candidate, d: Candidate) {
    if c.pinned != d.pinned then c.pinned
    else if c.pinned then ById(c, d)
    else ByScore(role, c, d)
  }

  ghost predicate Winner(role: Role, c: Candidate, field: set<Candidate>) {
    c in field && forall d :: d in field ==> !Beats(role, d, c)
  }

  lemma ByScoreIsOrder(role: Role)
    ensures StrictOrder((c, d) => ByScore(role, c, d)) && StrictOrder(ById)
  {
    LessIsStrictOrder();
  }

  /** Sorts and takes the first, pinned candidates only if there are any. */
  method Pick(candidates: seq<Candidate>, role: Role) returns (c: Option<Candidate>)
    ensures c.None? <==> candidates == []
    ensures c.Some? ==> Winner(role, c.value, ToSet(candidates))
  {
    if candidates == [] { return None; }
    var pinned := [];
    for i := 0 to |candidates|
      invariant forall d :: d in pinned <==> d in candidates[..i] && d.pinned
    {
      if candidates[i].pinned { pinned := pinned + [candidates[i]]; }
    }
    ByScoreIsOrder(role);
    if pinned != [] {
      var sorted := SortSlice(pinned, ById);
      SortSliceSorts(pinned, ById);
      SameElements(sorted, pinned);
      FirstIsLeast(sorted, ById);
      return Some(sorted[0]);
    }
    var less := (c, d) => ByScore(role, c, d);
    var sorted := SortSlice(candidates, less);
    SortSliceSorts(candidates, less);
    SameElements(sorted, candidates);
    FirstIsLeast(sorted, less);
    c := Some(sorted[0]);
  }

  lemma FirstIsLeast<T(!new)>(s: seq<T>, less: (T, T) -> bool)
    requires s != [] && Sorted(s, less) && StrictOrder(less)
    ensures s[0] in s && forall x :: x in s ==> !less(x, s[0])
  {
  }

  /** `selectCandidate` and `selectScribe`, over the registry in any iteration order. */
  method Select(self: Peer, peers: seq<Peer>, role: Role, roster: seq<RosterMember>, selfAdmitted: Instant, now: Instant)
    returns (c: Option<Candidate>)
    ensures var field := Field(self, ToSet(peers), role, roster, selfAdmitted, now);
            if c.Some? then Winner(role, c.value, field) else field == {}
  {
    var candidates := [];
    if self.ad.Some? && Capable(self.ad.value, role) {
      candidates := [CandidateOf(self, role, roster).(admittedAt := selfAdmitted)];
    }
    for i := 0 to |peers|
      invariant ToSet(candidates) == Field(self, ToSet(peers[..i]), role, roster, selfAdmitted, now)
    {
      FieldGrows(self, peers[..i], peers[i], role, roster, selfAdmitted, now);
      assert peers[..i + 1] == peers[..i] + [peers[i]];
      if Eligible(peers[i], role, now) {
        assert ToSet(candidates + [CandidateOf(peers[i], role, roster)])
            == ToSet(candidates) + {CandidateOf(peers[i], role, roster)};
        candidates := candidates + [CandidateOf(peers[i], role, roster)];
      }
    }
    assert peers[..|peers|] == peers;
    c := Pick(candidates, role);
    assert candidates != [] ==> candidates[0] in ToSet(candidates);
  }

  lemma FieldGrows(self: Peer, ps: seq<Peer>, p: Peer, role: Role, roster: seq<RosterMember>, selfAdmitted: Instant,
                   now: Instant)
    ensures Field(self, ToSet(ps + [p]), role, roster, selfAdmitted, now)
            == Field(self, ToSet(ps), role, roster, selfAdmitted, now)
               + if Eligible(p, role, now) then {CandidateOf(p, role, roster)} else {}
  {
    assert ToSet(ps + [p]) == ToSet(ps) + {p};
  }

  /** The winner's id is unique, so the registry's iteration order and the sort's
      treatment of ties never show. */
  lemma WinnerUnique(role: Role, c: Candidate, d: Candidate, field: set<Candidate>)
    requires Winner(role, c, field) && Winner(role, d, field)
    ensures c.memberId == d.memberId
  {
    if c.memberId != d.memberId { LessTotal(c.memberId, d.memberId); }
  }

  lemma WinnerExists(role: Role, field: set<Candidate>) returns (c: Candidate)
    requires field != {}
    ensures Winner(role, c, field)
    decreases field
  {
    c :| c in field;
    var rest := field - {c};
    assert forall e :: e in field ==> e == c || e in rest;
    BeatsIsOrder(role);
    if rest != {} {
      var d := WinnerExists(role, rest);
      if Beats(role, d, c) {
        c := d;
      } else {
        forall e | e in field && e != c ensures !Beats(role, e, c) {
          assert !Beats(role, e, d) && !Beats(role, d, c);
        }
      }
    }
  }

  lemma BeatsIsOrder(role: Role)
    ensures forall c, d, e :: Beats(role, c, d) && Beats(role, d, e) ==> Beats(role, c, e)
    ensures forall c, d :: Beats(role, c, d) ==> !Beats(role, d, c)
    ensures forall c, d, e :: !Beats(role, c, d) && !Beats(role, d, e) ==> !Beats(role, c, e)
    ensures forall c :: !Beats(role, c, c)
  {
    LessIsStrictOrder();
  }

  /** Agreement: members that see the same field choose alike, and at most one of them
      finds that the choice is itself. */
  lemma EqualViewsAgree(role: Role, field: set<Candidate>, a: string, b: string, c: Candidate, d: Candidate)
    requires Winner(role, c, field) && Winner(role, d, field) && a != b
    ensures c.memberId == d.memberId
    ensures !(c.memberId == a && d.memberId == b)
  {
    WinnerUnique(role, c, d, field);
  }

  // ---------- quorum ----------

  function ActiveCount(roster: seq<RosterMember>): nat {
    if roster == [] then 0
    else ActiveCount(roster[..|roster| - 1]) + if roster[|roster| - 1].state == "active" then 1 else 0
  }

  function Active(roster: seq<RosterMember>): set<string> {
    set m | m in roster && m.state == "active" :: m.memberId
  }

  function QuorumOf(n: nat): nat { if n == 0 then 1 else (n + 1) / 2 }

  method Quorum(roster: seq<RosterMember>) returns (q: nat)
    ensures q == QuorumOf(ActiveCount(roster))
  {
    var n := 0;
    for i := 0 to |roster|
      invariant n == ActiveCount(roster[..i])
    {
      assert roster[..i + 1][..i] == roster[..i];
      if roster[i].state == "active" { n := n + 1; }
    }
    assert roster[..|roster|] == roster;
    if n == 0 { n := 1; }
    q := (n + 1) / 2;
  }

  ghost predicate DistinctMembers(roster: seq<RosterMember>) {
    forall i, j :: 0 <= i < j < |roster| ==> roster[i].memberId != roster[j].memberId
  }

  lemma {:induction false} ActiveSize(roster: seq<RosterMember>)
    requires DistinctMembers(roster)
    ensures |Active(roster)| == ActiveCount(roster)
  {
    if roster != [] {
      var t, m := roster[..|roster| - 1], roster[|roster| - 1];
      ActiveSize(t);
      assert roster == t + [m];
      if m.state == "active" {
        assert Active(roster) == Active(t) + {m.memberId};
        assert m.memberId !in Active(t);
      } else {
        assert Active(roster) == Active(t);
      }
    }
  }

  ghost predicate Wins(accepts: set<string>, roster: seq<RosterMember>) {
    accepts <= Active(roster) && |accepts| >= QuorumOf(ActiveCount(roster))
  }

  /** Fewer than half of the active roster never reach the quorum. */
  lemma MinorityNeverWins(accepts: set<string>, roster: seq<RosterMember>)
    requires DistinctMembers(roster) && accepts <= Active(roster) && 2 * |accepts| < |Active(roster)|
    ensures !Wins(accepts, roster)
  {
    ActiveSize(roster);
  }

  /** Two winning sets always share a member exactly when the active roster is odd (or
      empty): the quorum rounds up half, not up past it. */
  lemma WinningSetsOverlapIffOdd(roster: seq<RosterMember>)
    requires DistinctMembers(roster)
    ensures (forall a, b :: Wins(a, roster) && Wins(b, roster) ==> a * b != {})
            <==> |Active(roster)| % 2 == 1 || |Active(roster)| == 0
  {
    ActiveSize(roster);
    var all := Active(roster);
    var n := |all|;
    if n % 2 == 1 || n == 0 {
      forall a, b | Wins(a, roster) && Wins(b, roster) ensures a * b != {} {
        SubsetSize(a + b, all);
        assert a * b == {} ==> |a + b| == |a| + |b|;
        SubsetSize(a, all);
      }
    } else {
      var half := TakeHalf(all, n / 2);
      assert |all - half| == n - n / 2;
      assert Wins(half, roster) && Wins(all - half, roster) && half * (all - half) == {};
    }
  }

  lemma {:induction false} TakeHalf<T>(s: set<T>, k: nat) returns (h: set<T>)
    requires k <= |s|
    ensures h <= s && |h| == k
  {
    h := {};
    if k > 0 {
      var x :| x in s;
      h := TakeHalf(s - {x}, k - 1);
      h := h + {x};
    }
  }
}
