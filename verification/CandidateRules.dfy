/** Who stands and who is chosen, in the terms of what members advertise
    (src/cland/internal/election/engine.go, src/cland/internal/peers/peers.go). */
module CandidateRules {
  import opened Wrappers
  import opened Ordering
  import opened Candidates

  /** The choice, spelled. If anyone is pinned, it is the pinned member of the lowest id;
      otherwise the best score, the highest for the orchestrator and the lowest for the
      scribe, then the oldest admission, then the lowest id. */
  lemma WinnerSpelled(role: Role, c: Candidate, field: set<Candidate>)
    ensures Winner(role, c, field)
            <==> && c in field
                 && if exists d :: d in field && d.pinned then
                      c.pinned && forall d :: d in field && d.pinned ==> !Less(d.memberId, c.memberId)
                    else forall d :: d in field ==>
                      && (role == Orchestrator ==> d.score <= c.score)
                      && (role == Scribe ==> d.score >= c.score)
                      && (d.score == c.score ==> d.admittedAt >= c.admittedAt)
                      && (d.score == c.score && d.admittedAt == c.admittedAt ==> !Less(d.memberId, c.memberId))
  {
    LessIsStrictOrder();
    if c in field && exists d :: d in field && d.pinned {
      var p :| p in field && p.pinned;
      PinnedWins(role, c, field, p);
    } else if c in field {
      forall d | d in field
        ensures !Beats(role, d, c)
                <==> && (role == Orchestrator ==> d.score <= c.score) && (role == Scribe ==> d.score >= c.score)
                     && (d.score == c.score ==> d.admittedAt >= c.admittedAt)
                     && (d.score == c.score && d.admittedAt == c.admittedAt ==> !Less(d.memberId, c.memberId))
      {
        assert !d.pinned && !c.pinned;
      }
    }
  }

  lemma PinnedWins(role: Role, c: Candidate, field: set<Candidate>, p: Candidate)
    requires c in field && p in field && p.pinned
    ensures Winner(role, c, field) <==> c.pinned && forall d :: d in field && d.pinned ==> !Less(d.memberId, c.memberId)
  {
    if Winner(role, c, field) { assert !Beats(role, p, c); }
  }

  /** Fit for the role. */
  predicate Fit(ad: Ad, role: Role) { (role == Orchestrator ==> ad.reasoning) && (role == Scribe ==> ad.scribeCapable) }

  /** Heard of in time: a member that has sent heartbeats, in the last 4 s; one that has
      only advertised itself, in the last 90 s. */
  predicate Around(p: Peer, now: Instant) {
    if p.heartbeatSeen then 0 < p.lastSeen && now < p.lastSeen + 4 else 0 < p.lastAd && now < p.lastAd + 90
  }

  /** The admission time the roster gives the id: that of its first entry, 0 for none. */
  ghost predicate Admitted(roster: seq<RosterMember>, id: string, at: Instant) {
    if exists m :: m in roster && m.memberId == id then
      exists i :: 0 <= i < |roster| && roster[i].memberId == id && roster[i].admittedAt == at
                  && forall j :: 0 <= j < i ==> roster[j].memberId != id
    else at == 0
  }

  /** `c` is what `p` stands with: its own score and pin for that role. */
  predicate StandsAs(c: Candidate, p: Peer, role: Role) {
    && p.ad.Some? && Fit(p.ad.value, role)
    && c.memberId == p.memberId && c.score == p.ad.value.score
    && c.pinned == (if role == Orchestrator then p.ad.value.pinnedOrchestrator else p.ad.value.pinnedScribe)
  }

  lemma {:induction false} FirstEntry(roster: seq<RosterMember>, id: string)
    ensures Admitted(roster, id, AdmittedAt(roster, id))
  {
    if roster != [] {
      assert roster == [roster[0]] + roster[1..];
      if roster[0].memberId != id {
        FirstEntry(roster[1..], id);
        if m :| m in roster && m.memberId == id {
          assert m in roster[1..];
          var i :| 0 <= i < |roster[1..]| && roster[1..][i].memberId == id
            && roster[1..][i].admittedAt == AdmittedAt(roster[1..], id)
            && forall j :: 0 <= j < i ==> roster[1..][j].memberId != id;
          assert roster[i + 1].memberId == id && forall j :: 0 <= j < i + 1 ==> roster[j].memberId != id;
        }
      }
    }
  }

  lemma AdmittedOnce(roster: seq<RosterMember>, id: string, at: Instant, at': Instant)
    requires Admitted(roster, id, at) && Admitted(roster, id, at')
    ensures at == at'
  {
  }

  /** Who stands: the member itself if it is fit, whatever it has heard, and every fit
      peer that it has heard of in time. */
  lemma FieldSpelled(self: Peer, peers: set<Peer>, role: Role, roster: seq<RosterMember>, selfAdmitted: Instant,
                     now: Instant, c: Candidate)
    ensures c in Field(self, peers, role, roster, selfAdmitted, now)
            <==> (StandsAs(c, self, role) && c.admittedAt == selfAdmitted)
                 || exists p :: p in peers && StandsAs(c, p, role) && Around(p, now)
                                && Admitted(roster, p.memberId, c.admittedAt)
  {
    forall p | p in peers
      ensures StandsAs(c, p, role) && Around(p, now) && Admitted(roster, p.memberId, c.admittedAt)
              <==> Eligible(p, role, now) && CandidateOf(p, role, roster) == c
    {
      FirstEntry(roster, p.memberId);
      if Admitted(roster, p.memberId, c.admittedAt) {
        AdmittedOnce(roster, p.memberId, c.admittedAt, AdmittedAt(roster, p.memberId));
      }
    }
  }

  /** The positions of the active entries. */
  ghost function ActiveAt(roster: seq<RosterMember>): set<nat> {
    set i: nat | i < |roster| && roster[i].state == "active"
  }

  lemma ActiveSnoc(roster: seq<RosterMember>, active: bool)
    requires roster != [] && (active <==> roster[|roster| - 1].state == "active")
    ensures ActiveAt(roster) == ActiveAt(roster[..|roster| - 1]) + if active then {|roster| - 1} else {}
  {
    var t := roster[..|roster| - 1];
    assert forall i :: 0 <= i < |t| ==> t[i] == roster[i];
  }

  lemma {:induction false} ActiveCounted(roster: seq<RosterMember>)
    ensures ActiveCount(roster) == |ActiveAt(roster)|
  {
    if roster == [] {
      assert ActiveAt(roster) == {};
    } else {
      ActiveCounted(roster[..|roster| - 1]);
      ActiveSnoc(roster, roster[|roster| - 1].state == "active");
    }
  }

  /** The quorum is the least positive number that is at least half of the active entries. */
  lemma QuorumSpelled(roster: seq<RosterMember>, k: nat)
    ensures QuorumOf(ActiveCount(roster)) <= k <==> k >= 1 && 2 * k >= |ActiveAt(roster)|
  {
    ActiveCounted(roster);
  }
}
