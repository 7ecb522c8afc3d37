/** The leader-lease election: one node's state, its tick and heartbeat handler, and runs
    of many nodes over a shared clock with lost, delayed and repeated heartbeats and with
    crash-restarts (src/cland/internal/election/state.go, engine.go). */
module Election {
  import opened Wrappers
  import Candidates

  // Seconds.
  const LEASE_DURATION: nat := 8
  const FAILOVER_GRACE: nat := 6
  const DEFAULT_HISTORY: nat := 32

  datatype Heartbeat = Heartbeat(member: string, clan: string, term: nat, leaseUntil: Instant)

  /** A node: what it keeps in memory and what it has saved. */
  datatype Node = Node(startedAt: Instant, term: nat, orch: string, lease: Instant, diskTerm: nat, diskOrch: string)

  datatype Refusal = SenderMismatch | ForeignClan | TermStale | AntiSpoof

  // ---------- step functions ----------

  function Adopt(n: Node, term: nat, orch: string, now: Instant): Node {
    n.(term := term, orch := orch, lease := now + LEASE_DURATION)
  }

  /** `persistTermAndOrch`, with a save that succeeds. */
  function Saved(n: Node): Node { n.(diskTerm := n.term, diskOrch := n.orch) }

  function Applied(n: Node, hb: Heartbeat, now: Instant, acceptable: bool): Result<Node, Refusal> {
    if hb.term < n.term then Err(TermStale)
    else if hb.term == n.term && !acceptable then Err(AntiSpoof)
    else Ok(Adopt(n, hb.term, hb.member, now))
  }

  /** `OnHeartbeatReceived`: the handler around `Applied`. */
  function Received(n: Node, hb: Heartbeat, clan: string, sender: string, now: Instant, acceptable: bool)
    : Result<Node, Refusal>
  {
    if hb.member != sender then Err(SenderMismatch)
    else if hb.clan != clan then Err(ForeignClan)
    else
      match Applied(n, hb, now, acceptable)
      case Err(e) => Err(e)
      case Ok(m) => Ok(if m.term != n.term || m.orch != n.orch then Saved(m) else m)
  }

  predicate IAmOrchestrator(n: Node, self: string, now: Instant) {
    n.orch == self && n.lease != 0 && now < n.lease
  }

  predicate LeaseSilent(n: Node, now: Instant) { n.lease == 0 || now > n.lease + FAILOVER_GRACE }

  /** The tick gets as far as `runElection`. */
  predicate StartsElection(n: Node, self: string, now: Instant) {
    !IAmOrchestrator(n, self, now) && now - n.startedAt >= FAILOVER_GRACE && LeaseSilent(n, now)
  }

  /** What a tick finds around it: whether the clan file loads, the candidate the node
      would choose ("" for none), runtime health, and the votes an election collects. */
  datatype Around = Around(clanLoads: bool, candidate: string, healthy: bool, accepts: nat, quorum: nat)

  /** The node after a tick, and the heartbeat it sends, if any. */
  function Ticked(n: Node, self: string, clan: string, now: Instant, a: Around): (Node, Option<Heartbeat>) {
    if IAmOrchestrator(n, self, now) then
      if (a.clanLoads && a.candidate != "" && a.candidate != self) || !a.healthy || !a.clanLoads then (n, None)
      else (Adopt(n, n.term, self, now), Some(Heartbeat(self, clan, n.term, now + LEASE_DURATION)))
    else if !StartsElection(n, self, now) || !a.clanLoads || a.candidate != self || self == "" then (n, None)
    else
      (if a.accepts >= a.quorum then Saved(Adopt(n, n.term + 1, self, now)) else n,
       Some(Heartbeat(self, clan, n.term + 1, now + LEASE_DURATION)))
  }

  /** A restart keeps only what was saved. */
  function Restarted(n: Node, now: Instant): Node {
    Node(now, n.diskTerm, n.diskOrch, 0, n.diskTerm, n.diskOrch)
  }

  // ---------- who a node would choose ----------

  /** What a node sees when it selects: whether the clan file loads, and the field of
      candidates. */
  datatype Sight = Sight(clanLoads: bool, field: set<Candidates.Candidate>)

  /** The id of the field's winner; "" for an empty field. */
  ghost function Chosen(field: set<Candidates.Candidate>): string {
    if c :| Candidates.Winner(Candidates.Orchestrator, c, field) then c.memberId else ""
  }

  ghost predicate Acceptable(v: Sight, sender: string) { v.clanLoads && Chosen(v.field) == sender }

  /** Whichever winner is found, the choice is the same. */
  lemma ChosenIsWinner(field: set<Candidates.Candidate>)
    ensures forall c :: Candidates.Winner(Candidates.Orchestrator, c, field) ==> c.memberId == Chosen(field)
    ensures field != {} ==> exists c :: Candidates.Winner(Candidates.Orchestrator, c, field) && c.memberId == Chosen(field)
    ensures field == {} ==> Chosen(field) == ""
  {
    forall c, d | Candidates.Winner(Candidates.Orchestrator, c, field) && Candidates.Winner(Candidates.Orchestrator, d, field)
      ensures c.memberId == d.memberId
    {
      Candidates.WinnerUnique(Candidates.Orchestrator, c, d, field);
    }
    if field != {} { var c := Candidates.WinnerExists(Candidates.Orchestrator, field); }
  }

  // ---------- the classes ----------

  datatype HistoryEntry = HistoryEntry(term: nat, winner: string, reason: string, at: Instant)

  /** The newest `cap` entries. */
  function Newest(h: seq<HistoryEntry>, cap: nat): seq<HistoryEntry> { if |h| > cap then h[|h| - cap..] else h }

  class State {
    const selfId: string
    const startedAt: Instant
    const historyCap: nat
    var term: nat
    var orch: string
    var lease: Instant
    var history: seq<HistoryEntry>

    constructor (selfId: string, persistedTerm: nat, persistedOrch: string, historyCap: int, now: Instant)
      ensures this.selfId == selfId && startedAt == now && term == persistedTerm && orch == persistedOrch
      ensures lease == 0 && history == []
      ensures this.historyCap == if historyCap <= 0 then 32 else historyCap
    {
      this.selfId, startedAt := selfId, now;
      term, orch, lease, history := persistedTerm, persistedOrch, 0, [];
      this.historyCap := if historyCap <= 0 then DEFAULT_HISTORY else historyCap;
    }

    function View(diskTerm: nat, diskOrch: string): Node
      reads this
    {
      Node(startedAt, term, orch, lease, diskTerm, diskOrch)
    }

    method PushHistory(e: HistoryEntry)
      modifies this`history
      ensures history == Newest(old(history) + [e], historyCap)
    {
      history := history + [e];
      if |history| > historyCap { history := history[|history| - historyCap..]; }
    }

    method ApplyHeartbeat(hb: Heartbeat, now: Instant, acceptable: bool, ghost diskTerm: nat, ghost diskOrch: string)
      returns (r: Result<bool, Refusal>)
      modifies this
      ensures match Applied(old(View(diskTerm, diskOrch)), hb, now, acceptable)
              case Err(e) => r == Err(e) && View(diskTerm, diskOrch) == old(View(diskTerm, diskOrch)) && history == old(history)
              case Ok(m) =>
                && View(diskTerm, diskOrch) == m
                && r == Ok(hb.term != old(term) || hb.member != old(orch))
                && history == if r.value then Newest(old(history) + [HistoryEntry(hb.term, hb.member, "lease_expired", now)], historyCap)
                              else old(history)
    {
      if hb.term < term { return Err(TermStale); }
      if hb.term == term && !acceptable { return Err(AntiSpoof); }
      var changed := hb.term != term || hb.member != orch;
      term := hb.term;
      orch := hb.member;
      lease := now + LEASE_DURATION;
      if changed { PushHistory(HistoryEntry(hb.term, hb.member, "lease_expired", now)); }
      r := Ok(changed);
    }

    /** Sets the term it is given, whatever the current one is. */
    method CommitSelfElection(newTerm: nat, reason: string, now: Instant) returns (changed: bool)
      modifies this
      ensures term == newTerm && orch == selfId && lease == now + LEASE_DURATION
      ensures changed <==> newTerm != old(term) || selfId != old(orch)
      ensures history == Newest(old(history) + [HistoryEntry(newTerm, selfId, reason, now)], historyCap)
    {
      changed := newTerm != term || selfId != orch;
      term := newTerm;
      orch := selfId;
      lease := now + LEASE_DURATION;
      PushHistory(HistoryEntry(newTerm, selfId, reason, now));
    }
  }

  class Engine {
    const clan: string
    const state: State
    var diskTerm: nat
    var diskOrch: string

    function View(): Node
      reads this, state
    {
      state.View(diskTerm, diskOrch)
    }

    constructor (clan: string, state: State, diskTerm: nat, diskOrch: string)
      ensures this.clan == clan && this.state == state && this.diskTerm == diskTerm && this.diskOrch == diskOrch
    {
      this.clan, this.state, this.diskTerm, this.diskOrch := clan, state, diskTerm, diskOrch;
    }

    method PersistTermAndOrch(term: nat, orch: string)
      modifies this
      ensures diskTerm == term && diskOrch == orch
    {
      if diskTerm == term && diskOrch == orch { return; }
      diskTerm := term;
      diskOrch := orch;
    }

    method SelectCandidate(self: Candidates.Peer, peers: seq<Candidates.Peer>, roster: seq<Candidates.RosterMember>,
                           selfAdmitted: Instant, now: Instant)
      returns (id: string)
      ensures id == Chosen(Candidates.Field(self, ToSet(peers), Candidates.Orchestrator, roster, selfAdmitted, now))
    {
      ghost var field := Candidates.Field(self, ToSet(peers), Candidates.Orchestrator, roster, selfAdmitted, now);
      ChosenIsWinner(field);
      var c := Candidates.Select(self, peers, Candidates.Orchestrator, roster, selfAdmitted, now);
      id := if c.Some? then c.value.memberId else "";
    }

    method AcceptableSender(sender: string, clanLoads: bool, self: Candidates.Peer, peers: seq<Candidates.Peer>,
                            roster: seq<Candidates.RosterMember>, selfAdmitted: Instant, now: Instant)
      returns (ok: bool)
      ensures var field := Candidates.Field(self, ToSet(peers), Candidates.Orchestrator, roster, selfAdmitted, now);
              ok == Acceptable(Sight(clanLoads, field), sender)
    {
      if !clanLoads { return false; }
      var id := SelectCandidate(self, peers, roster, selfAdmitted, now);
      ok := id == sender;
    }

    method Tick(now: Instant, a: Around) returns (sent: Option<Heartbeat>)
      modifies this, state
      ensures (View(), sent) == Ticked(old(View()), state.selfId, clan, now, a)
    {
      var snapTerm := state.term;
      var withinGrace := now - state.startedAt < FAILOVER_GRACE;
      if IAmOrchestrator(state.View(diskTerm, diskOrch), state.selfId, now) {
        if a.clanLoads && a.candidate != "" && a.candidate != state.selfId { return None; }
        if !a.healthy { return None; }
        sent := EmitHeartbeats(now, snapTerm, a.clanLoads);
        return;
      }
      if withinGrace { return None; }
      if !LeaseSilent(state.View(diskTerm, diskOrch), now) { return None; }
      sent := RunElection(now, snapTerm, a);
    }

    method EmitHeartbeats(now: Instant, term: nat, clanLoads: bool) returns (sent: Option<Heartbeat>)
      modifies state
      ensures sent == if clanLoads then Some(Heartbeat(state.selfId, clan, term, now + LEASE_DURATION)) else None
      ensures View() == if clanLoads then Adopt(old(View()), term, state.selfId, now) else old(View())
    {
      if !clanLoads { return None; }
      sent := Some(Heartbeat(state.selfId, clan, term, now + LEASE_DURATION));
      var _ := state.CommitSelfElection(term, "bootstrap", now);
    }

    method RunElection(now: Instant, currentTerm: nat, a: Around) returns (sent: Option<Heartbeat>)
      modifies this, state
      ensures var runs := a.clanLoads && a.candidate == state.selfId && state.selfId != "";
              && sent == (if runs then Some(Heartbeat(state.selfId, clan, currentTerm + 1, now + LEASE_DURATION)) else None)
              && View() == if runs && a.accepts >= a.quorum
                           then var m := Adopt(old(View()), currentTerm + 1, state.selfId, now);
                                if m.term != old(View()).term || m.orch != old(View()).orch then Saved(m) else m
                           else old(View())
    {
      if !a.clanLoads || a.candidate == "" { return None; }
      if a.candidate != state.selfId { return None; }
      var newTerm := currentTerm + 1;
      sent := Some(Heartbeat(state.selfId, clan, newTerm, now + LEASE_DURATION));
      if a.accepts >= a.quorum {
        var changed := state.CommitSelfElection(newTerm, "lease_expired", now);
        if changed { PersistTermAndOrch(newTerm, state.selfId); }
        return;
      }
      state.PushHistory(HistoryEntry(newTerm, "", "split_brain_retry", now));
    }

    method OnHeartbeatReceived(hb: Heartbeat, sender: string, now: Instant, acceptable: bool)
      returns (refused: Option<Refusal>)
      modifies this, state
      ensures match Received(old(View()), hb, clan, sender, now, acceptable)
              case Err(e) => refused == Some(e) && View() == old(View())
              case Ok(m) => refused == None && View() == m
    {
      if hb.member != sender { return Some(SenderMismatch); }
      if hb.clan != clan { return Some(ForeignClan); }
      var r := state.ApplyHeartbeat(hb, now, acceptable, diskTerm, diskOrch);
      if r.Err? { return Some(r.error); }
      if r.value { PersistTermAndOrch(hb.term, hb.member); }
      refused := None;
    }
  }

  // ---------- runs ----------

  /** A node of the run, with the lease granted by the heartbeat it last accepted: since
      it booted (`granted`) and ever (`grantedEver`); 0 for none. */
  datatype Member = Member(node: Node, granted: Instant, grantedEver: Instant)

  datatype Clan = Clan(now: Instant, members: map<string, Member>, net: set<Heartbeat>)

  datatype Step =
    | Advance(dt: nat)
    | Tick(id: string, view: Sight, healthy: bool, accepts: nat, quorum: nat)
    | Deliver(id: string, hb: Heartbeat, view: Sight)
    | Restart(id: string)

  ghost function Next(c: Clan, clan: string, step: Step): Clan {
    match step
    case Advance(dt) => c.(now := c.now + dt)
    case Tick(id, view, healthy, accepts, quorum) =>
      if id !in c.members then c
      else
        var around := Around(view.clanLoads, Chosen(view.field), healthy, accepts, quorum);
        var (n, sent) := Ticked(c.members[id].node, id, clan, c.now, around);
        c.(members := c.members[id := c.members[id].(node := n)],
           net := if sent.Some? then c.net + {sent.value} else c.net)
    case Deliver(id, hb, view) =>
      if id !in c.members || hb !in c.net then c
      else
        var r := Received(c.members[id].node, hb, clan, hb.member, c.now, Acceptable(view, hb.member));
        if r.Err? then c else c.(members := c.members[id := Member(r.value, hb.leaseUntil, hb.leaseUntil)])
    case Restart(id) =>
      if id !in c.members then c
      else
        var m := c.members[id];
        c.(members := c.members[id := m.(node := Restarted(m.node, c.now), granted := 0)])
  }

  ghost function Run(c: Clan, clan: string, steps: seq<Step>): Clan {
    if steps == [] then c else Next(Run(c, clan, steps[..|steps| - 1]), clan, steps[|steps| - 1])
  }

  /** Members boot at `now` with what each has on disk. */
  function Start(disk: map<string, (nat, string)>, now: Instant): Clan {
    Clan(now, map id | id in disk :: Member(Node(now, disk[id].0, disk[id].1, 0, disk[id].0, disk[id].1), 0, 0), {})
  }

  ghost predicate MemberGood(m: Member, now: Instant) {
    && m.node.term == m.node.diskTerm && m.node.orch == m.node.diskOrch
    && m.node.startedAt <= now
    && m.granted <= m.node.lease <= now + LEASE_DURATION
    && m.grantedEver <= now + LEASE_DURATION
    && (m.granted != 0 ==> m.granted == m.grantedEver)
  }

  ghost predicate Good(c: Clan) {
    && (forall id :: id in c.members ==> MemberGood(c.members[id], c.now))
    && (forall hb :: hb in c.net ==> 0 < hb.leaseUntil <= c.now + LEASE_DURATION)
  }

  lemma StepKeeps(c: Clan, clan: string, step: Step)
    requires Good(c)
    ensures Good(Next(c, clan, step))
  {
  }

  lemma {:induction false} RunKeeps(disk: map<string, (nat, string)>, now: Instant, clan: string, steps: seq<Step>)
    ensures Good(Run(Start(disk, now), clan, steps))
  {
    if steps != [] {
      RunKeeps(disk, now, clan, steps[..|steps| - 1]);
      StepKeeps(Run(Start(disk, now), clan, steps[..|steps| - 1]), clan, steps[|steps| - 1]);
    }
  }

  /** In every reachable state each node's term and orchestrator are the saved ones. */
  lemma TermIsPersisted(disk: map<string, (nat, string)>, now: Instant, clan: string, steps: seq<Step>, id: string)
    requires id in disk
    ensures var c := Run(Start(disk, now), clan, steps);
            && id in c.members
            && c.members[id].node.term == c.members[id].node.diskTerm
            && c.members[id].node.orch == c.members[id].node.diskOrch
  {
    RunKeeps(disk, now, clan, steps);
    MembersStay(Start(disk, now), clan, steps);
  }

  lemma {:induction false} MembersStay(c: Clan, clan: string, steps: seq<Step>)
    ensures Run(c, clan, steps).members.Keys == c.members.Keys
  {
    if steps != [] { MembersStay(c, clan, steps[..|steps| - 1]); }
  }

  lemma {:induction false} RunAppend(c: Clan, clan: string, a: seq<Step>, b: seq<Step>)
    ensures Run(c, clan, a + b) == Run(Run(c, clan, a), clan, b)
  {
    if b == [] {
      assert a + b == a;
    } else {
      assert (a + b)[..|a + b| - 1] == a + b[..|b| - 1];
      RunAppend(c, clan, a, b[..|b| - 1]);
    }
  }

  /** No node's term ever decreases, restarts included. */
  lemma {:induction false} TermNeverDecreases(disk: map<string, (nat, string)>, now: Instant, clan: string,
                                             steps: seq<Step>, more: seq<Step>, id: string)
    requires id in disk
    ensures var c, d := Run(Start(disk, now), clan, steps), Run(Start(disk, now), clan, steps + more);
            id in c.members && id in d.members && c.members[id].node.term <= d.members[id].node.term
  {
    MembersStay(Start(disk, now), clan, steps);
    MembersStay(Start(disk, now), clan, steps + more);
    if more == [] {
      assert steps + more == steps;
    } else {
      var rest, step := more[..|more| - 1], more[|more| - 1];
      TermNeverDecreases(disk, now, clan, steps, rest, id);
      assert (steps + more)[..|steps + more| - 1] == steps + rest;
      TermIsPersisted(disk, now, clan, steps + rest, id);
    }
  }

  /** When a node starts an election having accepted a heartbeat since it booted, the
      lease of the last one it accepted ran out more than the grace ago, on the clock
      all nodes share and although the heartbeat may have been under way for long. A
      node that has only just restarted has waited out the startup grace. */
  lemma ElectionAfterLease(disk: map<string, (nat, string)>, now: Instant, clan: string, steps: seq<Step>, id: string)
    requires var c := Run(Start(disk, now), clan, steps); id in c.members && StartsElection(c.members[id].node, id, c.now)
    ensures var c := Run(Start(disk, now), clan, steps); var m := c.members[id];
            && (m.node.lease != 0 ==> c.now > m.granted + FAILOVER_GRACE)
            && (m.granted != 0 ==> c.now > m.grantedEver + FAILOVER_GRACE)
            && (m.node.lease == 0 ==> c.now >= m.node.startedAt + FAILOVER_GRACE)
            && (m.node.lease == 0 && m.node.startedAt > m.grantedEver ==> c.now > m.grantedEver + FAILOVER_GRACE)
  {
    RunKeeps(disk, now, clan, steps);
  }

  /** If the node starts an election, the last lease it ever accepted ran out more than
      the grace ago. */
  ghost predicate LeaseRespected(c: Clan, id: string) {
    id in c.members
    && (StartsElection(c.members[id].node, id, c.now) ==> c.now > c.members[id].grantedEver + FAILOVER_GRACE)
  }

  predicate NoRestart(steps: seq<Step>, id: string) { forall s :: s in steps ==> s != Restart(id) }

  /** Across a restart the guarantee has an exact condition: in every reachable state, a
      node that restarts goes on respecting every lease it accepted, however the run
      continues, if and only if the last one has run out when it restarts. */
  lemma RestartKeepsLeaseIff(disk: map<string, (nat, string)>, now: Instant, clan: string, steps: seq<Step>, id: string)
    requires id in disk
    ensures Run(Start(disk, now), clan, steps).members.Keys == disk.Keys
    ensures var c := Run(Start(disk, now), clan, steps); var d := Next(c, clan, Restart(id));
            (forall more :: NoRestart(more, id) ==> LeaseRespected(Run(d, clan, more), id))
            <==> c.now > c.members[id].grantedEver
  {
    RunKeeps(disk, now, clan, steps);
    MembersStay(Start(disk, now), clan, steps);
    var c := Run(Start(disk, now), clan, steps);
    StepKeeps(c, clan, Restart(id));
    BootKeepsLeaseIff(Next(c, clan, Restart(id)), clan, id);
  }

  /** The same for any node that has accepted nothing since it booted and is still within
      the startup grace. */
  lemma BootKeepsLeaseIff(c: Clan, clan: string, id: string)
    requires Good(c) && id in c.members
    requires var n := c.members[id].node; n.lease == 0 && n.startedAt <= c.now <= n.startedAt + FAILOVER_GRACE
    ensures (forall more :: NoRestart(more, id) ==> LeaseRespected(Run(c, clan, more), id))
            <==> c.members[id].node.startedAt > c.members[id].grantedEver
  {
    var m := c.members[id];
    if m.node.startedAt > m.grantedEver {
      forall more | NoRestart(more, id) ensures LeaseRespected(Run(c, clan, more), id) {
        BootRun(c, clan, more, id);
      }
    } else {
      BootForgetsLease(c, clan, id, m.node.startedAt + FAILOVER_GRACE - c.now);
    }
  }

  lemma BootForgetsLease(c: Clan, clan: string, id: string, dt: nat)
    requires id in c.members && c.members[id].node.lease == 0
    requires c.now + dt == c.members[id].node.startedAt + FAILOVER_GRACE
    requires c.members[id].node.startedAt <= c.members[id].grantedEver
    ensures exists more :: NoRestart(more, id) && id in Run(c, clan, more).members && !LeaseRespected(Run(c, clan, more), id)
  {
    var wait := [] + [Advance(dt)];
    RunSnoc(c, clan, [], Advance(dt));
    assert NoRestart(wait, id) && !LeaseRespected(Run(c, clan, wait), id);
  }

  /** Either a lease was accepted since the node booted, or it booted after the last one. */
  ghost predicate Booted(m: Member) { m.granted != 0 || m.node.startedAt > m.grantedEver }

  lemma {:induction false} BootRun(c: Clan, clan: string, more: seq<Step>, id: string)
    requires Good(c) && id in c.members && Booted(c.members[id]) && NoRestart(more, id)
    ensures var d := Run(c, clan, more);
            Good(d) && id in d.members && Booted(d.members[id]) && LeaseRespected(d, id)
  {
    if more != [] {
      var before, step := more[..|more| - 1], more[|more| - 1];
      assert step in more && forall s :: s in before ==> s in more;
      BootRun(c, clan, before, id);
      StepKeeps(Run(c, clan, before), clan, step);
    }
  }

  /** Every restart of the node in the run comes after the last lease it had accepted. */
  ghost predicate RestartsAfterLeases(c: Clan, clan: string, steps: seq<Step>, id: string) {
    forall p :: 0 <= p < |steps| && steps[p] == Restart(id) ==>
      var d := Run(c, clan, steps[..p]); id in d.members ==> d.now > d.members[id].grantedEver
  }

  lemma PatientStep(c: Clan, clan: string, step: Step, id: string)
    requires Good(c) && id in c.members && Booted(c.members[id])
    requires step == Restart(id) ==> c.now > c.members[id].grantedEver
    ensures var d := Next(c, clan, step); id in d.members && Booted(d.members[id])
  {
  }

  lemma BootedRespects(c: Clan, id: string)
    requires Good(c) && id in c.members && Booted(c.members[id])
    ensures LeaseRespected(c, id)
  {
    assert MemberGood(c.members[id], c.now);
  }

  /** Whole runs: as long as restarts wait for accepted leases to run out, no node ever
      starts an election inside one. */
  lemma {:induction false} PatientRunRespectsLeases(disk: map<string, (nat, string)>, now: Instant, clan: string,
                                                  steps: seq<Step>, id: string)
    requires id in disk && now > 0 && RestartsAfterLeases(Start(disk, now), clan, steps, id)
    ensures var c := Run(Start(disk, now), clan, steps);
            id in c.members && Booted(c.members[id]) && LeaseRespected(c, id)
  {
    RunKeeps(disk, now, clan, steps);
    if steps != [] {
      var before, step := steps[..|steps| - 1], steps[|steps| - 1];
      assert forall p :: 0 <= p < |before| ==> steps[p] == before[p] && steps[..p] == before[..p];
      PatientRunRespectsLeases(disk, now, clan, before, id);
      RunKeeps(disk, now, clan, before);
      assert steps[|before|] == step && steps[..|before|] == before;
      PatientStep(Run(Start(disk, now), clan, before), clan, step, id);
    }
    BootedRespects(Run(Start(disk, now), clan, steps), id);
  }

  /** A restart at or before the end of an accepted lease: the node starts an election
      right after the startup grace, inside that lease's protection. */
  lemma RestartForgetsLease(c: Clan, clan: string, id: string)
    requires id in c.members && c.now <= c.members[id].grantedEver
    ensures var d := Next(Next(c, clan, Restart(id)), clan, Advance(FAILOVER_GRACE));
            && id in d.members && StartsElection(d.members[id].node, id, d.now)
            && d.members[id].grantedEver == c.members[id].grantedEver && !LeaseRespected(d, id)
  {
  }

  lemma RunSnoc(c: Clan, clan: string, steps: seq<Step>, step: Step)
    ensures Run(c, clan, steps + [step]) == Next(Run(c, clan, steps), clan, step)
  {
    assert (steps + [step])[..|steps|] == steps;
  }

  // ---------- a tick that is not atomic ----------

  /** A heartbeat of the clan reaches `id`. */
  ghost predicate Lands(c: Clan, clan: string, step: Step, id: string) {
    step.Deliver? && step.id == id && step.hb in c.net && step.hb.clan == clan
  }

  /** Nothing but deliveries reaches the node. */
  predicate OnlyDeliveries(steps: seq<Step>, id: string) {
    forall s :: s in steps && !s.Advance? && !s.Deliver? ==> s.id != id
  }

  /** The end of a tick: the commit, which only an election that was won saves, and only
      when the term or the leader changed. */
  function Committed(n: Node, id: string, term: nat, won: bool, at: Instant): Node {
    var m := Adopt(n, term, id, at);
    if won && (m.term != n.term || m.orch != n.orch) then Saved(m) else m
  }

  ghost function CommitTerm(c: Clan, id: string, term: nat, won: bool, at: Instant): Clan
    requires id in c.members
  {
    c.(members := c.members[id := c.members[id].(node := Committed(c.members[id].node, id, term, won, at))])
  }

  /** No heartbeat that lands during the steps carries a term above `term`. */
  ghost predicate AllLandAtMost(c: Clan, clan: string, steps: seq<Step>, id: string, term: nat) {
    forall p :: 0 <= p < |steps| && Lands(Run(c, clan, steps[..p]), clan, steps[p], id) ==> steps[p].hb.term <= term
  }

  /** The commit assigns its term unguarded. With the rest of the run going on between a
      tick's snapshot and its commit, the node's term falls exactly when a heartbeat that
      landed meanwhile carried a higher term than the one committed: the snapshot's when
      it renews its lease, one more when it won an election. */
  lemma SplitTickKeepsTermIff(c: Clan, clan: string, between: seq<Step>, id: string, won: bool, at: Instant)
    requires id in c.members && OnlyDeliveries(between, id)
    ensures var d := Run(c, clan, between);
            var term := c.members[id].node.term + if won then 1 else 0;
            && id in d.members
            && (CommitTerm(d, id, term, won, at).members[id].node.term >= d.members[id].node.term
                <==> AllLandAtMost(c, clan, between, id, term))
  {
    TermAfterDeliveries(c, clan, between, id, c.members[id].node.term + if won then 1 else 0);
  }

  lemma {:induction false} TermAfterDeliveries(c: Clan, clan: string, steps: seq<Step>, id: string, term: nat)
    requires id in c.members && OnlyDeliveries(steps, id) && term >= c.members[id].node.term
    ensures var d := Run(c, clan, steps);
            id in d.members && (d.members[id].node.term <= term <==> AllLandAtMost(c, clan, steps, id, term))
  {
    if steps != [] {
      var before, step := steps[..|steps| - 1], steps[|steps| - 1];
      assert step in steps && forall s :: s in before ==> s in steps;
      TermAfterDeliveries(c, clan, before, id, term);
      LandSnoc(c, clan, before, step, id, term);
      assert before + [step] == steps;
      DeliveryRaises(Run(c, clan, before), clan, step, id, term);
    }
  }

  lemma LandSnoc(c: Clan, clan: string, before: seq<Step>, step: Step, id: string, term: nat)
    ensures AllLandAtMost(c, clan, before + [step], id, term)
            <==> AllLandAtMost(c, clan, before, id, term)
                 && (Lands(Run(c, clan, before), clan, step, id) ==> step.hb.term <= term)
  {
    var steps := before + [step];
    assert forall p :: 0 <= p < |before| ==> steps[p] == before[p] && steps[..p] == before[..p];
    assert steps[..|before|] == before && steps[|before|] == step;
  }

  lemma DeliveryRaises(c: Clan, clan: string, step: Step, id: string, term: nat)
    requires id in c.members && (step.Advance? || step.Deliver? || step.id != id)
    ensures var d := Next(c, clan, step);
            && id in d.members
            && (d.members[id].node.term <= term
                <==> c.members[id].node.term <= term && (Lands(c, clan, step, id) ==> step.hb.term <= term))
  {
  }

  lemma {:induction false} GoodAlong(c: Clan, clan: string, steps: seq<Step>)
    requires Good(c)
    ensures Good(Run(c, clan, steps))
  {
    if steps != [] {
      GoodAlong(c, clan, steps[..|steps| - 1]);
      StepKeeps(Run(c, clan, steps[..|steps| - 1]), clan, steps[|steps| - 1]);
    }
  }

  /** The save of a split tick, in any run: a won election leaves term and leader saved,
      whatever landed meanwhile; a renewal leaves the disk at the term reached meanwhile,
      which is above the node's own exactly when a heartbeat that landed carried a higher
      one. */
  lemma SplitTickSavesIff(disk: map<string, (nat, string)>, now: Instant, clan: string, steps: seq<Step>,
                          between: seq<Step>, id: string, won: bool, at: Instant)
    requires id in disk && OnlyDeliveries(between, id)
    ensures var c := Run(Start(disk, now), clan, steps);
            var d := Run(c, clan, between);
            id in c.members && id in d.members &&
            var term := c.members[id].node.term + if won then 1 else 0;
            var n := CommitTerm(d, id, term, won, at).members[id].node;
            && (won ==> n.diskTerm == n.term && n.diskOrch == n.orch)
            && (!won ==> n.diskTerm == d.members[id].node.term
                         && (n.diskTerm > n.term <==> !AllLandAtMost(c, clan, between, id, term)))
  {
    var c := Run(Start(disk, now), clan, steps);
    RunKeeps(disk, now, clan, steps);
    MembersStay(Start(disk, now), clan, steps);
    GoodAlong(c, clan, between);
    SplitTickKeepsTermIff(c, clan, between, id, won, at);
    CommitSaves(Run(c, clan, between), id, c.members[id].node.term + if won then 1 else 0, won, at);
  }

  lemma CommitSaves(d: Clan, id: string, term: nat, won: bool, at: Instant)
    requires Good(d) && id in d.members
    ensures var n := CommitTerm(d, id, term, won, at).members[id].node;
            && n.term == term
            && (won ==> n.diskTerm == n.term && n.diskOrch == n.orch)
            && (!won ==> n.diskTerm == d.members[id].node.term)
  {
    assert MemberGood(d.members[id], d.now);
  }

  /** The tick of a node that may lead: it is the leader already and stays the choice, or
      wins its election. */
  ghost predicate Renews(n: Node, step: Step, now: Instant)
    requires step.Tick?
  {
    IAmOrchestrator(n, step.id, now) && step.view.clanLoads && step.healthy && Chosen(step.view.field) in {"", step.id}
  }

  ghost predicate WinsElection(n: Node, step: Step, now: Instant)
    requires step.Tick?
  {
    StartsElection(n, step.id, now) && step.view.clanLoads && Chosen(step.view.field) == step.id != ""
    && step.accepts >= step.quorum
  }

  /** With nothing in between, the split tick is the tick: a renewal or a win ends in that
      commit and its heartbeat, and no other tick changes any member. */
  lemma AtomicTickIsSplitTick(c: Clan, clan: string, step: Step)
    requires step.Tick? && step.id in c.members
    ensures var n, d := c.members[step.id].node, Next(c, clan, step);
            var won := WinsElection(n, step, c.now);
            var term := n.term + if won then 1 else 0;
            if won || Renews(n, step, c.now) then
              && d.members == CommitTerm(c, step.id, term, won, c.now).members
              && d.net == c.net + {Heartbeat(step.id, clan, term, c.now + LEASE_DURATION)}
            else d.members == c.members
  {
  }

  // ---------- leaders at one term ----------

  /** In every run, a node changes leader without raising its term in one way only: by
      accepting a heartbeat from the winner of the field it then sees. */
  lemma SameTermNeedsWinner(disk: map<string, (nat, string)>, now: Instant, clan: string, steps: seq<Step>, step: Step,
                            id: string)
    requires id in disk
    ensures Run(Start(disk, now), clan, steps).members.Keys == Next(Run(Start(disk, now), clan, steps), clan, step).members.Keys == disk.Keys
    ensures var c := Run(Start(disk, now), clan, steps);
            var n, m := c.members[id].node, Next(c, clan, step).members[id].node;
            n.term == m.term && n.orch != m.orch ==>
              && step.Deliver? && step.id == id && m.orch == step.hb.member && step.hb.term == n.term
              && (m.orch != "" ==>
                    exists w :: Candidates.Winner(Candidates.Orchestrator, w, step.view.field) && w.memberId == m.orch)
  {
    RunKeeps(disk, now, clan, steps);
    MembersStay(Start(disk, now), clan, steps);
    StepNeedsWinner(Run(Start(disk, now), clan, steps), clan, step, id);
    if step.Deliver? { ChosenIsWinner(step.view.field); }
  }

  lemma StepNeedsWinner(c: Clan, clan: string, step: Step, id: string)
    requires Good(c) && id in c.members
    ensures Next(c, clan, step).members.Keys == c.members.Keys
    ensures var n, m := c.members[id].node, Next(c, clan, step).members[id].node;
            n.term == m.term && n.orch != m.orch ==>
              && step.Deliver? && step.id == id && m.orch == step.hb.member && step.hb.term == n.term
              && m.orch == Chosen(step.view.field)
  {
    assert MemberGood(c.members[id], c.now);
  }

  /** Nodes that see the same field do not part at one term: whoever one of them accepts
      at its own term is whom the other elected. */
  lemma EqualViewsOneLeader(n: Node, i: string, a: Around, at: Instant, m: Node, hb: Heartbeat, now: Instant, clan: string, v: Sight)
    requires a.clanLoads == v.clanLoads && a.candidate == Chosen(v.field)
    requires Ticked(n, i, clan, at, a).0.term > n.term
    requires hb.term == m.term && Received(m, hb, clan, hb.member, now, Acceptable(v, hb.member)).Ok?
    ensures hb.member == i
  {
  }
}
