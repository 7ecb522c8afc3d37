/** What a tick and a heartbeat do, from the clocks and fields of the node alone, and how
    soon a leader that has fallen silent is replaced
    (src/cland/internal/election/state.go, engine.go). */
module Failover {
  import opened Wrappers
  import opened Candidates
  import opened Election

  /** The member is the winner of the field it sees, its clan file loads and it has a name. */
  ghost predicate IsChosen(view: Sight, id: string) {
    view.clanLoads && id != "" && exists w :: Winner(Orchestrator, w, view.field) && w.memberId == id
  }

  /** Nobody else is: the field is empty or its winners are the member or nameless. */
  ghost predicate NobodyElse(view: Sight, id: string) {
    view.clanLoads && forall w :: Winner(Orchestrator, w, view.field) ==> w.memberId == id || w.memberId == ""
  }

  lemma ChosenSpelled(view: Sight, id: string)
    ensures IsChosen(view, id) <==> view.clanLoads && id != "" && Chosen(view.field) == id
    ensures NobodyElse(view, id) <==> view.clanLoads && (Chosen(view.field) == id || Chosen(view.field) == "")
  {
    ChosenIsWinner(view.field);
  }

  /** No lease, or one that ran out more than 6 s ago, and up for at least 6 s. */
  predicate Silence(n: Node, now: Instant) { (n.lease == 0 || now > n.lease + 6) && now - n.startedAt >= 6 }

  /** The node's own lease is still running. */
  predicate Leads(n: Node, id: string, now: Instant) { n.orch == id && 0 < n.lease && now < n.lease }

  /** The whole tick. A chosen node that has heard of no leader for 6 s past the lease
      announces the next term and, on enough accepts, leads it and saves it; a leader
      with a running lease that is healthy and still the choice renews at its own term,
      without saving; any other tick changes and sends nothing. */
  lemma TickSpelled(c: Clan, clan: string, id: string, view: Sight, healthy: bool, accepts: nat, quorum: nat)
    requires id in c.members
    ensures var n, d := c.members[id].node, Next(c, clan, Tick(id, view, healthy, accepts, quorum));
            if Silence(n, c.now) && IsChosen(view, id) then
              && d.net == c.net + {Heartbeat(id, clan, n.term + 1, c.now + 8)}
              && var leading := Node(n.startedAt, n.term + 1, id, c.now + 8, n.term + 1, id);
              d.members == if accepts >= quorum then c.members[id := c.members[id].(node := leading)] else c.members
            else if Leads(n, id, c.now) && healthy && NobodyElse(view, id) then
              && d.net == c.net + {Heartbeat(id, clan, n.term, c.now + 8)}
              && d.members == c.members[id := c.members[id].(node := n.(lease := c.now + 8))]
            else d == c
  {
    ChosenSpelled(view, id);
    assert c.members[id := c.members[id]] == c.members;
  }

  /** The whole receipt. A heartbeat of the clan is adopted, with a fresh lease and its
      term and sender saved on a change, exactly when it carries a higher term, or the
      node's own term and the sender the node itself would choose. */
  lemma DeliverySpelled(c: Clan, clan: string, id: string, hb: Heartbeat, view: Sight)
    requires id in c.members && hb in c.net
    ensures var n, d := c.members[id].node, Next(c, clan, Deliver(id, hb, view));
            var chosen := view.clanLoads
                          && if view.field == {} then hb.member == ""
                             else exists w :: Winner(Orchestrator, w, view.field) && w.memberId == hb.member;
            if hb.clan == clan && (hb.term > n.term || (hb.term == n.term && chosen)) then
              var m := n.(term := hb.term, orch := hb.member, lease := c.now + 8);
              d == c.(members := c.members[id := Member(if hb.term != n.term || hb.member != n.orch
                                                        then m.(diskTerm := hb.term, diskOrch := hb.member) else m,
                                                        hb.leaseUntil, hb.leaseUntil)])
            else d == c
  {
    ChosenIsWinner(view.field);
  }

  /** What a handler answers, in order, and what it takes over: a heartbeat not from its
      own sender, of another clan, of an older term, or at the node's own term from a
      sender the node would not choose, is refused. */
  lemma ReceiptSpelled(n: Node, hb: Heartbeat, clan: string, sender: string, now: Instant, acceptable: bool)
    ensures Received(n, hb, clan, sender, now, acceptable)
            == if hb.member != sender then Err(SenderMismatch)
               else if hb.clan != clan then Err(ForeignClan)
               else if hb.term < n.term then Err(TermStale)
               else if hb.term == n.term && !acceptable then Err(AntiSpoof)
               else if hb.term == n.term && hb.member == n.orch then Ok(n.(lease := now + 8))
               else Ok(Node(n.startedAt, hb.term, hb.member, now + 8, hb.term, hb.member))
  {
  }

  /** The history keeps the newest entries, all of them up to the cap. */
  lemma HistorySpelled(h: seq<HistoryEntry>, cap: nat, k: nat)
    ensures |Newest(h, cap)| == if |h| < cap then |h| else cap
    ensures k < |Newest(h, cap)| ==> Newest(h, cap)[|Newest(h, cap)| - 1 - k] == h[|h| - 1 - k]
  {
  }

  /** A tick of a chosen node with enough accepts, `dt` seconds after any point of any run
      since when nothing has reached it, makes it the leader of the next term. */
  ghost predicate TakesOver(disk: map<string, (nat, string)>, now: Instant, clan: string, steps: seq<Step>, id: string,
                            tick: Step, dt: nat) {
    id in disk && tick.Tick? && tick.id == id && IsChosen(tick.view, id) && tick.accepts >= tick.quorum ==>
      var c := Run(Start(disk, now), clan, steps);
      var d := Next(Next(c, clan, Advance(dt)), clan, tick);
      id in c.members && id in d.members &&
      var n, m := c.members[id].node, d.members[id].node;
      m.term == n.term + 1 && m.orch == id && m.diskTerm == n.term + 1 && m.diskOrch == id
  }

  /** Failover in time: 15 s of silence, a lease, the grace and one second, always make
      such a node the leader of the next term, and fewer do not always. */
  lemma FailoverIffSilentFor15(dt: nat)
    ensures (forall disk, now, clan, steps, id, tick :: TakesOver(disk, now, clan, steps, id, tick, dt)) <==> dt >= 15
  {
    if dt >= 15 {
      forall disk, now, clan, steps, id, tick ensures TakesOver(disk, now, clan, steps, id, tick, dt) {
        SilentLeaderIsReplaced(disk, now, clan, steps, id, tick, dt);
      }
    } else {
      var disk, tick := map["a" := (0, "")], SelfTick();
      FreshLeaseHolds(dt);
      SelfTickIsChosen();
      assert !TakesOver(disk, 0, "", [Advance(6), tick], "a", tick, dt);
    }
  }

  lemma SilentLeaderIsReplaced(disk: map<string, (nat, string)>, now: Instant, clan: string, steps: seq<Step>,
                               id: string, tick: Step, dt: nat)
    requires dt >= 15
    ensures TakesOver(disk, now, clan, steps, id, tick, dt)
  {
    if id in disk && tick.Tick? && tick.id == id && IsChosen(tick.view, id) && tick.accepts >= tick.quorum {
      var c := Run(Start(disk, now), clan, steps);
      RunKeeps(disk, now, clan, steps);
      MembersStay(Start(disk, now), clan, steps);
      assert MemberGood(c.members[id], c.now);
      TickSpelled(Next(c, clan, Advance(dt)), clan, id, tick.view, tick.healthy, tick.accepts, tick.quorum);
    }
  }

  /** The tick of "a" that finds itself alone, with enough accepts. */
  ghost function SelfTick(): Step { Tick("a", Sight(true, {Candidate("a", 0, false, 0)}), true, 1, 1) }

  lemma SelfTickIsChosen()
    ensures IsChosen(SelfTick().view, "a") && NobodyElse(SelfTick().view, "a")
  {
    var me := Candidate("a", 0, false, 0);
    WinnerUnbeatenByItself(me);
    assert Winner(Orchestrator, me, SelfTick().view.field);
  }

  lemma WinnerUnbeatenByItself(c: Candidate)
    ensures !Beats(Orchestrator, c, c)
  {
    BeatsIsOrder(Orchestrator);
  }

  /** "a" has just won an election: for 14 s more it renews or waits. */
  lemma FreshLeaseHolds(dt: nat)
    requires dt < 15
    ensures var c := Run(Start(map["a" := (0, "")], 0), "", [Advance(6), SelfTick()]);
            var d := Next(Next(c, "", Advance(dt)), "", SelfTick());
            "a" in c.members && "a" in d.members && d.members["a"].node.term == c.members["a"].node.term
  {
    var s0, tick := Start(map["a" := (0, "")], 0), SelfTick();
    SelfTickIsChosen();
    RunSnoc(s0, "", [], Advance(6));
    RunSnoc(s0, "", [Advance(6)], tick);
    assert [] + [Advance(6)] == [Advance(6)] && [Advance(6)] + [tick] == [Advance(6), tick];
    var s1 := Next(s0, "", Advance(6));
    TickSpelled(s1, "", "a", tick.view, true, 1, 1);
    var c := Next(s1, "", tick);
    TickSpelled(Next(c, "", Advance(dt)), "", "a", tick.view, true, 1, 1);
  }
}
