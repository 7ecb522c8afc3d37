/** Rotations that overlap at a peer: when one can have all its ACKs while another is
    pending there (src/cland/internal/keyrotate, src/cland/internal/transport/client.go). */
module KeyExclusion {
  import opened Wrappers
  import opened KeyProvider
  import opened ProposeStore
  import opened KeyRotation

  // Seconds: what a transport client defaults to, and what the daemon's is built with.
  const CLIENT_DEFAULT_TIMEOUT: nat := 30
  const DAEMON_CLIENT_TIMEOUT: nat := 15

  /** Every ACK is in, and the proposal is still undecided. */
  predicate FullyAcked(s: System, id: string) {
    id in s.rotations && s.rotations[id].phase == Collecting && s.rotations[id].acked == s.rotations[id].peers
  }

  /** A proposal under 90 s old that has all its ACKs is prepared, under its own key, at
      every one of its peers at once. */
  lemma FullyAckedIsPrepared(s: System, initial: Key, id: string, x: string)
    requires Inv(s, initial) && FullyAcked(s, id) && s.now < s.rotations[id].startedAt + MEMBER_REVERT_AFTER
    requires x in s.rotations[id].peers && x in s.nodes
    ensures s.nodes[x].slot.Some? && s.nodes[x].slot.value.proposeId == id
    ensures s.nodes[x].slot.value.newKey == s.rotations[id].key
  {
    assert RotationGood(s, id);
    assert PreparedGood(s, x, id);
    assert NodeGood(s, x, initial);
  }

  /** The ACK completes the set of its proposal. */
  predicate Completes(s: System, m: Msg) {
    Enabled(s, RecvAck(m)) && FullyAcked(Next(s, RecvAck(m)), m.id)
  }

  /** When an ACK completes a proposal's set, no other proposal is pending at any of its peers. */
  ghost predicate Excludes(s: System, m: Msg) {
    Completes(s, m) ==>
      forall x :: x in s.rotations[m.id].peers && x in s.nodes && s.nodes[x].slot.Some? ==>
        s.nodes[x].slot.value.proposeId == m.id
  }

  /** Prepared everywhere: with a timeout of at most 90 s, when the last ACK comes in,
      every peer of the proposal holds it pending under its own key. */
  lemma CompletedIsPrepared(ids: set<string>, key: Key, at: Instant, timeout: nat, steps: seq<Step>, m: Msg, x: string)
    requires timeout <= MEMBER_REVERT_AFTER
    requires var s := Run(Start(ids, key, at, timeout), steps);
             Completes(s, m) && x in s.rotations[m.id].peers && x in s.nodes
    ensures var s := Run(Start(ids, key, at, timeout), steps);
            s.nodes[x].slot.Some? && s.nodes[x].slot.value.proposeId == m.id
            && s.nodes[x].slot.value.newKey == s.rotations[m.id].key
  {
    var s := Run(Start(ids, key, at, timeout), steps);
    RunInv(ids, key, at, timeout, steps);
    RunAdvances(Start(ids, key, at, timeout), steps);
    InvNext(s, RecvAck(m), key);
    FullyAckedIsPrepared(Next(s, RecvAck(m)), key, m.id, x);
  }

  /** Exclusion: while one proposal is pending at a peer, however old, no ACK completes
      the set of another proposal that shares the peer. */
  lemma PreparedExcludes(ids: set<string>, key: Key, at: Instant, timeout: nat, steps: seq<Step>, x: string, m: Msg)
    requires timeout <= MEMBER_REVERT_AFTER
    requires var s := Run(Start(ids, key, at, timeout), steps);
             && x in s.nodes && s.nodes[x].slot.Some? && s.nodes[x].slot.value.proposeId != m.id
             && m.id in s.rotations && x in s.rotations[m.id].peers
    ensures !Completes(Run(Start(ids, key, at, timeout), steps), m)
  {
    if Completes(Run(Start(ids, key, at, timeout), steps), m) {
      CompletedIsPrepared(ids, key, at, timeout, steps, m, x);
    }
  }

  /** So it is for the client the daemon hands its coordinator, and for a default one. */
  lemma DaemonExcludes(ids: set<string>, key: Key, at: Instant, timeout: nat, steps: seq<Step>, m: Msg)
    requires timeout == DAEMON_CLIENT_TIMEOUT || timeout == CLIENT_DEFAULT_TIMEOUT
    ensures Excludes(Run(Start(ids, key, at, timeout), steps), m)
  {
    PromptRepliesExclude(ids, key, at, timeout, steps, m);
  }

  lemma PromptRepliesExclude(ids: set<string>, key: Key, at: Instant, timeout: nat, steps: seq<Step>, m: Msg)
    requires timeout <= MEMBER_REVERT_AFTER
    ensures Excludes(Run(Start(ids, key, at, timeout), steps), m)
  {
    var s := Run(Start(ids, key, at, timeout), steps);
    if Completes(s, m) {
      forall x | x in s.rotations[m.id].peers && x in s.nodes && s.nodes[x].slot.Some?
        ensures s.nodes[x].slot.value.proposeId == m.id
      {
        CompletedIsPrepared(ids, key, at, timeout, steps, m, x);
      }
    }
  }

  /** The exact condition on the timeout: exclusion holds in every run if and only if a
      reply is not waited for longer than a member holds a proposal. */
  lemma ExclusionIffPromptReplies(timeout: nat)
    ensures (forall ids, key, at, steps, m :: Excludes(Run(Start(ids, key, at, timeout), steps), m))
            <==> timeout <= MEMBER_REVERT_AFTER
  {
    if timeout <= MEMBER_REVERT_AFTER {
      forall ids, key, at, steps, m ensures Excludes(Run(Start(ids, key, at, timeout), steps), m) {
        PromptRepliesExclude(ids, key, at, timeout, steps, m);
      }
    } else {
      var k: Key := seq(KEY_LEN, _ => 0);
      LateAcksEscapeExclusion(k, k, k, timeout);
      assert !Excludes(Run(Start({"c", "d", "x", "y"}, k, 0, timeout), Overlap(k, k)), AckMsg("y", "q"));
    }
  }

  /** With a longer timeout, exactly 90 s after it began, "q" gets its last ACK while "p"
      is freshly pending at their shared peer "x". */
  lemma LateAcksEscapeExclusion(initial: Key, k: Key, l: Key, timeout: nat)
    requires |k| == KEY_LEN && |l| == KEY_LEN && timeout > MEMBER_REVERT_AFTER
    ensures var s := Run(Start({"c", "d", "x", "y"}, initial, 0, timeout), Overlap(k, l));
            && Completes(s, AckMsg("y", "q")) && "x" in s.rotations["q"].peers
            && "x" in s.nodes && s.nodes["x"].slot == Some(Pending("p", l, s.now))
  {
    var s0 := Start({"c", "d", "x", "y"}, initial, 0, timeout);
    FirstPeerAcks(s0, k);
    SlotExpires(Run(s0, Early(k)), k, l);
    LastPeerAcks(Run(Run(s0, Early(k)), Middle(l)), k, l);
    RunAppend(s0, Early(k), Middle(l));
    RunAppend(s0, Early(k) + Middle(l), Late(k));
  }

  function Overlap(k: Key, l: Key): seq<Step> { Early(k) + Middle(l) + Late(k) }

  function Early(k: Key): seq<Step> {
    [Begin("c", "q", k, {"x", "y"}, 0), RecvPropose(ProposeMsg("x", "q", k)), RecvAck(AckMsg("x", "q"))]
  }

  function Middle(l: Key): seq<Step> {
    [Tick(90), Begin("d", "p", l, {"x"}, 0), RecvPropose(ProposeMsg("x", "p", l))]
  }

  function Late(k: Key): seq<Step> {
    [RecvPropose(ProposeMsg("y", "q", k))]
  }

  /** The run above after its first, second and third part. */
  ghost predicate HalfAcked(s: System, k: Key, slot: Pending) {
    && s.now == slot.receivedAt && s.timeout > MEMBER_REVERT_AFTER && {"c", "d", "x", "y"} <= s.nodes.Keys
    && "q" in s.rotations
    && s.rotations["q"] == Rotation("c", k, {"x", "y"}, {"x"}, {}, Collecting, 0, false)
    && s.nodes["x"].slot == Some(slot) && s.nodes["y"].slot == None
    && ProposeMsg("y", "q", k) in s.net
  }

  lemma FirstPeerAcks(s: System, k: Key)
    requires |k| == KEY_LEN && Idle(s)
    ensures HalfAcked(Run(s, Early(k)), k, Pending("q", k, 0)) && Run(s, Early(k)).rotations.Keys == {"q"}
  {
    RunThree(s, Early(k));
    BegunIsProposed(s, k);
    ProposedAcks(Next(s, Begin("c", "q", k, {"x", "y"}, 0)), k);
  }

  ghost predicate Idle(s: System) {
    && s.now == 0 && s.timeout > MEMBER_REVERT_AFTER && {"c", "d", "x", "y"} <= s.nodes.Keys
    && s.rotations == map[] && s.nodes["x"].slot == None && s.nodes["y"].slot == None
  }

  lemma BegunIsProposed(s: System, k: Key)
    requires |k| == KEY_LEN && Idle(s)
    ensures Proposed(Next(s, Begin("c", "q", k, {"x", "y"}, 0)), k)
  {
    var peers := {"x", "y"};
    assert ProposeMsg("x", "q", k) in Proposals(peers, "q", k) && ProposeMsg("y", "q", k) in Proposals(peers, "q", k);
  }

  ghost predicate Proposed(s: System, k: Key) {
    && s.now == 0 && s.timeout > MEMBER_REVERT_AFTER && {"c", "d", "x", "y"} <= s.nodes.Keys
    && s.rotations == map["q" := Rotation("c", k, {"x", "y"}, {}, {}, Collecting, 0, false)]
    && s.nodes["x"].slot == None && s.nodes["y"].slot == None
    && ProposeMsg("x", "q", k) in s.net && ProposeMsg("y", "q", k) in s.net
  }

  lemma ProposedAcks(s: System, k: Key)
    requires |k| == KEY_LEN && Proposed(s, k)
    ensures var t := Next(Next(s, RecvPropose(ProposeMsg("x", "q", k))), RecvAck(AckMsg("x", "q")));
            HalfAcked(t, k, Pending("q", k, 0)) && t.rotations.Keys == {"q"}
  {
    AckedBy(s, "x", "q", k);
  }

  /** A peer with an empty slot takes the proposal, and its ACK is counted. */
  lemma AckedBy(s: System, x: string, id: string, k: Key)
    requires x in s.nodes && s.nodes[x].slot == None && |k| == KEY_LEN && ProposeMsg(x, id, k) in s.net
    requires id in s.rotations && s.rotations[id].phase == Collecting && s.now < s.rotations[id].startedAt + s.timeout
    requires x in s.rotations[id].peers && s.rotations[id].failed == {}
    ensures var t := Next(Next(s, RecvPropose(ProposeMsg(x, id, k))), RecvAck(AckMsg(x, id)));
            && t == s.(nodes := s.nodes[x := s.nodes[x].(slot := Some(Pending(id, k, s.now)))],
                       net := s.net + {AckMsg(x, id)},
                       rotations := s.rotations[id := s.rotations[id].(acked := s.rotations[id].acked + {x})])
  {
    var u := Next(s, RecvPropose(ProposeMsg(x, id, k)));
    assert AckMsg(x, id) in u.net;
  }

  lemma SlotExpires(s: System, k: Key, l: Key)
    requires |l| == KEY_LEN && HalfAcked(s, k, Pending("q", k, 0)) && "p" !in s.rotations
    ensures HalfAcked(Run(s, Middle(l)), k, Pending("p", l, 90))
  {
    RunThree(s, Middle(l));
    var s2 := Next(Next(s, Tick(90)), Begin("d", "p", l, {"x"}, 0));
    assert ProposeMsg("x", "p", l) in s2.net;
  }

  lemma LastPeerAcks(s: System, k: Key, l: Key)
    requires |k| == KEY_LEN && HalfAcked(s, k, Pending("p", l, 90))
    ensures var t := Run(s, Late(k));
            && Completes(t, AckMsg("y", "q")) && "x" in t.rotations["q"].peers
            && "x" in t.nodes && t.nodes["x"].slot == Some(Pending("p", l, t.now))
  {
    assert Late(k)[..0] == [];
    var t := Next(s, RecvPropose(ProposeMsg("y", "q", k)));
    assert Run(s, Late(k)) == t;
    assert AckMsg("y", "q") in t.net;
    assert Next(t, RecvAck(AckMsg("y", "q"))).rotations["q"].acked == {"x", "y"};
  }

  lemma RunThree(s: System, steps: seq<Step>)
    requires |steps| == 3
    ensures Run(s, steps) == Next(Next(Next(s, steps[0]), steps[1]), steps[2])
  {
    var two := steps[..2];
    assert two[..1] == [steps[0]] && [steps[0]][..0] == [];
    assert Run(s, [steps[0]]) == Next(s, steps[0]);
    assert Run(s, two) == Next(Run(s, two[..1]), two[1]);
  }
}
