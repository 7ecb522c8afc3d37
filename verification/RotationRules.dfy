/** What each message and each decision does to a run of rotations, in the terms of the
    member's slot and keys and of the coordinator's tallies
    (src/cland/internal/keyrotate/coordinator.go, member.go, store.go). */
module RotationRules {
  import opened Wrappers
  import opened KeyProvider
  import opened ProposeStore
  import opened KeyRotation

  /** A proposal reaches a member: its slot takes it in if it can, and an ACK goes out
      exactly when it holds the proposal afterwards. Nothing else changes. */
  lemma ProposeSpelled(s: System, x: string, id: string, key: Key)
    requires ProposeMsg(x, id, key) in s.net && x in s.nodes && |key| == 32
    requires s.nodes[x].slot.Some? ==> s.nodes[x].slot.value.receivedAt <= s.now
    ensures var n, t := s.nodes[x], Next(s, RecvPropose(ProposeMsg(x, id, key)));
            var held := n.slot.Some? && (n.slot.value.proposeId == id || s.now < n.slot.value.receivedAt + 90);
            var slot := if held then n.slot else Some(Pending(id, key, s.now));
            && t.nodes == s.nodes[x := n.(slot := slot)]
            && t.net == (if slot.value.proposeId == id then s.net + {AckMsg(x, id)} else s.net)
            && t.rotations == s.rotations && t.now == s.now && t.timeout == s.timeout
  {
    PutSpelled(s.nodes[x].slot, id, Some(key), s.now);
  }

  /** A commit reaches a member: the pending key of that proposal replaces the current one,
      which stays good for the grace; without that proposal pending nothing happens. An
      abort just empties the slot of it. */
  lemma DecisionReceiptSpelled(s: System, x: string, id: string, grace: nat)
    requires x in s.nodes
    ensures var n, t := s.nodes[x], Next(s, RecvCommit(CommitMsg(x, id, grace)));
            if CommitMsg(x, id, grace) in s.net && n.slot.Some? && n.slot.value.proposeId == id then
              var keys := Keys(n.slot.value.newKey, Some(n.keys.current), s.now + if grace == 0 then 300 else grace);
              t == s.(nodes := s.nodes[x := Node(None, keys, n.installed + [id], n.lastSweep)])
            else t == s
    ensures var n, t := s.nodes[x], Next(s, RecvAbort(AbortMsg(x, id)));
            if AbortMsg(x, id) in s.net && n.slot.Some? && n.slot.value.proposeId == id then
              t == s.(nodes := s.nodes[x := n.(slot := None)])
            else t == s
  {
    assert s.nodes[x := s.nodes[x]] == s.nodes;
  }

  /** A sweep drops a proposal of 90 s or more. */
  lemma SweepSpelled(s: System, x: string)
    requires x in s.nodes && (s.nodes[x].slot.Some? ==> s.nodes[x].slot.value.receivedAt <= s.now)
    ensures var n, t := s.nodes[x], Next(s, Sweep(x));
            var slot := if n.slot.Some? && s.now >= n.slot.value.receivedAt + 90 then None else n.slot;
            t == s.(nodes := s.nodes[x := n.(slot := slot, lastSweep := s.now)])
  {
  }

  /** The coordinator's tallies, for an undecided proposal: a peer that has neither failed
      nor answered too late counts as ACKed when its ACK comes in, and as failed when its
      request fails first. */
  lemma TallySpelled(s: System, id: string, x: string)
    requires id in s.rotations && s.rotations[id].phase == Collecting && x in s.rotations[id].peers
    ensures var r, t := s.rotations[id], Next(s, RecvAck(AckMsg(x, id)));
            if AckMsg(x, id) in s.net && x !in r.failed && s.now < r.startedAt + s.timeout then
              t == s.(rotations := s.rotations[id := r.(acked := r.acked + {x})])
            else t == s
    ensures var r, t := s.rotations[id], Next(s, PeerFails(id, x));
            if x !in r.acked then t == s.(rotations := s.rotations[id := r.(failed := r.failed + {x})]) else t == s
  {
  }

  /** The decision, once every peer has ACKed or failed: to commit, if none failed, and to
      tell all of them; to abort otherwise, and to tell those that ACKed. */
  lemma DecideSpelled(s: System, id: string, grace: nat)
    requires id in s.rotations && s.rotations[id].phase == Collecting
    ensures var r, t := s.rotations[id], Next(s, Decide(id, grace));
            if r.peers != r.acked + r.failed then t == s
            else if r.failed == {} then
              t == s.(rotations := s.rotations[id := r.(phase := Committed)],
                      net := s.net + set x | x in r.peers :: CommitMsg(x, id, grace))
            else
              t == s.(rotations := s.rotations[id := r.(phase := Aborted)],
                      net := s.net + set x | x in r.acked :: AbortMsg(x, id))
  {
  }

  /** After the decision no answer, failure or second decision changes anything, and no id
      is used twice or by a coordinator among its own peers. */
  lemma DecidedIsFinal(s: System, id: string, x: string, coord: string, key: Key, peers: set<string>, grace: nat)
    requires id in s.rotations
    ensures s.rotations[id].phase != Collecting ==>
              Next(s, RecvAck(AckMsg(x, id))) == Next(s, PeerFails(id, x)) == Next(s, Decide(id, grace)) == s
    ensures Next(s, Begin(coord, id, key, peers, grace)) == s
    ensures forall other: string :: coord in peers ==> Next(s, Begin(coord, other, key, peers, grace)) == s
  {
  }

  /** A rotation begins, for a new id: alone it installs its key at once; with peers it
      proposes the key to all of them and waits. */
  lemma BeginSpelled(s: System, coord: string, id: string, key: Key, peers: set<string>, grace: nat)
    requires id !in s.rotations && |key| == 32 && coord in s.nodes && coord !in peers
    ensures var n, t := s.nodes[coord], Next(s, Begin(coord, id, key, peers, grace));
            if peers == {} then
              var keys := Keys(key, Some(n.keys.current), s.now + if grace == 0 then 300 else grace);
              t == s.(rotations := s.rotations[id := Rotation(coord, key, {}, {}, {}, Committed, s.now, true)],
                      nodes := s.nodes[coord := n.(keys := keys, installed := n.installed + [id])])
            else
              t == s.(rotations := s.rotations[id := Rotation(coord, key, peers, {}, {}, Collecting, s.now, false)],
                      net := s.net + set x | x in peers :: ProposeMsg(x, id, key))
  {
  }

  /** The coordinator's own rotation follows its commit, once. */
  lemma SelfRotateSpelled(s: System, id: string, grace: nat)
    requires id in s.rotations && s.rotations[id].coord in s.nodes
    ensures var r, t := s.rotations[id], Next(s, SelfRotate(id, grace));
            var n := s.nodes[r.coord];
            if r.phase == Committed && !r.selfRotated then
              var keys := Keys(r.key, Some(n.keys.current), s.now + if grace == 0 then 300 else grace);
              t == s.(rotations := s.rotations[id := r.(selfRotated := true)],
                      nodes := s.nodes[r.coord := n.(keys := keys, installed := n.installed + [id])])
            else t == s
  {
  }

  // ---------- a failure is final ----------

  ghost predicate TallyGood(r: Rotation) {
    && (r.phase == Committed ==> r.failed == {} && r.acked == r.peers)
    && (r.phase == Aborted ==> r.failed != {} && r.peers == r.acked + r.failed)
  }

  lemma {:induction false} RunTallies(ids: set<string>, key: Key, at: Instant, timeout: nat, steps: seq<Step>,
                                      id: string)
    requires id in Run(Start(ids, key, at, timeout), steps).rotations
    ensures TallyGood(Run(Start(ids, key, at, timeout), steps).rotations[id])
  {
    if steps != [] {
      var s := Run(Start(ids, key, at, timeout), steps[..|steps| - 1]);
      if id in s.rotations { RunTallies(ids, key, at, timeout, steps[..|steps| - 1], id); }
      RunInv(ids, key, at, timeout, steps[..|steps| - 1]);
      TallyKept(s, steps[|steps| - 1], id);
    }
  }

  lemma TallyKept(s: System, step: Step, id: string)
    requires id in s.rotations ==> TallyGood(s.rotations[id]) && RotationGood(s, id)
    requires id in Next(s, step).rotations
    ensures TallyGood(Next(s, step).rotations[id])
  {
  }

  lemma FailuresStay(s: System, step: Step, id: string)
    requires id in s.rotations
    ensures id in Next(s, step).rotations && s.rotations[id].failed <= Next(s, step).rotations[id].failed
  {
  }

  lemma {:induction false} FailuresLast(s: System, steps: seq<Step>, id: string)
    requires id in s.rotations
    ensures id in Run(s, steps).rotations && s.rotations[id].failed <= Run(s, steps).rotations[id].failed
  {
    if steps != [] {
      FailuresLast(s, steps[..|steps| - 1], id);
      FailuresStay(Run(s, steps[..|steps| - 1]), steps[|steps| - 1], id);
    }
  }

  /** Once a peer of a proposal has failed, no continuation of the run commits it, and no
      node ever installs its key. */
  lemma FailedNeverCommits(ids: set<string>, key: Key, at: Instant, timeout: nat, steps: seq<Step>, more: seq<Step>,
                           id: string)
    requires var s := Run(Start(ids, key, at, timeout), steps); id in s.rotations && s.rotations[id].failed != {}
    ensures var t := Run(Start(ids, key, at, timeout), steps + more);
            && id in t.rotations && t.rotations[id].phase != Committed
            && forall x :: x in t.nodes ==> id !in t.nodes[x].installed
  {
    RunAppend(Start(ids, key, at, timeout), steps, more);
    FailuresLast(Run(Start(ids, key, at, timeout), steps), more, id);
    RunTallies(ids, key, at, timeout, steps + more, id);
    RunInv(ids, key, at, timeout, steps + more);
    var t := Run(Start(ids, key, at, timeout), steps + more);
    forall x | x in t.nodes ensures id !in t.nodes[x].installed { assert NodeGood(t, x, key); }
  }
}
