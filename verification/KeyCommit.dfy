/** When a commit that reaches a peer takes effect there: the peer's copy of the proposal
    must outlive the delay (src/cland/internal/keyrotate/member.go, store.go). */
module KeyCommit {
  import opened Wrappers
  import opened KeyProvider
  import opened ProposeStore
  import opened KeyRotation
  import KeyExclusion

  /** The message is a commit in the network for a node that has not installed its key. */
  predicate Awaited(s: System, m: Msg) {
    Enabled(s, RecvCommit(m)) && m.id in s.rotations && m.id !in s.nodes[m.to].installed
  }

  /** Delivered now, the commit makes the proposal's key the current one of its receiver. */
  predicate TakesEffect(s: System, m: Msg)
    requires Awaited(s, m)
  {
    var n := Next(s, RecvCommit(m)).nodes[m.to];
    n.keys.current == s.rotations[m.id].key && n.installed == s.nodes[m.to].installed + [m.id]
  }

  /** In every run, a peer of a committed proposal under 90 s old that has not installed
      its key still holds it, under the key that was agreed on. */
  lemma CommittedIsPrepared(ids: set<string>, key: Key, at: Instant, timeout: nat, steps: seq<Step>, x: string,
                            id: string)
    requires var s := Run(Start(ids, key, at, timeout), steps);
             && id in s.rotations && s.rotations[id].phase == Committed && x in s.rotations[id].peers
             && x in s.nodes && id !in s.nodes[x].installed
             && s.now < s.rotations[id].startedAt + MEMBER_REVERT_AFTER
    ensures var s := Run(Start(ids, key, at, timeout), steps);
            s.nodes[x].slot.Some? && s.nodes[x].slot.value.proposeId == id
            && s.nodes[x].slot.value.newKey == s.rotations[id].key
  {
    RunInv(ids, key, at, timeout, steps);
    var s := Run(Start(ids, key, at, timeout), steps);
    assert RotationGood(s, id) && PreparedGood(s, x, id) && NodeGood(s, x, key);
  }

  /** So a commit delivered in that time takes effect. */
  lemma PromptCommitTakesEffect(ids: set<string>, key: Key, at: Instant, timeout: nat, steps: seq<Step>, m: Msg)
    requires var s := Run(Start(ids, key, at, timeout), steps);
             Awaited(s, m) && s.now < s.rotations[m.id].startedAt + MEMBER_REVERT_AFTER
    ensures TakesEffect(Run(Start(ids, key, at, timeout), steps), m)
  {
    var s := Run(Start(ids, key, at, timeout), steps);
    RunInv(ids, key, at, timeout, steps);
    assert NetGood(s, m);
    CommittedIsPrepared(ids, key, at, timeout, steps, m.to, m.id);
  }

  /** No commit delivered `delay` seconds after its proposal began is lost. */
  ghost predicate NeverLost(s: System, m: Msg, delay: nat) {
    Awaited(s, m) && s.now == s.rotations[m.id].startedAt + delay ==> TakesEffect(s, m)
  }

  /** The exact condition on the delay: in every run a commit delivered that long after
      its proposal began takes effect, if and only if a member still holds the proposal
      then. A client that waits for replies at all has a positive timeout. */
  lemma CommitTakesEffectIffPrompt(timeout: nat, delay: nat)
    requires timeout > 0
    ensures (forall ids, key, at, steps, m :: NeverLost(Run(Start(ids, key, at, timeout), steps), m, delay))
            <==> delay < MEMBER_REVERT_AFTER
  {
    if delay < MEMBER_REVERT_AFTER {
      forall ids, key, at, steps, m ensures NeverLost(Run(Start(ids, key, at, timeout), steps), m, delay) {
        var s := Run(Start(ids, key, at, timeout), steps);
        if Awaited(s, m) && s.now == s.rotations[m.id].startedAt + delay {
          PromptCommitTakesEffect(ids, key, at, timeout, steps, m);
        }
      }
    } else {
      var k: Key := seq(KEY_LEN, _ => 0);
      LateCommitIsLost(k, k, timeout, delay);
      assert !NeverLost(Run(Start({"c", "x"}, k, 0, timeout), Overtaken(k, delay)), CommitMsg("x", "q", 0), delay);
    }
  }

  /** Any later, and a sweep may have been first: the coordinator has committed, on the
      ACK of its only peer, and the commit changes nothing at that peer. */
  lemma LateCommitIsLost(initial: Key, k: Key, timeout: nat, delay: nat)
    requires |k| == KEY_LEN && timeout > 0 && delay >= MEMBER_REVERT_AFTER
    ensures var s := Run(Start({"c", "x"}, initial, 0, timeout), Overtaken(k, delay));
            var m := CommitMsg("x", "q", 0);
            && Awaited(s, m) && s.now == s.rotations["q"].startedAt + delay && s.rotations["q"].phase == Committed
            && Next(s, RecvCommit(m)) == s && !TakesEffect(s, m)
  {
    var s := Start({"c", "x"}, initial, 0, timeout);
    Agree(s, k);
    RunAppend(s, Agreed(k), Late(delay));
    SweptAway(Run(s, Agreed(k)), k, delay);
  }

  function Overtaken(k: Key, delay: nat): seq<Step> { Agreed(k) + Late(delay) }

  function Agreed(k: Key): seq<Step> {
    [Begin("c", "q", k, {"x"}, 0), RecvPropose(ProposeMsg("x", "q", k)), RecvAck(AckMsg("x", "q"))]
  }

  function Late(delay: nat): seq<Step> { [Decide("q", 0), Tick(delay), Sweep("x")] }

  /** The run above after its first part. */
  ghost predicate HasAgreed(s: System, k: Key) {
    && s.now == 0 && "x" in s.nodes && s.nodes["x"].slot == Some(Pending("q", k, 0)) && s.nodes["x"].installed == []
    && "q" in s.rotations && s.rotations["q"] == Rotation("c", k, {"x"}, {"x"}, {}, Collecting, 0, false)
  }

  lemma Agree(s: System, k: Key)
    requires |k| == KEY_LEN && s.now == 0 && s.timeout > 0 && {"c", "x"} <= s.nodes.Keys && s.rotations == map[]
    requires s.nodes["x"].slot == None && s.nodes["x"].installed == []
    ensures HasAgreed(Run(s, Agreed(k)), k)
  {
    KeyExclusion.RunThree(s, Agreed(k));
    var u := Next(s, Begin("c", "q", k, {"x"}, 0));
    assert ProposeMsg("x", "q", k) in Proposals({"x"}, "q", k);
    KeyExclusion.AckedBy(u, "x", "q", k);
  }

  lemma SweptAway(s: System, k: Key, delay: nat)
    requires HasAgreed(s, k) && delay >= MEMBER_REVERT_AFTER
    ensures var t := Run(s, Late(delay));
            var m := CommitMsg("x", "q", 0);
            && Awaited(t, m) && t.now == t.rotations["q"].startedAt + delay && t.rotations["q"].phase == Committed
            && Next(t, RecvCommit(m)) == t && !TakesEffect(t, m)
  {
    KeyExclusion.RunThree(s, Late(delay));
    var u := Next(s, Decide("q", 0));
    assert CommitMsg("x", "q", 0) in Commits({"x"}, "q", 0);
    assert CommitMsg("x", "q", 0) in u.net;
    var t := Next(Next(u, Tick(delay)), Sweep("x"));
    assert t.nodes["x"].slot == None;
    assert t.nodes == t.nodes["x" := t.nodes["x"]];
  }
}
