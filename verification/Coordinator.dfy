/** The coordinator's one call, start to finish (src/cland/internal/keyrotate/coordinator.go),
    and how it lines up with the steps of a run. */
module Coordinator {
  import opened Wrappers
  import opened KeyProvider
  import opened ProposeStore
  import opened KeyRotation

  datatype RotateResult = RotateResult(proposeId: string, committed: bool, ackedBy: seq<string>, failedBy: seq<string>)

  /** The peers whose reply was `ok`, in peer order. */
  function Replied(peers: seq<string>, replies: seq<bool>, ok: bool): seq<string>
    requires |replies| == |peers|
  {
    if peers == [] then []
    else
      var n := |peers| - 1;
      Replied(peers[..n], replies[..n], ok) + if replies[n] == ok then [peers[n]] else []
  }

  /** What a coordinator does to the outside, in order. */
  datatype Event = Sent(msg: Msg) | SelfRotated(key: Key)

  function Messages(peers: seq<string>, message: string -> Msg): seq<Event> {
    seq(|peers|, i requires 0 <= i < |peers| => Sent(message(peers[i])))
  }

  /** The peers of `all` whose id is listed, in order. */
  function Listed(all: seq<string>, ids: seq<string>): seq<string> {
    if all == [] then []
    else Listed(all[..|all| - 1], ids) + if all[|all| - 1] in ids then [all[|all| - 1]] else []
  }

  /** The second phase: commits to all and then its own rotation, or aborts to those that
      ACKed and nothing else. */
  function Outcome(id: string, newKey: Key, grace: nat, peers: seq<string>, replies: seq<bool>): seq<Event>
    requires |replies| == |peers|
  {
    if false in replies then Messages(Listed(peers, Replied(peers, replies, true)), x => AbortMsg(x, id))
    else Messages(peers, x => CommitMsg(x, id, grace)) + [SelfRotated(newKey)]
  }

  class Coordinator {
    const rotater: SimpleKeyProvider
    const grace: nat
    var trace: seq<Event>

    constructor (rotater: SimpleKeyProvider, grace: nat)
      ensures this.rotater == rotater && this.grace == (if grace == 0 then 300 else grace) && trace == []
    {
      this.rotater, this.grace, trace := rotater, GraceOrDefault(grace), [];
    }

    /** `replies[i]` is whether peer `i` answered the proposal with 200; anything else,
        a timeout included, is false. */
    method Rotate(id: string, newKey: Key, peers: seq<string>, replies: seq<bool>, now: Instant)
      returns (r: RotateResult)
      requires |newKey| == KEY_LEN && |replies| == |peers|
      modifies this, rotater
      ensures r.proposeId == id
      ensures r.committed <==> false !in replies
      ensures r.ackedBy == Replied(peers, replies, true) && r.failedBy == Replied(peers, replies, false)
      ensures rotater.View()
              == if r.committed then Rotated(old(rotater.View()), newKey, grace, now) else old(rotater.View())
      ensures trace == old(trace) + Messages(peers, x => ProposeMsg(x, id, newKey)) + Outcome(id, newKey, grace, peers, replies)
    {
      if peers == [] {
        var _ := rotater.Rotate(newKey, grace, now);
        trace := trace + [SelfRotated(newKey)];
        return RotateResult(id, true, [], []);
      }
      Broadcast(peers, x => ProposeMsg(x, id, newKey));
      var acked, failed := SplitReplies(peers, replies);
      if failed != [] {
        var ackedPeers := PeersById(peers, acked);
        Broadcast(ackedPeers, x => AbortMsg(x, id));
        return RotateResult(id, false, acked, failed);
      }
      Broadcast(peers, x => CommitMsg(x, id, grace));
      var _ := rotater.Rotate(newKey, grace, now);
      trace := trace + [SelfRotated(newKey)];
      r := RotateResult(id, true, acked, failed);
    }

    /** One message per peer, recorded in peer order. */
    method Broadcast(peers: seq<string>, message: string -> Msg)
      modifies this`trace
      ensures trace == old(trace) + Messages(peers, message)
    {
      for i := 0 to |peers|
        invariant trace == old(trace) + Messages(peers[..i], message)
      {
        assert Messages(peers[..i + 1], message) == Messages(peers[..i], message) + [Sent(message(peers[i]))];
        trace := trace + [Sent(message(peers[i]))];
      }
      assert peers[..|peers|] == peers;
    }
  }

  method SplitReplies(peers: seq<string>, replies: seq<bool>) returns (acked: seq<string>, failed: seq<string>)
    requires |replies| == |peers|
    ensures acked == Replied(peers, replies, true) && failed == Replied(peers, replies, false)
    ensures failed == [] <==> false !in replies
  {
    acked, failed := [], [];
    for i := 0 to |peers|
      invariant acked == Replied(peers[..i], replies[..i], true)
      invariant failed == Replied(peers[..i], replies[..i], false)
    {
      assert peers[..i + 1][..i] == peers[..i] && replies[..i + 1][..i] == replies[..i];
      if replies[i] { acked := acked + [peers[i]]; } else { failed := failed + [peers[i]]; }
    }
    assert peers[..|peers|] == peers && replies[..|replies|] == replies;
    RepliedFacts(peers, replies, false);
  }

  method PeersById(all: seq<string>, ids: seq<string>) returns (out: seq<string>)
    ensures out == Listed(all, ids)
  {
    out := [];
    for i := 0 to |all|
      invariant out == Listed(all[..i], ids)
    {
      assert all[..i + 1][..i] == all[..i];
      if all[i] in ids { out := out + [all[i]]; }
    }
    assert all[..|all|] == all;
  }

  lemma {:induction false} ListedFacts(all: seq<string>, ids: seq<string>)
    ensures forall x :: x in Listed(all, ids) <==> x in all && x in ids
  {
    if all != [] {
      ListedFacts(all[..|all| - 1], ids);
      assert all == all[..|all| - 1] + [all[|all| - 1]];
    }
  }

  function Delivered(events: seq<Event>): set<Msg> { set e | e in events && e.Sent? :: e.msg }

  lemma DeliveredMessages(peers: seq<string>, message: string -> Msg)
    ensures Delivered(Messages(peers, message)) == set x | x in peers :: message(x)
  {
    var events := Messages(peers, message);
    forall x | x in peers ensures Sent(message(x)) in events {
      var i :| 0 <= i < |peers| && peers[i] == x;
      assert events[i] == Sent(message(x));
    }
  }

  lemma {:induction false} RepliedFacts(peers: seq<string>, replies: seq<bool>, ok: bool)
    requires |replies| == |peers|
    ensures forall x :: x in Replied(peers, replies, ok) <==> exists i :: 0 <= i < |peers| && replies[i] == ok && peers[i] == x
    ensures Replied(peers, replies, ok) == [] <==> ok !in replies
  {
    if peers != [] {
      var n := |peers| - 1;
      RepliedFacts(peers[..n], replies[..n], ok);
      assert replies == replies[..n] + [replies[n]];
    }
  }

  /** The call decides as the run does: once every reply is in, `Decide` is enabled, it
      commits exactly when the call does, and sends the same messages. */
  lemma RotateIsDecide(s: System, id: string, peers: seq<string>, replies: seq<bool>, grace: nat)
    requires |replies| == |peers|
    requires forall i, j :: 0 <= i < j < |peers| ==> peers[i] != peers[j]
    requires id in s.rotations && s.rotations[id].phase == Collecting && s.rotations[id].peers == ToSet(peers)
    requires s.rotations[id].acked == ToSet(Replied(peers, replies, true))
    requires s.rotations[id].failed == ToSet(Replied(peers, replies, false))
    ensures Enabled(s, Decide(id, grace))
    ensures var t := Next(s, Decide(id, grace));
            && (t.rotations[id].phase == Committed <==> false !in replies)
            && (t.rotations[id].phase == Aborted <==> false in replies)
            && t.net == s.net + Delivered(Outcome(id, s.rotations[id].key, grace, peers, replies))
  {
    AllReplied(peers, replies);
    OutcomeDelivers(id, s.rotations[id].key, grace, peers, replies);
    RepliedFacts(peers, replies, false);
    if false in replies {
      assert Replied(peers, replies, false)[0] in s.rotations[id].failed;
    } else {
      assert s.rotations[id].failed == {};
    }
  }

  lemma AllReplied(peers: seq<string>, replies: seq<bool>)
    requires |replies| == |peers|
    ensures ToSet(peers) == ToSet(Replied(peers, replies, true)) + ToSet(Replied(peers, replies, false))
  {
    RepliedFacts(peers, replies, true);
    RepliedFacts(peers, replies, false);
    forall x | x in peers ensures x in Replied(peers, replies, true) || x in Replied(peers, replies, false) {
      var i :| 0 <= i < |peers| && peers[i] == x;
      assert replies[i] == true || replies[i] == false;
    }
  }

  lemma OutcomeDelivers(id: string, key: Key, grace: nat, peers: seq<string>, replies: seq<bool>)
    requires |replies| == |peers|
    ensures Delivered(Outcome(id, key, grace, peers, replies))
            == if false in replies then Aborts(ToSet(Replied(peers, replies, true)), id) else Commits(ToSet(peers), id, grace)
  {
    if false in replies {
      var acked := Replied(peers, replies, true);
      RepliedFacts(peers, replies, true);
      ListedFacts(peers, acked);
      DeliveredMessages(Listed(peers, acked), x => AbortMsg(x, id));
    } else {
      var commits := Messages(peers, x => CommitMsg(x, id, grace));
      DeliveredMessages(peers, x => CommitMsg(x, id, grace));
      assert Delivered(commits + [SelfRotated(key)]) == Delivered(commits);
    }
  }
}
