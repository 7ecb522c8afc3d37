/** Clan key rotation as a distributed run: a coordinator per proposal, members with a
    one-slot store and a key provider, and a network that may lose, delay, reorder or
    repeat any message (src/cland/internal/keyrotate). Any number of proposals, from any
    coordinators, may overlap. A coordinator's HTTP client gives up on a reply once its
    timeout has passed (src/cland/internal/transport/client.go). */
module KeyRotation {
  import opened Wrappers
  import opened KeyProvider
  import opened ProposeStore

  datatype Phase = Collecting | Committed | Aborted

  /** One proposal, with the snapshot of peers taken when it started. */
  datatype Rotation = Rotation(coord: string, key: Key, peers: set<string>, acked: set<string>, failed: set<string>,
                               phase: Phase, startedAt: Instant, selfRotated: bool)

  /** `installed` lists the proposals whose key the node has put in place, in order. */
  datatype Node = Node(slot: Option<Pending>, keys: Keys, installed: seq<string>, lastSweep: Instant)

  datatype Msg =
    | ProposeMsg(to: string, id: string, key: Key)
    | AckMsg(from: string, id: string)
    | CommitMsg(to: string, id: string, grace: nat)
    | AbortMsg(to: string, id: string)

  /** `timeout` is how long a coordinator waits for a reply. */
  datatype System = System(now: Instant, nodes: map<string, Node>, rotations: map<string, Rotation>, net: set<Msg>,
                           timeout: nat)

  datatype Step =
    | Tick(dt: nat)
    | Begin(coord: string, id: string, key: Key, peers: set<string>, grace: nat)
    | RecvPropose(m: Msg)
    | RecvAck(m: Msg)
    | PeerFails(id: string, peer: string)
    | Decide(id: string, grace: nat)
    | RecvCommit(m: Msg)
    | RecvAbort(m: Msg)
    | SelfRotate(id: string, grace: nat)
    | Sweep(node: string)

  function Proposals(peers: set<string>, id: string, key: Key): set<Msg> { set x | x in peers :: ProposeMsg(x, id, key) }
  function Commits(peers: set<string>, id: string, grace: nat): set<Msg> { set x | x in peers :: CommitMsg(x, id, grace) }
  function Aborts(peers: set<string>, id: string): set<Msg> { set x | x in peers :: AbortMsg(x, id) }

  function Install(n: Node, id: string, key: Key, grace: nat, now: Instant): Node {
    n.(keys := Rotated(n.keys, key, GraceOrDefault(grace), now), installed := n.installed + [id])
  }

  /** Which steps can happen. The clock of a slot never runs backwards, and a reply counts
      only within the client's timeout. */
  predicate Enabled(s: System, step: Step) {
    match step
    case Tick(_) => true
    case Begin(coord, id, key, peers, _) =>
      id !in s.rotations && |key| == KEY_LEN && coord in s.nodes && coord !in peers
    case RecvPropose(m) => m in s.net && m.ProposeMsg? && SlotPast(s, m.to)
    case RecvAck(m) =>
      m in s.net && m.AckMsg? && m.id in s.rotations && s.rotations[m.id].phase == Collecting
      && m.from in s.rotations[m.id].peers - s.rotations[m.id].failed
      && s.now < s.rotations[m.id].startedAt + s.timeout
    case PeerFails(id, peer) =>
      id in s.rotations && s.rotations[id].phase == Collecting && peer in s.rotations[id].peers - s.rotations[id].acked
    case Decide(id, _) =>
      id in s.rotations && s.rotations[id].phase == Collecting
      && s.rotations[id].peers == s.rotations[id].acked + s.rotations[id].failed
    case RecvCommit(m) => m in s.net && m.CommitMsg? && m.to in s.nodes
    case RecvAbort(m) => m in s.net && m.AbortMsg? && m.to in s.nodes
    case SelfRotate(id, _) =>
      id in s.rotations && s.rotations[id].phase == Committed && !s.rotations[id].selfRotated
      && s.rotations[id].coord in s.nodes
    case Sweep(node) => SlotPast(s, node)
  }

  predicate SlotPast(s: System, node: string) {
    node in s.nodes && (s.nodes[node].slot.Some? ==> s.nodes[node].slot.value.receivedAt <= s.now)
  }

  function Next(s: System, step: Step): System {
    if !Enabled(s, step) then s
    else
      match step
      case Tick(dt) => s.(now := s.now + dt)
      case Begin(coord, id, key, peers, grace) =>
        // without peers there is nothing to agree on: the coordinator rotates alone
        if peers == {} then
          s.(rotations := s.rotations[id := Rotation(coord, key, {}, {}, {}, Committed, s.now, true)],
             nodes := s.nodes[coord := Install(s.nodes[coord], id, key, grace, s.now)])
        else
          s.(rotations := s.rotations[id := Rotation(coord, key, peers, {}, {}, Collecting, s.now, false)],
             net := s.net + Proposals(peers, id, key))
      case RecvPropose(m) =>
        var (slot, r) := Put(s.nodes[m.to].slot, m.id, Some(m.key), s.now);
        s.(nodes := s.nodes[m.to := s.nodes[m.to].(slot := slot)],
           net := if r == Accepted then s.net + {AckMsg(m.to, m.id)} else s.net)
      case RecvAck(m) =>
        s.(rotations := s.rotations[m.id := s.rotations[m.id].(acked := s.rotations[m.id].acked + {m.from})])
      case PeerFails(id, peer) =>
        s.(rotations := s.rotations[id := s.rotations[id].(failed := s.rotations[id].failed + {peer})])
      case Decide(id, grace) =>
        var r := s.rotations[id];
        if r.failed == {} then
          s.(rotations := s.rotations[id := r.(phase := Committed)], net := s.net + Commits(r.peers, id, grace))
        else
          s.(rotations := s.rotations[id := r.(phase := Aborted)], net := s.net + Aborts(r.acked, id))
      case RecvCommit(m) =>
        var n := s.nodes[m.to];
        var slot := Without(n.slot, m.id);
        s.(nodes := s.nodes[m.to := if slot == n.slot then n
                                    else Install(n.(slot := slot), m.id, n.slot.value.newKey, m.grace, s.now)])
      case RecvAbort(m) =>
        s.(nodes := s.nodes[m.to := s.nodes[m.to].(slot := Without(s.nodes[m.to].slot, m.id))])
      case SelfRotate(id, grace) =>
        var r := s.rotations[id];
        s.(rotations := s.rotations[id := r.(selfRotated := true)],
           nodes := s.nodes[r.coord := Install(s.nodes[r.coord], id, r.key, grace, s.now)])
      case Sweep(node) =>
        s.(nodes := s.nodes[node := s.nodes[node].(slot := Swept(s.nodes[node].slot, s.now), lastSweep := s.now)])
  }

  function Run(s: System, steps: seq<Step>): System {
    if steps == [] then s else Next(Run(s, steps[..|steps| - 1]), steps[|steps| - 1])
  }

  /** Every node starts at instant `at` with the same clan key and an empty slot. */
  function Start(ids: set<string>, key: Key, at: Instant, timeout: nat): System {
    System(at, map x | x in ids :: Node(None, Keys(key, None, 0), [], at), map[], {}, timeout)
  }

  // ---------- invariant ----------

  ghost predicate NetGood(s: System, m: Msg) {
    m.id in s.rotations &&
    var r := s.rotations[m.id];
    match m
    case ProposeMsg(to, _, key) => to in r.peers && key == r.key
    case AckMsg(from, _) => from in r.peers
    case CommitMsg(to, _, _) => r.phase == Committed && to in r.peers
    case AbortMsg(to, _) => r.phase == Aborted && to in r.acked
  }

  ghost predicate RotationGood(s: System, id: string) {
    id in s.rotations &&
    var r := s.rotations[id];
    && |r.key| == KEY_LEN
    && r.startedAt <= s.now
    && (forall x :: x in r.acked ==> x in r.peers && AckMsg(x, id) in s.net)
    && r.acked !! r.failed
    && (r.phase == Committed ==> r.acked == r.peers)
  }

  ghost predicate SlotGood(s: System, x: string) {
    x in s.nodes &&
    var slot := s.nodes[x].slot;
    slot.Some? ==>
      && slot.value.proposeId in s.rotations
      && AckMsg(x, slot.value.proposeId) in s.net
      && slot.value.newKey == s.rotations[slot.value.proposeId].key
      && s.rotations[slot.value.proposeId].startedAt <= slot.value.receivedAt <= s.now
      && s.nodes[x].lastSweep < slot.value.receivedAt + MEMBER_REVERT_AFTER
  }

  ghost predicate InstalledGood(s: System, x: string) {
    x in s.nodes &&
    forall id :: id in s.nodes[x].installed ==>
      id in s.rotations && s.rotations[id].phase == Committed
      && (x in s.rotations[id].peers || x == s.rotations[id].coord)
  }

  /** The key pair follows from what was installed. */
  ghost predicate KeysGood(s: System, x: string, initial: Key) {
    x in s.nodes &&
    var n := s.nodes[x];
    var k := |n.installed|;
    (forall id :: id in n.installed ==> id in s.rotations) &&
    n.keys.current == (if k == 0 then initial else s.rotations[n.installed[k - 1]].key) &&
    n.keys.grace == (if k == 0 then None
                     else if k == 1 then Some(initial)
                     else Some(s.rotations[n.installed[k - 2]].key))
  }

  /** A peer whose ACK is out holds the proposal prepared for as long as the proposal is
      undecided, or committed but not installed there, and under `MEMBER_REVERT_AFTER` old. */
  ghost predicate PreparedGood(s: System, x: string, id: string) {
    x in s.nodes && id in s.rotations &&
    (AckMsg(x, id) in s.net && s.now < s.rotations[id].startedAt + MEMBER_REVERT_AFTER
     && (s.rotations[id].phase == Collecting || (s.rotations[id].phase == Committed && id !in s.nodes[x].installed))
     ==> s.nodes[x].slot.Some? && s.nodes[x].slot.value.proposeId == id)
  }

  ghost predicate NetInv(s: System) { forall m :: m in s.net ==> NetGood(s, m) }

  ghost predicate RotationInv(s: System) { forall id :: id in s.rotations ==> RotationGood(s, id) }

  ghost predicate NodeGood(s: System, x: string, initial: Key) {
    x in s.nodes && s.nodes[x].lastSweep <= s.now && SlotGood(s, x) && InstalledGood(s, x) && KeysGood(s, x, initial)
  }

  ghost predicate Inv(s: System, initial: Key) {
    && NetInv(s)
    && RotationInv(s)
    && (forall x :: x in s.nodes ==> NodeGood(s, x, initial))
    && (forall x, id :: x in s.nodes && id in s.rotations ==> PreparedGood(s, x, id))
  }

  // ---------- every step keeps it ----------

  /** A proposal's coordinator, key, peers and start never change; its ACKs only grow,
      and a decided proposal does not change at all. */
  ghost predicate RotationAdvances(r: Rotation, q: Rotation) {
    && q.coord == r.coord && q.key == r.key && q.peers == r.peers && q.startedAt == r.startedAt
    && r.acked <= q.acked
    && (r.phase != Collecting ==> q.phase == r.phase && q.acked == r.acked)
  }

  ghost predicate Advances(s: System, t: System) {
    && s.now <= t.now && s.net <= t.net && s.nodes.Keys == t.nodes.Keys && s.timeout == t.timeout
    && forall id :: id in s.rotations ==> id in t.rotations && RotationAdvances(s.rotations[id], t.rotations[id])
  }

  lemma StepAdvances(s: System, step: Step)
    ensures Advances(s, Next(s, step))
  {
  }

  lemma NetNext(s: System, step: Step)
    requires NetInv(s)
    ensures NetInv(Next(s, step))
  {
    var t := Next(s, step);
    StepAdvances(s, step);
    forall m | m in t.net ensures NetGood(t, m) {
      if m in s.net { assert NetGood(s, m); }
    }
  }

  lemma RotationNext(s: System, step: Step)
    requires NetInv(s) && RotationInv(s)
    ensures RotationInv(Next(s, step))
  {
    var t := Next(s, step);
    forall id | id in t.rotations ensures RotationGood(t, id) {
      if id in s.rotations { assert RotationGood(s, id); }
    }
  }

  /** The node a step acts on, if any. */
  function Touched(s: System, step: Step): Option<string> {
    match step
    case Begin(coord, _, _, peers, _) => if peers == {} then Some(coord) else None
    case RecvPropose(m) => if m.ProposeMsg? then Some(m.to) else None
    case RecvCommit(m) => if m.CommitMsg? then Some(m.to) else None
    case RecvAbort(m) => if m.AbortMsg? then Some(m.to) else None
    case SelfRotate(id, _) => if id in s.rotations then Some(s.rotations[id].coord) else None
    case Sweep(node) => Some(node)
    case _ => None
  }

  lemma Untouched(s: System, step: Step, x: string)
    requires x in s.nodes && Touched(s, step) != Some(x)
    ensures x in Next(s, step).nodes && Next(s, step).nodes[x] == s.nodes[x]
  {
  }

  /** What a node knows stays good while the rest of the system moves on. */
  lemma NodeStaysGood(s: System, t: System, x: string, initial: Key)
    requires Advances(s, t) && x in s.nodes && t.nodes[x] == s.nodes[x] && NodeGood(s, x, initial)
    ensures NodeGood(t, x, initial)
  {
  }

  lemma NodeNext(s: System, step: Step, x: string, initial: Key)
    requires NetInv(s) && RotationInv(s) && x in s.nodes && NodeGood(s, x, initial)
    ensures x in Next(s, step).nodes && NodeGood(Next(s, step), x, initial)
  {
    var t := Next(s, step);
    StepAdvances(s, step);
    if Touched(s, step) != Some(x) || !Enabled(s, step) {
      Untouched(s, if Enabled(s, step) then step else Tick(0), x);
      NodeStaysGood(s, t, x, initial);
    } else {
      match step
      case Begin(_, id, _, _, grace) => InstallKeeps(s, t, x, initial, id, grace);
      case SelfRotate(id, grace) => InstallKeeps(s, t, x, initial, id, grace);
      case RecvPropose(m) => ProposeKeeps(s, step, x, initial);
      case RecvCommit(m) => CommitKeeps(s, step, x, initial);
      case RecvAbort(m) =>
      case Sweep(_) =>
    }
  }

  lemma ProposeKeeps(s: System, step: Step, x: string, initial: Key)
    requires NetInv(s) && RotationInv(s) && x in s.nodes && NodeGood(s, x, initial)
    requires step.RecvPropose? && Enabled(s, step) && step.m.to == x
    ensures NodeGood(Next(s, step), x, initial)
  {
    assert NetGood(s, step.m);
  }

  lemma CommitKeeps(s: System, step: Step, x: string, initial: Key)
    requires NetInv(s) && RotationInv(s) && x in s.nodes && NodeGood(s, x, initial)
    requires step.RecvCommit? && Enabled(s, step) && step.m.to == x
    ensures NodeGood(Next(s, step), x, initial)
  {
    assert NetGood(s, step.m);
    var n := s.nodes[x];
    if Without(n.slot, step.m.id) != n.slot {
      InstallKeeps(s.(nodes := s.nodes[x := n.(slot := None)]), Next(s, step), x, initial, step.m.id, step.m.grace);
    }
  }

  /** Installing a committed proposal's key. */
  lemma InstallKeeps(s: System, t: System, x: string, initial: Key, id: string, grace: nat)
    requires Advances(s, t) && x in s.nodes && NodeGood(s, x, initial)
    requires t.nodes[x].slot == s.nodes[x].slot && t.nodes[x].lastSweep == s.nodes[x].lastSweep
    requires id in t.rotations && t.rotations[id].phase == Committed
    requires x in t.rotations[id].peers || x == t.rotations[id].coord
    requires t.nodes[x] == Install(s.nodes[x], id, t.rotations[id].key, grace, s.now)
    ensures NodeGood(t, x, initial)
  {
  }

  lemma PreparedNext(s: System, step: Step, x: string, id: string)
    requires NetInv(s) && RotationInv(s) && x in s.nodes && SlotGood(s, x)
    requires id in s.rotations ==> PreparedGood(s, x, id)
    requires id in Next(s, step).rotations && x in Next(s, step).nodes
    ensures PreparedGood(Next(s, step), x, id)
  {
    if id !in s.rotations || AckMsg(x, id) !in s.net {
      FirstAckPrepares(s, step, x, id);
    } else {
      StaysPrepared(s, step, x, id);
    }
  }

  /** An ACK goes out only as the proposal enters the slot. */
  lemma FirstAckPrepares(s: System, step: Step, x: string, id: string)
    requires NetInv(s) && x in s.nodes && (id !in s.rotations || AckMsg(x, id) !in s.net)
    requires id in Next(s, step).rotations && x in Next(s, step).nodes
    ensures PreparedGood(Next(s, step), x, id)
  {
    assert AckMsg(x, id) in s.net ==> NetGood(s, AckMsg(x, id));
  }

  lemma StaysPrepared(s: System, step: Step, x: string, id: string)
    requires NetInv(s) && RotationGood(s, id) && x in s.nodes && SlotGood(s, x)
    requires AckMsg(x, id) in s.net && PreparedGood(s, x, id)
    ensures id in Next(s, step).rotations && x in Next(s, step).nodes && PreparedGood(Next(s, step), x, id)
  {
    StepAdvances(s, step);
    match step
    case RecvCommit(m) => if m in s.net { assert NetGood(s, m); }
    case RecvAbort(m) => if m in s.net { assert NetGood(s, m); }
    case _ =>
  }

  lemma InvNext(s: System, step: Step, initial: Key)
    requires Inv(s, initial)
    ensures Inv(Next(s, step), initial)
  {
    var t := Next(s, step);
    StepAdvances(s, step);
    NetNext(s, step);
    RotationNext(s, step);
    forall x | x in t.nodes ensures NodeGood(t, x, initial) { NodeNext(s, step, x, initial); }
    forall x, id | x in t.nodes && id in t.rotations ensures PreparedGood(t, x, id) {
      assert NodeGood(s, x, initial);
      PreparedNext(s, step, x, id);
    }
  }

  lemma {:induction false} RunInv(ids: set<string>, key: Key, at: Instant, timeout: nat, steps: seq<Step>)
    ensures Inv(Run(Start(ids, key, at, timeout), steps), key)
  {
    if steps == [] {
    } else {
      RunInv(ids, key, at, timeout, steps[..|steps| - 1]);
      InvNext(Run(Start(ids, key, at, timeout), steps[..|steps| - 1]), steps[|steps| - 1], key);
    }
  }

  lemma {:induction false} RunAdvances(s: System, steps: seq<Step>)
    ensures Advances(s, Run(s, steps))
  {
    if steps != [] {
      RunAdvances(s, steps[..|steps| - 1]);
      StepAdvances(Run(s, steps[..|steps| - 1]), steps[|steps| - 1]);
    }
  }

  lemma {:induction false} RunAppend(s: System, a: seq<Step>, b: seq<Step>)
    ensures Run(s, a + b) == Run(Run(s, a), b)
  {
    if b == [] {
      assert a + b == a;
    } else {
      assert (a + b)[..|a + b| - 1] == a + b[..|b| - 1];
      RunAppend(s, a, b[..|b| - 1]);
    }
  }

  // ---------- what every run guarantees ----------

  /** Atomicity: in every run, a node that installed a proposal's key did so after every
      peer of that proposal's snapshot had ACKed it, and the proposal is committed. */
  lemma Atomicity(ids: set<string>, key: Key, at: Instant, timeout: nat, steps: seq<Step>, x: string, id: string)
    requires var s := Run(Start(ids, key, at, timeout), steps); x in s.nodes && id in s.nodes[x].installed
    ensures var s := Run(Start(ids, key, at, timeout), steps);
            && id in s.rotations && s.rotations[id].phase == Committed
            && s.rotations[id].acked == s.rotations[id].peers
            && (x in s.rotations[id].peers || x == s.rotations[id].coord)
            && forall p :: p in s.rotations[id].peers ==> AckMsg(p, id) in s.net
  {
    RunInv(ids, key, at, timeout, steps);
    var s := Run(Start(ids, key, at, timeout), steps);
    assert NodeGood(s, x, key);
    assert RotationGood(s, id);
  }

  /** Once a proposal is aborted it stays so, whatever arrives later, and no node has
      installed it or, its key being its own, accepts its key. */
  lemma AbortIsFinal(ids: set<string>, key: Key, at: Instant, timeout: nat, steps: seq<Step>, more: seq<Step>, id: string)
    requires var s := Run(Start(ids, key, at, timeout), steps); id in s.rotations && s.rotations[id].phase == Aborted
    ensures var t := Run(Start(ids, key, at, timeout), steps + more);
            && id in t.rotations && t.rotations[id].phase == Aborted
            && (forall x :: x in t.nodes ==> id !in t.nodes[x].installed)
            && (t.rotations[id].key != key
                && (forall o :: o in t.rotations && o != id ==> t.rotations[o].key != t.rotations[id].key)
                ==> forall x :: x in t.nodes ==> !Accepts(t.nodes[x].keys, t.rotations[id].key, t.now))
  {
    RunAppend(Start(ids, key, at, timeout), steps, more);
    RunAdvances(Run(Start(ids, key, at, timeout), steps), more);
    RunInv(ids, key, at, timeout, steps + more);
    var t := Run(Start(ids, key, at, timeout), steps + more);
    forall x | x in t.nodes ensures id !in t.nodes[x].installed { assert NodeGood(t, x, key); }
    if t.rotations[id].key != key
       && (forall o :: o in t.rotations && o != id ==> t.rotations[o].key != t.rotations[id].key) {
      forall x | x in t.nodes ensures !Accepts(t.nodes[x].keys, t.rotations[id].key, t.now) {
        AbortedKeyUnused(t, x, key, id);
      }
    }
  }

  lemma AbortedKeyUnused(t: System, x: string, initial: Key, id: string)
    requires x in t.nodes && NodeGood(t, x, initial)
    requires id in t.rotations && id !in t.nodes[x].installed && t.rotations[id].key != initial
    requires forall o :: o in t.rotations && o != id ==> t.rotations[o].key != t.rotations[id].key
    ensures !Accepts(t.nodes[x].keys, t.rotations[id].key, t.now)
  {
    var l := t.nodes[x].installed;
    if |l| >= 1 { assert l[|l| - 1] in l; }
    if |l| >= 2 { assert l[|l| - 2] in l; }
  }

  /** With sweeps at most 60 s apart, nothing stays pending for 150 s. */
  lemma PendingIsBounded(ids: set<string>, key: Key, at: Instant, timeout: nat, steps: seq<Step>, x: string)
    requires var s := Run(Start(ids, key, at, timeout), steps);
             x in s.nodes && s.nodes[x].slot.Some? && s.now <= s.nodes[x].lastSweep + 60
    ensures var s := Run(Start(ids, key, at, timeout), steps); s.now < s.nodes[x].slot.value.receivedAt + 150
  {
    RunInv(ids, key, at, timeout, steps);
    assert NodeGood(Run(Start(ids, key, at, timeout), steps), x, key);
  }

  /** Grace compatibility: a node that has installed one rotation accepts, until its
      grace expires, whatever key a node at most that far along signs with. */
  lemma GraceCompatibility(ids: set<string>, key: Key, at: Instant, timeout: nat, steps: seq<Step>, x: string, y: string)
    requires var s := Run(Start(ids, key, at, timeout), steps);
             && x in s.nodes && y in s.nodes && |s.nodes[x].installed| == 1
             && (s.nodes[y].installed == [] || s.nodes[y].installed == s.nodes[x].installed)
             && s.now <= s.nodes[x].keys.graceExpiry
    ensures var s := Run(Start(ids, key, at, timeout), steps);
            && Accepts(s.nodes[x].keys, s.nodes[y].keys.current, s.now)
            && s.nodes[x].installed[0] in s.rotations
            && (forall k :: Accepts(s.nodes[x].keys, k, s.now)
                            <==> k == key || k == s.rotations[s.nodes[x].installed[0]].key)
  {
    RunInv(ids, key, at, timeout, steps);
    var s := Run(Start(ids, key, at, timeout), steps);
    assert NodeGood(s, x, key) && NodeGood(s, y, key);
  }
}
