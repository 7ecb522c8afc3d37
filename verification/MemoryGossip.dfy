/** Runs of a whole Clan: members write nodes and edges, merge-import blueprints, restart
    from disk and gossip under the digest gate, with heartbeats and fetched graphs that
    may be lost, delayed, repeated or stale. `known` and `keys` record, beside each
    replica, the writes it has absorbed. */
module MemoryGossip {
  import opened Wrappers
  import opened Keyed
  import opened MemoryGraph
  import opened MemoryDigest
  import opened MemoryService
  import Blueprint

  datatype Replica = Replica(st: State, known: set<Node>, keys: set<string>)

  /** What a member hands out: its cached digest and its graph at that moment. */
  datatype Packet = Packet(digest: Hash, g: Graph, known: set<Node>, keys: set<string>)

  datatype Clan = Clan(replicas: seq<Replica>, packets: set<Packet>)

  datatype Step =
    | NodeWrite(i: nat, origin: string, node: Node, now: Instant, freshId: string)
    | EdgeWrite(i: nat, origin: string, edge: Edge, now: Instant)
    | Import(i: nat, g: Graph)
    | Restart(i: nat)
    | Publish(i: nat)
    | Gossip(i: nat, heartbeat: Packet, fetched: Packet)

  ghost function NodeSet(g: Graph): set<Node> { set n | n in g.nodes }

  /** A member that loads `g` has absorbed what is in it. */
  ghost function Holder(g: Graph): Replica { Replica(Loaded(g), NodeSet(g), EdgeKeys(g)) }

  /** Every member loads its own saved graph, empty for a new one. */
  ghost function Start(saved: seq<Graph>): Clan {
    Clan(seq(|saved|, i requires 0 <= i < |saved| => Holder(saved[i])), {})
  }

  /** A blueprint's graph is marked, then merged in. */
  ghost function Imported(h: Fingerprint, r: Replica, g: Graph): Replica {
    var m := Blueprint.Marked(Merged(h, g, Plain(None)));
    Replica(MergeIn(h, r.st, m, true).0, r.known + NodeSet(m), r.keys + EdgeKeys(m))
  }

  ghost function Write(p: Policy, r: Replica, step: Step): Replica
    requires step.NodeWrite? || step.EdgeWrite?
  {
    match step
    case NodeWrite(_, origin, node, now, freshId) =>
      if freshId in NodesOf(r.st.g) then r
      else
        var (t, res) := WriteNode(p, r.st, origin, node, now, freshId, true);
        Replica(t, if res.Ok? then r.known + {res.value} else r.known, r.keys)
    case EdgeWrite(_, origin, edge, now) =>
      var (t, res) := WriteEdge(p, r.st, origin, edge, now, true);
      Replica(t, r.known, if res == Ok(true) then r.keys + {EdgeKey(edge)} else r.keys)
  }

  /** One gossip exchange: equal digests skip the fetch and count as having absorbed
      what the sender knew; otherwise the fetched graph is merged in. */
  ghost function Exchange(h: Fingerprint, r: Replica, heartbeat: Packet, fetched: Packet): Replica {
    var source := if heartbeat.digest == r.st.digest then heartbeat else fetched;
    Replica(Synced(h, r.st, Some(heartbeat.digest), Some(fetched.g), true), r.known + source.known, r.keys + source.keys)
  }

  function PacketOf(r: Replica): Packet { Packet(r.st.digest, r.st.g, r.known, r.keys) }

  /** What a step makes of the replica it acts on. */
  ghost function Act(h: Fingerprint, p: Policy, packets: set<Packet>, r: Replica, step: Step): Replica {
    match step
    case Publish(_) => r
    case Gossip(_, hb, f) => if hb in packets && f in packets then Exchange(h, r, hb, f) else r
    case Import(_, g) => Imported(h, r, g)
    case Restart(_) => r.(st := Loaded(r.st.disk))
    case _ => Write(p, r, step)
  }

  ghost function Next(h: Fingerprint, p: Policy, c: Clan, step: Step): Clan {
    if step.i >= |c.replicas| then c
    else
      var r := c.replicas[step.i];
      Clan(c.replicas[step.i := Act(h, p, c.packets, r, step)],
           if step.Publish? then c.packets + {PacketOf(r)} else c.packets)
  }

  ghost function Run(h: Fingerprint, p: Policy, c: Clan, steps: seq<Step>): Clan {
    if steps == [] then c else Next(h, p, Run(h, p, c, steps[..|steps| - 1]), steps[|steps| - 1])
  }

  /** Every node version any member has absorbed. */
  ghost function AllKnown(c: Clan): set<Node> { set r, v | r in c.replicas && v in r.known :: v }

  ghost function AllKeys(c: Clan): set<string> { set r, k | r in c.replicas && k in r.keys :: k }

  /** The assumptions on the writes of a run: a version triple identifies its node, and
      neither ids nor edge keys contain a line break. */
  ghost predicate WellWritten(vs: set<Node>, ks: set<string>) {
    && (forall v, w :: v in vs && w in vs && VersionOf(v) == VersionOf(w) ==> v == w)
    && (forall v :: v in vs ==> '\n' !in v.id)
    && (forall k :: k in ks ==> '\n' !in k)
  }

  /** The graph holds exactly what its owner has absorbed: the winners of the known
      versions and the known edge keys. */
  ghost predicate Holds(h: Fingerprint, g: Graph, known: set<Node>, keys: set<string>) {
    && Unique(g)
    && (forall n :: n in g.nodes ==> n in known)
    && (forall v :: v in known ==> v.id in NodesOf(g) && !Wins(h, v, NodesOf(g)[v.id]))
    && EdgeKeys(g) == keys
  }

  ghost predicate GoodReplica(h: Fingerprint, r: Replica) {
    Holds(h, r.st.g, r.known, r.keys) && Inv(r.st) && InSync(r.st)
  }

  ghost predicate GoodPacket(h: Fingerprint, p: Packet, vs: set<Node>, ks: set<string>) {
    Holds(h, p.g, p.known, p.keys) && p.digest == DigestOf(p.g) && p.known <= vs && p.keys <= ks
  }

  ghost predicate Good(h: Fingerprint, c: Clan) {
    && (forall r :: r in c.replicas ==> GoodReplica(h, r))
    && (forall p :: p in c.packets ==> GoodPacket(h, p, AllKnown(c), AllKeys(c)))
  }

  // ---------- one step at a time ----------

  /** Two graphs that hold the same writes are the same, as far as gossip can tell. */
  lemma SameWritesSameGraph(h: Fingerprint, a: Graph, b: Graph, known: set<Node>, keys: set<string>)
    requires CollisionFree(h)
    requires Holds(h, a, known, keys) && Holds(h, b, known, keys)
    ensures NodesOf(a) == NodesOf(b) && EdgeKeys(a) == EdgeKeys(b)
  {
    WinsIsStrictTotalOrder(h);
    LastMapFacts(a.nodes, NodeId);
    LastMapFacts(b.nodes, NodeId);
    var m, n := NodesOf(a), NodesOf(b);
    forall k | k in m ensures k in n && n[k] == m[k] {
      assert m[k] in known && n[k] in known;
    }
    forall k | k in n ensures k in m { assert n[k] in known; }
  }

  lemma HoldsClean(h: Fingerprint, g: Graph, known: set<Node>, keys: set<string>)
    requires Holds(h, g, known, keys)
    requires (forall v :: v in known ==> '\n' !in v.id) && (forall k :: k in keys ==> '\n' !in k)
    ensures LineClean(g)
  {
    forall e | e in g.edges ensures '\n' !in EdgeKey(e) { assert EdgeKey(e) in EdgeKeys(g); }
  }

  lemma MergeHolds(h: Fingerprint, a: Graph, b: Graph, ka: set<Node>, ea: set<string>, kb: set<Node>, eb: set<string>)
    requires CollisionFree(h)
    requires Holds(h, a, ka, ea) && Holds(h, b, kb, eb)
    ensures Holds(h, Merged(h, a, b), ka + kb, ea + eb)
  {
    var g := Merged(h, a, b);
    UniqueIdsLastIsBest(h, b);
    MergedView(h, a, b);
    AscendingDistinct(g.edges, EdgeKey);
    LastMapFacts(a.nodes, NodeId);
    LastMapFacts(b.nodes, NodeId);
    forall n | n in g.nodes ensures n in ka + kb { DistinctMember(g.nodes, NodeId, n); }
    forall v | v in ka + kb ensures v.id in NodesOf(g) && !Wins(h, v, NodesOf(g)[v.id]) {
      JoinUnbeaten(h, NodesOf(a), NodesOf(b), v);
    }
  }

  lemma JoinUnbeaten(h: Fingerprint, m: NodeMap, n: NodeMap, v: Node)
    requires (v.id in m && !Wins(h, v, m[v.id])) || (v.id in n && !Wins(h, v, n[v.id]))
    ensures v.id in Join(h, m, n) && !Wins(h, v, Join(h, m, n)[v.id])
  {
  }

  /** Equal digests: the receiver already holds everything the sender does, so skipping
      the merge loses nothing. */
  lemma SkipHolds(h: Fingerprint, a: Graph, b: Graph, ka: set<Node>, ea: set<string>, kb: set<Node>, eb: set<string>)
    requires Holds(h, a, ka, ea) && Holds(h, b, kb, eb)
    requires WellWritten(ka + kb, ea + eb)
    requires DigestOf(a) == DigestOf(b)
    ensures Holds(h, a, ka + kb, ea + eb)
  {
    HoldsClean(h, a, ka, ea);
    HoldsClean(h, b, kb, eb);
    EqualDigestsEqualGraphs(a, b);
  }

  /** Merging in any graph held by someone, gated or not. */
  lemma MergeKeeps(h: Fingerprint, r: Replica, g: Graph, known: set<Node>, keys: set<string>)
    requires CollisionFree(h) && GoodReplica(h, r) && Holds(h, g, known, keys)
    requires WellWritten(r.known + known, r.keys + keys)
    ensures GoodReplica(h, Replica(MergeIn(h, r.st, g, true).0, r.known + known, r.keys + keys))
  {
    MergeHolds(h, r.st.g, g, r.known, r.keys, known, keys);
    MergeInEffect(h, r.st, g, true);
    MergesKeepDigest(h, r.st, g);
    var m := Merged(h, r.st.g, g);
    if DigestOf(m) == r.st.digest {
      assert r.known + (r.known + known) == r.known + known && r.keys + (r.keys + keys) == r.keys + keys;
      SkipHolds(h, r.st.g, m, r.known, r.keys, r.known + known, r.keys + keys);
    }
  }

  lemma ExchangeKeeps(h: Fingerprint, r: Replica, hb: Packet, f: Packet, vs: set<Node>, ks: set<string>)
    requires CollisionFree(h) && GoodReplica(h, r) && WellWritten(vs, ks)
    requires r.known <= vs && r.keys <= ks && GoodPacket(h, hb, vs, ks) && GoodPacket(h, f, vs, ks)
    ensures GoodReplica(h, Exchange(h, r, hb, f))
  {
    if hb.digest == r.st.digest {
      SkipHolds(h, r.st.g, hb.g, r.known, r.keys, hb.known, hb.keys);
    } else {
      MergeKeeps(h, r, f.g, f.known, f.keys);
    }
  }

  /** A graph with unique ids and keys holds exactly its own nodes. */
  lemma HoldsItself(h: Fingerprint, g: Graph)
    requires Unique(g)
    ensures Holds(h, g, NodeSet(g), EdgeKeys(g))
  {
    forall v | v in g.nodes ensures v.id in NodesOf(g) && !Wins(h, v, NodesOf(g)[v.id]) {
      DistinctMember(g.nodes, NodeId, v);
    }
  }

  /** A merge-import keeps a replica good, as long as its marked versions are new ones. */
  lemma ImportKeeps(h: Fingerprint, r: Replica, g: Graph)
    requires CollisionFree(h) && GoodReplica(h, r)
    requires WellWritten(Imported(h, r, g).known, Imported(h, r, g).keys)
    ensures GoodReplica(h, Imported(h, r, g))
  {
    var m := Blueprint.Marked(Merged(h, g, Plain(None)));
    Blueprint.MarkedIsUnique(h, g);
    HoldsItself(h, m);
    MergeKeeps(h, r, m, NodeSet(m), EdgeKeys(m));
  }

  /** A restart reads back the graph that was saved. */
  lemma RestartKeeps(h: Fingerprint, r: Replica)
    requires GoodReplica(h, r)
    ensures GoodReplica(h, r.(st := Loaded(r.st.disk)))
  {
    MaxStampBounds(r.st.g.nodes, 0);
  }

  lemma WriteKeeps(h: Fingerprint, p: Policy, r: Replica, step: Step)
    requires GoodReplica(h, r) && (step.NodeWrite? || step.EdgeWrite?)
    ensures GoodReplica(h, Write(p, r, step))
  {
    match step
    case NodeWrite(_, origin, node, now, freshId) =>
      if freshId !in NodesOf(r.st.g) { NodeWriteKeeps(h, p, r, step); }
    case EdgeWrite(_, origin, edge, now) => EdgeWriteKeeps(h, p, r, step);
  }

  lemma EdgeWriteKeeps(h: Fingerprint, p: Policy, r: Replica, step: Step)
    requires GoodReplica(h, r) && step.EdgeWrite?
    ensures GoodReplica(h, Write(p, r, step))
  {
    WriteEdgeEffect(p, r.st, step.origin, step.edge, step.now, true);
    EdgeKeepsDigest(p, r.st, step.origin, step.edge, step.now);
    var (t, res) := WriteEdge(p, r.st, step.origin, step.edge, step.now, true);
    SameNodesHold(h, r.st.g, t.g, r.known, r.keys, if res == Ok(true) then r.keys + {EdgeKey(step.edge)} else r.keys);
  }

  /** Holding is about nodes and edge keys only. */
  lemma SameNodesHold(h: Fingerprint, a: Graph, b: Graph, known: set<Node>, keys: set<string>, keys': set<string>)
    requires Holds(h, a, known, keys) && Unique(b) && b.nodes == a.nodes && EdgeKeys(b) == keys'
    ensures Holds(h, b, known, keys')
  {
  }

  lemma NodeWriteKeeps(h: Fingerprint, p: Policy, r: Replica, step: Step)
    requires GoodReplica(h, r) && step.NodeWrite? && step.freshId !in NodesOf(r.st.g)
    ensures GoodReplica(h, Write(p, r, step))
  {
    WriteNodeEffect(p, r.st, step.origin, step.node, step.now, step.freshId, true);
    var (t, res) := WriteNode(p, r.st, step.origin, step.node, step.now, step.freshId, true);
    SavedKeepsDigest(r.st, Stage(p, r.st, step.origin, step.node, step.now, step.freshId));
    StageEffect(p, r.st, step.origin, step.node, step.now, step.freshId);
    if res.Ok? {
      NewestHolds(h, r.st, t.g, r.known, r.keys, res.value);
    }
  }

  lemma NewestHolds(h: Fingerprint, s: State, g: Graph, known: set<Node>, keys: set<string>, v: Node)
    requires Holds(h, s.g, known, keys) && Inv(s) && s.maxUpdated < v.updatedAt
    requires Unique(g) && g.edges == s.g.edges && NodesOf(g) == NodesOf(s.g)[v.id := v]
    requires forall n :: n in g.nodes ==> n == v || n in s.g.nodes
    ensures Holds(h, g, known + {v}, keys)
  {
    LastMapFacts(s.g.nodes, NodeId);
  }

  /** What a replica has absorbed it does not forget. */
  lemma ReplicaGrows(h: Fingerprint, p: Policy, c: Clan, step: Step)
    ensures var d := Next(h, p, c, step);
            && |d.replicas| == |c.replicas|
            && forall j :: 0 <= j < |c.replicas| ==>
                 c.replicas[j].known <= d.replicas[j].known && c.replicas[j].keys <= d.replicas[j].keys
  {
  }

  lemma KnownGrows(h: Fingerprint, p: Policy, c: Clan, step: Step)
    ensures AllKnown(c) <= AllKnown(Next(h, p, c, step)) && AllKeys(c) <= AllKeys(Next(h, p, c, step))
  {
    var d := Next(h, p, c, step);
    ReplicaGrows(h, p, c, step);
    forall v | v in AllKnown(c) ensures v in AllKnown(d) {
      var j :| 0 <= j < |c.replicas| && v in c.replicas[j].known;
      assert d.replicas[j] in d.replicas;
    }
    forall k | k in AllKeys(c) ensures k in AllKeys(d) {
      var j :| 0 <= j < |c.replicas| && k in c.replicas[j].keys;
      assert d.replicas[j] in d.replicas;
    }
  }

  lemma ActKeeps(h: Fingerprint, p: Policy, packets: set<Packet>, r: Replica, step: Step, vs: set<Node>, ks: set<string>)
    requires CollisionFree(h) && GoodReplica(h, r) && WellWritten(vs, ks)
    requires forall k :: k in packets ==> GoodPacket(h, k, vs, ks)
    requires r.known <= vs && r.keys <= ks
    requires Act(h, p, packets, r, step).known <= vs && Act(h, p, packets, r, step).keys <= ks
    ensures GoodReplica(h, Act(h, p, packets, r, step))
  {
    match step
    case Gossip(_, hb, f) => if hb in packets && f in packets { ExchangeKeeps(h, r, hb, f, vs, ks); }
    case Import(_, g) => ImportKeeps(h, r, g);
    case Restart(_) => RestartKeeps(h, r);
    case Publish(_) =>
    case _ => WriteKeeps(h, p, r, step);
  }

  lemma StepKeeps(h: Fingerprint, p: Policy, c: Clan, step: Step)
    requires CollisionFree(h) && Good(h, c)
    requires WellWritten(AllKnown(Next(h, p, c, step)), AllKeys(Next(h, p, c, step)))
    ensures Good(h, Next(h, p, c, step))
  {
    if step.i < |c.replicas| {
      var r, d := c.replicas[step.i], Next(h, p, c, step);
      KnownGrows(h, p, c, step);
      assert r in c.replicas && d.replicas[step.i] in d.replicas;
      assert r.known <= AllKnown(c) && r.keys <= AllKeys(c);
      assert GoodReplica(h, Act(h, p, c.packets, r, step)) by {
        ActKeeps(h, p, c.packets, r, step, AllKnown(d), AllKeys(d));
      }
      // the other replicas stay as they are, and what is on its way was known before
      forall k | k in d.packets ensures GoodPacket(h, k, AllKnown(d), AllKeys(d)) {
        if k !in c.packets { assert k == PacketOf(r) && GoodReplica(h, r); }
      }
    }
  }

  lemma {:induction false} RunKeeps(h: Fingerprint, p: Policy, saved: seq<Graph>, steps: seq<Step>)
    requires CollisionFree(h) && forall g :: g in saved ==> Unique(g)
    requires WellWritten(AllKnown(Run(h, p, Start(saved), steps)), AllKeys(Run(h, p, Start(saved), steps)))
    ensures Good(h, Run(h, p, Start(saved), steps))
    ensures |Run(h, p, Start(saved), steps).replicas| == |saved|
  {
    if steps == [] {
      StartIsGood(h, saved);
    } else {
      var before, step := Run(h, p, Start(saved), steps[..|steps| - 1]), steps[|steps| - 1];
      KnownGrows(h, p, before, step);
      RunKeeps(h, p, saved, steps[..|steps| - 1]);
      StepKeeps(h, p, before, step);
    }
  }

  lemma StartIsGood(h: Fingerprint, saved: seq<Graph>)
    requires forall g :: g in saved ==> Unique(g)
    ensures Good(h, Start(saved)) && |Start(saved).replicas| == |saved|
  {
    forall r | r in Start(saved).replicas ensures GoodReplica(h, r) {
      var i :| 0 <= i < |saved| && r == Holder(saved[i]);
      assert saved[i] in saved;
      HoldsItself(h, saved[i]);
      MaxStampBounds(saved[i].nodes, 0);
    }
  }

  // ---------- convergence ----------

  /** Strong convergence: after any run, two members that have absorbed the same writes
      hold the same node map, the same edge keys and the same digest, and no member
      holds an older version than one it has absorbed. */
  lemma StrongConvergence(h: Fingerprint, p: Policy, saved: seq<Graph>, steps: seq<Step>, i: nat, j: nat)
    requires CollisionFree(h) && i < |saved| && j < |saved| && forall g :: g in saved ==> Unique(g)
    requires var c := Run(h, p, Start(saved), steps); WellWritten(AllKnown(c), AllKeys(c))
    ensures var c := Run(h, p, Start(saved), steps);
            && |c.replicas| == |saved|
            && var a, b := c.replicas[i], c.replicas[j];
            && (forall v :: v in a.known ==> v.id in NodesOf(a.st.g) && !Wins(h, v, NodesOf(a.st.g)[v.id]))
            && (a.known == b.known && a.keys == b.keys ==>
                  && NodesOf(a.st.g) == NodesOf(b.st.g)
                  && EdgeKeys(a.st.g) == EdgeKeys(b.st.g)
                  && a.st.digest == b.st.digest)
  {
    RunKeeps(h, p, saved, steps);
    var c := Run(h, p, Start(saved), steps);
    var a, b := c.replicas[i], c.replicas[j];
    assert a in c.replicas && b in c.replicas;
    if a.known == b.known && a.keys == b.keys {
      SameWritesSameGraph(h, a.st.g, b.st.g, a.known, a.keys);
      assert a.known <= AllKnown(c) && a.keys <= AllKeys(c);
      HoldsClean(h, a.st.g, a.known, a.keys);
      HoldsClean(h, b.st.g, b.known, b.keys);
      SameNodes(a.st.g, b.st.g);
      DigestFaithful(a.st.g, b.st.g);
    }
  }

  lemma SameNodes(a: Graph, b: Graph)
    requires UniqueIds(a) && UniqueIds(b) && NodesOf(a) == NodesOf(b)
    ensures forall n :: n in a.nodes <==> n in b.nodes
    ensures Versions(a) == Versions(b)
  {
    LastMapFacts(a.nodes, NodeId);
    LastMapFacts(b.nodes, NodeId);
    forall n ensures n in a.nodes <==> n in b.nodes {
      if n in a.nodes { DistinctMember(a.nodes, NodeId, n); }
      if n in b.nodes { DistinctMember(b.nodes, NodeId, n); }
    }
  }

  /** One exchange in each direction, whatever happened before, makes two members agree. */
  lemma TwoWayGossipConverges(h: Fingerprint, p: Policy, saved: seq<Graph>, steps: seq<Step>, i: nat, j: nat)
    requires CollisionFree(h) && i < |saved| && j < |saved| && i != j && forall g :: g in saved ==> Unique(g)
    requires var c := Run(h, p, Start(saved), steps); WellWritten(AllKnown(c), AllKeys(c))
    ensures |Run(h, p, Start(saved), steps).replicas| == |saved|
    ensures var c := Run(h, p, Start(saved), steps);
            var atI := PacketOf(c.replicas[i]);
            var b := Exchange(h, c.replicas[j], atI, atI);
            var a := Exchange(h, c.replicas[i], PacketOf(b), PacketOf(b));
            NodesOf(a.st.g) == NodesOf(b.st.g) && EdgeKeys(a.st.g) == EdgeKeys(b.st.g)
  {
    RunKeeps(h, p, saved, steps);
    var c := Run(h, p, Start(saved), steps);
    var r, q := c.replicas[i], c.replicas[j];
    assert r in c.replicas && q in c.replicas;
    assert r.known <= AllKnown(c) && r.keys <= AllKeys(c) && q.known <= AllKnown(c) && q.keys <= AllKeys(c);
    PairConverges(h, r, q, AllKnown(c), AllKeys(c));
  }

  lemma PairConverges(h: Fingerprint, r: Replica, q: Replica, vs: set<Node>, ks: set<string>)
    requires CollisionFree(h) && GoodReplica(h, r) && GoodReplica(h, q) && WellWritten(vs, ks)
    requires r.known + q.known <= vs && r.keys + q.keys <= ks
    ensures var b := Exchange(h, q, PacketOf(r), PacketOf(r));
            var a := Exchange(h, r, PacketOf(b), PacketOf(b));
            NodesOf(a.st.g) == NodesOf(b.st.g) && EdgeKeys(a.st.g) == EdgeKeys(b.st.g)
  {
    ExchangeKeeps(h, q, PacketOf(r), PacketOf(r), vs, ks);
    var b := Exchange(h, q, PacketOf(r), PacketOf(r));
    ExchangeKeeps(h, r, PacketOf(b), PacketOf(b), vs, ks);
    var a := Exchange(h, r, PacketOf(b), PacketOf(b));
    assert a.known == b.known && a.keys == b.keys;
    SameWritesSameGraph(h, a.st.g, b.st.g, a.known, a.keys);
  }

  /** What a member's own steps do to it, and that they touch nobody else: writes are the
      service's, an import merges in the marked blueprint, a restart loads the disk. */
  lemma OwnStepsSpelled(h: Fingerprint, p: Policy, c: Clan, step: Step)
    requires step.i < |c.replicas| && !step.Publish? && !step.Gossip?
    ensures var r, d := c.replicas[step.i], Next(h, p, c, step);
            var q := d.replicas[step.i];
            && d.packets == c.packets && d.replicas == c.replicas[step.i := q]
            && (step.NodeWrite? && step.freshId !in NodesOf(r.st.g) ==>
                  var (t, res) := WriteNode(p, r.st, step.origin, step.node, step.now, step.freshId, true);
                  q == Replica(t, if res.Ok? then r.known + {res.value} else r.known, r.keys))
            && (step.EdgeWrite? ==>
                  var (t, res) := WriteEdge(p, r.st, step.origin, step.edge, step.now, true);
                  q == Replica(t, r.known, if res == Ok(true) then r.keys + {EdgeKey(step.edge)} else r.keys))
            && (step.Import? ==>
                  var m := Blueprint.Marked(Merged(h, step.g, Plain(None)));
                  q == Replica(MergeIn(h, r.st, m, true).0, r.known + (set n | n in m.nodes), r.keys + EdgeKeys(m)))
            && (step.Restart? ==> q == Replica(Loaded(r.st.disk), r.known, r.keys))
  {
  }

  /** Member `i` hands out its digest and graph, and `j` hears of it. */
  function Hears(r: Replica, i: nat, j: nat): seq<Step> { [Publish(i), Gossip(j, PacketOf(r), PacketOf(r))] }

  /** In the run: `j` absorbs all that `i` had, changes nothing else, and fetches exactly
      when the digests differ. */
  lemma HearingAbsorbs(h: Fingerprint, p: Policy, c: Clan, i: nat, j: nat)
    requires i < |c.replicas| && j < |c.replicas| && i != j
    ensures var r, q := c.replicas[i], c.replicas[j];
            var d := Run(h, p, c, Hears(r, i, j));
            && |d.replicas| == |c.replicas| && d.replicas == c.replicas[j := d.replicas[j]]
            && d.packets == c.packets + {Packet(r.st.digest, r.st.g, r.known, r.keys)}
            && d.replicas[j].known == q.known + r.known && d.replicas[j].keys == q.keys + r.keys
            && d.replicas[j].st == (if r.st.digest == q.st.digest then q.st else MergeIn(h, q.st, r.st.g, true).0)
            && d.replicas[j] == Exchange(h, q, PacketOf(r), PacketOf(r))
  {
    var r := c.replicas[i];
    var steps := Hears(r, i, j);
    assert steps[..1] == [Publish(i)] && [Publish(i)][..0] == [];
    var e := Next(h, p, c, Publish(i));
    assert Run(h, p, c, [Publish(i)]) == e;
    assert e.replicas == c.replicas && PacketOf(r) in e.packets;
    assert Run(h, p, c, steps) == Next(h, p, e, Gossip(j, PacketOf(r), PacketOf(r)));
  }

  /** In every run, once `j` has heard of `i` and then `i` of `j`, the two hold the same
      nodes and edge keys. */
  lemma HearingBothWaysAgrees(h: Fingerprint, p: Policy, saved: seq<Graph>, steps: seq<Step>, i: nat, j: nat)
    requires CollisionFree(h) && i < |saved| && j < |saved| && i != j && forall g :: g in saved ==> Unique(g)
    requires var c := Run(h, p, Start(saved), steps); WellWritten(AllKnown(c), AllKeys(c)) && |c.replicas| == |saved|
    ensures var c := Run(h, p, Start(saved), steps);
            var d := Run(h, p, c, Hears(c.replicas[i], i, j));
            |d.replicas| == |saved| &&
            var e := Run(h, p, d, Hears(d.replicas[j], j, i));
            |e.replicas| == |saved| &&
            NodesOf(e.replicas[i].st.g) == NodesOf(e.replicas[j].st.g)
            && EdgeKeys(e.replicas[i].st.g) == EdgeKeys(e.replicas[j].st.g)
  {
    var c := Run(h, p, Start(saved), steps);
    TwoWayGossipConverges(h, p, saved, steps, i, j);
    HearingAbsorbs(h, p, c, i, j);
    HearingAbsorbs(h, p, Run(h, p, c, Hears(c.replicas[i], i, j)), j, i);
  }

  // ---------- nothing is lost ----------

  lemma {:induction false} RunAppend(h: Fingerprint, p: Policy, c: Clan, a: seq<Step>, b: seq<Step>)
    ensures Run(h, p, c, a + b) == Run(h, p, Run(h, p, c, a), b)
  {
    if b == [] {
      assert a + b == a;
    } else {
      assert (a + b)[..|a + b| - 1] == a + b[..|b| - 1];
      RunAppend(h, p, c, a, b[..|b| - 1]);
    }
  }

  lemma {:induction false} RunGrows(h: Fingerprint, p: Policy, c: Clan, steps: seq<Step>)
    ensures var d := Run(h, p, c, steps);
            && AllKnown(c) <= AllKnown(d) && AllKeys(c) <= AllKeys(d) && |d.replicas| == |c.replicas|
            && forall j :: 0 <= j < |c.replicas| ==>
                 c.replicas[j].known <= d.replicas[j].known && c.replicas[j].keys <= d.replicas[j].keys
  {
    if steps != [] {
      var before := Run(h, p, c, steps[..|steps| - 1]);
      RunGrows(h, p, c, steps[..|steps| - 1]);
      ReplicaGrows(h, p, before, steps[|steps| - 1]);
      KnownGrows(h, p, before, steps[|steps| - 1]);
    }
  }

  /** Versions only rise: from any point of any run to any later one, no member's version
      of any id falls and no edge key goes, through writes, merges, imports and restarts. */
  lemma VersionsOnlyRise(h: Fingerprint, p: Policy, saved: seq<Graph>, steps: seq<Step>, more: seq<Step>, i: nat)
    requires CollisionFree(h) && i < |saved| && forall g :: g in saved ==> Unique(g)
    requires var d := Run(h, p, Start(saved), steps + more); WellWritten(AllKnown(d), AllKeys(d))
    ensures var c := Run(h, p, Start(saved), steps);
            var d := Run(h, p, Start(saved), steps + more);
            && |c.replicas| == |d.replicas| == |saved|
            && Below(h, NodesOf(c.replicas[i].st.g), NodesOf(d.replicas[i].st.g))
            && EdgeKeys(c.replicas[i].st.g) <= EdgeKeys(d.replicas[i].st.g)
  {
    var c, d := Run(h, p, Start(saved), steps), Run(h, p, Start(saved), steps + more);
    RunAppend(h, p, Start(saved), steps, more);
    RunGrows(h, p, c, more);
    RunKeeps(h, p, saved, steps);
    RunKeeps(h, p, saved, steps + more);
    assert c.replicas[i] in c.replicas && d.replicas[i] in d.replicas;
    HoldsMore(h, c.replicas[i], d.replicas[i]);
  }

  lemma HoldsMore(h: Fingerprint, r: Replica, q: Replica)
    requires GoodReplica(h, r) && GoodReplica(h, q) && r.known <= q.known && r.keys <= q.keys
    ensures Below(h, NodesOf(r.st.g), NodesOf(q.st.g)) && EdgeKeys(r.st.g) <= EdgeKeys(q.st.g)
  {
    LastMapFacts(r.st.g.nodes, NodeId);
  }

  /** The mark that a write is stamped above bounds every version a member has absorbed,
      also those that lost to the one it holds. */
  lemma AbsorbedIsStamped(h: Fingerprint, r: Replica)
    requires GoodReplica(h, r)
    ensures forall v :: v in r.known ==> v.updatedAt <= r.st.maxUpdated
  {
    LastMapFacts(r.st.g.nodes, NodeId);
    forall v | v in r.known ensures v.updatedAt <= r.st.maxUpdated {
      assert NodesOf(r.st.g)[v.id] in r.st.g.nodes;
    }
  }

  /** No lost edit: at any point of any run a successful write beats every version its
      member has absorbed, and at every later point the member holds it or a version
      that beats it. */
  lemma WrittenIsNotLost(h: Fingerprint, p: Policy, saved: seq<Graph>, steps: seq<Step>, write: Step, more: seq<Step>)
    requires CollisionFree(h) && write.NodeWrite? && write.i < |saved| && forall g :: g in saved ==> Unique(g)
    requires var d := Run(h, p, Start(saved), steps + [write] + more); WellWritten(AllKnown(d), AllKeys(d))
    requires var c := Run(h, p, Start(saved), steps); |c.replicas| == |saved| && Succeeds(p, c.replicas[write.i], write)
    ensures var r := Run(h, p, Start(saved), steps).replicas[write.i];
            var d := Run(h, p, Start(saved), steps + [write] + more);
            var v := WrittenBy(p, r, write);
            && (forall u :: u in r.known ==> Wins(h, v, u))
            && |d.replicas| == |saved|
            && v.id in NodesOf(d.replicas[write.i].st.g)
            && (NodesOf(d.replicas[write.i].st.g)[v.id] == v || Wins(h, NodesOf(d.replicas[write.i].st.g)[v.id], v))
  {
    var c, c' := Run(h, p, Start(saved), steps), Run(h, p, Start(saved), steps + [write]);
    var d := Run(h, p, Start(saved), steps + [write] + more);
    assert (steps + [write])[..|steps|] == steps;
    RunAppend(h, p, Start(saved), steps + [write], more);
    RunGrows(h, p, c', more);
    KnownGrows(h, p, c, write);
    RunKeeps(h, p, saved, steps);
    RunKeeps(h, p, saved, steps + [write] + more);
    var r := c.replicas[write.i];
    assert r in c.replicas && d.replicas[write.i] in d.replicas;
    WriteBeatsAbsorbed(h, p, r, write);
    assert c'.replicas[write.i] == Write(p, r, write);
    WinsIsStrictTotalOrder(h);
  }

  /** The write goes through: its id, when it asks for a new one, is new. */
  ghost predicate Succeeds(p: Policy, r: Replica, write: Step)
    requires write.NodeWrite?
  {
    write.freshId !in NodesOf(r.st.g)
    && WriteNode(p, r.st, write.origin, write.node, write.now, write.freshId, true).1.Ok?
  }

  ghost function WrittenBy(p: Policy, r: Replica, write: Step): Node
    requires write.NodeWrite? && Succeeds(p, r, write)
  {
    WriteNode(p, r.st, write.origin, write.node, write.now, write.freshId, true).1.value
  }

  lemma WriteBeatsAbsorbed(h: Fingerprint, p: Policy, r: Replica, write: Step)
    requires GoodReplica(h, r) && write.NodeWrite? && Succeeds(p, r, write)
    ensures var v := WrittenBy(p, r, write); v in Write(p, r, write).known && forall u :: u in r.known ==> Wins(h, v, u)
  {
    WriteNodeEffect(p, r.st, write.origin, write.node, write.now, write.freshId, true);
    AbsorbedIsStamped(h, r);
  }
}
