/** What becomes of a write, a merge or a replacement, refusals included, in the terms of
    the graph and the request (src/cland/internal/memory/service.go). */
module WriteRules {
  import opened Wrappers
  import opened Keyed
  import opened MemoryGraph
  import opened MemoryDigest
  import opened MemoryService

  /** The clock, or the next instant after everything the service has seen. */
  function NextStamp(s: State, now: Instant): Instant { if now > s.maxUpdated then now else s.maxUpdated + 1 }

  /** The version a write stores. */
  function Version(s: State, origin: string, node: Node, now: Instant, freshId: string): Node {
    var n := node.(status := if node.status == "" then "active" else node.status, updatedAt := NextStamp(s, now));
    if node.id in NodesOf(s.g) then
      var prev := NodesOf(s.g)[node.id];
      n.(provenance := prev.provenance, rev := (prev.rev + 1) % 0x1_0000_0000_0000_0000)
    else
      var source := if node.provenance.source == "" then "manual" else node.provenance.source;
      n.(id := if node.id == "" then freshId else node.id, rev := 1, provenance := Provenance(origin, source, now))
  }

  /** The graph it is stored in: in its own place, or at the end. */
  function WithVersion(s: State, node: Node, v: Node): Graph {
    if node.id in NodesOf(s.g) then
      s.g.(nodes := seq(|s.g.nodes|, i requires 0 <= i < |s.g.nodes| =>
                          if s.g.nodes[i].id == node.id then v else s.g.nodes[i]))
    else s.g.(nodes := s.g.nodes + [v])
  }

  /** The whole node write: refused for its origin, its fields, the number of nodes or the
      size it would give, in that order, only the last of which moves the mark; otherwise
      stored, with the digest and the disk following exactly when the save succeeds. */
  lemma NodeWriteSpelled(p: Policy, s: State, origin: string, node: Node, now: Instant, freshId: string, saveOk: bool)
    requires Inv(s)
    ensures var n := node.(status := if node.status == "" then "active" else node.status);
            var v := Version(s, origin, node, now, freshId);
            var g := WithVersion(s, node, v);
            WriteNode(p, s, origin, node, now, freshId, saveOk)
            == if origin == "" then (s, Err(NoOrigin))
               else if !p.nodeOk(n) then (s, Err(Invalid))
               else if node.id !in NodesOf(s.g) && |s.g.nodes| >= 2000 then (s, Err(CapExceeded))
               else if p.size(g) > 2 * 1024 * 1024 then (s.(maxUpdated := NextStamp(s, now)), Err(CapExceeded))
               else if saveOk then (State(g, DigestOf(g), NextStamp(s, now), g), Ok(v))
               else (State(g, s.digest, NextStamp(s, now), s.disk), Err(SaveFailed))
  {
    var n := WithStatus(node);
    var v := Version(s, origin, node, now, freshId);
    assert node.(status := if node.status == "" then "active" else node.status) == n;
    HeldOrNot(s.g.nodes, node.id);
    CandidateSpelled(s, origin, node, now, freshId);
    var g := WithVersion(s, node, v);
    assert g == s.g.(nodes := g.nodes);
    var t := s.(g := g, maxUpdated := NextStamp(s, now));
    assert Stage(p, s, origin, node, now, freshId)
        == if origin == "" then Refused(s, NoOrigin)
           else if !p.nodeOk(n) then Refused(s, Invalid)
           else if node.id !in NodesOf(s.g) && |s.g.nodes| >= 2000 then Refused(s, CapExceeded)
           else Fit(p, s, t, v);
  }

  lemma HeldOrNot(nodes: seq<Node>, id: string)
    requires Distinct(nodes, NodeId)
    ensures IndexOf(nodes, id) <= |nodes| && (IndexOf(nodes, id) < |nodes| <==> id in LastMap(nodes, NodeId))
    ensures IndexOf(nodes, id) < |nodes| ==> LastMap(nodes, NodeId)[id] == nodes[IndexOf(nodes, id)]
  {
    IndexOfFinds(nodes, id);
    if IndexOf(nodes, id) < |nodes| {
      DistinctMember(nodes, NodeId, nodes[IndexOf(nodes, id)]);
    } else {
      AbsentId(nodes, id);
    }
  }

  lemma CandidateSpelled(s: State, origin: string, node: Node, now: Instant, freshId: string)
    requires Inv(s)
    ensures var v := Version(s, origin, node, now, freshId);
            Candidate(s.g.nodes, origin, WithStatus(node), now, Stamp(s.maxUpdated, now), freshId)
            == (WithVersion(s, node, v).nodes, v)
  {
    var nodes, v := s.g.nodes, Version(s, origin, node, now, freshId);
    var i := IndexOf(nodes, node.id);
    HeldOrNot(nodes, node.id);
    IndexOfFinds(nodes, node.id);
    if i < |nodes| {
      assert v == Updated(nodes[i], WithStatus(node), NextStamp(s, now));
      ReplacedInPlace(nodes, node.id, v);
      assert nodes[i := v] == WithVersion(s, node, v).nodes;
    } else {
      assert v == Created(origin, WithStatus(node), now, NextStamp(s, now), freshId);
    }
  }

  lemma ReplacedInPlace(nodes: seq<Node>, id: string, v: Node)
    requires Distinct(nodes, NodeId) && IndexOf(nodes, id) < |nodes|
    ensures forall j :: 0 <= j < |nodes| ==>
              nodes[IndexOf(nodes, id) := v][j] == if nodes[j].id == id then v else nodes[j]
  {
    var i := IndexOf(nodes, id);
    IndexOfFinds(nodes, id);
    forall j | 0 <= j < |nodes| ensures nodes[i := v][j] == if nodes[j].id == id then v else nodes[j] {
      assert j != i ==> NodeId(nodes[i]) != NodeId(nodes[j]);
    }
  }

  /** The whole edge write. */
  lemma EdgeWriteSpelled(p: Policy, s: State, origin: string, edge: Edge, now: Instant, saveOk: bool)
    ensures var g := s.g.(edges := s.g.edges + [Edge(edge.from, edge.to, edge.relation, now, origin)]);
            WriteEdge(p, s, origin, edge, now, saveOk)
            == if origin == "" then (s, Err(NoOrigin))
               else if !p.edgeOk(edge) then (s, Err(Invalid))
               else if EdgeKey(edge) in EdgeKeys(s.g) then (s, Ok(false))
               else if |s.g.edges| >= 8000 || p.size(g) > 2 * 1024 * 1024 then (s, Err(CapExceeded))
               else if saveOk then (State(g, DigestOf(g), s.maxUpdated, g), Ok(true))
               else (State(g, s.digest, s.maxUpdated, s.disk), Err(SaveFailed))
  {
  }

  /** `m` is the latest of the stamps and `start`. */
  ghost predicate LatestStamp(nodes: seq<Node>, start: Instant, m: Instant) {
    && start <= m && (forall n :: n in nodes ==> n.updatedAt <= m)
    && (m == start || exists n :: n in nodes && n.updatedAt == m)
  }

  /** The whole merge, replacement and load: the mark is the latest stamp of the outcome,
      never below the old mark after a merge and counted afresh otherwise. */
  lemma MergeSpelledFor(h: Fingerprint, s: State, remote: Graph, saveOk: bool)
    ensures var (t, changed) := MergeIn(h, s, remote, saveOk);
            var m := Merged(h, s.g, remote);
            && (changed <==> DigestOf(m) != s.digest)
            && (!changed ==> t == s)
            && (changed ==> t.g == m && LatestStamp(m.nodes, s.maxUpdated, t.maxUpdated))
            && (changed ==> t.digest == if saveOk then DigestOf(m) else s.digest)
            && (changed ==> t.disk == if saveOk then m else s.disk)
    ensures var t, m := Replaced(h, s, remote, saveOk), Merged(h, remote, Plain(None));
            && t.g == m && LatestStamp(m.nodes, 0, t.maxUpdated)
            && t.digest == (if saveOk then DigestOf(m) else s.digest) && t.disk == (if saveOk then m else s.disk)
    ensures var t := Loaded(remote);
            t.g == t.disk == remote && t.digest == DigestOf(remote) && LatestStamp(remote.nodes, 0, t.maxUpdated)
  {
    MaxStampBounds(Merged(h, s.g, remote).nodes, s.maxUpdated);
    MaxStampBounds(Merged(h, remote, Plain(None)).nodes, 0);
    MaxStampBounds(remote.nodes, 0);
  }
}
