/** The service that owns a member's graph, its cached digest and its high-water mark,
    and the gossip syncer (src/cland/internal/memory/service.go, sync.go).

    Every operation is given twice: as a step function on `State`, which the run
    theorems use, and as a method of `Service` proved to take exactly that step. */
module MemoryService {
  import opened Wrappers
  import opened Keyed
  import opened MemoryGraph
  import opened MemoryDigest

  const MAX_NODES: nat := 2000
  const MAX_EDGES: nat := 8000
  const MAX_SERIALIZED_BYTES: nat := 0x20_0000

  datatype Error = NoOrigin | Invalid | CapExceeded | SaveFailed | NilGraph | UnknownMode

  /** Field validation and the serialized size, which this model leaves open. */
  datatype Policy = Policy(nodeOk: Node -> bool, edgeOk: Edge -> bool, size: Graph -> nat)

  datatype State = State(g: Graph, digest: Hash, maxUpdated: Instant, disk: Graph)

  // ---------- step functions ----------

  function Stamp(maxUpdated: Instant, now: Instant): Instant {
    if now > maxUpdated then now else maxUpdated + 1
  }

  function IndexOf(nodes: seq<Node>, id: string): nat {
    if nodes == [] || nodes[0].id == id then 0 else 1 + IndexOf(nodes[1..], id)
  }

  function MaxStamp(nodes: seq<Node>, m: Instant): Instant {
    if nodes == [] then m
    else
      var r := MaxStamp(nodes[..|nodes| - 1], m);
      var u := nodes[|nodes| - 1].updatedAt;
      if u > r then u else r
  }

  function Persisted(s: State, saveOk: bool): State {
    if saveOk then s.(digest := DigestOf(s.g), disk := s.g) else s
  }

  function WithStatus(n: Node): Node { if n.status == "" then n.(status := "active") else n }

  /** The node a create stores. */
  function Created(origin: string, n: Node, now: Instant, stamp: Instant, freshId: string): Node {
    n.(id := if n.id == "" then freshId else n.id,
       provenance := Provenance(origin, if n.provenance.source == "" then "manual" else n.provenance.source, now),
       rev := 1, updatedAt := stamp)
  }

  /** The node an update stores over `prev`. */
  function Updated(prev: Node, n: Node, stamp: Instant): Node {
    n.(id := prev.id, provenance := prev.provenance, rev := (prev.rev + 1) % WORD, updatedAt := stamp)
  }

  /** The node slice after the write, and the version it gains. */
  function Candidate(nodes: seq<Node>, origin: string, n: Node, now: Instant, stamp: Instant, freshId: string)
    : (seq<Node>, Node)
  {
    var i := IndexOf(nodes, n.id);
    if i < |nodes| then
      var v := Updated(nodes[i], n, stamp);
      (nodes[i := v], v)
    else
      var v := Created(origin, n, now, stamp, freshId);
      (nodes + [v], v)
  }

  /** A node write up to the point of saving: refused, or in the graph. */
  datatype Staging = Refused(s: State, error: Error) | Staged(s: State, node: Node)

  function Stage(p: Policy, s: State, origin: string, node: Node, now: Instant, freshId: string): Staging {
    var n := WithStatus(node);
    if origin == "" then Refused(s, NoOrigin)
    else if !p.nodeOk(n) then Refused(s, Invalid)
    else if IndexOf(s.g.nodes, n.id) == |s.g.nodes| >= MAX_NODES then Refused(s, CapExceeded)
    else
      var stamp := Stamp(s.maxUpdated, now);
      var c := Candidate(s.g.nodes, origin, n, now, stamp, freshId);
      Fit(p, s, s.(g := s.g.(nodes := c.0), maxUpdated := stamp), c.1)
  }

  /** A candidate state that serializes too large is dropped, but its stamp is spent. */
  function Fit(p: Policy, s: State, t: State, v: Node): Staging {
    if p.size(t.g) > MAX_SERIALIZED_BYTES then Refused(s.(maxUpdated := t.maxUpdated), CapExceeded) else Staged(t, v)
  }

  function Saved(staging: Staging, saveOk: bool): (State, Result<Node, Error>) {
    match staging
    case Refused(s, error) => (s, Err(error))
    case Staged(s, node) => (Persisted(s, saveOk), if saveOk then Ok(node) else Err(SaveFailed))
  }

  function WriteNode(p: Policy, s: State, origin: string, node: Node, now: Instant, freshId: string, saveOk: bool)
    : (State, Result<Node, Error>)
  {
    Saved(Stage(p, s, origin, node, now, freshId), saveOk)
  }

  function WriteEdge(p: Policy, s: State, origin: string, edge: Edge, now: Instant, saveOk: bool)
    : (State, Result<bool, Error>)
  {
    var e := edge.(createdAt := now, createdBy := origin);
    if origin == "" then (s, Err(NoOrigin))
    else if !p.edgeOk(edge) then (s, Err(Invalid))
    else if exists x :: x in s.g.edges && EdgeKey(x) == EdgeKey(edge) then (s, Ok(false))
    else if |s.g.edges| >= MAX_EDGES then (s, Err(CapExceeded))
    else if p.size(s.g.(edges := s.g.edges + [e])) > MAX_SERIALIZED_BYTES then (s, Err(CapExceeded))
    else
      (Persisted(s.(g := s.g.(edges := s.g.edges + [e])), saveOk), if saveOk then Ok(true) else Err(SaveFailed))
  }

  /** The digest-gated merge shared by gossip and merge-import: the state, whether the
      graph changed, and whether the save failed. */
  ghost function MergeIn(h: Fingerprint, s: State, remote: Graph, saveOk: bool): (State, bool) {
    var m := Merged(h, s.g, remote);
    if DigestOf(m) == s.digest then (s, false)
    else (Persisted(s.(g := m, maxUpdated := MaxStamp(m.nodes, s.maxUpdated)), saveOk), true)
  }

  ghost function Replaced(h: Fingerprint, s: State, g: Graph, saveOk: bool): State {
    var m := Merged(h, g, Plain(None));
    Persisted(s.(g := m, maxUpdated := MaxStamp(m.nodes, 0)), saveOk)
  }

  ghost function Loaded(g: Graph): State { State(g, DigestOf(g), MaxStamp(g.nodes, 0), g) }

  // ---------- the class ----------

  class Service {
    const h: Fingerprint
    const policy: Policy
    var g: Graph
    var digest: Hash
    var maxUpdated: Instant
    var disk: Graph

    function View(): State
      reads this
    {
      State(g, digest, maxUpdated, disk)
    }

    constructor (h: Fingerprint, policy: Policy, stored: Option<Graph>)
      ensures this.h == h && this.policy == policy
      ensures View() == Loaded(Plain(stored))
    {
      this.h, this.policy := h, policy;
      var loaded := Plain(stored);
      g, disk := loaded, loaded;
      digest, maxUpdated := Sha256(""), 0;
      new;
      digest := Digest(Some(g));
      maxUpdated := Highest(g.nodes, 0);
    }

    static method Highest(nodes: seq<Node>, start: Instant) returns (m: Instant)
      ensures m == MaxStamp(nodes, start)
    {
      m := start;
      for i := 0 to |nodes|
        invariant m == MaxStamp(nodes[..i], start)
      {
        assert nodes[..i + 1][..i] == nodes[..i];
        if nodes[i].updatedAt > m { m := nodes[i].updatedAt; }
      }
      assert nodes[..|nodes|] == nodes;
    }

    static method Find(nodes: seq<Node>, id: string) returns (idx: nat)
      ensures idx == IndexOf(nodes, id) <= |nodes|
    {
      idx := 0;
      while idx < |nodes| && nodes[idx].id != id
        invariant idx <= |nodes|
        invariant IndexOf(nodes, id) == idx + IndexOf(nodes[idx..], id)
      {
        assert nodes[idx..][1..] == nodes[idx + 1..];
        idx := idx + 1;
      }
    }

    method StampLocked(now: Instant) returns (ts: Instant)
      modifies this`maxUpdated
      ensures ts == maxUpdated == Stamp(old(maxUpdated), now)
    {
      ts := now;
      if !(ts > maxUpdated) { ts := maxUpdated + 1; }
      maxUpdated := ts;
    }

    method PersistLocked(saveOk: bool)
      modifies this`digest, this`disk
      ensures View() == Persisted(old(View()), saveOk)
    {
      if saveOk {
        disk := g;
        digest := Digest(Some(g));
      }
    }

    method AddOrUpdateNode(origin: string, node: Node, now: Instant, freshId: string, saveOk: bool)
      returns (r: Result<Node, Error>)
      modifies this
      ensures (View(), r) == WriteNode(policy, old(View()), origin, node, now, freshId, saveOk)
    {
      if origin == "" { return Err(NoOrigin); }
      var n := node;
      if n.status == "" { n := n.(status := "active"); }
      if !policy.nodeOk(n) { return Err(Invalid); }
      var idx := Find(g.nodes, n.id);
      if idx == |g.nodes| {
        if |g.nodes| >= MAX_NODES { return Err(CapExceeded); }
        if n.id == "" { n := n.(id := freshId); }
        var src := n.provenance.source;
        if src == "" { src := "manual"; }
        n := n.(provenance := Provenance(origin, src, now), rev := 1);
        var ts := StampLocked(now);
        n := n.(updatedAt := ts);
        assert n == Created(origin, WithStatus(node), now, ts, freshId);
        var candidate := g.nodes + [n];
        if policy.size(g.(nodes := candidate)) > MAX_SERIALIZED_BYTES { return Err(CapExceeded); }
        g := g.(nodes := candidate);
      } else {
        var stored := g.nodes[idx];
        n := n.(id := stored.id, provenance := stored.provenance, rev := (stored.rev + 1) % WORD);
        var ts := StampLocked(now);
        n := n.(updatedAt := ts);
        assert n == Updated(stored, WithStatus(node), ts);
        var candidate := g.nodes[idx := n];
        if policy.size(g.(nodes := candidate)) > MAX_SERIALIZED_BYTES { return Err(CapExceeded); }
        g := g.(nodes := candidate);
      }
      assert Stage(policy, old(View()), origin, node, now, freshId) == Staged(View(), n);
      PersistLocked(saveOk);
      r := if saveOk then Ok(n) else Err(SaveFailed);
    }

    method AddEdge(origin: string, edge: Edge, now: Instant, saveOk: bool) returns (r: Result<bool, Error>)
      modifies this
      ensures (View(), r) == WriteEdge(policy, old(View()), origin, edge, now, saveOk)
    {
      if origin == "" { return Err(NoOrigin); }
      if !policy.edgeOk(edge) { return Err(Invalid); }
      for i := 0 to |g.edges|
        invariant forall x :: x in g.edges[..i] ==> EdgeKey(x) != EdgeKey(edge)
      {
        if EdgeKey(g.edges[i]) == EdgeKey(edge) { return Ok(false); }
      }
      if |g.edges| >= MAX_EDGES { return Err(CapExceeded); }
      var e := edge.(createdAt := now, createdBy := origin);
      var candidate := g.edges + [e];
      if policy.size(g.(edges := candidate)) > MAX_SERIALIZED_BYTES { return Err(CapExceeded); }
      g := g.(edges := candidate);
      PersistLocked(saveOk);
      r := if saveOk then Ok(true) else Err(SaveFailed);
    }

    method MergeLocked(remote: Option<Graph>, saveOk: bool) returns (changed: bool)
      modifies this
      ensures (View(), changed) == MergeIn(h, old(View()), Plain(remote), saveOk)
    {
      var merged := Merge(h, Some(g), remote);
      var mergedDigest := Digest(Some(merged));
      if mergedDigest == digest { return false; }
      g := merged;
      maxUpdated := Highest(merged.nodes, maxUpdated);
      PersistLocked(saveOk);
      changed := true;
    }

    /** A merge that changed the graph says so even when its save fails. */
    method ApplyRemote(remote: Option<Graph>, saveOk: bool) returns (changed: bool, error: Option<Error>)
      modifies this
      ensures remote.None? ==> View() == old(View()) && !changed
      ensures remote.Some? ==> (View(), changed) == MergeIn(h, old(View()), remote.value, saveOk)
      ensures error == if changed && !saveOk then Some(SaveFailed) else None
    {
      if remote.None? { return false, None; }
      changed := MergeLocked(remote, saveOk);
      error := if changed && !saveOk then Some(SaveFailed) else None;
    }

    /** Replace mode reports a change in every case, an absent graph included. */
    method ImportGraph(imported: Option<Graph>, mode: string, saveOk: bool)
      returns (changed: bool, error: Option<Error>)
      modifies this
      ensures mode in {"", "merge"} ==>
                && (View(), changed) == MergeIn(h, old(View()), Plain(imported), saveOk)
                && error == if changed && !saveOk then Some(SaveFailed) else None
      ensures mode == "replace" && imported.Some? ==>
                && View() == Replaced(h, old(View()), imported.value, saveOk)
                && changed && error == if saveOk then None else Some(SaveFailed)
      ensures mode == "replace" && imported.None? ==> View() == old(View()) && changed && error == Some(NilGraph)
      ensures mode !in {"", "merge", "replace"} ==> View() == old(View()) && !changed && error == Some(UnknownMode)
    {
      if mode == "" || mode == "merge" {
        changed := MergeLocked(imported, saveOk);
        error := if changed && !saveOk then Some(SaveFailed) else None;
      } else if mode == "replace" {
        error := Replace(imported, saveOk);
        changed := true;
      } else {
        changed, error := false, Some(UnknownMode);
      }
    }

    method Replace(imported: Option<Graph>, saveOk: bool) returns (error: Option<Error>)
      modifies this
      ensures imported.Some? ==>
                View() == Replaced(h, old(View()), imported.value, saveOk)
                && error == if saveOk then None else Some(SaveFailed)
      ensures imported.None? ==> View() == old(View()) && error == Some(NilGraph)
    {
      if imported.None? { return Some(NilGraph); }
      g := Merge(h, imported, None);
      maxUpdated := Highest(g.nodes, 0);
      PersistLocked(saveOk);
      error := if saveOk then None else Some(SaveFailed);
    }
  }

  /** What one `MaybeSync` does to the service, given the digest on the heartbeat and
      the graph a fetch would return. */
  ghost function Synced(h: Fingerprint, s: State, theirs: Option<Hash>, fetched: Option<Graph>, saveOk: bool): State {
    if theirs.None? || theirs.value == s.digest || fetched.None? then s
    else MergeIn(h, s, fetched.value, saveOk).0
  }

  class Syncer {
    const service: Service
    var inflight: set<string>

    constructor (service: Service)
      ensures this.service == service && inflight == {}
    {
      this.service, inflight := service, {};
    }

    method MaybeSync(sender: string, theirs: Option<Hash>, addr: Option<string>, fetched: Option<Graph>, saveOk: bool)
      returns (triggered: bool)
      modifies this, service
      ensures inflight == old(inflight)
      ensures triggered <==> theirs.Some? && theirs.value != old(service.digest)
                             && sender !in old(inflight) && addr.Some?
      ensures service.View()
              == if triggered then Synced(service.h, old(service.View()), theirs, fetched, saveOk)
                 else old(service.View())
    {
      if theirs.None? || service.digest == theirs.value { return false; }
      if sender in inflight { return false; }
      inflight := inflight + {sender};
      if addr.None? {
        inflight := inflight - {sender};
        return false;
      }
      var _, _ := service.ApplyRemote(fetched, saveOk);
      inflight := inflight - {sender};
      return true;
    }
  }

  // ---------- what the steps keep ----------

  /** Unique ids and edge keys, every stored stamp at or below the high-water mark. */
  ghost predicate Inv(s: State) {
    Unique(s.g) && forall n :: n in s.g.nodes ==> n.updatedAt <= s.maxUpdated
  }

  /** The cached digest and the disk agree with the graph. */
  ghost predicate InSync(s: State) { s.digest == DigestOf(s.g) && s.disk == s.g }

  lemma {:induction false} MaxStampBounds(nodes: seq<Node>, m: Instant)
    ensures MaxStamp(nodes, m) >= m
    ensures forall n :: n in nodes ==> n.updatedAt <= MaxStamp(nodes, m)
    ensures MaxStamp(nodes, m) == m || exists n :: n in nodes && n.updatedAt == MaxStamp(nodes, m)
  {
    if nodes != [] {
      var t, x := nodes[..|nodes| - 1], nodes[|nodes| - 1];
      assert nodes == t + [x];
      MaxStampBounds(t, m);
    }
  }

  lemma {:induction false} IndexOfFinds(nodes: seq<Node>, id: string)
    ensures IndexOf(nodes, id) <= |nodes|
    ensures IndexOf(nodes, id) < |nodes| ==> nodes[IndexOf(nodes, id)].id == id
    ensures forall j :: 0 <= j < IndexOf(nodes, id) ==> nodes[j].id != id
  {
    if nodes != [] && nodes[0].id != id { IndexOfFinds(nodes[1..], id); }
  }

  /** `t` is `s` with the one new version `v`, stamped above everything `s` held. */
  ghost predicate Gains(s: State, t: State, v: Node) {
    && Inv(t) && t.g.edges == s.g.edges
    && NodesOf(t.g) == NodesOf(s.g)[v.id := v]
    && v in t.g.nodes && (forall n :: n in t.g.nodes ==> n == v || n in s.g.nodes)
    && s.maxUpdated < v.updatedAt == t.maxUpdated
  }

  /** A write that gets through stores exactly one new version, stamped above
      everything the replica held; any other write leaves the graph alone, except that a
      write whose save fails is in the graph all the same. */
  lemma WriteNodeEffect(p: Policy, s: State, origin: string, node: Node, now: Instant, freshId: string, saveOk: bool)
    requires Inv(s) && freshId !in NodesOf(s.g)
    ensures var (t, r) := WriteNode(p, s, origin, node, now, freshId, saveOk);
            && Inv(t) && t.maxUpdated >= s.maxUpdated
            && (r.Ok? ==> Gains(s, t, r.value) && now <= t.maxUpdated)
            && (r.Err? && r.error != SaveFailed ==> t == s.(maxUpdated := t.maxUpdated))
  {
    StageEffect(p, s, origin, node, now, freshId);
    SavedEffect(s, Stage(p, s, origin, node, now, freshId), now, saveOk);
  }

  /** What staging a write gives: `s` with one new version, or `s` with at most a later mark. */
  ghost predicate Sound(s: State, staging: Staging, now: Instant) {
    match staging
    case Refused(t, error) => t == s.(maxUpdated := t.maxUpdated) && t.maxUpdated >= s.maxUpdated && error != SaveFailed
    case Staged(t, v) => Gains(s, t, v) && now <= t.maxUpdated
  }

  lemma StageEffect(p: Policy, s: State, origin: string, node: Node, now: Instant, freshId: string)
    requires Inv(s) && freshId !in NodesOf(s.g)
    ensures Sound(s, Stage(p, s, origin, node, now, freshId), now)
  {
    var n, stamp := WithStatus(node), Stamp(s.maxUpdated, now);
    var c := Candidate(s.g.nodes, origin, n, now, stamp, freshId);
    var t := s.(g := s.g.(nodes := c.0), maxUpdated := stamp);
    assert Sound(s, Fit(p, s, t, c.1), now) by {
      CandidateGains(s, origin, n, now, stamp, freshId);
      FitSound(p, s, t, c.1, now);
    }
    StageShape(p, s, origin, node, now, freshId);
  }

  lemma StageShape(p: Policy, s: State, origin: string, node: Node, now: Instant, freshId: string)
    ensures var stamp := Stamp(s.maxUpdated, now);
            var c := Candidate(s.g.nodes, origin, WithStatus(node), now, stamp, freshId);
            var staging := Stage(p, s, origin, node, now, freshId);
            || (staging.Refused? && staging.s == s && staging.error != SaveFailed)
            || staging == Fit(p, s, s.(g := s.g.(nodes := c.0), maxUpdated := stamp), c.1)
  {
  }

  lemma FitSound(p: Policy, s: State, t: State, v: Node, now: Instant)
    requires Gains(s, t, v) && now <= t.maxUpdated
    ensures Sound(s, Fit(p, s, t, v), now)
  {
  }

  lemma SavedEffect(s: State, staging: Staging, now: Instant, saveOk: bool)
    requires Inv(s) && Sound(s, staging, now)
    ensures var (t, r) := Saved(staging, saveOk);
            && Inv(t) && t.maxUpdated >= s.maxUpdated
            && (r.Ok? ==> Gains(s, t, r.value) && now <= t.maxUpdated)
            && (r.Err? && r.error != SaveFailed ==> t == s.(maxUpdated := t.maxUpdated))
  {
  }

  lemma CandidateGains(s: State, origin: string, n: Node, now: Instant, stamp: Instant, freshId: string)
    requires Inv(s) && freshId !in NodesOf(s.g) && stamp > s.maxUpdated
    ensures var c := Candidate(s.g.nodes, origin, n, now, stamp, freshId);
            Gains(s, s.(g := s.g.(nodes := c.0), maxUpdated := stamp), c.1)
  {
    CandidateEffect(s.g.nodes, origin, n, now, stamp, freshId);
  }

  /** The stored version is the caller's content under the service's own record: an id
      already held keeps its author and counts up from the stored revision, whatever the
      caller sent; a new one is its caller's, at revision 1. */
  lemma WrittenVersion(p: Policy, s: State, origin: string, node: Node, now: Instant, freshId: string)
    requires Inv(s) && WriteNode(p, s, origin, node, now, freshId, true).1.Ok?
    ensures var v := WriteNode(p, s, origin, node, now, freshId, true).1.value;
            && v == WithStatus(node).(id := v.id, provenance := v.provenance, rev := v.rev, updatedAt := v.updatedAt)
            && if node.id in NodesOf(s.g) then
                 var prev := NodesOf(s.g)[node.id];
                 v.id == node.id && v.provenance == prev.provenance && v.rev == (prev.rev + 1) % WORD
               else
                 && v.id == (if node.id == "" then freshId else node.id) && v.rev == 1
                 && v.provenance.author == origin && v.provenance.createdAt == now
  {
    StageShape(p, s, origin, node, now, freshId);
    CandidateVersion(s.g.nodes, origin, WithStatus(node), now, Stamp(s.maxUpdated, now), freshId);
  }

  lemma CandidateVersion(nodes: seq<Node>, origin: string, n: Node, now: Instant, stamp: Instant, freshId: string)
    requires Distinct(nodes, NodeId)
    ensures var v := Candidate(nodes, origin, n, now, stamp, freshId).1; var held := LastMap(nodes, NodeId);
            && v == n.(id := v.id, provenance := v.provenance, rev := v.rev, updatedAt := v.updatedAt)
            && if n.id in held then
                 v.id == n.id && v.provenance == held[n.id].provenance && v.rev == (held[n.id].rev + 1) % WORD
               else
                 && v.id == (if n.id == "" then freshId else n.id) && v.rev == 1
                 && v.provenance.author == origin && v.provenance.createdAt == now
  {
    var i := IndexOf(nodes, n.id);
    IndexOfFinds(nodes, n.id);
    if i < |nodes| {
      DistinctMember(nodes, NodeId, nodes[i]);
    } else {
      AbsentId(nodes, n.id);
    }
  }

  /** A write whose save fails reaches the same graph as one whose save succeeds; only
      the digest and the disk stay behind. */
  lemma FailedSaveStillWrites(p: Policy, s: State, origin: string, node: Node, now: Instant, freshId: string)
    requires WriteNode(p, s, origin, node, now, freshId, false).1 == Err(SaveFailed)
    ensures WriteNode(p, s, origin, node, now, freshId, true).1.Ok?
    ensures WriteNode(p, s, origin, node, now, freshId, false).0
            == WriteNode(p, s, origin, node, now, freshId, true).0.(digest := s.digest, disk := s.disk)
  {
  }

  lemma CandidateEffect(nodes: seq<Node>, origin: string, n: Node, now: Instant, stamp: Instant, freshId: string)
    requires Distinct(nodes, NodeId) && freshId !in LastMap(nodes, NodeId)
    ensures var (t, v) := Candidate(nodes, origin, n, now, stamp, freshId);
            && Distinct(t, NodeId) && v in t && v.updatedAt == stamp
            && LastMap(t, NodeId) == LastMap(nodes, NodeId)[v.id := v]
            && forall x :: x in t ==> x == v || x in nodes
  {
    var i := IndexOf(nodes, n.id);
    IndexOfFinds(nodes, n.id);
    if i < |nodes| {
      var v := Updated(nodes[i], n, stamp);
      ReplaceNode(nodes, i, v);
      assert nodes[i := v][i] == v;
    } else {
      AbsentId(nodes, n.id);
      LastMapAppend(nodes, Created(origin, n, now, stamp, freshId), NodeId);
    }
  }

  lemma AbsentId(nodes: seq<Node>, id: string)
    requires IndexOf(nodes, id) == |nodes|
    ensures id !in LastMap(nodes, NodeId)
  {
    IndexOfFinds(nodes, id);
    LastMapFacts(nodes, NodeId);
  }

  lemma ReplaceNode(nodes: seq<Node>, i: nat, v: Node)
    requires Distinct(nodes, NodeId) && i < |nodes| && v.id == nodes[i].id
    ensures Distinct(nodes[i := v], NodeId)
    ensures LastMap(nodes[i := v], NodeId) == LastMap(nodes, NodeId)[v.id := v]
  {
    ReplaceInMap(nodes, i, v);
    var u := nodes[i := v];
    forall a, b | 0 <= a < b < |u| ensures NodeId(u[a]) != NodeId(u[b]) {
      assert NodeId(nodes[a]) != NodeId(nodes[b]);
    }
  }

  lemma {:induction false} ReplaceInMap(nodes: seq<Node>, i: nat, v: Node)
    requires Distinct(nodes, NodeId) && i < |nodes| && v.id == nodes[i].id
    ensures LastMap(nodes[i := v], NodeId) == LastMap(nodes, NodeId)[v.id := v]
  {
    var t := nodes[..|nodes| - 1];
    if i == |t| {
      assert nodes[i := v][..|t|] == t;
    } else {
      ReplaceInMap(t, i, v);
      var last := nodes[|t|];
      assert NodeId(last) != NodeId(nodes[i]);
      assert nodes[i := v][..|t|] == t[i := v] && nodes[i := v][|t|] == last;
      assert LastMap(nodes[i := v], NodeId) == LastMap(t[i := v], NodeId)[last.id := last];
    }
  }

  /** No lost local edit: the stored version beats everything seen before, and merging
      any graph of versions seen before the write, in either direction, keeps it. */
  lemma LocalEditSurvives(h: Fingerprint, p: Policy, s: State, origin: string, node: Node, now: Instant,
                          freshId: string, saveOk: bool, seen: Graph)
    requires CollisionFree(h) && Inv(s) && freshId !in NodesOf(s.g)
    requires WriteNode(p, s, origin, node, now, freshId, saveOk).1.Ok?
    requires UniqueIds(seen) && forall n :: n in seen.nodes ==> n.updatedAt <= s.maxUpdated
    ensures var (t, r) := WriteNode(p, s, origin, node, now, freshId, saveOk);
            var v := r.value;
            && (forall n :: n in s.g.nodes || n in seen.nodes ==> Wins(h, v, n))
            && v.id in NodesOf(Merged(h, t.g, seen)) && NodesOf(Merged(h, t.g, seen))[v.id] == v
            && v.id in NodesOf(Merged(h, seen, t.g)) && NodesOf(Merged(h, seen, t.g))[v.id] == v
  {
    WriteNodeEffect(p, s, origin, node, now, freshId, saveOk);
    var w := WriteNode(p, s, origin, node, now, freshId, saveOk);
    GainBeats(h, s, w.0, w.1.value, seen);
    BestSurvivesMerge(h, w.0.g, seen, w.1.value);
  }

  lemma GainBeats(h: Fingerprint, s: State, t: State, v: Node, seen: Graph)
    requires Inv(s) && Gains(s, t, v) && forall n :: n in seen.nodes ==> n.updatedAt <= s.maxUpdated
    ensures forall n :: n in s.g.nodes || n in seen.nodes ==> Wins(h, v, n)
    ensures v.id in NodesOf(t.g) && NodesOf(t.g)[v.id] == v
  {
  }

  lemma BestSurvivesMerge(h: Fingerprint, g: Graph, seen: Graph, v: Node)
    requires CollisionFree(h) && UniqueIds(g) && UniqueIds(seen)
    requires v.id in NodesOf(g) && NodesOf(g)[v.id] == v
    requires forall n :: n in seen.nodes ==> Wins(h, v, n)
    ensures v.id in NodesOf(Merged(h, g, seen)) && NodesOf(Merged(h, g, seen))[v.id] == v
    ensures v.id in NodesOf(Merged(h, seen, g)) && NodesOf(Merged(h, seen, g))[v.id] == v
  {
    UniqueIdsLastIsBest(h, g);
    UniqueIdsLastIsBest(h, seen);
    MergedView(h, g, seen);
    MergedView(h, seen, g);
    LastMapFacts(seen.nodes, NodeId);
    BestSurvivesJoin(h, NodesOf(g), NodesOf(seen), v);
  }

  lemma BestSurvivesJoin(h: Fingerprint, m: NodeMap, n: NodeMap, v: Node)
    requires CollisionFree(h) && v.id in m && m[v.id] == v && (v.id in n ==> Wins(h, v, n[v.id]))
    ensures v.id in Join(h, m, n) && Join(h, m, n)[v.id] == v
    ensures v.id in Join(h, n, m) && Join(h, n, m)[v.id] == v
  {
    WinsIsStrictTotalOrder(h);
  }

  /** Versions only rise: no write, edge write or merge lowers the version of any id,
      whether or not it succeeds. */
  lemma WriteNodeRises(h: Fingerprint, p: Policy, s: State, origin: string, node: Node, now: Instant,
                       freshId: string, saveOk: bool)
    requires Inv(s) && freshId !in NodesOf(s.g)
    ensures Below(h, NodesOf(s.g), NodesOf(WriteNode(p, s, origin, node, now, freshId, saveOk).0.g))
  {
    StageEffect(p, s, origin, node, now, freshId);
    SavedRises(h, s, Stage(p, s, origin, node, now, freshId), now, saveOk);
  }

  lemma SavedRises(h: Fingerprint, s: State, staging: Staging, now: Instant, saveOk: bool)
    requires Inv(s) && Sound(s, staging, now)
    ensures Below(h, NodesOf(s.g), NodesOf(Saved(staging, saveOk).0.g))
  {
    LastMapFacts(s.g.nodes, NodeId);
  }

  lemma MergeInEffect(h: Fingerprint, s: State, remote: Graph, saveOk: bool)
    requires CollisionFree(h) && Inv(s)
    ensures var (t, changed) := MergeIn(h, s, remote, saveOk);
            && Inv(t) && t.maxUpdated >= s.maxUpdated
            && Below(h, NodesOf(s.g), NodesOf(t.g))
            && EdgeKeys(s.g) <= EdgeKeys(t.g)
            && (changed ==> t.g == Merged(h, s.g, remote))
            && (!changed ==> t == s && DigestOf(Merged(h, s.g, remote)) == s.digest)
  {
    MergedIsAbove(h, s.g, remote);
    MaxStampBounds(Merged(h, s.g, remote).nodes, s.maxUpdated);
  }

  lemma MergedIsAbove(h: Fingerprint, g: Graph, remote: Graph)
    requires CollisionFree(h) && Unique(g)
    ensures var m := Merged(h, g, remote); Unique(m) && Below(h, NodesOf(g), NodesOf(m)) && EdgeKeys(g) <= EdgeKeys(m)
  {
    MergedView(h, g, remote);
    AscendingDistinct(Merged(h, g, remote).edges, EdgeKey);
  }

  lemma WriteEdgeEffect(p: Policy, s: State, origin: string, edge: Edge, now: Instant, saveOk: bool)
    requires Inv(s)
    ensures var (t, r) := WriteEdge(p, s, origin, edge, now, saveOk);
            && Inv(t) && t.maxUpdated == s.maxUpdated && t.g.nodes == s.g.nodes
            && (r == Ok(true) ==>
                  && EdgeKey(edge) !in EdgeKeys(s.g)
                  && EdgeKeys(t.g) == EdgeKeys(s.g) + {EdgeKey(edge)}
                  && t.g.edges == s.g.edges + [edge.(createdAt := now, createdBy := origin)])
            && (r == Ok(false) ==> t == s && EdgeKey(edge) in EdgeKeys(s.g))
            && (r.Err? && r.error != SaveFailed ==> t == s)
  {
    var e := edge.(createdAt := now, createdBy := origin);
    assert EdgeKey(e) == EdgeKey(edge);
    if !(exists x :: x in s.g.edges && EdgeKey(x) == EdgeKey(edge)) {
      var t := s.g.edges + [e];
      assert KeySet(t, EdgeKey) == KeySet(s.g.edges, EdgeKey) + {EdgeKey(e)};
      forall i, j | 0 <= i < j < |t| ensures EdgeKey(t[i]) != EdgeKey(t[j]) {
        if j == |s.g.edges| { assert s.g.edges[i] in s.g.edges; }
      }
    }
  }

  /** After every operation whose save succeeds the cached digest is the digest of the
      graph; and any persisting step repairs a stale one. */
  lemma WritesKeepDigest(p: Policy, s: State, origin: string, node: Node, edge: Edge, now: Instant, freshId: string)
    ensures var w := WriteNode(p, s, origin, node, now, freshId, true); InSync(s) || w.1.Ok? ==> InSync(w.0)
    ensures var w := WriteEdge(p, s, origin, edge, now, true); InSync(s) || w.1 == Ok(true) ==> InSync(w.0)
  {
    StageShape(p, s, origin, node, now, freshId);
    SavedKeepsDigest(s, Stage(p, s, origin, node, now, freshId));
    EdgeKeepsDigest(p, s, origin, edge, now);
  }

  lemma EdgeKeepsDigest(p: Policy, s: State, origin: string, edge: Edge, now: Instant)
    ensures var w := WriteEdge(p, s, origin, edge, now, true); InSync(s) || w.1 == Ok(true) ==> InSync(w.0)
  {
  }

  lemma SavedKeepsDigest(s: State, staging: Staging)
    requires staging.Refused? ==> staging.s == s.(maxUpdated := staging.s.maxUpdated)
    ensures var w := Saved(staging, true); InSync(s) || w.1.Ok? ==> InSync(w.0)
  {
  }

  lemma MergesKeepDigest(h: Fingerprint, s: State, remote: Graph)
    ensures var w := MergeIn(h, s, remote, true); InSync(s) || w.1 ==> InSync(w.0)
    ensures InSync(Replaced(h, s, remote, true))
  {
  }

  /** A failed save is the one way out: the write is in the graph, the digest is the old
      one and no longer the graph's. */
  lemma FailedSaveLeavesDigestStale(p: Policy, s: State, origin: string, node: Node, now: Instant, freshId: string)
    requires Inv(s) && InSync(s) && freshId !in NodesOf(s.g)
    requires WriteNode(p, s, origin, node, now, freshId, false).1 == Err(SaveFailed)
    requires var t := WriteNode(p, s, origin, node, now, freshId, false).0; LineClean(s.g) && LineClean(t.g)
    ensures var t := WriteNode(p, s, origin, node, now, freshId, false).0;
            t.digest == s.digest && t.digest != DigestOf(t.g) && t.disk != t.g
  {
    FailedSaveStillWrites(p, s, origin, node, now, freshId);
    WriteNodeEffect(p, s, origin, node, now, freshId, true);
    var t := WriteNode(p, s, origin, node, now, freshId, false).0;
    var v := WriteNode(p, s, origin, node, now, freshId, true).1.value;
    DigestFaithful(s.g, t.g);
    assert VersionOf(v) in Versions(t.g);
    assert forall n :: n in s.g.nodes ==> VersionOf(n).updatedAt < VersionOf(v).updatedAt;
  }

  /** The same after an edge write. */
  lemma FailedEdgeSaveLeavesDigestStale(p: Policy, s: State, origin: string, edge: Edge, now: Instant)
    requires Inv(s) && InSync(s)
    requires WriteEdge(p, s, origin, edge, now, false).1 == Err(SaveFailed)
    requires var t := WriteEdge(p, s, origin, edge, now, false).0; LineClean(s.g) && LineClean(t.g)
    ensures var t := WriteEdge(p, s, origin, edge, now, false).0;
            t.digest == s.digest && t.digest != DigestOf(t.g) && t.disk != t.g
  {
    var t := WriteEdge(p, s, origin, edge, now, false).0;
    WriteEdgeEffect(p, s, origin, edge, now, true);
    WriteEdgeEffect(p, s, origin, edge, now, false);
    assert WriteEdge(p, s, origin, edge, now, true).0.g == t.g;
    DigestFaithful(s.g, t.g);
  }

  /** And after a merge, which happens only if the digest moves. */
  lemma FailedMergeLeavesDigestStale(h: Fingerprint, s: State, remote: Graph)
    requires MergeIn(h, s, remote, false).1
    ensures var t := MergeIn(h, s, remote, false).0;
            && t.g == Merged(h, s.g, remote) && t.digest == s.digest && t.digest != DigestOf(t.g)
            && t.disk == s.disk && (InSync(s) ==> t.disk != t.g)
  {
  }

  /** Replacing the graph leaves it stale exactly when versions or edge keys changed. */
  lemma FailedReplaceStaleIff(h: Fingerprint, s: State, g: Graph)
    requires CollisionFree(h) && Unique(s.g) && InSync(s)
    requires LineClean(s.g) && LineClean(Replaced(h, s, g, false).g)
    ensures var t := Replaced(h, s, g, false);
            && t.digest == s.digest
            && (t.digest != DigestOf(t.g) <==> Versions(t.g) != Versions(s.g) || EdgeKeys(t.g) != EdgeKeys(s.g))
  {
    var t := Replaced(h, s, g, false);
    MergedView(h, g, Plain(None));
    AscendingDistinct(t.g.edges, EdgeKey);
    DigestFaithful(s.g, t.g);
  }
}
