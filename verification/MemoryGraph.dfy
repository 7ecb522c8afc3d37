/** The Clan Memory graph: the last-writer-wins rule and the merge
    (src/cland/internal/memory/graph.go). */
module MemoryGraph {
  import opened Wrappers
  import opened Ordering
  import opened Keyed

  const FORMAT_VERSION: int := 1

  datatype Provenance = Provenance(author: string, source: string, createdAt: Instant)

  datatype Node = Node(id: string, kind: string, title: string, body: string, tags: seq<string>,
                       status: string, sessionId: string, provenance: Provenance,
                       updatedAt: Instant, rev: nat)

  datatype Edge = Edge(from: string, to: string, relation: string, createdAt: Instant, createdBy: string)

  datatype Graph = Graph(formatVersion: int, nodes: seq<Node>, edges: seq<Edge>)

  function NodeId(n: Node): string { n.id }

  function EdgeKey(e: Edge): string { e.from + "|" + e.to + "|" + e.relation }

  /** The SHA-256 of a node's canonical bytes, read as a number: hex strings of equal
      length compare as the numbers they spell. */
  type Fingerprint = Node -> nat

  ghost predicate CollisionFree(h: Fingerprint) {
    forall a, b :: h(a) == h(b) ==> a == b
  }

  /** `nodeWins`: `a` strictly beats `b`. */
  predicate Wins(h: Fingerprint, a: Node, b: Node) {
    if a.updatedAt != b.updatedAt then a.updatedAt > b.updatedAt
    else if a.rev != b.rev then a.rev > b.rev
    else h(a) > h(b)
  }

  lemma WinsIsStrictTotalOrder(h: Fingerprint)
    requires CollisionFree(h)
    ensures StrictOrder((a, b) => Wins(h, a, b))
    ensures forall a, b :: a != b ==> Wins(h, a, b) != Wins(h, b, a)
  {
    forall a, b | a != b ensures Wins(h, a, b) != Wins(h, b, a) {
      assert h(a) != h(b);
    }
  }

  // ---------- node maps ----------

  type NodeMap = map<string, Node>

  function Absorb(h: Fingerprint, m: NodeMap, n: Node): NodeMap {
    if n.id !in m || Wins(h, n, m[n.id]) then m[n.id := n] else m
  }

  function AbsorbAll(h: Fingerprint, m: NodeMap, s: seq<Node>): NodeMap {
    if s == [] then m else Absorb(h, AbsorbAll(h, m, s[..|s| - 1]), s[|s| - 1])
  }

  /** The winner of every id that occurs in `s`. */
  function BestMap(h: Fingerprint, s: seq<Node>): NodeMap { AbsorbAll(h, map[], s) }

  function Better(h: Fingerprint, a: Node, b: Node): Node { if Wins(h, b, a) then b else a }

  /** The pointwise last-writer-wins join. */
  function Join(h: Fingerprint, m: NodeMap, n: NodeMap): NodeMap {
    map k | k in m.Keys + n.Keys ::
      if k !in n then m[k] else if k !in m then n[k] else Better(h, m[k], n[k])
  }

  /** Every id of `m` is in `n`, at a version that `m`'s does not beat. */
  ghost predicate Below(h: Fingerprint, m: NodeMap, n: NodeMap) {
    forall k :: k in m ==> k in n && !Wins(h, m[k], n[k])
  }

  lemma JoinLaws(h: Fingerprint, a: NodeMap, b: NodeMap, c: NodeMap)
    requires CollisionFree(h)
    ensures Join(h, a, b) == Join(h, b, a)
    ensures Join(h, Join(h, a, b), c) == Join(h, a, Join(h, b, c))
    ensures Join(h, a, a) == a
  {
    JoinCommutative(h, a, b);
    JoinAssociative(h, a, b, c);
  }

  lemma BetterLaws(h: Fingerprint, x: Node, y: Node, z: Node)
    requires CollisionFree(h)
    ensures Better(h, x, y) == Better(h, y, x)
    ensures Better(h, Better(h, x, y), z) == Better(h, x, Better(h, y, z))
  {
    WinsIsStrictTotalOrder(h);
  }

  lemma JoinCommutative(h: Fingerprint, a: NodeMap, b: NodeMap)
    requires CollisionFree(h)
    ensures Join(h, a, b) == Join(h, b, a)
  {
    forall k | k in a && k in b ensures Better(h, a[k], b[k]) == Better(h, b[k], a[k]) {
      BetterLaws(h, a[k], b[k], b[k]);
    }
  }

  lemma JoinAssociative(h: Fingerprint, a: NodeMap, b: NodeMap, c: NodeMap)
    requires CollisionFree(h)
    ensures Join(h, Join(h, a, b), c) == Join(h, a, Join(h, b, c))
  {
    var l, r := Join(h, Join(h, a, b), c), Join(h, a, Join(h, b, c));
    assert l.Keys == r.Keys;
    forall k | k in l ensures l[k] == r[k] {
      if k in a && k in b && k in c { BetterLaws(h, a[k], b[k], c[k]); }
    }
  }

  lemma {:induction false} AbsorbAllIsJoin(h: Fingerprint, m: NodeMap, s: seq<Node>)
    requires CollisionFree(h)
    ensures AbsorbAll(h, m, s) == Join(h, m, BestMap(h, s))
  {
    if s == [] {
      assert Join(h, m, map[]) == m;
    } else {
      var t, x := s[..|s| - 1], s[|s| - 1];
      AbsorbAllIsJoin(h, m, t);
      AbsorbIsJoin(h, AbsorbAll(h, m, t), x);
      AbsorbIsJoin(h, BestMap(h, t), x);
      JoinAssociative(h, m, BestMap(h, t), map[x.id := x]);
    }
  }

  lemma AbsorbIsJoin(h: Fingerprint, m: NodeMap, n: Node)
    ensures Absorb(h, m, n) == Join(h, m, map[n.id := n])
  {
  }

  lemma {:induction false} BestMapFacts(h: Fingerprint, s: seq<Node>)
    ensures BestMap(h, s).Keys == KeySet(s, NodeId)
    ensures KeyedBy(BestMap(h, s), NodeId)
    ensures forall k :: k in BestMap(h, s) ==> BestMap(h, s)[k] in s
  {
    if s != [] {
      var t, x := s[..|s| - 1], s[|s| - 1];
      BestMapFacts(h, t);
      assert s == t + [x];
      KeySetSnoc(s, NodeId);
    }
  }

  /** No element of the slice beats the winner of its id. */
  lemma {:induction false} BestMapUnbeaten(h: Fingerprint, s: seq<Node>, n: Node)
    requires n in s
    ensures n.id in BestMap(h, s) && !Wins(h, n, BestMap(h, s)[n.id])
  {
    var t, x := s[..|s| - 1], s[|s| - 1];
    assert s == t + [x];
    BestMapFacts(h, t);
    if n in t { BestMapUnbeaten(h, t, n); }
  }

  lemma {:induction false} DistinctIsBest(h: Fingerprint, s: seq<Node>)
    requires Distinct(s, NodeId)
    ensures BestMap(h, s) == LastMap(s, NodeId)
  {
    if s != [] {
      DistinctIsBest(h, s[..|s| - 1]);
      LastMapFacts(s[..|s| - 1], NodeId);
    }
  }

  // ---------- Merge ----------

  function NodesOf(g: Graph): NodeMap { LastMap(g.nodes, NodeId) }

  /** The edges of `g` by key, the first occurrence of a key kept. */
  function EdgesOf(g: Graph): map<string, Edge> { AddNew(map[], g.edges, EdgeKey) }

  ghost function EdgeKeys(g: Graph): set<string> { KeySet(g.edges, EdgeKey) }

  ghost predicate UniqueIds(g: Graph) { Distinct(g.nodes, NodeId) }

  /** The last node of every id in the slice is also its winner. Unique ids suffice. */
  ghost predicate LastIsBest(h: Fingerprint, g: Graph) { NodesOf(g) == BestMap(h, g.nodes) }

  /** Strictly ascending ids and edge keys. */
  ghost predicate Canonical(g: Graph) {
    Ascending(g.nodes, NodeId) && Ascending(g.edges, EdgeKey)
  }

  function Plain(g: Option<Graph>): Graph {
    if g.Some? then g.value else Graph(FORMAT_VERSION, [], [])
  }

  function Max(a: int, b: int): int { if a < b then b else a }

  ghost function MergedNodes(h: Fingerprint, a: Graph, b: Graph): (m: NodeMap)
    ensures KeyedBy(m, NodeId)
  {
    MergedNodesKeyed(h, NodesOf(a), a.nodes, b.nodes);
    AbsorbAll(h, NodesOf(a), b.nodes)
  }

  lemma {:induction false} MergedNodesKeyed(h: Fingerprint, m: NodeMap, a: seq<Node>, b: seq<Node>)
    requires m == LastMap(a, NodeId)
    ensures KeyedBy(AbsorbAll(h, m, b), NodeId)
  {
    LastMapFacts(a, NodeId);
    if b != [] { MergedNodesKeyed(h, m, a, b[..|b| - 1]); }
  }

  ghost function MergedEdges(a: Graph, b: Graph): (m: map<string, Edge>)
    ensures KeyedBy(m, EdgeKey)
  {
    AddNewFacts(map[], a.edges, EdgeKey);
    AddNewFacts(EdgesOf(a), b.edges, EdgeKey);
    AddNew(EdgesOf(a), b.edges, EdgeKey)
  }

  ghost function Merged(h: Fingerprint, a: Graph, b: Graph): Graph {
    Graph(Max(FORMAT_VERSION, Max(a.formatVersion, b.formatVersion)),
          Listing(MergedNodes(h, a, b), NodeId),
          Listing(MergedEdges(a, b), EdgeKey))
  }

  method Merge(h: Fingerprint, local: Option<Graph>, remote: Option<Graph>) returns (out: Graph)
    ensures out == Merged(h, Plain(local), Plain(remote))
  {
    var formatVersion := FORMAT_VERSION;
    if local.Some? && local.value.formatVersion > formatVersion {
      formatVersion := local.value.formatVersion;
    }
    if remote.Some? && remote.value.formatVersion > formatVersion {
      formatVersion := remote.value.formatVersion;
    }
    var nodes := MergeNodes(h, Plain(local).nodes, Plain(remote).nodes);
    var sortedNodes := SortedValues(nodes, NodeId, MergedNodes(h, Plain(local), Plain(remote)));
    var edges := MergeEdges(Plain(local).edges, Plain(remote).edges);
    var sortedEdges := SortedValues(edges, EdgeKey, MergedEdges(Plain(local), Plain(remote)));
    out := Graph(formatVersion, sortedNodes, sortedEdges);
  }

  method MergeNodes(h: Fingerprint, local: seq<Node>, remote: seq<Node>) returns (nodes: NodeMap)
    ensures nodes == AbsorbAll(h, LastMap(local, NodeId), remote)
  {
    nodes := map[];
    for i := 0 to |local|
      invariant nodes == LastMap(local[..i], NodeId)
    {
      assert local[..i + 1][..i] == local[..i];
      nodes := nodes[local[i].id := local[i]];
    }
    assert local[..|local|] == local;
    for i := 0 to |remote|
      invariant nodes == AbsorbAll(h, LastMap(local, NodeId), remote[..i])
    {
      assert remote[..i + 1][..i] == remote[..i];
      var n := remote[i];
      if n.id !in nodes || Wins(h, n, nodes[n.id]) {
        nodes := nodes[n.id := n];
      }
    }
    assert remote[..|remote|] == remote;
  }

  method MergeEdges(local: seq<Edge>, remote: seq<Edge>) returns (edges: map<string, Edge>)
    ensures edges == AddNew(AddNew(map[], local, EdgeKey), remote, EdgeKey)
  {
    edges := map[];
    for i := 0 to |local|
      invariant edges == AddNew(map[], local[..i], EdgeKey)
    {
      assert local[..i + 1][..i] == local[..i];
      if EdgeKey(local[i]) !in edges { edges := edges[EdgeKey(local[i]) := local[i]]; }
    }
    assert local[..|local|] == local;
    for i := 0 to |remote|
      invariant edges == AddNew(AddNew(map[], local, EdgeKey), remote[..i], EdgeKey)
    {
      assert remote[..i + 1][..i] == remote[..i];
      if EdgeKey(remote[i]) !in edges { edges := edges[EdgeKey(remote[i]) := remote[i]]; }
    }
    assert remote[..|remote|] == remote;
  }

  /** Range over the map in any order, then sort the slice. */
  method SortedValues<T(!new)>(m: map<string, T>, key: T -> string, ghost want: map<string, T>)
    returns (s: seq<T>)
    requires KeyedBy(m, key) && m == want
    ensures s == Listing(want, key)
  {
    var values := [];
    var todo := m.Keys;
    while todo != {}
      invariant todo <= m.Keys
      invariant Distinct(values, key)
      invariant LastMap(values, key) == map k | k in m && k !in todo :: m[k]
      decreases todo
    {
      var k :| k in todo;
      LastMapAppend(values, m[k], key);
      values := values + [m[k]];
      todo := todo - {k};
    }
    assert LastMap(values, key) == m;
    SortLists(values, m, key);
    s := SortSlice(values, (x, y) => Less(key(x), key(y)));
    ListsUnique(s, Listing(want, key), m, key);
  }

  // ---------- what Merge guarantees ----------

  /** The merge as the rest of the system sees it: the node map is a join, the edge
      keys a union, the local edge wins, and the slices come out canonical. */
  lemma MergedView(h: Fingerprint, a: Graph, b: Graph)
    requires CollisionFree(h)
    ensures NodesOf(Merged(h, a, b)) == Join(h, NodesOf(a), BestMap(h, b.nodes))
    ensures EdgesOf(Merged(h, a, b)) == EdgesOf(b) + EdgesOf(a)
    ensures EdgeKeys(Merged(h, a, b)) == EdgeKeys(a) + EdgeKeys(b)
    ensures Canonical(Merged(h, a, b)) && UniqueIds(Merged(h, a, b))
  {
    var g := Merged(h, a, b);
    AbsorbAllIsJoin(h, NodesOf(a), b.nodes);
    AscendingDistinct(g.nodes, NodeId);
    AscendingDistinct(g.edges, EdgeKey);
    AddNewDistinct(g.edges, EdgeKey);
    AddNewSplit(EdgesOf(a), b.edges, EdgeKey);
    LastMapFacts(g.edges, EdgeKey);
    AddNewFacts(map[], a.edges, EdgeKey);
    AddNewFacts(map[], b.edges, EdgeKey);
  }

  /** The merge of two graphs with unique ids, spelled id by id and key by key: of two
      versions of a node the later stamp, then the higher revision, then the larger hash
      stays, the local one if they are the same; of two edges the local one. */
  lemma MergeSpelled(h: Fingerprint, a: Graph, b: Graph, id: string, key: string)
    requires CollisionFree(h) && UniqueIds(a) && UniqueIds(b)
    ensures var m, n, out := NodesOf(a), NodesOf(b), NodesOf(Merged(h, a, b));
            && (id in out <==> id in m || id in n)
            && (id in m && id !in n ==> out[id] == m[id])
            && (id in n && id !in m ==> out[id] == n[id])
            && (id in m && id in n ==>
                  var x, y := m[id], n[id];
                  out[id] == if || y.updatedAt > x.updatedAt
                                || (y.updatedAt == x.updatedAt && y.rev > x.rev)
                                || (y.updatedAt == x.updatedAt && y.rev == x.rev && h(y) > h(x))
                             then y else x)
    ensures var m, n, out := EdgesOf(a), EdgesOf(b), EdgesOf(Merged(h, a, b));
            && (key in out <==> key in m || key in n)
            && (key in out ==> out[key] == if key in m then m[key] else n[key])
    ensures var v := Merged(h, a, b).formatVersion;
            v >= 1 && v >= a.formatVersion && v >= b.formatVersion && v in {1, a.formatVersion, b.formatVersion}
    ensures Plain(Some(a)) == a && Plain(None) == Graph(1, [], [])
  {
    MergedView(h, a, b);
    UniqueIdsLastIsBest(h, b);
  }

  lemma UniqueIdsLastIsBest(h: Fingerprint, g: Graph)
    requires UniqueIds(g)
    ensures LastIsBest(h, g)
  {
    DistinctIsBest(h, g.nodes);
  }

  /** The exact condition for the laws: a graph absorbs into the empty graph as it
      stands if and only if the last node of every id is its winner. */
  lemma EmptyIsNeutralIffLastIsBest(h: Fingerprint, g: Graph)
    requires CollisionFree(h)
    ensures NodesOf(Merged(h, g, Plain(None))) == NodesOf(Merged(h, Plain(None), g)) <==> LastIsBest(h, g)
  {
    MergedView(h, g, Plain(None));
    MergedView(h, Plain(None), g);
    assert Join(h, NodesOf(g), map[]) == NodesOf(g);
    assert Join(h, map[], BestMap(h, g.nodes)) == BestMap(h, g.nodes);
  }

  /** A repeated id with the older version last breaks commutativity. */
  lemma RepeatedIdsBreakMerge(h: Fingerprint)
    requires CollisionFree(h)
    ensures exists g :: NodesOf(Merged(h, g, Plain(None))) != NodesOf(Merged(h, Plain(None), g))
  {
    var older := Node("n", "fact", "t", "", [], "active", "", Provenance("m", "manual", 1), 1, 1);
    var newer := older.(updatedAt := 2, rev := 2);
    var g := Graph(1, [newer, older], []);
    assert [newer, older][..1] == [newer] && [newer][..0] == [];
    assert LastMap([newer], NodeId) == map["n" := newer];
    assert NodesOf(g) == map["n" := older];
    assert AbsorbAll(h, map[], [newer]) == map["n" := newer];
    assert BestMap(h, g.nodes) == map["n" := newer];
    EmptyIsNeutralIffLastIsBest(h, g);
  }

  /** If `a` leads on the id `k`, because it alone holds it or its best version of it
      beats all of `b`'s, then that version comes last in `a`. */
  ghost predicate LeadsLastAt(h: Fingerprint, a: Graph, b: Graph, k: string) {
    var m, n := BestMap(h, a.nodes), BestMap(h, b.nodes);
    k in m && (k !in n || Wins(h, m[k], n[k])) ==> k in NodesOf(a) && NodesOf(a)[k] == m[k]
  }

  ghost predicate LeadsLast(h: Fingerprint, a: Graph, b: Graph) { forall k :: LeadsLastAt(h, a, b, k) }

  /** The exact condition for any two graphs: their merge does not depend on the side
      exactly when, for every id, the side that leads lists its best version last. */
  lemma MergeCommutesIffLeadsLast(h: Fingerprint, a: Graph, b: Graph)
    requires CollisionFree(h)
    ensures NodesOf(Merged(h, a, b)) == NodesOf(Merged(h, b, a)) <==> LeadsLast(h, a, b) && LeadsLast(h, b, a)
    ensures EdgeKeys(Merged(h, a, b)) == EdgeKeys(Merged(h, b, a))
  {
    assert NodesOf(Merged(h, a, b)) == Join(h, NodesOf(a), BestMap(h, b.nodes))
           && EdgeKeys(Merged(h, a, b)) == EdgeKeys(a) + EdgeKeys(b) by { MergedView(h, a, b); }
    assert NodesOf(Merged(h, b, a)) == Join(h, NodesOf(b), BestMap(h, a.nodes))
           && EdgeKeys(Merged(h, b, a)) == EdgeKeys(b) + EdgeKeys(a) by { MergedView(h, b, a); }
    JoinsAgreeIff(h, a, b);
  }

  lemma JoinsAgreeIff(h: Fingerprint, a: Graph, b: Graph)
    requires CollisionFree(h)
    ensures Join(h, NodesOf(a), BestMap(h, b.nodes)) == Join(h, NodesOf(b), BestMap(h, a.nodes))
            <==> LeadsLast(h, a, b) && LeadsLast(h, b, a)
  {
    var p, q := Join(h, NodesOf(a), BestMap(h, b.nodes)), Join(h, NodesOf(b), BestMap(h, a.nodes));
    LastBelowBest(h, a);
    LastBelowBest(h, b);
    forall k ensures SameAt(p, q, k) <==> LeadsLastAt(h, a, b, k) && LeadsLastAt(h, b, a, k) { CommuteAt(h, a, b, k); }
    SameEverywhere(p, q);
  }

  predicate SameAt(p: NodeMap, q: NodeMap, k: string) { (k in p <==> k in q) && (k in p ==> p[k] == q[k]) }

  lemma SameEverywhere(p: NodeMap, q: NodeMap)
    ensures p == q <==> forall k :: SameAt(p, q, k)
  {
    if forall k :: SameAt(p, q, k) {
      forall k ensures (k in p <==> k in q) && (k in p ==> p[k] == q[k]) { assert SameAt(p, q, k); }
    }
  }

  lemma CommuteAt(h: Fingerprint, a: Graph, b: Graph, k: string)
    requires CollisionFree(h)
    requires Below(h, NodesOf(a), BestMap(h, a.nodes)) && NodesOf(a).Keys == BestMap(h, a.nodes).Keys
    requires Below(h, NodesOf(b), BestMap(h, b.nodes)) && NodesOf(b).Keys == BestMap(h, b.nodes).Keys
    ensures SameAt(Join(h, NodesOf(a), BestMap(h, b.nodes)), Join(h, NodesOf(b), BestMap(h, a.nodes)), k)
            <==> LeadsLastAt(h, a, b, k) && LeadsLastAt(h, b, a, k)
  {
    if k in NodesOf(a) && k in NodesOf(b) {
      BetterCommutes(h, NodesOf(a)[k], BestMap(h, a.nodes)[k], NodesOf(b)[k], BestMap(h, b.nodes)[k]);
    }
  }

  /** Last and best of either side. */
  lemma BetterCommutes(h: Fingerprint, last: Node, best: Node, last': Node, best': Node)
    requires CollisionFree(h) && !Wins(h, last, best) && !Wins(h, last', best')
    ensures Better(h, last, best') == Better(h, last', best)
            <==> (Wins(h, best, best') ==> last == best) && (Wins(h, best', best) ==> last' == best')
  {
    if !Wins(h, best, best') && !Wins(h, best', best) { assert best == best'; }
    if last != best { assert h(last) != h(best); }
    if last' != best' { assert h(last') != h(best'); }
  }

  lemma LastBelowBest(h: Fingerprint, g: Graph)
    ensures Below(h, NodesOf(g), BestMap(h, g.nodes)) && NodesOf(g).Keys == BestMap(h, g.nodes).Keys
  {
    LastMapFacts(g.nodes, NodeId);
    BestMapFacts(h, g.nodes);
    forall k | k in NodesOf(g) ensures !Wins(h, NodesOf(g)[k], BestMap(h, g.nodes)[k]) {
      BestMapUnbeaten(h, g.nodes, NodesOf(g)[k]);
    }
  }

  /** Commutative on nodes and edge keys. */
  lemma MergeCommutes(h: Fingerprint, a: Graph, b: Graph)
    requires CollisionFree(h)
    requires LastIsBest(h, a) && LastIsBest(h, b)
    ensures NodesOf(Merged(h, a, b)) == NodesOf(Merged(h, b, a))
    ensures EdgeKeys(Merged(h, a, b)) == EdgeKeys(Merged(h, b, a))
  {
    MergedView(h, a, b);
    MergedView(h, b, a);
    JoinLaws(h, NodesOf(a), NodesOf(b), NodesOf(a));
  }

  /** Associative outright: same slices, same edge metadata. */
  lemma MergeAssociates(h: Fingerprint, a: Graph, b: Graph, c: Graph)
    requires CollisionFree(h)
    requires LastIsBest(h, b)
    ensures Merged(h, Merged(h, a, b), c) == Merged(h, a, Merged(h, b, c))
  {
    var ab, bc := Merged(h, a, b), Merged(h, b, c);
    MergedView(h, a, b);
    MergedView(h, b, c);
    MergedView(h, ab, c);
    MergedView(h, a, bc);
    assert NodesOf(Merged(h, ab, c)) == NodesOf(Merged(h, a, bc)) by {
      UniqueIdsLastIsBest(h, bc);
      JoinAssociative(h, NodesOf(a), NodesOf(b), BestMap(h, c.nodes));
    }
    OverrideAssociates(EdgesOf(c), EdgesOf(b), EdgesOf(a));
    CanonicalDetermined(Merged(h, ab, c), Merged(h, a, bc));
  }

  lemma OverrideAssociates(x: map<string, Edge>, y: map<string, Edge>, z: map<string, Edge>)
    ensures x + (y + z) == (x + y) + z
  {
  }

  /** A merged graph absorbs itself, and either input, without change. */
  lemma MergeIdempotent(h: Fingerprint, a: Graph, b: Graph)
    requires CollisionFree(h)
    requires LastIsBest(h, a) && LastIsBest(h, b)
    ensures Merged(h, Merged(h, a, b), Merged(h, a, b)) == Merged(h, a, b)
    ensures Merged(h, Merged(h, a, b), a) == Merged(h, a, b)
    ensures Merged(h, Merged(h, a, b), b) == Merged(h, a, b)
  {
    MergedView(h, a, b);
    UniqueIdsLastIsBest(h, Merged(h, a, b));
    AbsorbsPart(h, a, b, Merged(h, a, b));
    AbsorbsPart(h, a, b, a);
    AbsorbsPart(h, a, b, b);
  }

  lemma AbsorbsPart(h: Fingerprint, a: Graph, b: Graph, c: Graph)
    requires CollisionFree(h)
    requires LastIsBest(h, a) && LastIsBest(h, b) && LastIsBest(h, c)
    requires c == a || c == b || c == Merged(h, a, b)
    ensures Merged(h, Merged(h, a, b), c) == Merged(h, a, b)
  {
    var g := Merged(h, a, b);
    MergedView(h, a, b);
    MergedView(h, g, c);
    assert Join(h, NodesOf(g), NodesOf(c)) == NodesOf(g) by {
      JoinAbsorbs(h, NodesOf(a), NodesOf(b), NodesOf(c));
    }
    assert EdgesOf(c) + EdgesOf(g) == EdgesOf(g) by {
      OverrideAbsorbs(EdgesOf(b), EdgesOf(a), EdgesOf(c));
    }
    CanonicalDetermined(Merged(h, g, c), g);
  }

  lemma JoinAbsorbs(h: Fingerprint, a: NodeMap, b: NodeMap, c: NodeMap)
    requires c == a || c == b || c == Join(h, a, b)
    ensures Join(h, Join(h, a, b), c) == Join(h, a, b)
  {
  }

  lemma OverrideAbsorbs(x: map<string, Edge>, y: map<string, Edge>, z: map<string, Edge>)
    requires z == x || z == y || z == x + y
    ensures z + (x + y) == x + y
  {
  }

  /** A canonical graph is determined by its format version, node map and edge map. */
  lemma CanonicalDetermined(a: Graph, b: Graph)
    requires Canonical(a) && Canonical(b)
    requires a.formatVersion == b.formatVersion && NodesOf(a) == NodesOf(b) && EdgesOf(a) == EdgesOf(b)
    ensures a == b
  {
    AscendingDistinct(a.edges, EdgeKey);
    AscendingDistinct(b.edges, EdgeKey);
    AddNewDistinct(a.edges, EdgeKey);
    AddNewDistinct(b.edges, EdgeKey);
    ListsUnique(a.nodes, b.nodes, NodesOf(a), NodeId);
    ListsUnique(a.edges, b.edges, EdgesOf(a), EdgeKey);
  }

  /** Edge metadata is left-biased: whole graphs commute exactly when both sides hold
      the same edge under every shared key. */
  lemma MergeCommutesIffSharedEdgesAgree(h: Fingerprint, a: Graph, b: Graph)
    requires CollisionFree(h)
    requires LastIsBest(h, a) && LastIsBest(h, b)
    ensures Merged(h, a, b) == Merged(h, b, a)
            <==> forall k :: k in EdgesOf(a) && k in EdgesOf(b) ==> EdgesOf(a)[k] == EdgesOf(b)[k]
  {
    assert EdgesOf(Merged(h, a, b)) == EdgesOf(b) + EdgesOf(a) && Canonical(Merged(h, a, b)) by { MergedView(h, a, b); }
    assert EdgesOf(Merged(h, b, a)) == EdgesOf(a) + EdgesOf(b) && Canonical(Merged(h, b, a)) by { MergedView(h, b, a); }
    MergeCommutes(h, a, b);
    OverrideCommutesIff(EdgesOf(a), EdgesOf(b));
    if EdgesOf(a) + EdgesOf(b) == EdgesOf(b) + EdgesOf(a) {
      CanonicalDetermined(Merged(h, a, b), Merged(h, b, a));
    }
  }

  lemma OverrideCommutesIff(x: map<string, Edge>, y: map<string, Edge>)
    ensures x + y == y + x <==> forall k :: k in x && k in y ==> x[k] == y[k]
  {
    if k :| k in x && k in y && x[k] != y[k] {
      assert (x + y)[k] != (y + x)[k];
    }
  }

  /** On nodes, the merge is the least upper bound of its inputs. */
  lemma MergeIsLeastUpperBound(h: Fingerprint, a: Graph, b: Graph, u: NodeMap)
    requires CollisionFree(h)
    requires LastIsBest(h, a) && LastIsBest(h, b)
    ensures Below(h, NodesOf(a), NodesOf(Merged(h, a, b)))
    ensures Below(h, NodesOf(b), NodesOf(Merged(h, a, b)))
    ensures Below(h, NodesOf(a), u) && Below(h, NodesOf(b), u) ==> Below(h, NodesOf(Merged(h, a, b)), u)
  {
    MergedView(h, a, b);
  }
}
