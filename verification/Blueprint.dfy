/** Exporting a graph as a blueprint, filtered to a session and with authors replaced by
    pseudonyms, and importing one (src/cland/internal/memory/blueprint.go). */
module Blueprint {
  import opened Wrappers
  import opened Ordering
  import opened Keyed
  import opened MemoryGraph
  import opened MemoryDigest
  import opened MemoryService

  // ---------- session filter ----------

  function NodeIds(g: Graph): set<string> { set n | n in g.nodes :: n.id }

  /** The ids an export of `session` keeps: the session and its nodes, and whatever an
      edge names as contributing to it. */
  function Keep(g: Graph, session: string): set<string> {
    (set n | n in g.nodes && (n.id == session || n.sessionId == session) :: n.id)
    + (set e | e in g.edges && e.to == session && e.relation == "contributes_to" :: e.from)
  }

  function KeptNodes(s: seq<Node>, keep: set<string>): seq<Node> {
    if s == [] then []
    else KeptNodes(s[..|s| - 1], keep) + if s[|s| - 1].id in keep then [s[|s| - 1]] else []
  }

  function KeptEdges(s: seq<Edge>, keep: set<string>): seq<Edge> {
    if s == [] then []
    else
      var e := s[|s| - 1];
      KeptEdges(s[..|s| - 1], keep) + if e.from in keep && e.to in keep then [e] else []
  }

  function Filtered(g: Graph, session: string): Graph {
    g.(nodes := KeptNodes(g.nodes, Keep(g, session)), edges := KeptEdges(g.edges, Keep(g, session)))
  }

  ghost predicate NoDangling(g: Graph) {
    forall e :: e in g.edges ==> e.from in NodeIds(g) && e.to in NodeIds(g)
  }

  lemma {:induction false} KeptFacts(nodes: seq<Node>, edges: seq<Edge>, keep: set<string>)
    ensures forall n :: n in KeptNodes(nodes, keep) <==> n in nodes && n.id in keep
    ensures forall e :: e in KeptEdges(edges, keep) <==> e in edges && e.from in keep && e.to in keep
    decreases |nodes| + |edges|
  {
    if nodes != [] {
      KeptFacts(nodes[..|nodes| - 1], edges, keep);
      assert nodes == nodes[..|nodes| - 1] + [nodes[|nodes| - 1]];
    } else if edges != [] {
      KeptFacts(nodes, edges[..|edges| - 1], keep);
      assert edges == edges[..|edges| - 1] + [edges[|edges| - 1]];
    }
  }

  /** A session export has no dangling edge exactly when every contribution to the session
      comes from a node the graph holds. */
  lemma FilterDanglesIffContributorMissing(g: Graph, session: string)
    requires session in NodeIds(g)
    ensures NoDangling(Filtered(g, session))
            <==> forall e :: e in g.edges && e.to == session && e.relation == "contributes_to" ==> e.from in NodeIds(g)
  {
    var keep, f := Keep(g, session), Filtered(g, session);
    KeptFacts(g.nodes, g.edges, keep);
    assert NodeIds(f) == NodeIds(g) * keep;
    if NoDangling(f) {
      forall e | e in g.edges && e.to == session && e.relation == "contributes_to" ensures e.from in NodeIds(g) {
        assert e in f.edges;
      }
    }
  }

  /** The id belongs to an export of the session: it is the session's own, or that of a
      node of the session, or it contributes to the session. */
  ghost predicate Belongs(g: Graph, session: string, id: string) {
    (exists n :: n in g.nodes && n.id == id && (id == session || n.sessionId == session))
    || exists e :: e in g.edges && e.from == id && e.to == session && e.relation == "contributes_to"
  }

  /** What an export of a session holds: exactly the nodes that belong to it, all nodes of
      the session among them, and the edges between ids that do, in the graph's order. */
  lemma FilterSpelled(g: Graph, session: string)
    ensures var f := Filtered(g, session);
            && (forall n :: n in f.nodes <==> n in g.nodes && Belongs(g, session, n.id))
            && (forall e :: e in f.edges <==> e in g.edges && Belongs(g, session, e.from) && Belongs(g, session, e.to))
            && (forall n :: n in g.nodes && (n.id == session || n.sessionId == session) ==> n in f.nodes)
            && f.formatVersion == g.formatVersion
            && (Canonical(g) ==> Canonical(f))
  {
    var keep := Keep(g, session);
    KeptFacts(g.nodes, g.edges, keep);
    forall id ensures id in keep <==> Belongs(g, session, id) {
      if n :| n in g.nodes && n.id == id && (id == session || n.sessionId == session) { assert id in keep; }
    }
    if Canonical(g) {
      KeptNodesAscend(g.nodes, keep);
      KeptEdgesAscend(g.edges, keep);
    }
  }

  lemma {:induction false} KeptNodesAscend(s: seq<Node>, keep: set<string>)
    requires Ascending(s, NodeId)
    ensures Ascending(KeptNodes(s, keep), NodeId)
  {
    if s != [] {
      var t, x := s[..|s| - 1], s[|s| - 1];
      KeptNodesAscend(t, keep);
      KeptFacts(t, [], keep);
      forall n | n in t ensures Less(NodeId(n), NodeId(x)) { var i :| 0 <= i < |t| && t[i] == n; assert s[i] == n; }
    }
  }

  lemma {:induction false} KeptEdgesAscend(s: seq<Edge>, keep: set<string>)
    requires Ascending(s, EdgeKey)
    ensures Ascending(KeptEdges(s, keep), EdgeKey)
  {
    if s != [] {
      var t, x := s[..|s| - 1], s[|s| - 1];
      KeptEdgesAscend(t, keep);
      KeptFacts([], t, keep);
      forall e | e in t ensures Less(EdgeKey(e), EdgeKey(x)) { var i :| 0 <= i < |t| && t[i] == e; assert s[i] == e; }
    }
  }

  // ---------- pseudonyms ----------

  function MemberIds(g: Graph): set<string> { set n | n in g.nodes && n.kind == "member" :: n.id }

  /** Authors, edge creators and member-node ids. */
  function Identities(g: Graph): set<string> {
    (set n | n in g.nodes && n.provenance.author != "" :: n.provenance.author)
    + (set e | e in g.edges && e.createdBy != "" :: e.createdBy)
    + MemberIds(g)
  }

  function Smaller(ids: set<string>, x: string): set<string> { set y | y in ids && Less(y, x) }

  function Pseudonym(k: nat): string { "member-" + Decimal(k) }

  /** Identities are numbered from 1 in ascending order. */
  function PseudonymOf(ids: set<string>, x: string): string { Pseudonym(|Smaller(ids, x)| + 1) }

  function RenameId(g: Graph, x: string): string { if x in MemberIds(g) then PseudonymOf(Identities(g), x) else x }

  function RenameAuthor(g: Graph, x: string): string { if x in Identities(g) then PseudonymOf(Identities(g), x) else x }

  function RenameNode(g: Graph, n: Node): Node {
    n.(id := RenameId(g, n.id), provenance := n.provenance.(author := RenameAuthor(g, n.provenance.author)))
  }

  function RenameEdge(g: Graph, e: Edge): Edge {
    e.(from := RenameId(g, e.from), to := RenameId(g, e.to), createdBy := RenameAuthor(g, e.createdBy))
  }

  function Stripped(g: Graph): Graph {
    g.(nodes := seq(|g.nodes|, i requires 0 <= i < |g.nodes| => RenameNode(g, g.nodes[i])),
       edges := seq(|g.edges|, i requires 0 <= i < |g.edges| => RenameEdge(g, g.edges[i])))
  }

  method StripAuthors(g: Graph) returns (out: Graph)
    ensures out == Stripped(g)
  {
    var memberIds, identities := CollectIdentities(g);
    var mapping := Number(identities);
    var nodes := RenameNodes(g, memberIds, mapping);
    var edges := RenameEdges(g, memberIds, mapping);
    out := g.(nodes := nodes, edges := edges);
  }

  method CollectIdentities(g: Graph) returns (memberIds: set<string>, identities: set<string>)
    ensures memberIds == MemberIds(g) && identities == Identities(g)
  {
    memberIds, identities := {}, {};
    for i := 0 to |g.nodes|
      invariant memberIds == set n | n in g.nodes[..i] && n.kind == "member" :: n.id
      invariant identities == set n | n in g.nodes[..i] && n.provenance.author != "" :: n.provenance.author
    {
      var n := g.nodes[i];
      assert g.nodes[..i + 1] == g.nodes[..i] + [n];
      if n.kind == "member" { memberIds := memberIds + {n.id}; }
      if n.provenance.author != "" { identities := identities + {n.provenance.author}; }
    }
    assert g.nodes[..|g.nodes|] == g.nodes;
    var creators := CollectCreators(g.edges);
    identities := identities + creators + memberIds;
  }

  method CollectCreators(edges: seq<Edge>) returns (creators: set<string>)
    ensures creators == set e | e in edges && e.createdBy != "" :: e.createdBy
  {
    creators := {};
    for i := 0 to |edges|
      invariant creators == set e | e in edges[..i] && e.createdBy != "" :: e.createdBy
    {
      assert edges[..i + 1] == edges[..i] + [edges[i]];
      if edges[i].createdBy != "" { creators := creators + {edges[i].createdBy}; }
    }
    assert edges[..|edges|] == edges;
  }

  ghost predicate Numbers(mapping: map<string, string>, ids: set<string>) {
    mapping.Keys == ids && forall x :: x in ids ==> mapping[x] == PseudonymOf(ids, x)
  }

  /** One identity looked up in the mapping. */
  function Mapped(mapping: map<string, string>, x: string): string { if x in mapping then mapping[x] else x }

  function MapNode(memberIds: set<string>, mapping: map<string, string>, n: Node): Node {
    n.(id := if n.id in memberIds then Mapped(mapping, n.id) else n.id,
       provenance := n.provenance.(author := Mapped(mapping, n.provenance.author)))
  }

  function MapEdge(memberIds: set<string>, mapping: map<string, string>, e: Edge): Edge {
    e.(from := if e.from in memberIds then Mapped(mapping, e.from) else e.from,
       to := if e.to in memberIds then Mapped(mapping, e.to) else e.to,
       createdBy := Mapped(mapping, e.createdBy))
  }

  method RenameNodes(g: Graph, memberIds: set<string>, mapping: map<string, string>) returns (nodes: seq<Node>)
    requires memberIds == MemberIds(g) && Numbers(mapping, Identities(g))
    ensures nodes == Stripped(g).nodes
  {
    nodes := MapNodes(g.nodes, memberIds, mapping);
    forall i | 0 <= i < |g.nodes| ensures nodes[i] == RenameNode(g, g.nodes[i]) { }
  }

  method MapNodes(s: seq<Node>, memberIds: set<string>, mapping: map<string, string>) returns (nodes: seq<Node>)
    requires memberIds <= mapping.Keys
    ensures |nodes| == |s| && forall i :: 0 <= i < |s| ==> nodes[i] == MapNode(memberIds, mapping, s[i])
  {
    nodes := [];
    for i := 0 to |s|
      invariant |nodes| == i && forall j :: 0 <= j < i ==> nodes[j] == MapNode(memberIds, mapping, s[j])
    {
      var n := s[i];
      if n.provenance.author in mapping {
        n := n.(provenance := n.provenance.(author := mapping[n.provenance.author]));
      }
      if n.id in memberIds { n := n.(id := mapping[n.id]); }
      nodes := nodes + [n];
    }
  }

  method RenameEdges(g: Graph, memberIds: set<string>, mapping: map<string, string>) returns (edges: seq<Edge>)
    requires memberIds == MemberIds(g) && Numbers(mapping, Identities(g))
    ensures edges == Stripped(g).edges
  {
    edges := MapEdges(g.edges, memberIds, mapping);
    forall i | 0 <= i < |g.edges| ensures edges[i] == RenameEdge(g, g.edges[i]) { }
  }

  method MapEdges(s: seq<Edge>, memberIds: set<string>, mapping: map<string, string>) returns (edges: seq<Edge>)
    requires memberIds <= mapping.Keys
    ensures |edges| == |s| && forall i :: 0 <= i < |s| ==> edges[i] == MapEdge(memberIds, mapping, s[i])
  {
    edges := [];
    for i := 0 to |s|
      invariant |edges| == i && forall j :: 0 <= j < i ==> edges[j] == MapEdge(memberIds, mapping, s[j])
    {
      var e := s[i];
      if e.createdBy in mapping { e := e.(createdBy := mapping[e.createdBy]); }
      if e.from in memberIds { e := e.(from := mapping[e.from]); }
      if e.to in memberIds { e := e.(to := mapping[e.to]); }
      edges := edges + [e];
    }
  }

  /** Range over the set in any order, then sort. */
  method SortedKeys(ids: set<string>) returns (sorted: seq<string>)
    ensures Sorted(sorted, Less) && NoDup(sorted) && forall x :: x in sorted <==> x in ids
  {
    var keys := [];
    var todo := ids;
    while todo != {}
      invariant todo <= ids && NoDup(keys)
      invariant forall x :: x in keys <==> x in ids && x !in todo
      decreases todo
    {
      var x :| x in todo;
      keys := keys + [x];
      todo := todo - {x};
    }
    LessIsStrictOrder();
    SortSliceSorts(keys, Less);
    sorted := SortSlice(keys, Less);
    SameElements(sorted, keys);
    NoDupMultiplicity(keys);
    NoDupFromMultiset(sorted);
  }

  method Number(ids: set<string>) returns (mapping: map<string, string>)
    ensures Numbers(mapping, ids)
  {
    var sorted := SortedKeys(ids);
    mapping := map[];
    for i := 0 to |sorted|
      invariant mapping.Keys == set x | x in sorted[..i]
      invariant forall x :: x in mapping ==> mapping[x] == PseudonymOf(ids, x)
    {
      assert sorted[..i + 1] == sorted[..i] + [sorted[i]];
      PositionIsRank(sorted, ids, i);
      mapping := mapping[sorted[i] := Pseudonym(i + 1)];
    }
    assert sorted[..|sorted|] == sorted;
  }

  lemma PositionIsRank(sorted: seq<string>, ids: set<string>, i: nat)
    requires Sorted(sorted, Less) && NoDup(sorted) && i < |sorted|
    requires forall x :: x in sorted <==> x in ids
    ensures |Smaller(ids, sorted[i])| == i
  {
    LessIsStrictOrder();
    var before := set x | x in sorted[..i];
    forall x ensures x in before <==> x in Smaller(ids, sorted[i]) {
      if x in before {
        var j :| 0 <= j < i && sorted[j] == x;
        assert x in ids;
      }
      if x in Smaller(ids, sorted[i]) {
        var j :| 0 <= j < |sorted| && sorted[j] == x;
        assert j < i;
        assert sorted[..i][j] == x;
      }
    }
    assert before == Smaller(ids, sorted[i]);
    PrefixSize(sorted, i);
  }

  lemma {:induction false} PrefixSize(s: seq<string>, i: nat)
    requires NoDup(s) && i <= |s|
    ensures |set x | x in s[..i]| == i
  {
    if i > 0 {
      PrefixSize(s, i - 1);
      var before := s[..i - 1];
      assert s[..i] == before + [s[i - 1]];
      assert (set x | x in s[..i]) == (set x | x in before) + {s[i - 1]};
    }
  }

  // ---------- the renaming ----------

  lemma PseudonymsDistinct(ids: set<string>, x: string, y: string)
    requires x in ids && y in ids && PseudonymOf(ids, x) == PseudonymOf(ids, y)
    ensures x == y
  {
    var a, b := |Smaller(ids, x)| + 1, |Smaller(ids, y)| + 1;
    assert PseudonymOf(ids, x)[7..] == Decimal(a) && PseudonymOf(ids, y)[7..] == Decimal(b);
    DecimalInjective(a, b);
    if x != y {
      LessTotal(x, y);
      if Less(x, y) { SmallerGrows(ids, x, y); } else { SmallerGrows(ids, y, x); }
    }
  }

  lemma SmallerGrows(ids: set<string>, x: string, y: string)
    requires x in ids && Less(x, y)
    ensures |Smaller(ids, x)| < |Smaller(ids, y)|
  {
    LessIrreflexive(x);
    forall z | z in Smaller(ids, x) ensures z in Smaller(ids, y) - {x} { LessTransitive(z, x, y); }
    SubsetSize(Smaller(ids, x), Smaller(ids, y) - {x});
  }

  function Endpoints(g: Graph): set<string> {
    (set e | e in g.edges :: e.from) + (set e | e in g.edges :: e.to)
  }

  /** No id of the graph that stays as it is coincides with a pseudonym a member gets. */
  ghost predicate IdsClear(g: Graph) {
    forall x, m :: x in NodeIds(g) + Endpoints(g) && x !in MemberIds(g) && m in MemberIds(g) ==>
      x != PseudonymOf(Identities(g), m)
  }

  /** No original identity coincides with a pseudonym given out. */
  ghost predicate IdentitiesClear(g: Graph) {
    forall x, y :: x in Identities(g) && y in Identities(g) ==> x != PseudonymOf(Identities(g), y)
  }

  lemma PseudonymNotEmpty(ids: set<string>, x: string)
    ensures PseudonymOf(ids, x) != ""
  {
    assert |PseudonymOf(ids, x)| >= 7;
  }

  /** The renaming is injective on the ids of nodes and endpoints exactly when no id that
      stays is a pseudonym given to a member. */
  lemma RenamingIsInjectiveIff(g: Graph)
    ensures (forall x, y ::
               (x in NodeIds(g) + Endpoints(g) && y in NodeIds(g) + Endpoints(g) && RenameId(g, x) == RenameId(g, y))
               ==> x == y)
            <==> IdsClear(g)
  {
    if IdsClear(g) {
      forall x, y | x in NodeIds(g) + Endpoints(g) && y in NodeIds(g) + Endpoints(g) && RenameId(g, x) == RenameId(g, y)
        ensures x == y
      {
        RenamedApart(g, x, y);
      }
    } else {
      var x, m :| x in NodeIds(g) + Endpoints(g) && x !in MemberIds(g) && m in MemberIds(g)
        && x == PseudonymOf(Identities(g), m);
      assert RenameId(g, x) == RenameId(g, m) && m in NodeIds(g);
    }
  }

  lemma RenamedApart(g: Graph, x: string, y: string)
    requires IdsClear(g) && x in NodeIds(g) + Endpoints(g) && y in NodeIds(g) + Endpoints(g)
    requires RenameId(g, x) == RenameId(g, y)
    ensures x == y
  {
    if x in MemberIds(g) && y in MemberIds(g) { PseudonymsDistinct(Identities(g), x, y); }
  }

  /** Authors are renamed injectively whatever they are called, and a member's id and
      authorship go by one pseudonym. */
  lemma AuthorsRenamedInjectively(g: Graph, x: string, y: string)
    ensures x in Identities(g) + {""} && y in Identities(g) + {""} && RenameAuthor(g, x) == RenameAuthor(g, y) ==> x == y
    ensures x in MemberIds(g) ==> RenameId(g, x) == RenameAuthor(g, x)
  {
    PseudonymNotEmpty(Identities(g), x);
    PseudonymNotEmpty(Identities(g), y);
    if x in Identities(g) && y in Identities(g) && RenameAuthor(g, x) == RenameAuthor(g, y) {
      PseudonymsDistinct(Identities(g), x, y);
    }
  }

  /** A node named "member-1" beside a member: after stripping the two share an id. */
  lemma NodesCanShareId()
    ensures exists g: Graph :: |g.nodes| == 2 && g.nodes[0].id != g.nodes[1].id && Stripped(g).nodes[0].id == Stripped(g).nodes[1].id
  {
    var p := Provenance("", "manual", 0);
    var member := Node("a", "member", "", "", [], "active", "", p, 0, 1);
    var fact := Node(Pseudonym(1), "fact", "", "", [], "active", "", p, 0, 1);
    var g := Graph(FORMAT_VERSION, [member, fact], []);
    assert member in g.nodes && fact in g.nodes;
    assert MemberIds(g) == {"a"};
    assert Identities(g) == {"a"};
    LessIrreflexive("a");
    assert Smaller({"a"}, "a") == {};
    assert Pseudonym(1)[0] == 'm';
    assert RenameId(g, "a") == Pseudonym(1) && RenameId(g, Pseudonym(1)) == Pseudonym(1);
  }

  /** The stripped graph is the input under that renaming: the same nodes in the same
      places with every other field untouched, and an edge meets a node in the result
      exactly when it did before. */
  lemma StrippedIsIsomorphic(g: Graph, i: nat, j: nat)
    requires IdsClear(g) && i < |g.nodes| && j < |g.edges|
    ensures var s := Stripped(g); var n, m, e, f := g.nodes[i], s.nodes[i], g.edges[j], s.edges[j];
            && |s.nodes| == |g.nodes| && |s.edges| == |g.edges|
            && m == n.(id := m.id, provenance := n.provenance.(author := m.provenance.author))
            && f == e.(from := f.from, to := f.to, createdBy := f.createdBy)
            && (f.from == m.id <==> e.from == n.id) && (f.to == m.id <==> e.to == n.id)
            && (m.provenance.author == f.createdBy <==> n.provenance.author == e.createdBy)
  {
    var n, e := g.nodes[i], g.edges[j];
    assert n in g.nodes && e in g.edges;
    if RenameId(g, e.from) == RenameId(g, n.id) { RenamedApart(g, e.from, n.id); }
    if RenameId(g, e.to) == RenameId(g, n.id) { RenamedApart(g, e.to, n.id); }
    AuthorsRenamedInjectively(g, n.provenance.author, e.createdBy);
  }

  /** The identities of the result are exactly the pseudonyms of the original ones. */
  lemma StrippedIdentities(g: Graph)
    ensures Identities(Stripped(g)) == set x | x in Identities(g) :: PseudonymOf(Identities(g), x)
  {
    PseudonymsOccur(g);
    OnlyPseudonymsOccur(g);
  }

  lemma PseudonymsOccur(g: Graph)
    ensures forall x :: x in Identities(g) ==> PseudonymOf(Identities(g), x) in Identities(Stripped(g))
  {
    var s := Stripped(g);
    forall x | x in Identities(g) ensures PseudonymOf(Identities(g), x) in Identities(s) {
      PseudonymNotEmpty(Identities(g), x);
      if n :| n in g.nodes && (n.provenance.author == x != "" || (n.kind == "member" && n.id == x)) {
        var i :| 0 <= i < |g.nodes| && g.nodes[i] == n;
        assert s.nodes[i] in s.nodes && s.nodes[i] == RenameNode(g, n);
      } else {
        var e :| e in g.edges && e.createdBy == x != "";
        var j :| 0 <= j < |g.edges| && g.edges[j] == e;
        assert s.edges[j] in s.edges && s.edges[j] == RenameEdge(g, e);
      }
    }
  }

  lemma OnlyPseudonymsOccur(g: Graph)
    ensures forall y :: y in Identities(Stripped(g)) ==> exists x :: x in Identities(g) && y == PseudonymOf(Identities(g), x)
  {
    var s := Stripped(g);
    forall y | y in Identities(s) ensures exists x :: x in Identities(g) && y == PseudonymOf(Identities(g), x) {
      if m :| m in s.nodes && (m.provenance.author == y != "" || (m.kind == "member" && m.id == y)) {
        var i :| 0 <= i < |s.nodes| && s.nodes[i] == m;
        assert m == RenameNode(g, g.nodes[i]) && g.nodes[i] in g.nodes;
        assert if m.kind == "member" && m.id == y then g.nodes[i].id in MemberIds(g)
               else g.nodes[i].provenance.author in Identities(g);
      } else {
        var f :| f in s.edges && f.createdBy == y != "";
        var j :| 0 <= j < |s.edges| && s.edges[j] == f;
        assert f == RenameEdge(g, g.edges[j]) && g.edges[j] in g.edges;
        assert g.edges[j].createdBy in Identities(g);
      }
    }
  }

  /** No author, edge creator or member-node id of the result is an original identity,
      exactly when no original identity is one of the pseudonyms given out. */
  lemma StrippedHidesIdentitiesIff(g: Graph)
    ensures Identities(Stripped(g)) !! Identities(g) <==> IdentitiesClear(g)
  {
    StrippedIdentities(g);
    if !IdentitiesClear(g) {
      var x, y :| x in Identities(g) && y in Identities(g) && x == PseudonymOf(Identities(g), y);
      assert x in Identities(Stripped(g));
    }
  }

  lemma EndpointsRenamed(g: Graph)
    ensures Endpoints(Stripped(g)) == set x | x in Endpoints(g) :: RenameId(g, x)
  {
    var s := Stripped(g);
    forall x | x in Endpoints(g) ensures RenameId(g, x) in Endpoints(s) {
      var e :| e in g.edges && (e.from == x || e.to == x);
      var j :| 0 <= j < |g.edges| && g.edges[j] == e;
      assert s.edges[j] in s.edges && s.edges[j] == RenameEdge(g, e);
    }
    forall y | y in Endpoints(s) ensures exists x :: x in Endpoints(g) && y == RenameId(g, x) {
      var f :| f in s.edges && (f.from == y || f.to == y);
      var j :| 0 <= j < |s.edges| && s.edges[j] == f;
      assert f == RenameEdge(g, g.edges[j]) && g.edges[j] in g.edges;
      assert g.edges[j].from in Endpoints(g) && g.edges[j].to in Endpoints(g);
    }
  }

  /** Edge endpoints are only renamed when a member node carries their id: no endpoint of
      the result is an original identity exactly when every endpoint that was one had
      its member node in the graph, and no member's endpoint got a name that was one. */
  lemma EndpointsHiddenIffMembersPresent(g: Graph)
    ensures Endpoints(Stripped(g)) !! Identities(g)
            <==> && Endpoints(g) * Identities(g) <= MemberIds(g)
                 && forall m :: m in Endpoints(g) * MemberIds(g) ==> PseudonymOf(Identities(g), m) !in Identities(g)
  {
    EndpointsRenamed(g);
    forall x | x in Endpoints(g)
      ensures RenameId(g, x) in Endpoints(Stripped(g))
      ensures RenameId(g, x) in Identities(g)
              <==> if x in MemberIds(g) then PseudonymOf(Identities(g), x) in Identities(g) else x in Identities(g)
    {
    }
  }

  // ---------- export ----------

  datatype Stats = Stats(nodes: nat, edges: nat, proposed: nat, archived: nat)

  function CountStatus(s: seq<Node>, status: string): nat {
    if s == [] then 0 else CountStatus(s[..|s| - 1], status) + if s[|s| - 1].status == status then 1 else 0
  }

  datatype ExportError = NothingToExport | SessionNotFound

  method ExportGraph(h: Fingerprint, g: Option<Graph>, session: string, strip: bool)
    returns (r: Result<(Graph, Stats), ExportError>)
    ensures g.None? <==> r == Err(NothingToExport)
    ensures g.Some? ==>
              var copy := Merged(h, g.value, Plain(None));
              if session != "" && session !in NodeIds(copy) then r == Err(SessionNotFound)
              else
                var filtered := if session == "" then copy else Filtered(copy, session);
                var out := if strip then Stripped(filtered) else filtered;
                r == Ok((out, StatsOf(out)))
  {
    if g.None? { return Err(NothingToExport); }
    var out := Merge(h, g, None);
    if session != "" {
      var found := false;
      for i := 0 to |out.nodes|
        invariant found <==> exists n :: n in out.nodes[..i] && n.id == session
      {
        if out.nodes[i].id == session { found := true; }
      }
      assert out.nodes[..|out.nodes|] == out.nodes;
      assert found <==> session in NodeIds(out);
      if !found { return Err(SessionNotFound); }
      out := FilterSession(out, session);
    }
    if strip { out := StripAuthors(out); }
    var stats := ComputeStats(out);
    r := Ok((out, stats));
  }

  function StatsOf(g: Graph): Stats {
    Stats(|g.nodes|, |g.edges|, CountStatus(g.nodes, "proposed"), CountStatus(g.nodes, "archived"))
  }

  /** The counters count positions. */
  lemma StatsSpelled(g: Graph)
    ensures var s := StatsOf(g);
            && s.nodes == |g.nodes| && s.edges == |g.edges|
            && s.proposed == |set i: nat | i < |g.nodes| && g.nodes[i].status == "proposed"|
            && s.archived == |set i: nat | i < |g.nodes| && g.nodes[i].status == "archived"|
  {
    StatusCounted(g.nodes, "proposed");
    StatusCounted(g.nodes, "archived");
  }

  ghost function Positions(s: seq<Node>, status: string): set<nat> { set i: nat | i < |s| && s[i].status == status }

  lemma PositionsSnoc(s: seq<Node>, status: string, same: bool)
    requires s != [] && (same <==> s[|s| - 1].status == status)
    ensures Positions(s, status) == Positions(s[..|s| - 1], status) + if same then {|s| - 1} else {}
  {
    var t := s[..|s| - 1];
    assert forall i :: 0 <= i < |t| ==> t[i] == s[i];
  }

  lemma {:induction false} StatusCounted(s: seq<Node>, status: string)
    ensures CountStatus(s, status) == |Positions(s, status)|
  {
    if s == [] {
      assert Positions(s, status) == {};
    } else {
      StatusCounted(s[..|s| - 1], status);
      PositionsSnoc(s, status, s[|s| - 1].status == status);
    }
  }

  method ComputeStats(g: Graph) returns (s: Stats)
    ensures s == StatsOf(g)
  {
    var proposed, archived := 0, 0;
    for i := 0 to |g.nodes|
      invariant proposed == CountStatus(g.nodes[..i], "proposed")
      invariant archived == CountStatus(g.nodes[..i], "archived")
    {
      assert g.nodes[..i + 1][..i] == g.nodes[..i];
      if g.nodes[i].status == "proposed" { proposed := proposed + 1; }
      if g.nodes[i].status == "archived" { archived := archived + 1; }
    }
    assert g.nodes[..|g.nodes|] == g.nodes;
    s := Stats(|g.nodes|, |g.edges|, proposed, archived);
  }

  method FilterSession(g: Graph, session: string) returns (out: Graph)
    ensures out == Filtered(g, session)
  {
    var keep := CollectKeep(g, session);
    var nodes, edges := [], [];
    for i := 0 to |g.nodes|
      invariant nodes == KeptNodes(g.nodes[..i], keep)
    {
      assert g.nodes[..i + 1][..i] == g.nodes[..i];
      if g.nodes[i].id in keep { nodes := nodes + [g.nodes[i]]; }
    }
    assert g.nodes[..|g.nodes|] == g.nodes;
    for i := 0 to |g.edges|
      invariant edges == KeptEdges(g.edges[..i], keep)
    {
      assert g.edges[..i + 1][..i] == g.edges[..i];
      if g.edges[i].from in keep && g.edges[i].to in keep { edges := edges + [g.edges[i]]; }
    }
    assert g.edges[..|g.edges|] == g.edges;
    out := g.(nodes := nodes, edges := edges);
  }

  method CollectKeep(g: Graph, session: string) returns (keep: set<string>)
    ensures keep == Keep(g, session)
  {
    var own: set<string> := {};
    for i := 0 to |g.nodes|
      invariant own == set n | n in g.nodes[..i] && (n.id == session || n.sessionId == session) :: n.id
    {
      assert g.nodes[..i + 1] == g.nodes[..i] + [g.nodes[i]];
      if g.nodes[i].id == session || g.nodes[i].sessionId == session { own := own + {g.nodes[i].id}; }
    }
    assert g.nodes[..|g.nodes|] == g.nodes;
    var contributors := CollectContributors(g.edges, session);
    keep := own + contributors;
  }

  method CollectContributors(edges: seq<Edge>, session: string) returns (ids: set<string>)
    ensures ids == set e | e in edges && e.to == session && e.relation == "contributes_to" :: e.from
  {
    ids := {};
    for i := 0 to |edges|
      invariant ids == set e | e in edges[..i] && e.to == session && e.relation == "contributes_to" :: e.from
    {
      assert edges[..i + 1] == edges[..i] + [edges[i]];
      if edges[i].to == session && edges[i].relation == "contributes_to" { ids := ids + {edges[i].from}; }
    }
    assert edges[..|edges|] == edges;
  }

  // ---------- import ----------

  function Imported(n: Node): Node { n.(provenance := n.provenance.(source := "import")) }

  /** `MarkImported`, for a graph that is already a sorted copy. */
  function Marked(g: Graph): Graph {
    g.(nodes := seq(|g.nodes|, i requires 0 <= i < |g.nodes| => Imported(g.nodes[i])))
  }

  method MarkImported(h: Fingerprint, g: Graph) returns (out: Graph)
    ensures out == Marked(Merged(h, g, Plain(None)))
  {
    out := Merge(h, Some(g), None);
    ghost var copy := out;
    for i := 0 to |out.nodes|
      invariant |out.nodes| == |copy.nodes| && out == copy.(nodes := out.nodes)
      invariant forall j :: 0 <= j < i ==> out.nodes[j] == Imported(copy.nodes[j])
      invariant forall j :: i <= j < |out.nodes| ==> out.nodes[j] == copy.nodes[j]
    {
      out := out.(nodes := out.nodes[i := Imported(out.nodes[i])]);
    }
    assert out.nodes == Marked(copy).nodes;
  }

  /** What `MarkImported` yields has unique ids, the versions and edge keys of its input,
      and its input's nodes under the new source. */
  lemma MarkedFacts(g: Graph)
    ensures Versions(Marked(g)) == Versions(g) && EdgeKeys(Marked(g)) == EdgeKeys(g)
    ensures Unique(g) ==> Unique(Marked(g))
    ensures NodesOf(Marked(g)) == map k | k in NodesOf(g) :: Imported(NodesOf(g)[k])
  {
    var m := Marked(g);
    forall v ensures v in Versions(m) <==> v in Versions(g) {
      if v in Versions(g) {
        var i :| 0 <= i < |g.nodes| && VersionOf(g.nodes[i]) == v;
        assert m.nodes[i] in m.nodes && VersionOf(m.nodes[i]) == v;
      }
      if v in Versions(m) {
        var i :| 0 <= i < |m.nodes| && VersionOf(m.nodes[i]) == v;
        assert g.nodes[i] in g.nodes && VersionOf(g.nodes[i]) == v;
      }
    }
    if Unique(g) {
      forall i, j | 0 <= i < j < |m.nodes| ensures NodeId(m.nodes[i]) != NodeId(m.nodes[j]) {
        assert NodeId(g.nodes[i]) != NodeId(g.nodes[j]);
      }
    }
    MarkedMap(g.nodes, m.nodes);
  }

  lemma {:induction false} MarkedMap(s: seq<Node>, t: seq<Node>)
    requires |t| == |s| && forall i :: 0 <= i < |s| ==> t[i] == Imported(s[i])
    ensures LastMap(t, NodeId) == map k | k in LastMap(s, NodeId) :: Imported(LastMap(s, NodeId)[k])
  {
    if s != [] { MarkedMap(s[..|s| - 1], t[..|t| - 1]); }
  }

  lemma MarkedIsUnique(h: Fingerprint, g: Graph)
    requires CollisionFree(h)
    ensures Unique(Marked(Merged(h, g, Plain(None))))
  {
    var copy := Merged(h, g, Plain(None));
    MergedView(h, g, Plain(None));
    AscendingDistinct(copy.edges, EdgeKey);
    MarkedFacts(copy);
  }

  /** Marking keeps every version triple and edge, so the digest does not move. */
  lemma MarkingKeepsDigest(g: Graph)
    ensures DigestOf(Marked(g)) == DigestOf(g)
  {
    forall i | 0 <= i < |g.nodes| ensures NodeLine(Imported(g.nodes[i])) == NodeLine(g.nodes[i]) {
      NodeLineFaithful(Imported(g.nodes[i]), g.nodes[i]);
    }
    assert Lines(Marked(g).nodes, NodeLine) == Lines(g.nodes, NodeLine);
  }

  /** Merge-import of one graph by a member that holds it and by one that is new. The
      holder keeps its versions, the newcomer takes the marked ones, their digests are
      equal and so gossip never reconciles them: they differ exactly when some node's
      source was not "import" before. */
  lemma ImportDivergesIffUnmarked(h: Fingerprint, g: Graph, mark: Instant)
    requires CollisionFree(h) && Unique(g)
    ensures var m := Marked(Merged(h, g, Plain(None)));
            var holder, newcomer := State(g, DigestOf(g), mark, g), Loaded(Plain(None));
            var a, b := MergeIn(h, holder, m, true).0, MergeIn(h, newcomer, m, true).0;
            && a.digest == b.digest == DigestOf(g)
            && Synced(h, a, Some(b.digest), Some(b.g), true) == a
            && Synced(h, b, Some(a.digest), Some(a.g), true) == b
            && NodesOf(a.g) == NodesOf(g)
            && (NodesOf(b.g) == NodesOf(a.g) <==> forall n :: n in g.nodes ==> n.provenance.source == "import")
  {
    var copy := Merged(h, g, Plain(None));
    var m := Marked(copy);
    CopyFacts(h, g);
    MarkedIsUnique(h, g);
    MarkedFacts(copy);
    HolderKeeps(h, g, m, mark);
    NewcomerTakes(h, m);
    SameVersionsSameDigest(g, m);
    MarkChangesIff(g, m);
  }

  /** A copy made by merging with nothing has the graph's nodes, versions and edge keys. */
  lemma CopyFacts(h: Fingerprint, g: Graph)
    requires CollisionFree(h) && Unique(g)
    ensures var copy := Merged(h, g, Plain(None));
            NodesOf(copy) == NodesOf(g) && Versions(copy) == Versions(g) && EdgeKeys(copy) == EdgeKeys(g)
  {
    var copy := Merged(h, g, Plain(None));
    MergedView(h, g, Plain(None));
    assert Join(h, NodesOf(g), map[]) == NodesOf(g);
    SameVersionMaps(copy, g);
    SameVersionMaps(g, copy);
  }

  /** The holder's merge would at most swap sources, so its digest gate leaves it alone. */
  lemma HolderKeeps(h: Fingerprint, g: Graph, m: Graph, mark: Instant)
    requires CollisionFree(h) && Unique(g) && Unique(m)
    requires EdgeKeys(m) == EdgeKeys(g) && NodesOf(m) == map k | k in NodesOf(g) :: Imported(NodesOf(g)[k])
    ensures var s := State(g, DigestOf(g), mark, g); MergeIn(h, s, m, true).0 == s
  {
    var both := Merged(h, g, m);
    MergedView(h, g, m);
    UniqueIdsLastIsBest(h, m);
    AscendingDistinct(both.edges, EdgeKey);
    SameVersionMaps(both, g);
    SameVersionMaps(g, both);
    SameVersionsSameDigest(both, g);
  }

  /** Maps that hold the same version of every id. */
  lemma SameVersionMaps(a: Graph, b: Graph)
    requires UniqueIds(a) && NodesOf(a).Keys == NodesOf(b).Keys
    requires forall k :: k in NodesOf(a) && k in NodesOf(b) ==> VersionOf(NodesOf(a)[k]) == VersionOf(NodesOf(b)[k])
    ensures Versions(a) <= Versions(b)
  {
    LastMapFacts(b.nodes, NodeId);
    forall n | n in a.nodes ensures VersionOf(n) in Versions(b) {
      DistinctMember(a.nodes, NodeId, n);
      assert NodesOf(b)[n.id] in b.nodes;
    }
  }

  lemma NewcomerTakes(h: Fingerprint, m: Graph)
    requires CollisionFree(h) && Unique(m)
    ensures var b := MergeIn(h, Loaded(Plain(None)), m, true).0; NodesOf(b.g) == NodesOf(m) && b.digest == DigestOf(m)
  {
    var taken := Merged(h, Plain(None), m);
    MergedView(h, Plain(None), m);
    UniqueIdsLastIsBest(h, m);
    assert Join(h, map[], NodesOf(m)) == NodesOf(m);
    AscendingDistinct(taken.edges, EdgeKey);
    SameVersionMaps(taken, m);
    SameVersionMaps(m, taken);
    SameVersionsSameDigest(taken, m);
    EmptyDigest(taken);
    EmptyDigest(Plain(None));
  }

  /** Marking changes the node map exactly when some source was another. */
  lemma MarkChangesIff(g: Graph, m: Graph)
    requires UniqueIds(g) && NodesOf(m) == map k | k in NodesOf(g) :: Imported(NodesOf(g)[k])
    ensures NodesOf(m) == NodesOf(g) <==> forall n :: n in g.nodes ==> n.provenance.source == "import"
  {
    LastMapFacts(g.nodes, NodeId);
    if NodesOf(m) == NodesOf(g) {
      forall n | n in g.nodes ensures n.provenance.source == "import" {
        DistinctMember(g.nodes, NodeId, n);
        assert NodesOf(m)[n.id] == Imported(n);
      }
    } else {
      var k :| k in NodesOf(g) && Imported(NodesOf(g)[k]) != NodesOf(g)[k];
      assert NodesOf(g)[k] in g.nodes;
    }
  }
}
