/** The content-versioned digest that gossip compares
    (src/cland/internal/memory/graph.go, `Digest`). */
module MemoryDigest {
  import opened Wrappers
  import opened Ordering
  import opened Keyed
  import opened MemoryGraph
  import Text

  /** SHA-256 taken as collision-free: the value carries the text that was hashed. */
  datatype Hash = Sha256(text: string)

  function NodeLine(n: Node): string {
    "n|" + n.id + "|" + Decimal(n.rev) + "|" + Decimal(n.updatedAt)
  }

  function EdgeLine(e: Edge): string { "e|" + EdgeKey(e) }

  function Lines<T>(s: seq<T>, line: T -> string): seq<string> {
    seq(|s|, i requires 0 <= i < |s| => line(s[i]))
  }

  function DigestText(g: Graph): string {
    Text.Join(SortSlice(Lines(g.nodes, NodeLine), Less) + SortSlice(Lines(g.edges, EdgeLine), Less), '\n')
  }

  function DigestOf(g: Graph): Hash { Sha256(DigestText(g)) }

  method Digest(g: Option<Graph>) returns (d: Hash)
    ensures d == DigestOf(Plain(g))
  {
    if g.None? || (g.value.nodes == [] && g.value.edges == []) {
      return Sha256("");
    }
    var nodeLines := [];
    for i := 0 to |g.value.nodes|
      invariant nodeLines == Lines(g.value.nodes[..i], NodeLine)
    {
      nodeLines := nodeLines + [NodeLine(g.value.nodes[i])];
    }
    assert g.value.nodes[..|g.value.nodes|] == g.value.nodes;
    nodeLines := SortSlice(nodeLines, Less);
    var edgeLines := [];
    for i := 0 to |g.value.edges|
      invariant edgeLines == Lines(g.value.edges[..i], EdgeLine)
    {
      edgeLines := edgeLines + [EdgeLine(g.value.edges[i])];
    }
    assert g.value.edges[..|g.value.edges|] == g.value.edges;
    edgeLines := SortSlice(edgeLines, Less);
    d := Sha256(Text.Join(nodeLines + edgeLines, '\n'));
  }

  // ---------- faithfulness ----------

  datatype Version = Version(id: string, rev: nat, updatedAt: Instant)

  function VersionOf(n: Node): Version { Version(n.id, n.rev, n.updatedAt) }

  ghost function Versions(g: Graph): set<Version> { set n | n in g.nodes :: VersionOf(n) }

  /** No line break inside an id or an edge key. */
  ghost predicate LineClean(g: Graph) {
    (forall n :: n in g.nodes ==> '\n' !in n.id) && (forall e :: e in g.edges ==> '\n' !in EdgeKey(e))
  }

  ghost predicate Unique(g: Graph) { UniqueIds(g) && Distinct(g.edges, EdgeKey) }

  lemma NodeLineFaithful(m: Node, n: Node)
    ensures NodeLine(m) == NodeLine(n) <==> VersionOf(m) == VersionOf(n)
  {
    if NodeLine(m) == NodeLine(n) {
      DecimalIsDigits(m.updatedAt);
      DecimalIsDigits(n.updatedAt);
      DecimalIsDigits(m.rev);
      DecimalIsDigits(n.rev);
      var x, y := "n|" + m.id + "|" + Decimal(m.rev), "n|" + n.id + "|" + Decimal(n.rev);
      assert NodeLine(m) == x + ['|'] + Decimal(m.updatedAt) && NodeLine(n) == y + ['|'] + Decimal(n.updatedAt);
      Text.SplitLast('|', x, Decimal(m.updatedAt), y, Decimal(n.updatedAt));
      assert x == ("n|" + m.id) + ['|'] + Decimal(m.rev) && y == ("n|" + n.id) + ['|'] + Decimal(n.rev);
      Text.SplitLast('|', "n|" + m.id, Decimal(m.rev), "n|" + n.id, Decimal(n.rev));
      assert ("n|" + m.id)[2..] == m.id && ("n|" + n.id)[2..] == n.id;
      DecimalInjective(m.updatedAt, n.updatedAt);
      DecimalInjective(m.rev, n.rev);
    }
  }

  lemma EdgeLineFaithful(e: Edge, f: Edge)
    ensures EdgeLine(e) == EdgeLine(f) <==> EdgeKey(e) == EdgeKey(f)
  {
    assert EdgeLine(e)[2..] == EdgeKey(e) && EdgeLine(f)[2..] == EdgeKey(f);
  }

  /** With bar-free endpoints an edge key spells one (from, to, relation) triple. */
  lemma EdgeKeyFaithful(e: Edge, f: Edge)
    requires '|' !in e.from && '|' !in e.to && '|' !in f.from && '|' !in f.to
    ensures EdgeKey(e) == EdgeKey(f) <==> e.from == f.from && e.to == f.to && e.relation == f.relation
  {
    if EdgeKey(e) == EdgeKey(f) {
      var r, s := e.to + "|" + e.relation, f.to + "|" + f.relation;
      assert EdgeKey(e) == e.from + ['|'] + r && EdgeKey(f) == f.from + ['|'] + s;
      Text.SplitFirst('|', e.from, r, f.from, s);
      assert r == e.to + ['|'] + e.relation && s == f.to + ['|'] + f.relation;
      Text.SplitFirst('|', e.to, e.relation, f.to, f.relation);
    }
  }

  ghost function Tagged(g: Graph): seq<string> {
    SortSlice(Lines(g.nodes, NodeLine), Less) + SortSlice(Lines(g.edges, EdgeLine), Less)
  }

  lemma SortedLines<T(!new)>(s: seq<T>, line: T -> string)
    ensures multiset(SortSlice(Lines(s, line), Less)) == multiset(Lines(s, line))
    ensures Sorted(SortSlice(Lines(s, line), Less), Less)
    ensures forall l :: l in SortSlice(Lines(s, line), Less) ==> exists x :: x in s && l == line(x)
    ensures forall x :: x in s ==> line(x) in SortSlice(Lines(s, line), Less)
  {
    LessIsStrictOrder();
    SortSliceSorts(Lines(s, line), Less);
    SameElements(SortSlice(Lines(s, line), Less), Lines(s, line));
    LinesSpell(s, line);
  }

  lemma LinesSpell<T(!new)>(s: seq<T>, line: T -> string)
    ensures forall l :: l in Lines(s, line) ==> exists x :: x in s && l == line(x)
    ensures forall x :: x in s ==> line(x) in Lines(s, line)
  {
    forall x | x in s ensures line(x) in Lines(s, line) {
      var i :| 0 <= i < |s| && s[i] == x;
      assert Lines(s, line)[i] == line(x);
    }
  }

  lemma LinesAreClean(g: Graph)
    requires LineClean(g)
    ensures forall l :: l in Tagged(g) ==> '\n' !in l && l != ""
  {
    SortedLines(g.nodes, NodeLine);
    SortedLines(g.edges, EdgeLine);
    forall n | n in g.nodes ensures '\n' !in NodeLine(n) && NodeLine(n) != "" { NodeLineClean(n); }
  }

  lemma NodeLineClean(n: Node)
    requires '\n' !in n.id
    ensures '\n' !in NodeLine(n) && NodeLine(n) != ""
  {
    DecimalIsDigits(n.rev);
    DecimalIsDigits(n.updatedAt);
  }

  /** Node lines and edge lines carry different tags, so the join splits in one way. */
  lemma TagsSplit(a: Graph, b: Graph)
    requires Tagged(a) == Tagged(b)
    ensures SortSlice(Lines(a.nodes, NodeLine), Less) == SortSlice(Lines(b.nodes, NodeLine), Less)
    ensures SortSlice(Lines(a.edges, EdgeLine), Less) == SortSlice(Lines(b.edges, EdgeLine), Less)
  {
    SortedLines(a.nodes, NodeLine);
    SortedLines(a.edges, EdgeLine);
    SortedLines(b.nodes, NodeLine);
    SortedLines(b.edges, EdgeLine);
    PrefixByTag(SortSlice(Lines(a.nodes, NodeLine), Less), SortSlice(Lines(a.edges, EdgeLine), Less),
                SortSlice(Lines(b.nodes, NodeLine), Less), SortSlice(Lines(b.edges, EdgeLine), Less));
  }

  lemma PrefixByTag(a: seq<string>, c: seq<string>, b: seq<string>, d: seq<string>)
    requires a + c == b + d
    requires forall l :: l in a || l in b ==> l != "" && l[0] == 'n'
    requires forall l :: l in c || l in d ==> l != "" && l[0] == 'e'
    ensures a == b && c == d
  {
    var t := a + c;
    assert forall i :: 0 <= i < |t| ==> (t[i][0] == 'n' <==> i < |a|) by {
      forall i | 0 <= i < |t| ensures t[i] != "" && (t[i][0] == 'n' <==> i < |a|) {
        if i < |a| { assert t[i] in a; } else { assert t[i] in c; }
      }
    }
    forall i | 0 <= i < |t| ensures t[i][0] == 'n' <==> i < |b| {
      if i < |b| { assert t[i] in b; } else { assert t[i] in d; }
    }
    var k := if |a| < |b| then |a| else |b|;
    assert k < |t| ==> (t[k][0] == 'n' <==> k < |a|) && (t[k][0] == 'n' <==> k < |b|);
    assert (a + c)[..|a|] == a && (b + d)[..|b|] == b && (a + c)[|a|..] == c && (b + d)[|b|..] == d;
  }

  /** Equal lines mean equal sets of what the lines spell. */
  lemma SameLinesSameItems<T(!new)>(s: seq<T>, t: seq<T>, line: T -> string)
    requires SortSlice(Lines(s, line), Less) == SortSlice(Lines(t, line), Less)
    ensures forall x :: x in s ==> exists y :: y in t && line(y) == line(x)
  {
    SortedLines(s, line);
    SortedLines(t, line);
  }

  /** Repeat-free lines with the same contents sort to the same slice. */
  lemma SameItemsSameLines<T(!new)>(s: seq<T>, t: seq<T>, line: T -> string)
    requires NoDup(Lines(s, line)) && NoDup(Lines(t, line))
    requires forall x :: x in s ==> exists y :: y in t && line(y) == line(x)
    requires forall y :: y in t ==> exists x :: x in s && line(y) == line(x)
    ensures SortSlice(Lines(s, line), Less) == SortSlice(Lines(t, line), Less)
  {
    SortedLines(s, line);
    SortedLines(t, line);
    SameElements(SortSlice(Lines(s, line), Less), Lines(s, line));
    SameElements(SortSlice(Lines(t, line), Less), Lines(t, line));
    NoDupSameElements(Lines(s, line), Lines(t, line));
    LessIsStrictOrder();
    SortedUnique(SortSlice(Lines(s, line), Less), SortSlice(Lines(t, line), Less), Less);
  }

  /** Two graphs digest alike exactly when they hold the same node versions and the
      same edge keys. */
  lemma DigestFaithful(a: Graph, b: Graph)
    requires LineClean(a) && LineClean(b) && Unique(a) && Unique(b)
    ensures DigestOf(a) == DigestOf(b) <==> Versions(a) == Versions(b) && EdgeKeys(a) == EdgeKeys(b)
  {
    if DigestOf(a) == DigestOf(b) {
      LinesAreClean(a);
      LinesAreClean(b);
      Text.JoinInjective(Tagged(a), Tagged(b), '\n');
      TagsSplit(a, b);
      VersionsCovered(a, b);
      VersionsCovered(b, a);
    }
    if Versions(a) == Versions(b) && EdgeKeys(a) == EdgeKeys(b) { SameVersionsSameDigest(a, b); }
  }

  /** This half needs no clean lines. */
  lemma SameVersionsSameDigest(a: Graph, b: Graph)
    requires Unique(a) && Unique(b) && Versions(a) == Versions(b) && EdgeKeys(a) == EdgeKeys(b)
    ensures DigestOf(a) == DigestOf(b)
  {
    NodeLinesNoDup(a);
    NodeLinesNoDup(b);
    CoveredVersions(a, b);
    CoveredVersions(b, a);
    SameItemsSameLines(a.nodes, b.nodes, NodeLine);
    SameItemsSameLines(a.edges, b.edges, EdgeLine);
    assert Tagged(a) == Tagged(b);
  }

  /** Only the empty graph has the empty digest. */
  lemma EmptyDigest(g: Graph)
    ensures DigestOf(g) == Sha256("") <==> g.nodes == [] && g.edges == []
  {
    SortedLines(g.nodes, NodeLine);
    SortedLines(g.edges, EdgeLine);
    var lines := Tagged(g);
    if g.nodes != [] { assert NodeLine(g.nodes[0]) in SortSlice(Lines(g.nodes, NodeLine), Less); }
    if g.edges != [] { assert EdgeLine(g.edges[0]) in SortSlice(Lines(g.edges, EdgeLine), Less); }
    if lines != [] {
      assert lines[0] in lines;
      assert lines[0] != "";
    }
    assert Lines<Node>([], NodeLine) == [] && Lines<Edge>([], EdgeLine) == [];
  }

  lemma VersionsCovered(a: Graph, b: Graph)
    requires SortSlice(Lines(a.nodes, NodeLine), Less) == SortSlice(Lines(b.nodes, NodeLine), Less)
    requires SortSlice(Lines(a.edges, EdgeLine), Less) == SortSlice(Lines(b.edges, EdgeLine), Less)
    ensures Versions(a) <= Versions(b) && EdgeKeys(a) <= EdgeKeys(b)
  {
    SameLinesSameItems(a.nodes, b.nodes, NodeLine);
    SameLinesSameItems(a.edges, b.edges, EdgeLine);
    forall n | n in a.nodes ensures VersionOf(n) in Versions(b) {
      var m :| m in b.nodes && NodeLine(m) == NodeLine(n);
      NodeLineFaithful(m, n);
    }
    forall e | e in a.edges ensures EdgeKey(e) in EdgeKeys(b) {
      var f :| f in b.edges && EdgeLine(f) == EdgeLine(e);
      EdgeLineFaithful(e, f);
    }
  }

  lemma CoveredVersions(a: Graph, b: Graph)
    requires Versions(a) <= Versions(b) && EdgeKeys(a) <= EdgeKeys(b)
    ensures forall n :: n in a.nodes ==> exists m :: m in b.nodes && NodeLine(m) == NodeLine(n)
    ensures forall e :: e in a.edges ==> exists f :: f in b.edges && EdgeLine(f) == EdgeLine(e)
  {
    forall n | n in a.nodes ensures exists m :: m in b.nodes && NodeLine(m) == NodeLine(n) {
      assert VersionOf(n) in Versions(b);
      var m :| m in b.nodes && VersionOf(m) == VersionOf(n);
      NodeLineFaithful(m, n);
    }
    forall e | e in a.edges ensures exists f :: f in b.edges && EdgeLine(f) == EdgeLine(e) {
      assert EdgeKey(e) in EdgeKeys(b);
      var f :| f in b.edges && EdgeKey(f) == EdgeKey(e);
      EdgeLineFaithful(e, f);
    }
  }

  lemma NodeLinesNoDup(g: Graph)
    requires Unique(g)
    ensures NoDup(Lines(g.nodes, NodeLine)) && NoDup(Lines(g.edges, EdgeLine))
  {
    forall i, j | 0 <= i < j < |g.nodes| ensures NodeLine(g.nodes[i]) != NodeLine(g.nodes[j]) {
      assert NodeId(g.nodes[i]) != NodeId(g.nodes[j]);
      NodeLineFaithful(g.nodes[i], g.nodes[j]);
    }
    forall i, j | 0 <= i < j < |g.edges| ensures EdgeLine(g.edges[i]) != EdgeLine(g.edges[j]) {
      EdgeLineFaithful(g.edges[i], g.edges[j]);
    }
  }

  /** What gossip needs: equal digests mean equal graphs as gossip sees them, as long
      as a version triple identifies its node. */
  lemma EqualDigestsEqualGraphs(a: Graph, b: Graph)
    requires LineClean(a) && LineClean(b) && Unique(a) && Unique(b)
    requires forall m, n :: m in a.nodes && n in b.nodes && VersionOf(m) == VersionOf(n) ==> m == n
    requires DigestOf(a) == DigestOf(b)
    ensures NodesOf(a) == NodesOf(b) && EdgeKeys(a) == EdgeKeys(b)
  {
    DigestFaithful(a, b);
    forall n ensures n in a.nodes <==> n in b.nodes {
      if n in a.nodes { assert VersionOf(n) in Versions(b); }
      if n in b.nodes { assert VersionOf(n) in Versions(a); }
    }
    SameLastMap(a.nodes, b.nodes, NodeId);
  }

  /** The digest does not see content: an import that rewrites only a node's source
      leaves it unchanged, although the node maps differ. */
  lemma DigestBlindToContent(n: Node, m: Node)
    requires VersionOf(n) == VersionOf(m) && n != m
    ensures DigestOf(Graph(1, [n], [])) == DigestOf(Graph(1, [m], []))
    ensures NodesOf(Graph(1, [n], [])) != NodesOf(Graph(1, [m], []))
  {
    NodeLineFaithful(n, m);
    assert Lines([n], NodeLine) == Lines([m], NodeLine);
    assert [n][..0] == [] && [m][..0] == [];
    assert NodesOf(Graph(1, [n], []))[n.id] == n && NodesOf(Graph(1, [m], []))[n.id] == m;
  }

  /** Why ids must not contain line breaks: one node whose id spells the end of one
      line and the start of the next digests like two nodes. */
  lemma LineBreakCollides(p: Node, q: Node, r: Node)
    requires p.id != q.id && Less(NodeLine(p), NodeLine(q))
    requires VersionOf(r) == Version(NodeLine(p)[2..] + "\nn|" + q.id, q.rev, q.updatedAt)
    ensures Unique(Graph(1, [p, q], [])) && Unique(Graph(1, [r], []))
    ensures DigestOf(Graph(1, [p, q], [])) == DigestOf(Graph(1, [r], []))
  {
    var x, y := NodeLine(p), NodeLine(q);
    SpelledLine(p, q, r);
    assert Lines([p, q], NodeLine) == [x, y];
    assert Lines([r], NodeLine) == [NodeLine(r)];
    assert Lines<Edge>([], EdgeLine) == [];
    SortTwo(x, y);
    SortTwo(NodeLine(r), y);
  }

  lemma SpelledLine(p: Node, q: Node, r: Node)
    requires VersionOf(r) == Version(NodeLine(p)[2..] + "\nn|" + q.id, q.rev, q.updatedAt)
    ensures NodeLine(r) == NodeLine(p) + ['\n'] + NodeLine(q)
  {
    var x := NodeLine(p);
    assert x == "n|" + x[2..];
    assert "n|" + (x[2..] + "\nn|" + q.id) == x + ['\n'] + ("n|" + q.id);
  }

  lemma SortTwo(x: string, y: string)
    ensures SortSlice([x], Less) == [x] && Text.Join([x] + [], '\n') == x
    ensures Less(x, y) ==> SortSlice([x, y], Less) == [x, y]
    ensures Text.Join([x, y] + [], '\n') == x + ['\n'] + y
  {
    assert [x, y][1..] == [y] && [x][1..] == [] && [y][1..] == [];
    assert Insert(x, [], Less) == [x] && Insert(y, [], Less) == [y];
    assert [x] + [] == [x] && [x, y] + [] == [x, y];
    assert SortSlice([y], Less) == [y];
    assert Text.Join([y], '\n') == y;
    if Less(x, y) {
      LessIsStrictOrder();
      if Less(y, x) { LessTransitive(x, y, x); }
    }
  }
}
