/**
 * The guard on the pattern is needed: a pattern in which two undirected edges meet at an unscanned vertex,
 * and neither of them leads to an unscanned end of the path, has a graph on which its quals accept a row
 * that no walk gives.
 */
module MatchConverse {
  import opened Results
  import opened PropertyGraph
  import opened MatchPattern
  import opened MatchQuals
  import opened MatchLinks
  import opened MatchCorrect

  /**
   * At i two undirected edges meet at a vertex that is not scanned. On either side the path goes on, or ends
   * in a scanned vertex; the vertices beyond need not be scanned otherwise.
   */
  predicate Meets(ents: seq<Entity>, i: int) {
    && 2 <= i < |ents| - 2 && ents[i].Vertex? && !ents[i].InTree()
    && ents[i - 1].Edge? && ents[i - 1].rel.dir.Either? && ents[i + 1].Edge? && ents[i + 1].rel.dir.Either?
    && ents[i - 2].Vertex? && (ents[i - 2].InTree() || i - 2 > 0) && ents[i + 2].Vertex? && (ents[i + 2].InTree() || i + 2 < |ents| - 1)
  }

  /** The vertex before the meeting may have the label asked of the vertex at it. */
  predicate LabelsFit(ents: seq<Entity>, i: int)
    requires Meets(ents, i)
  {
    var at, before := ents[i].node.ofLabel, ents[i - 2].node.ofLabel;
    at.AnyLabel? || before.AnyLabel? || at == before
  }

  ghost predicate NamesOnce(ents: seq<Entity>) {
    forall j, k | 0 <= j < k < |ents| && ents[j].InTree() && ents[k].InTree() && ents[j].Name().Some? :: ents[j].Name() != ents[k].Name()
  }

  /** Entities with such a meeting at i, and no variable twice. */
  ghost predicate Site(ents: seq<Entity>, i: int) {
    Alternates(ents) && Meets(ents, i) && LabelsFit(ents, i) && NamesOnce(ents)
  }

  // ---------------------------------------------------------------- the graph

  function IdOf(l: LabelSpec): nat {
    if l.Label? then l.id else 0
  }

  /** One vertex for each vertex of the pattern; the one before the meeting has the label of the one at it, if it may. */
  function VertexId(ents: seq<Entity>, i: int, k: nat): GraphId
    requires Site(ents, i) && k < |ents| && ents[k].Vertex?
  {
    GraphId(if k == i - 2 && ents[k].node.ofLabel.AnyLabel? then IdOf(ents[i].node.ofLabel) else IdOf(ents[k].node.ofLabel), k)
  }

  function EdgeId(ents: seq<Entity>, k: nat): GraphId
    requires k < |ents| && ents[k].Edge?
  {
    GraphId(IdOf(ents[k].rel.ofLabel), k)
  }

  /** The vertices to the left and right of an edge; both edges of the meeting lie between the same two. */
  function LeftOf(ents: seq<Entity>, i: int, k: nat): GraphId
    requires Site(ents, i) && k < |ents| && ents[k].Edge?
  {
    VertexId(ents, i, if k == i + 1 then i - 2 else k - 1)
  }

  function RightOf(ents: seq<Entity>, i: int, k: nat): GraphId
    requires Site(ents, i) && k < |ents| && ents[k].Edge?
  {
    VertexId(ents, i, if k == i - 1 then i + 2 else k + 1)
  }

  function PropsOr(props: Option<Props>): Props {
    if props.Some? then props.value else map[]
  }

  function EdgeOf(ents: seq<Entity>, i: int, k: nat): PropertyGraph.Edge
    requires Site(ents, i) && k < |ents| && ents[k].Edge?
  {
    var props := PropsOr(ents[k].rel.props);
    if ents[k].rel.dir.Left? then PropertyGraph.Edge(RightOf(ents, i, k), LeftOf(ents, i, k), props)
    else PropertyGraph.Edge(LeftOf(ents, i, k), RightOf(ents, i, k), props)
  }

  /** The entry number of each entity is its position in the pattern. */
  ghost function MisleadingGraph(ents: seq<Entity>, i: int): Graph
    requires Site(ents, i)
  {
    var vs := set k: nat | k < |ents| && ents[k].Vertex? :: VertexId(ents, i, k);
    var es := set k: nat | k < |ents| && ents[k].Edge? :: EdgeId(ents, k);
    Graph(map id | id in vs :: PropsOr(ents[id.entry].node.props), map id | id in es :: EdgeOf(ents, i, id.entry))
  }

  /** Variable-length steps go from anywhere to anywhere over no edges. */
  ghost function MisleadingWorld(ents: seq<Entity>, i: int): World
    requires Site(ents, i)
  {
    World(MisleadingGraph(ents, i), (r, u, v, es) => es == [])
  }

  function BoundTo(ents: seq<Entity>, i: int, k: nat): Binding
    requires Site(ents, i) && k < |ents|
  {
    match ents[k]
    case Vertex(_, _) => V(VertexId(ents, i, k))
    case Edge(_) => E(EdgeId(ents, k))
    case VleEdge(_) => P([])
  }

  function AllBound(ents: seq<Entity>, i: int): (r: seq<Binding>)
    requires Site(ents, i)
    ensures |r| == |ents|
  {
    seq(|ents|, k requires 0 <= k < |ents| => BoundTo(ents, i, k))
  }

  ghost predicate IsPosition(ents: seq<Entity>, name: Name, k: int) {
    0 <= k < |ents| && ents[k].InTree() && ents[k].Name() == Some(name)
  }

  ghost function Position(ents: seq<Entity>, name: Name): (k: nat)
    requires name in TreeNames(ents)
    ensures IsPosition(ents, name, k)
  {
    var k: nat :| k < |ents| && ents[k].InTree() && ents[k].Name() == Some(name);
    k
  }

  ghost function MisleadingRow(ents: seq<Entity>, i: int): Row
    requires Site(ents, i)
  {
    map name | name in TreeNames(ents) :: BoundTo(ents, i, Position(ents, name))
  }

  /** What the lemmas below use of the graph and the row. */
  ghost predicate Misleading(ents: seq<Entity>, i: int, w: World, row: Row)
    requires Site(ents, i)
  {
    && row.Keys == TreeNames(ents)
    && (forall k: nat | k < |ents| && ents[k].InTree() && ents[k].Name().Some? ::
          ents[k].Name().value in row && row[ents[k].Name().value] == BoundTo(ents, i, k))
    && (forall k: nat | k < |ents| && ents[k].Vertex? ::
          VertexId(ents, i, k) in w.g.vertices && w.g.vertices[VertexId(ents, i, k)] == PropsOr(ents[k].node.props))
    && (forall k: nat | k < |ents| && ents[k].Edge? ::
          EdgeId(ents, k) in w.g.edges && w.g.edges[EdgeId(ents, k)] == EdgeOf(ents, i, k))
    && (forall r, u, v :: w.vle(r, u, v, []))
  }

  lemma GraphIsWhole(ents: seq<Entity>, i: int)
    requires Site(ents, i)
    ensures Misleading(ents, i, MisleadingWorld(ents, i), MisleadingRow(ents, i))
    ensures NoDangling(MisleadingWorld(ents, i).g) && VleYieldsTrails(MisleadingWorld(ents, i))
  {
    hide MisleadingGraph, MisleadingRow, TreeNames, Site;
    EntitiesStored(ents, i);
    RowBinds(ents, i);
  }

  lemma VerticesStored(ents: seq<Entity>, i: int)
    requires Site(ents, i)
    ensures var g := MisleadingGraph(ents, i);
            forall k: nat | k < |ents| && ents[k].Vertex? ::
              VertexId(ents, i, k) in g.vertices && g.vertices[VertexId(ents, i, k)] == PropsOr(ents[k].node.props)
  {
    hide Site, EdgeOf;
  }

  lemma EdgesStored(ents: seq<Entity>, i: int)
    requires Site(ents, i)
    ensures var g := MisleadingGraph(ents, i);
            && (forall k: nat | k < |ents| && ents[k].Edge? ::
                  EdgeId(ents, k) in g.edges && g.edges[EdgeId(ents, k)] == EdgeOf(ents, i, k))
            && (forall e | e in g.edges :: e.entry < |ents| && ents[e.entry].Edge? && g.edges[e] == EdgeOf(ents, i, e.entry))
  {
    hide Site, EdgeOf, VertexId;
  }

  lemma EntitiesStored(ents: seq<Entity>, i: int)
    requires Site(ents, i)
    ensures var g := MisleadingGraph(ents, i);
            && NoDangling(g)
            && (forall k: nat | k < |ents| && ents[k].Vertex? ::
                  VertexId(ents, i, k) in g.vertices && g.vertices[VertexId(ents, i, k)] == PropsOr(ents[k].node.props))
            && (forall k: nat | k < |ents| && ents[k].Edge? ::
                  EdgeId(ents, k) in g.edges && g.edges[EdgeId(ents, k)] == EdgeOf(ents, i, k))
  {
    hide MisleadingGraph;
    VerticesStored(ents, i);
    EdgesStored(ents, i);
    var g := MisleadingGraph(ents, i);
    forall e | e in g.edges ensures g.edges[e].start in g.vertices && g.edges[e].end in g.vertices {
      assert LeftOf(ents, i, e.entry) in g.vertices && RightOf(ents, i, e.entry) in g.vertices;
    }
  }

  lemma RowBinds(ents: seq<Entity>, i: int)
    requires Site(ents, i)
    ensures var row := MisleadingRow(ents, i);
            && row.Keys == TreeNames(ents)
            && forall k: nat | k < |ents| && ents[k].InTree() && ents[k].Name().Some? ::
                 ents[k].Name().value in row && row[ents[k].Name().value] == BoundTo(ents, i, k)
  {
    var row := MisleadingRow(ents, i);
    forall k: nat | k < |ents| && ents[k].InTree() && ents[k].Name().Some?
      ensures ents[k].Name().value in row && row[ents[k].Name().value] == BoundTo(ents, i, k)
    {
      var name := ents[k].Name().value;
      assert IsPosition(ents, name, k) && name in TreeNames(ents);
      assert IsPosition(ents, name, Position(ents, name));
    }
  }

  lemma VertexThere(ents: seq<Entity>, i: int, w: World, row: Row, k: nat)
    requires Site(ents, i) && Misleading(ents, i, w, row) && k < |ents| && ents[k].Vertex?
    ensures VertexId(ents, i, k) in w.g.vertices && w.g.vertices[VertexId(ents, i, k)] == PropsOr(ents[k].node.props)
  {}

  lemma EdgeThere(ents: seq<Entity>, i: int, w: World, row: Row, k: nat)
    requires Site(ents, i) && Misleading(ents, i, w, row) && k < |ents| && ents[k].Edge?
    ensures EdgeId(ents, k) in w.g.edges && w.g.edges[EdgeId(ents, k)] == EdgeOf(ents, i, k)
  {}

  lemma RowAt(ents: seq<Entity>, i: int, w: World, row: Row, k: nat)
    requires Site(ents, i) && Misleading(ents, i, w, row) && k < |ents| && ents[k].InTree() && ents[k].Name().Some?
    ensures ents[k].Name().value in row && row[ents[k].Name().value] == BoundTo(ents, i, k)
  {}

  // ---------------------------------------------------------------- the row is accepted

  lemma CompiledNamesOnce(p: Path, ents: seq<Entity>)
    requires Compiled(p, ents) && VariablesOnce(p)
    ensures NamesOnce(ents)
  {}

  /** Whatever is in the join has a variable, and whatever has properties is in the join. */
  lemma ScansWhatHasProps(p: Path, ents: seq<Entity>)
    requires WellFormed(p) && Compiled(p, ents)
    ensures forall k | 0 <= k < |ents| && ents[k].InTree() :: ents[k].Name().Some?
    ensures forall k | 0 <= k < |ents| && ents[k].Vertex? && ents[k].node.props.Some? :: ents[k].InTree()
  {
    forall k | 0 <= k < |ents| && ents[k].Vertex? && ents[k].node.props.Some? ensures ents[k].InTree() {
      assert Renames(p.elems[k], ents[k]) && Mentioned(p, k);
    }
  }

  lemma RowIsScanned(p: Path, ents: seq<Entity>, i: int, w: World, row: Row)
    requires WellFormed(p) && Compiled(p, ents) && Site(ents, i) && Misleading(ents, i, w, row)
    ensures forall k | 0 <= k < |ents| :: Scanned(ents, k, w, row)
  {
    ScansWhatHasProps(p, ents);
    forall k | 0 <= k < |ents| ensures Scanned(ents, k, w, row) {
      if ents[k].VleEdge? { VleNeighboursAreScanned(p, ents, k); }
      hide Compiled, WellFormed, Misleading, Scanned, Site;
      if !ents[k].InTree() {
        NotScanned(ents, k, w, row);
      } else if ents[k].VleEdge? {
        VleIsScanned(ents, i, w, row, k);
      } else if ents[k].Vertex? {
        VertexIsScanned(ents, i, w, row, k);
      } else {
        EdgeIsScanned(ents, i, w, row, k);
      }
    }
  }

  lemma NotScanned(ents: seq<Entity>, k: int, w: World, row: Row)
    requires Alternates(ents) && 0 <= k < |ents| && !ents[k].InTree()
    ensures Scanned(ents, k, w, row)
  {}

  lemma VleIsScanned(ents: seq<Entity>, i: int, w: World, row: Row, k: int)
    requires Site(ents, i) && Misleading(ents, i, w, row) && 0 < k < |ents| - 1 && ents[k].VleEdge?
    requires forall j | 0 <= j < |ents| && ents[j].InTree() :: ents[j].Name().Some?
    requires ents[k - 1].InTree() && ents[k + 1].InTree()
    ensures Scanned(ents, k, w, row)
  {
    RowAt(ents, i, w, row, k);
    RowAt(ents, i, w, row, k - 1);
    RowAt(ents, i, w, row, k + 1);
  }

  lemma VertexIsScanned(ents: seq<Entity>, i: int, w: World, row: Row, k: int)
    requires Site(ents, i) && Misleading(ents, i, w, row) && 0 <= k < |ents| && ents[k].Vertex? && ents[k].InTree()
    requires ents[k].Name().Some?
    ensures Scanned(ents, k, w, row)
  {
    RowAt(ents, i, w, row, k);
    VertexThere(ents, i, w, row, k);
  }

  lemma EdgeIsScanned(ents: seq<Entity>, i: int, w: World, row: Row, k: int)
    requires Site(ents, i) && Misleading(ents, i, w, row) && 0 <= k < |ents| && ents[k].Edge?
    requires ents[k].Name().Some?
    ensures Scanned(ents, k, w, row)
  {
    RowAt(ents, i, w, row, k);
    EdgeThere(ents, i, w, row, k);
  }

  lemma RowExtends(p: Path, ents: seq<Entity>, i: int, w: World, row: Row)
    requires WellFormed(p) && Compiled(p, ents) && Site(ents, i) && Misleading(ents, i, w, row)
    ensures Extends(ents, AllBound(ents, i), row)
  {
    hide Compiled, WellFormed, VertexId, EdgeId, Misleading, Site;
    ScansWhatHasProps(p, ents);
    var bs := AllBound(ents, i);
    forall k | 0 <= k < |ents|
      ensures && (ents[k].Vertex? ==> bs[k].V?)
              && (ents[k].InTree() ==> ents[k].Name().Some? && ents[k].Name().value in row && row[ents[k].Name().value] == bs[k])
              && (ents[k].Edge? ==> bs[k].E?) && (ents[k].VleEdge? ==> bs[k].P?)
    {
      if ents[k].InTree() { RowAt(ents, i, w, row, k); }
    }
  }

  lemma VertexIsThere(ents: seq<Entity>, i: int, w: World, row: Row, k: int)
    requires Site(ents, i) && Misleading(ents, i, w, row)
    requires VertexBound(ents, w, row, k)
    ensures VertexAt(ents, w, row, k) == VertexId(ents, i, k)
  {
    RowAt(ents, i, w, row, k);
  }

  lemma EdgeIsThere(ents: seq<Entity>, i: int, w: World, row: Row, k: int)
    requires Site(ents, i) && Misleading(ents, i, w, row)
    requires EdgeBound(ents, w, row, k)
    ensures EdgeAt(ents, w, row, k) == EdgeOf(ents, i, k)
  {
    RowAt(ents, i, w, row, k);
    EdgeThere(ents, i, w, row, k);
  }

  lemma LeftEnd(ents: seq<Entity>, i: int, k: int)
    requires Site(ents, i) && 0 < k < |ents| - 1 && ents[k].Edge?
    ensures ents[k - 1].Vertex? && (ents[k - 1].InTree() ==> LeftOf(ents, i, k) == VertexId(ents, i, k - 1))
    ensures !ents[k - 1].InTree() ==> LabelOk(ents[k - 1].node.ofLabel, LeftOf(ents, i, k))
    ensures k >= 2 && ents[k - 2].Edge? ==> MayEndAt(ents[k - 2].rel.dir, EdgeOf(ents, i, k - 2), LeftOf(ents, i, k))
  {
    if k >= 2 && ents[k - 2].Edge? && k != i + 1 { assert RightOf(ents, i, k - 2) == LeftOf(ents, i, k); }
  }

  lemma RightEnd(ents: seq<Entity>, i: int, k: int)
    requires Site(ents, i) && 0 < k < |ents| - 1 && ents[k].Edge?
    ensures ents[k + 1].Vertex? && (ents[k + 1].InTree() ==> RightOf(ents, i, k) == VertexId(ents, i, k + 1))
    ensures !ents[k + 1].InTree() && k + 2 >= |ents| ==> LabelOk(ents[k + 1].node.ofLabel, RightOf(ents, i, k))
    ensures k + 2 < |ents| && ents[k + 2].Edge? ==> MayStartAt(ents[k + 2].rel.dir, EdgeOf(ents, i, k + 2), RightOf(ents, i, k))
  {
    if k + 2 < |ents| && ents[k + 2].Edge? && k != i - 1 { assert LeftOf(ents, i, k + 2) == RightOf(ents, i, k); }
  }

  /** The left end of an edge fits what stands on its left, its right end what stands on its right. */
  lemma EndsFit(ents: seq<Entity>, i: int, w: World, row: Row, k: int)
    requires Site(ents, i) && Misleading(ents, i, w, row) && Bound(ents, w, row) && 0 < k < |ents| - 1 && ents[k].Edge?
    ensures LeftLink(ents, w, row, k, LeftOf(ents, i, k))
    ensures RightLink(ents, w, row, k, RightOf(ents, i, k))
  {
    hide Misleading, EdgeAt, VertexAt, EdgeBound, VertexBound, EdgeOf, LeftOf, RightOf, VertexId, MayStartAt, MayEndAt, LabelsFit, Meets;
    LeftEnd(ents, i, k);
    RightEnd(ents, i, k);
    if ents[k - 1].InTree() { VertexIsThere(ents, i, w, row, k - 1); }
    if ents[k + 1].InTree() { VertexIsThere(ents, i, w, row, k + 1); }
    if k >= 2 && ents[k - 2].Edge? { EdgeIsThere(ents, i, w, row, k - 2); }
    if k + 2 < |ents| && ents[k + 2].Edge? { EdgeIsThere(ents, i, w, row, k + 2); }
  }

  /** Each edge alone fits its neighbours: the two of the meeting each look at the other's far end. */
  lemma AllAreLinked(ents: seq<Entity>, i: int, w: World, row: Row)
    requires Site(ents, i) && Misleading(ents, i, w, row) && Bound(ents, w, row)
    ensures AllLinked(ents, w, row)
  {
    forall k | 0 <= k < |ents| && ents[k].Edge? ensures 0 < k < |ents| - 1 && Linked(ents, w, row, k) {
      EndsFit(ents, i, w, row, k);
      EdgeIsThere(ents, i, w, row, k);
      hide Misleading, EdgeAt, LeftLink, RightLink, LeftOf, RightOf;
    }
  }

  /** Edges are bound to different ids, and variable-length steps to none. */
  lemma {:induction false} BoundEdgesDiffer(ents: seq<Entity>, i: int, j: nat)
    requires Site(ents, i) && j <= |ents|
    ensures NoRepeats(AllEdges(AllBound(ents, i)[j..]))
    ensures forall id | id in AllEdges(AllBound(ents, i)[j..]) :: j <= id.entry
    decreases |ents| - j
  {
    var bs := AllBound(ents, i);
    if j < |ents| {
      BoundEdgesDiffer(ents, i, j + 1);
      assert bs[j..] == [bs[j]] + bs[j + 1..] && bs[j..][1..] == bs[j + 1..];
      var rest := AllEdges(bs[j + 1..]);
      if ents[j].Edge? {
        assert AllEdges(bs[j..]) == [EdgeId(ents, j)] + rest;
        NoRepeatsCons(EdgeId(ents, j), rest);
      } else {
        assert AllEdges(bs[j..]) == [] + rest == rest;
      }
    }
  }

  lemma RowHasProps(p: Path, ents: seq<Entity>, i: int, w: World, row: Row)
    requires WellFormed(p) && Compiled(p, ents) && Site(ents, i) && Misleading(ents, i, w, row)
    ensures PropsHold(ents, w.g, row)
  {
    hide Misleading, Compiled, Holds, WellFormed, Site;
    ScansWhatHasProps(p, ents);
    forall k | 0 <= k < |ents| && !ents[k].VleEdge?
      ensures var props := if ents[k].Vertex? then ents[k].node.props else ents[k].rel.props;
              props.Some? ==> Holds(HasProps(ents[k].Name(), props.value), w.g, row)
    {
      if ents[k].InTree() { PropsAt(ents, i, w, row, k); }
    }
  }

  lemma OwnProps(g: Graph, row: Row, name: Option<Name>, props: Option<Props>)
    requires name.Some? && name.value in row && StoredProps(row[name.value], g) == Some(PropsOr(props))
    ensures props.Some? ==> Holds(HasProps(name, props.value), g, row)
  {}

  lemma PropsAt(ents: seq<Entity>, i: int, w: World, row: Row, k: int)
    requires Site(ents, i) && Misleading(ents, i, w, row)
    requires 0 <= k < |ents| && !ents[k].VleEdge? && ents[k].InTree() && ents[k].Name().Some?
    ensures var props := if ents[k].Vertex? then ents[k].node.props else ents[k].rel.props;
            props.Some? ==> Holds(HasProps(ents[k].Name(), props.value), w.g, row)
  {
    hide Misleading, VertexId, EdgeId, LeftOf, RightOf, Holds;
    RowAt(ents, i, w, row, k);
    if ents[k].Vertex? {
      VertexThere(ents, i, w, row, k);
      OwnProps(w.g, row, ents[k].Name(), ents[k].node.props);
    } else {
      EdgeThere(ents, i, w, row, k);
      OwnProps(w.g, row, ents[k].Name(), ents[k].rel.props);
    }
  }

  lemma VleHasTrails(ents: seq<Entity>, i: int, w: World, row: Row)
    requires Site(ents, i) && Misleading(ents, i, w, row)
    ensures forall k | 0 <= k < |ents| && ents[k].VleEdge? ::
              AllBound(ents, i)[k].P? && exists r, u, v :: w.vle(r, u, v, AllBound(ents, i)[k].edges)
  {
    forall k | 0 <= k < |ents| && ents[k].VleEdge?
      ensures AllBound(ents, i)[k].P? && exists r, u, v :: w.vle(r, u, v, AllBound(ents, i)[k].edges)
    {
      assert w.vle(ents[k].rel, GraphId(0, 0), GraphId(0, 0), AllBound(ents, i)[k].edges);
    }
  }

  lemma QualsAccept(p: Path, ents: seq<Entity>, i: int, w: World, row: Row)
    requires WellFormed(p) && Compiled(p, ents) && Site(ents, i) && Misleading(ents, i, w, row)
    requires Bound(ents, w, row) && VleYieldsTrails(w)
    ensures PathQuals(ents).Ok? && AllHold(PathQuals(ents).value, w.g, row)
  {
    var bs := AllBound(ents, i);
    RowExtends(p, ents, i, w, row);
    CompiledIsFenced(p, ents);
    BoundEdgesDiffer(ents, i, 0);
    assert bs[0..] == bs;
    RowHasProps(p, ents, i, w, row);
    VleHasTrails(ents, i, w, row);
    AllAreLinked(ents, i, w, row);
    hide *;
    PathQualsMean(ents, bs, w, row);
  }

  lemma RowIsAccepted(p: Path, ents: seq<Entity>, i: int, w: World, row: Row)
    requires WellFormed(p) && Compiled(p, ents) && Site(ents, i) && Misleading(ents, i, w, row) && VleYieldsTrails(w)
    ensures Satisfies(ents, w, row)
  {
    RowIsScanned(p, ents, i, w, row);
    ScannedIsBound(ents, w, row);
    QualsAccept(p, ents, i, w, row);
    hide PathQuals, AllHold, Scanned, Bound, Compiled, WellFormed;
  }

  // ---------------------------------------------------------------- no walk gives it

  lemma AgreesAt(ents: seq<Entity>, i: int, w: World, row: Row, emb: seq<Binding>, k: nat)
    requires Site(ents, i) && Misleading(ents, i, w, row) && Agree(ents, emb, row)
    requires k < |ents| && ents[k].InTree() && ents[k].Name().Some?
    ensures emb[k] == BoundTo(ents, i, k)
  {
    RowAt(ents, i, w, row, k);
  }

  /** What an embedding says of an edge: it joins the vertices on both sides, in whatever direction. */
  lemma WalkedAt(p: Path, ents: seq<Entity>, i: int, w: World, row: Row, emb: seq<Binding>, k: nat)
    requires WellFormed(p) && Compiled(p, ents) && Site(ents, i) && Misleading(ents, i, w, row) && 0 < k < |ents| - 1 && ents[k].Edge?
    requires IsEmbedding(p, w, emb) && |emb| == |ents| && emb[k] == BoundTo(ents, i, k)
    ensures emb[k - 1].V? && emb[k + 1].V?
    ensures Joins(Either, EdgeOf(ents, i, k), emb[k - 1].id, emb[k + 1].id)
  {
    assert Renames(p.elems[k], ents[k]);
    hide Misleading, Compiled, EdgeOf, IsEmbedding, NamesOnce, VertexId, EdgeId;
    WalkedEdge(p, w, emb, k);
    EdgeThere(ents, i, w, row, k);
  }

  lemma WalkedEdge(p: Path, w: World, emb: seq<Binding>, k: nat)
    requires WellFormed(p) && IsEmbedding(p, w, emb) && k < |p.elems| && p.elems[k].Rel? && !p.elems[k].Vle()
    ensures 0 < k < |emb| - 1 && emb[k - 1].V? && emb[k + 1].V? && emb[k].E? && emb[k].id in w.g.edges
    ensures Joins(Either, w.g.edges[emb[k].id], emb[k - 1].id, emb[k + 1].id)
  {
    assert ElemMatches(p, w, emb, k);
  }

  /** Both edges of the meeting join the vertex before it and the vertex after it. */
  lemma MeetingEdges(ents: seq<Entity>, i: int, x: GraphId)
    requires Site(ents, i)
    ensures ents[i - 1].InTree() && ents[i + 1].InTree()
    ensures VertexId(ents, i, i - 2) != VertexId(ents, i, i + 2)
    ensures Joins(Either, EdgeOf(ents, i, i - 1), VertexId(ents, i, i - 2), x) ==> x == VertexId(ents, i, i + 2)
    ensures Joins(Either, EdgeOf(ents, i, i + 1), x, VertexId(ents, i, i + 2)) ==> x == VertexId(ents, i, i - 2)
  {}

  /** An edge before the meeting and the first of its edges have only the vertex between them in common. */
  lemma EdgesBefore(ents: seq<Entity>, i: int, x: GraphId, y: GraphId, z: GraphId)
    requires Site(ents, i) && i >= 4 && ents[i - 3].Edge?
    requires Joins(Either, EdgeOf(ents, i, i - 3), x, y) && Joins(Either, EdgeOf(ents, i, i - 1), y, z)
    ensures y == VertexId(ents, i, i - 2)
  {}

  lemma EdgesAfter(ents: seq<Entity>, i: int, x: GraphId, y: GraphId, z: GraphId)
    requires Site(ents, i) && i + 4 < |ents| && ents[i + 3].Edge?
    requires Joins(Either, EdgeOf(ents, i, i + 1), x, y) && Joins(Either, EdgeOf(ents, i, i + 3), y, z)
    ensures y == VertexId(ents, i, i + 2)
  {}

  /** Where the path goes on beyond an unscanned vertex there is an edge: variable-length steps have scanned neighbours. */
  lemma EdgeBeyond(p: Path, ents: seq<Entity>, i: int)
    requires WellFormed(p) && Compiled(p, ents) && Site(ents, i)
    ensures !ents[i - 2].InTree() ==> i >= 4 && ents[i - 3].Edge?
    ensures !ents[i + 2].InTree() ==> i + 4 < |ents| && ents[i + 3].Edge?
  {
    if !ents[i - 2].InTree() && ents[i - 3].VleEdge? { VleNeighboursAreScanned(p, ents, i - 3); }
    if !ents[i + 2].InTree() && ents[i + 3].VleEdge? { VleNeighboursAreScanned(p, ents, i + 3); }
  }

  /** The walk reaches the meeting's first edge from the vertex before it. */
  lemma ReachedFromBefore(p: Path, ents: seq<Entity>, i: int, w: World, row: Row, emb: seq<Binding>)
    requires WellFormed(p) && Compiled(p, ents) && Site(ents, i) && Misleading(ents, i, w, row) && IsEmbedding(p, w, emb) && Agree(ents, emb, row)
    ensures emb[i - 2] == V(VertexId(ents, i, i - 2))
  {
    hide Misleading, NamesOnce, Compiled, WellFormed, IsEmbedding, TreeNames, VertexId, EdgeId, EdgeOf, Joins, LabelsFit;
    ScansWhatHasProps(p, ents);
    if ents[i - 2].InTree() {
      AgreesAt(ents, i, w, row, emb, i - 2);
    } else {
      EdgeBeyond(p, ents, i);
      AgreesAt(ents, i, w, row, emb, i - 3);
      AgreesAt(ents, i, w, row, emb, i - 1);
      WalkedAt(p, ents, i, w, row, emb, i - 3);
      WalkedAt(p, ents, i, w, row, emb, i - 1);
      EdgesBefore(ents, i, emb[i - 4].id, emb[i - 2].id, emb[i].id);
    }
  }

  /** And would have to leave its second edge at the vertex after it. */
  lemma LeavesAfter(p: Path, ents: seq<Entity>, i: int, w: World, row: Row, emb: seq<Binding>)
    requires WellFormed(p) && Compiled(p, ents) && Site(ents, i) && Misleading(ents, i, w, row) && IsEmbedding(p, w, emb) && Agree(ents, emb, row)
    ensures emb[i + 2] == V(VertexId(ents, i, i + 2))
  {
    hide Misleading, NamesOnce, Compiled, WellFormed, IsEmbedding, TreeNames, VertexId, EdgeId, EdgeOf, Joins, LabelsFit;
    ScansWhatHasProps(p, ents);
    if ents[i + 2].InTree() {
      AgreesAt(ents, i, w, row, emb, i + 2);
    } else {
      EdgeBeyond(p, ents, i);
      AgreesAt(ents, i, w, row, emb, i + 1);
      AgreesAt(ents, i, w, row, emb, i + 3);
      WalkedAt(p, ents, i, w, row, emb, i + 1);
      WalkedAt(p, ents, i, w, row, emb, i + 3);
      EdgesAfter(ents, i, emb[i].id, emb[i + 2].id, emb[i + 4].id);
    }
  }

  /** The two edges of the meeting are taken from the one vertex to the other and back, never on. */
  lemma NoWalk(p: Path, ents: seq<Entity>, i: int, w: World, row: Row, emb: seq<Binding>)
    requires WellFormed(p) && Compiled(p, ents) && Site(ents, i) && Misleading(ents, i, w, row) && IsEmbedding(p, w, emb)
    ensures !Agree(ents, emb, row)
  {
    hide Misleading, NamesOnce, Compiled, WellFormed, IsEmbedding, TreeNames, VertexId, EdgeId, EdgeOf, Joins, LabelsFit;
    ScansWhatHasProps(p, ents);
    if Agree(ents, emb, row) {
      ReachedFromBefore(p, ents, i, w, row, emb);
      LeavesAfter(p, ents, i, w, row, emb);
      AgreesAt(ents, i, w, row, emb, i - 1);
      AgreesAt(ents, i, w, row, emb, i + 1);
      WalkedAt(p, ents, i, w, row, emb, i - 1);
      WalkedAt(p, ents, i, w, row, emb, i + 1);
      MeetingEdges(ents, i, emb[i].id);
    }
  }

  /**
   * Every pattern with such a meeting, whatever else is in it, has a graph without dangling edges and a row on it
   * that satisfies the compiled quals, and that no embedding gives.
   */
  lemma MeetingMisleads(p: Path, ents: seq<Entity>, i: int) returns (w: World, row: Row)
    requires WellFormed(p) && Compiled(p, ents) && VariablesOnce(p) && Alternates(ents) && Meets(ents, i) && LabelsFit(ents, i)
    ensures NoDangling(w.g) && VleYieldsTrails(w) && Satisfies(ents, w, row)
    ensures forall emb | IsEmbedding(p, w, emb) :: !Agree(ents, emb, row)
  {
    hide Compiled, WellFormed, VariablesOnce, Alternates, Meets, LabelsFit, Satisfies, Agree, IsEmbedding, Misleading, MisleadingWorld, MisleadingRow,
         NoDangling, VleYieldsTrails;
    CompiledNamesOnce(p, ents);
    w, row := MisleadingWorld(ents, i), MisleadingRow(ents, i);
    GraphIsWhole(ents, i);
    RowIsAccepted(p, ents, i, w, row);
    forall emb | IsEmbedding(p, w, emb) ensures !Agree(ents, emb, row) {
      NoWalk(p, ents, i, w, row, emb);
    }
  }

  // ---------------------------------------------------------------- several paths in one clause

  /** The row's variables of one path. */
  ghost function PartOf(row: Row, ents: seq<Entity>): Row {
    map n | n in TreeNames(ents) && n in row :: row[n]
  }

  /** A row of a MATCH of two paths: each path's scans and quals, and nothing that compares the two. */
  ghost predicate BothSatisfied(a: seq<Entity>, b: seq<Entity>, w: World, row: Row)
    requires Alternates(a) && Alternates(b)
  {
    row.Keys == TreeNames(a) + TreeNames(b) && Satisfies(a, w, PartOf(row, a)) && Satisfies(b, w, PartOf(row, b))
  }

  /** `(x)-[r]->(y)`. */
  function Arrow(x: string, r: string, y: string): Path {
    Path(None, [Node(NodePat(Some(User(x)), AnyLabel, None)), Rel(RelPat(Some(User(r)), AnyLabel, None, None, Right)),
                Node(NodePat(Some(User(y)), AnyLabel, None))])
  }

  function ArrowEntities(x: string, r: string, y: string): seq<Entity> {
    [Vertex(NodePat(Some(User(x)), AnyLabel, None), true), Entity.Edge(RelPat(Some(User(r)), AnyLabel, None, None, Right)),
     Vertex(NodePat(Some(User(y)), AnyLabel, None), true)]
  }

  function ArrowRow(x: string, r: string, y: string, g: Graph, e: GraphId): Row
    requires e in g.edges
  {
    map[User(x) := V(g.edges[e].start), User(r) := E(e), User(y) := V(g.edges[e].end)]
  }

  lemma ArrowSatisfied(x: string, r: string, y: string, w: World, e: GraphId)
    requires NoDangling(w.g) && e in w.g.edges && x != r && x != y && r != y
    ensures var ents := ArrowEntities(x, r, y);
            && WellFormed(Arrow(x, r, y)) && Compiled(Arrow(x, r, y), ents) && Alternates(ents)
            && TreeNames(ents) == {User(x), User(r), User(y)} && Satisfies(ents, w, ArrowRow(x, r, y, w.g, e))
  {
    var ents, row := ArrowEntities(x, r, y), ArrowRow(x, r, y, w.g, e);
    assert ents[0].InTree() && ents[1].InTree() && ents[2].InTree();
    assert TreeNames(ents) == {User(x), User(r), User(y)} by {
      assert ents[0].Name() == Some(User(x)) && ents[1].Name() == Some(User(r)) && ents[2].Name() == Some(User(y));
    }
    ArrowQuals(x, r, y, w, e);
  }

  lemma ArrowQuals(x: string, r: string, y: string, w: World, e: GraphId)
    requires NoDangling(w.g) && e in w.g.edges && x != r && x != y && r != y
    ensures var ents := ArrowEntities(x, r, y);
            Alternates(ents) && PathQuals(ents).Ok? && AllHold(PathQuals(ents).value, w.g, ArrowRow(x, r, y, w.g, e))
  {
    var ents, row := ArrowEntities(x, r, y), ArrowRow(x, r, y, w.g, e);
    assert Bound(ents, w, row);
    assert VleFenced(ents);
    assert LeftLink(ents, w, row, 1, w.g.edges[e].start) && RightLink(ents, w, row, 1, w.g.edges[e].end);
    QualsMeanLinked(ents, w, row, 0);
    assert PropQuals(ents[3..]) == [] && PropQuals(ents[2..]) == [] + PropQuals(ents[2..][1..]);
    assert ents[2..][1..] == ents[3..] && ents[1..][1..] == ents[2..];
    assert PropQuals(ents) == [];
  }

  /**
   * In `MATCH (a)-[r]->(b), (c)-[s]->(d)` edges are compared inside each path only: on every graph, for every edge
   * of it, there is a row that binds r and s to that one edge.
   */
  lemma PathsShareEdges(w: World, e: GraphId) returns (row: Row)
    requires NoDangling(w.g) && e in w.g.edges
    ensures var a, b := ArrowEntities("a", "r", "b"), ArrowEntities("c", "s", "d");
            && Compiled(Arrow("a", "r", "b"), a) && Compiled(Arrow("c", "s", "d"), b) && Alternates(a) && Alternates(b)
            && BothSatisfied(a, b, w, row) && row[User("r")] == row[User("s")] == E(e)
  {
    var a, b := ArrowEntities("a", "r", "b"), ArrowEntities("c", "s", "d");
    ArrowSatisfied("a", "r", "b", w, e);
    ArrowSatisfied("c", "s", "d", w, e);
    row := ArrowRow("a", "r", "b", w.g, e) + ArrowRow("c", "s", "d", w.g, e);
    hide Satisfies, Compiled, TreeNames, Alternates, PartOf, ArrowEntities, Arrow;
    PartsOf(ArrowRow("a", "r", "b", w.g, e), ArrowRow("c", "s", "d", w.g, e), a, b);
  }

  /** Rows of different variables come apart again. */
  lemma PartsOf(x: Row, y: Row, a: seq<Entity>, b: seq<Entity>)
    requires x.Keys == TreeNames(a) && y.Keys == TreeNames(b) && x.Keys !! y.Keys
    ensures PartOf(x + y, a) == x && PartOf(x + y, b) == y
  {
    hide TreeNames;
  }
}
