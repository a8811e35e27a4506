/**
 * MATCH patterns as parsed, and what a pattern means on a graph: an embedding gives every
 * position of the path, named or not, an entity of the graph.
 */
module MatchPattern {
  import opened Results
  import opened PropertyGraph

  /** Variables are written by the user or generated by the parse state's alias counter. */
  datatype Name = User(s: string) | Alias(n: nat)

  datatype Dir = Either | Left | Right

  datatype Bounds = Bounds(lower: Option<nat>, upper: Option<nat>)

  datatype NodePat = NodePat(name: Option<Name>, ofLabel: LabelSpec, props: Option<Props>)

  datatype RelPat =
    RelPat(name: Option<Name>, ofLabel: LabelSpec, props: Option<Props>, varlen: Option<Bounds>, dir: Dir)

  datatype Elem = Node(node: NodePat) | Rel(rel: RelPat) {
    function Name(): Option<Name> {
      if Node? then node.name else rel.name
    }
    predicate Vle() {
      Rel? && rel.varlen.Some?
    }
  }

  datatype Path = Path(varName: Option<Name>, elems: seq<Elem>)

  /** The grammar builds paths that start and end in a node and alternate in between. */
  ghost predicate WellFormed(p: Path) {
    && |p.elems| > 0 && p.elems[0].Node? && p.elems[|p.elems| - 1].Node?
    && (forall i | 0 < i < |p.elems| :: p.elems[i].Node? == p.elems[i - 1].Rel?)
  }

  /** Fresh from the parser, a path has only the variables its author wrote. */
  ghost predicate Parsed(p: Path) {
    && WellFormed(p)
    && (forall i | 0 <= i < |p.elems| && p.elems[i].Name().Some? :: p.elems[i].Name().value.User?)
  }

  /** No variable occurs twice in the path. */
  ghost predicate VariablesOnce(p: Path) {
    forall i, j | 0 <= i < j < |p.elems| && p.elems[i].Name().Some? :: p.elems[i].Name() != p.elems[j].Name()
  }

  /** What one position of a path is bound to: a vertex, an edge, or the edges of a variable-length step. */
  datatype Binding = V(id: GraphId) | E(id: GraphId) | P(edges: seq<GraphId>)

  /**
   * The graph together with the `vle` function, whose rows are given: it relates a relationship
   * (whatever its variable), a start and an end vertex to the trails between them.
   */
  datatype World = World(g: Graph, vle: (RelPat, GraphId, GraphId, seq<GraphId>) -> bool)

  ghost predicate NoRepeats<T>(s: seq<T>) {
    s == [] || (s[0] !in s[1..] && NoRepeats(s[1..]))
  }

  /** The contract of `vle`: it never walks one edge twice. */
  ghost predicate VleYieldsTrails(w: World) {
    forall r, u, v, es | w.vle(r, u, v, es) :: NoRepeats(es)
  }

  ghost predicate VleStep(w: World, r: RelPat, u: GraphId, v: GraphId, es: seq<GraphId>) {
    w.vle(r.(name := None), u, v, es)
  }

  /** An edge read from `x` to `y` in the direction the pattern writes it. */
  predicate Joins(dir: Dir, e: Edge, x: GraphId, y: GraphId) {
    match dir
    case Right => e.start == x && e.end == y
    case Left => e.end == x && e.start == y
    case Either => (e.start == x && e.end == y) || (e.end == x && e.start == y)
  }

  ghost predicate NodeMatches(n: NodePat, w: World, b: Binding) {
    b.V? && b.id in w.g.vertices && LabelOk(n.ofLabel, b.id) && PropsOk(n.props, w.g.vertices[b.id])
  }

  ghost predicate RelMatches(r: RelPat, w: World, b: Binding, x: Binding, y: Binding) {
    && x.V? && y.V?
    && if r.varlen.Some? then b.P? && VleStep(w, r, x.id, y.id, b.edges)
       else && b.E? && b.id in w.g.edges && LabelOk(r.ofLabel, b.id)
            && PropsOk(r.props, w.g.edges[b.id].props)
            && Joins(r.dir, w.g.edges[b.id], x.id, y.id)
  }

  ghost predicate ElemMatches(p: Path, w: World, emb: seq<Binding>, i: int)
    requires WellFormed(p) && |emb| == |p.elems| && 0 <= i < |p.elems|
  {
    match p.elems[i]
    case Node(n) => NodeMatches(n, w, emb[i])
    case Rel(r) => 0 < i < |emb| - 1 && RelMatches(r, w, emb[i], emb[i - 1], emb[i + 1])
  }

  /** All the edges one binding stands for. */
  function EdgesOf(b: Binding): seq<GraphId> {
    match b
    case V(_) => []
    case E(id) => [id]
    case P(es) => es
  }

  function AllEdges(bs: seq<Binding>): seq<GraphId> {
    if bs == [] then [] else EdgesOf(bs[0]) + AllEdges(bs[1..])
  }

  /** The reference meaning of a path: a walk whose repeated variables agree and whose edges are distinct. */
  ghost predicate IsEmbedding(p: Path, w: World, emb: seq<Binding>)
    requires WellFormed(p)
  {
    && |emb| == |p.elems|
    && (forall i | 0 <= i < |emb| :: ElemMatches(p, w, emb, i))
    && (forall i, j | 0 <= i < j < |emb| && p.elems[i].Name().Some? && p.elems[i].Name() == p.elems[j].Name() ::
          emb[i] == emb[j])
    && NoRepeats(AllEdges(emb))
  }
}
