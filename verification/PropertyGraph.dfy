/** The graph store: one table of vertices and one of edges, each keyed by a graph id. */
module PropertyGraph {
  import opened Results

  datatype Value = Null | Num(n: int) | Text(s: string) | Nested(fields: map<string, Value>)

  type Props = map<string, Value>

  /** A graph id packs the id of the label's table with an entry number drawn from its sequence. */
  datatype GraphId = GraphId(labelId: nat, entry: nat)

  /** The last entry number a label's sequence gives out. */
  const ENTRY_ID_MAX: nat := 281474976710655

  datatype Edge = Edge(start: GraphId, end: GraphId, props: Props)

  datatype Graph = Graph(vertices: map<GraphId, Props>, edges: map<GraphId, Edge>)

  /** Every edge's endpoints are live vertices. */
  ghost predicate NoDangling(g: Graph) {
    forall e | e in g.edges :: g.edges[e].start in g.vertices && g.edges[e].end in g.vertices
  }

  predicate Touches(e: Edge, v: GraphId) {
    v == e.start || v == e.end
  }

  /** The two edges have at most one vertex in common. */
  ghost predicate ShareAtMostOne(e: Edge, f: Edge) {
    forall x, y | Touches(e, x) && Touches(f, x) && Touches(e, y) && Touches(f, y) :: x == y
  }

  /** No two different edges join the same two different vertices, in either direction. */
  ghost predicate NoParallelEdges(g: Graph) {
    forall e, f | e in g.edges && f in g.edges && e != f :: ShareAtMostOne(g.edges[e], g.edges[f])
  }

  /** A label in a pattern; the default label's table is the parent of all others, so it accepts any. */
  datatype LabelSpec = AnyLabel | Label(id: nat)

  predicate LabelOk(l: LabelSpec, id: GraphId) {
    l.Label? ==> id.labelId == l.id
  }

  /** Containment, `@>`: every key of the constraint has the same value in the stored properties. */
  predicate Contains(stored: Props, wanted: Props) {
    forall k | k in wanted :: k in stored && stored[k] == wanted[k]
  }

  predicate PropsOk(wanted: Option<Props>, stored: Props) {
    wanted.Some? ==> Contains(stored, wanted.value)
  }
}
