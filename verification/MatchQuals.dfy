/**
 * The join condition compiler: the entities of a path, and the quals that join each edge to its
 * neighbours. Vertices that nothing mentions are not scanned; the edges on either side are joined
 * to each other instead.
 */
module MatchQuals {
  import opened Results
  import opened PropertyGraph
  import opened MatchPattern

  datatype Entity =
    | Vertex(node: NodePat, inJoinTree: bool)
    | Edge(rel: RelPat)
    | VleEdge(rel: RelPat)
  {
    predicate InTree() {
      Vertex? ==> inJoinTree
    }
    function Name(): Option<Name> {
      if Vertex? then node.name else rel.name
    }
  }

  datatype Col = Id(name: Option<Name>) | StartId(name: Option<Name>) | EndId(name: Option<Name>)

  datatype Qual =
    | Eq(left: Col, right: Col)
    | Ne(left: Col, right: Col)
    | In(left: Col, options: seq<Col>)
    | LabelIdIs(col: Col, labelId: nat)
    | And(args: seq<Qual>)
    | Or(args: seq<Qual>)
    | UniqueEdges(entities: seq<Entity>)
    | HasProps(name: Option<Name>, wanted: Props)

  datatype Side = LeftSide | RightSide

  // The columns an edge offers to the edge on its other side, across a vertex that is not scanned.
  function MakeEdgeQuals(edge: Entity, side: Side): seq<Col>
    requires edge.Edge?
  {
    var leftDir := if side.LeftSide? then StartId(edge.rel.name) else EndId(edge.rel.name);
    var rightDir := if side.LeftSide? then EndId(edge.rel.name) else StartId(edge.rel.name);
    match edge.rel.dir
    case Left => [leftDir]
    case Right => [rightDir]
    case Either => [leftDir, rightDir]
  }

  function JoinToEntity(entity: Entity, qual: Col, side: Side): Result<seq<Qual>> {
    match entity
    case Vertex(_, _) => Ok([Eq(qual, Id(entity.Name()))])
    case Edge(_) =>
      var cols := MakeEdgeQuals(entity, side);
      Ok([if |cols| > 1 then In(qual, cols) else Eq(qual, cols[0])])
    case VleEdge(_) => Err(UnknownEntityType)
  }

  function FilterOnLabel(filter: LabelSpec, qual: Col): seq<Qual> {
    if filter.Label? then [LabelIdIs(qual, filter.id)] else []
  }

  function MakeDirectedEdgeJoinConditions(prev: Entity, next: Entity, prevQual: Col, nextQual: Col,
      prevFilter: LabelSpec, nextFilter: LabelSpec): Result<seq<Qual>>
  {
    var prevJoin :- if prev.InTree() then JoinToEntity(prev, prevQual, LeftSide) else Ok([]);
    var nextJoin :- if next.InTree() && !next.VleEdge? then JoinToEntity(next, nextQual, RightSide) else Ok([]);
    Ok(prevJoin + nextJoin + FilterOnLabel(prevFilter, prevQual) + FilterOnLabel(nextFilter, nextQual))
  }

  /** `[prevEdge]-(prevNode)-[edge]-(nextNode)-[nextEdge]`; the outer edges may be missing. */
  function MakeJoinConditionForEdge(prevEdge: Option<Entity>, prevNode: Entity, edge: Entity,
      nextNode: Entity, nextEdge: Option<Entity>): Result<seq<Qual>>
    requires prevNode.Vertex? && !edge.Vertex? && nextNode.Vertex?
  {
    if edge.VleEdge? then Ok([]) else
    var prevFilter := if !prevNode.InTree() then prevNode.node.ofLabel else AnyLabel;
    var nextFilter := if !nextNode.InTree() && nextEdge.None? then nextNode.node.ofLabel else AnyLabel;
    var prev := if !prevNode.InTree() && prevEdge.Some? then prevEdge.value else prevNode;
    var next := if !nextNode.InTree() && nextEdge.Some? then nextEdge.value else nextNode;
    var s, e := StartId(edge.rel.name), EndId(edge.rel.name);
    match edge.rel.dir
    case Right => MakeDirectedEdgeJoinConditions(prev, nextNode, s, e, prevFilter, nextFilter)
    case Left => MakeDirectedEdgeJoinConditions(prev, nextNode, e, s, prevFilter, nextFilter)
    case Either =>
      var first :- MakeDirectedEdgeJoinConditions(prev, next, s, e, prevFilter, nextFilter);
      var second :- MakeDirectedEdgeJoinConditions(prev, next, e, s, prevFilter, nextFilter);
      Ok([Or([And(first), And(second)])])
  }

  /** Vertices and edges take turns, and the list starts and ends in a vertex. */
  ghost predicate Alternates(ents: seq<Entity>) {
    && |ents| > 0 && ents[0].Vertex? && ents[|ents| - 1].Vertex?
    && (forall i | 0 < i < |ents| :: ents[i].Vertex? != ents[i - 1].Vertex?)
  }

  /** The quals of the edge at position `i`, from the entities around it. */
  function EdgeQuals(ents: seq<Entity>, i: int): Result<seq<Qual>>
    requires Alternates(ents) && 0 <= i < |ents| && !ents[i].Vertex?
  {
    MakeJoinConditionForEdge(if i >= 2 then Some(ents[i - 2]) else None, ents[i - 1], ents[i],
                             ents[i + 1], if i + 2 < |ents| then Some(ents[i + 2]) else None)
  }

  /** The quals of all edges from position `i` on, in order. */
  function QualsFrom(ents: seq<Entity>, i: int): Result<seq<Qual>>
    requires Alternates(ents) && 0 <= i <= |ents|
    decreases |ents| - i
  {
    if i == |ents| then Ok([])
    else if ents[i].Vertex? then QualsFrom(ents, i + 1)
    else
      var here :- EdgeQuals(ents, i);
      var rest :- QualsFrom(ents, i + 1);
      Ok(here + rest)
  }

  /** `<>` between the ids of the edge at `i` and every edge from `j` on. */
  function DistinctFrom(ents: seq<Entity>, i: nat, j: nat): seq<Qual>
    requires i < |ents| && j <= |ents|
    decreases |ents| - j
  {
    if j == |ents| then []
    else (if ents[j].Edge? then [Ne(Id(ents[i].Name()), Id(ents[j].Name()))] else []) + DistinctFrom(ents, i, j + 1)
  }

  function PairwiseDistinct(ents: seq<Entity>, i: nat): seq<Qual>
    requires i <= |ents|
    decreases |ents| - i
  {
    if i == |ents| then []
    else (if ents[i].Edge? then DistinctFrom(ents, i, i + 1) else []) + PairwiseDistinct(ents, i + 1)
  }

  /** With a variable-length edge the uniqueness function is called on all edges; otherwise they are compared in pairs. */
  function PreventDuplicateEdges(ents: seq<Entity>): Qual {
    if exists e | e in ents :: e.VleEdge? then UniqueEdges(ents)
    else And(PairwiseDistinct(ents, 0))
  }

  function PropQuals(ents: seq<Entity>): seq<Qual> {
    if ents == [] then []
    else (match ents[0]
          case Vertex(n, _) => if n.props.Some? then [HasProps(n.name, n.props.value)] else []
          case Edge(r) => if r.props.Some? then [HasProps(r.name, r.props.value)] else []
          case VleEdge(_) => []) + PropQuals(ents[1..])
  }

  /** All the quals of a path. */
  function PathQuals(ents: seq<Entity>): Result<seq<Qual>>
    requires Alternates(ents)
  {
    var joins :- if |ents| < 3 then Ok([]) else QualsFrom(ents, 0);
    Ok(joins + (if |ents| > 3 then [PreventDuplicateEdges(ents)] else []) + PropQuals(ents))
  }

  // ---------------------------------------------------------------- evaluation

  /** A row of the join: one binding for each variable in the join tree. */
  type Row = map<Name, Binding>

  /** A column's value; like an SQL null, a missing one makes no comparison true. */
  function ColValue(c: Col, g: Graph, row: Row): Option<GraphId> {
    if c.name.None? || c.name.value !in row then None else
    match (c, row[c.name.value])
    case (Id(_), V(id)) => Some(id)
    case (Id(_), E(id)) => Some(id)
    case (StartId(_), E(id)) => if id in g.edges then Some(g.edges[id].start) else None
    case (EndId(_), E(id)) => if id in g.edges then Some(g.edges[id].end) else None
    case _ => None
  }

  function BindingsOf(ents: seq<Entity>, row: Row): seq<Binding> {
    if ents == [] then []
    else (if ents[0].Vertex? || ents[0].Name().None? || ents[0].Name().value !in row then []
          else [row[ents[0].Name().value]]) + BindingsOf(ents[1..], row)
  }

  function StoredProps(b: Binding, g: Graph): Option<Props> {
    match b
    case V(id) => if id in g.vertices then Some(g.vertices[id]) else None
    case E(id) => if id in g.edges then Some(g.edges[id].props) else None
    case P(_) => None
  }

  ghost predicate Holds(q: Qual, g: Graph, row: Row) {
    match q
    case Eq(l, r) => ColValue(l, g, row).Some? && ColValue(l, g, row) == ColValue(r, g, row)
    case Ne(l, r) =>
      ColValue(l, g, row).Some? && ColValue(r, g, row).Some? && ColValue(l, g, row) != ColValue(r, g, row)
    case In(l, rs) =>
      ColValue(l, g, row).Some? && exists k | 0 <= k < |rs| :: ColValue(l, g, row) == ColValue(rs[k], g, row)
    case LabelIdIs(c, id) => ColValue(c, g, row).Some? && ColValue(c, g, row).value.labelId == id
    case And(qs) => forall k | 0 <= k < |qs| :: Holds(qs[k], g, row)
    case Or(qs) => exists k | 0 <= k < |qs| :: Holds(qs[k], g, row)
    case UniqueEdges(ents) => NoRepeats(AllEdges(BindingsOf(ents, row)))
    case HasProps(n, wanted) =>
      && n.Some? && n.value in row
      && StoredProps(row[n.value], g).Some? && Contains(StoredProps(row[n.value], g).value, wanted)
  }

  ghost predicate AllHold(qs: seq<Qual>, g: Graph, row: Row) {
    forall k | 0 <= k < |qs| :: Holds(qs[k], g, row)
  }

  ghost function TreeNames(ents: seq<Entity>): set<Name> {
    set i | 0 <= i < |ents| && ents[i].InTree() && ents[i].Name().Some? :: ents[i].Name().value
  }

  /** The FROM list: what each entity's scan, or the `vle` call, lets its variable be bound to. */
  ghost predicate Scanned(ents: seq<Entity>, i: int, w: World, row: Row)
    requires Alternates(ents) && 0 <= i < |ents|
  {
    ents[i].InTree() ==>
      && ents[i].Name().Some? && ents[i].Name().value in row
      && var b := row[ents[i].Name().value];
         match ents[i]
         case Vertex(n, _) => b.V? && b.id in w.g.vertices && LabelOk(n.ofLabel, b.id)
         case Edge(r) => b.E? && b.id in w.g.edges && LabelOk(r.ofLabel, b.id)
         case VleEdge(r) =>
           && b.P?
           && var u, v := ents[i - 1].Name(), ents[i + 1].Name();
              && u.Some? && u.value in row && row[u.value].V?
              && v.Some? && v.value in row && row[v.value].V?
              && VleStep(w, r, row[u.value].id, row[v.value].id, b.edges)
  }

  /** A row of the compiled query: it comes from the FROM list and passes the WHERE quals. */
  ghost predicate Satisfies(ents: seq<Entity>, w: World, row: Row)
    requires Alternates(ents)
  {
    && row.Keys == TreeNames(ents)
    && (forall i | 0 <= i < |ents| :: Scanned(ents, i, w, row))
    && PathQuals(ents).Ok? && AllHold(PathQuals(ents).value, w.g, row)
  }
}
