/**
 * Creating a path: the mutual recursion of CREATE and MERGE, as functions on the executor's state.
 * A vertex creates the rest of its path, and each edge is inserted after the vertex behind it.
 */
module PathWriter {
  import opened Results
  import opened PropertyGraph
  import opened MatchPattern
  import opened GraphStore

  datatype Clause = Create | Merge

  datatype Datum =
    | NullDatum
    | ValueDatum(value: Value)
    | MapDatum(props: Props)
    | VertexDatum(id: GraphId, props: Props)
    | EdgeDatum(id: GraphId, edge: Edge)
    | TraversalDatum(items: seq<Datum>)

  /** Properties come from an attribute of the scan tuple, or from an expression of the target itself. */
  datatype PropSource = Attribute(pos: nat) | Expression(props: Props)

  /** A target node of the plan; `pos` is the attribute of its variable. */
  datatype Target =
    | VertexTarget(insert: bool, sameClause: bool, isVar: bool, inPath: bool, labelId: nat, from: PropSource, pos: nat)
    | EdgeTarget(isVar: bool, inPath: bool, dir: Dir, labelId: nat, from: PropSource, pos: nat)
  {
    predicate Inserts() {
      VertexTarget? ==> insert
    }
    /** A mention of a vertex from an earlier clause, whose existence is checked. */
    predicate Checked() {
      VertexTarget? && !insert && !sameClause
    }
    predicate Output() {
      isVar || inPath
    }
    /** This target puts a new entity into the tuple. */
    predicate Declares() {
      Inserts() && isVar
    }
  }

  /**
   * The executor at work on one row. `seen` holds the vertices that its existence checks find: they read
   * through a command id of their own, and may find one that is gone. `base` is the command id at which a
   * MERGE began; the vertex it inserts under that id ends the command.
   */
  datatype State = State(store: Store, slot: seq<Datum>, pathValues: seq<Datum>, seen: set<GraphId>, base: Option<nat>)

  /** A row of the subtree, and what the existence checks find while it is processed. */
  datatype Input = Input(row: seq<Datum>, seen: set<GraphId>)

  /** The ids of the entities from one position of the path to its end, and the state they leave. */
  datatype Run = Run(ids: seq<GraphId>, s: State)

  ghost predicate WellShaped(nodes: seq<Target>) {
    && |nodes| > 0 && nodes[0].VertexTarget? && nodes[|nodes| - 1].VertexTarget?
    && forall k | 0 < k < |nodes| :: nodes[k].VertexTarget? == nodes[k - 1].EdgeTarget?
  }

  predicate Fits(t: Target, width: nat) {
    && ((t.VertexTarget? && !t.insert) || t.Declares() ==> 0 < t.pos <= width)
    && (t.Inserts() && t.from.Attribute? ==> t.from.pos < width)
  }

  ghost predicate AllFit(nodes: seq<Target>, width: nat) {
    forall k | 0 <= k < |nodes| :: Fits(nodes[k], width)
  }

  function PropsFrom(t: Target, slot: seq<Datum>): Result<Props>
    requires t.Inserts() && Fits(t, |slot|)
  {
    match t.from
    case Expression(props) => Ok(props)
    case Attribute(p) => if slot[p].MapDatum? then Ok(slot[p].props) else Err(NullProperties)
  }

  /** Where an edge between the vertex `x` before it and the vertex `y` behind it starts and ends. */
  function EndsOf(c: Clause, dir: Dir, x: GraphId, y: GraphId): Result<(GraphId, GraphId)> {
    match dir
    case Right => Ok((x, y))
    case Left => Ok((y, x))
    case Either => if c.Merge? then Ok((x, y)) else Err(MissingDirection)
  }

  /** The edge lies between its neighbours in the direction of the pattern; an undirected one, which only MERGE has, goes to the right. */
  ghost predicate LiesBetween(e: Edge, c: Clause, dir: Dir, x: GraphId, y: GraphId) {
    if dir.Either? then c.Merge? && Joins(Right, e, x, y) else Joins(dir, e, x, y)
  }

  lemma EndsLieBetween(c: Clause, dir: Dir, x: GraphId, y: GraphId, props: Props)
    requires EndsOf(c, dir, x, y).Ok?
    ensures LiesBetween(Edge(EndsOf(c, dir, x, y).value.0, EndsOf(c, dir, x, y).value.1, props), c, dir, x, y)
  {}

  /** The properties that the plan gives the target on this tuple. */
  ghost predicate Describes(t: Target, slot: seq<Datum>, props: Props) {
    match t.from
    case Expression(own) => props == own
    case Attribute(p) => p < |slot| && slot[p] == MapDatum(props)
  }

  function PutVariable(slot: seq<Datum>, t: Target, d: Datum): (r: seq<Datum>)
    requires Fits(t, |slot|) && t.Inserts()
    ensures |r| == |slot|
  {
    if t.isVar then slot[t.pos - 1 := d] else slot
  }

  /** A new vertex, or the one its variable already holds. */
  function OneVertex(t: Target, s: State): (r: Result<(GraphId, State)>)
    requires t.VertexTarget? && Fits(t, |s.slot|)
    ensures r.Ok? ==> |r.value.1.slot| == |s.slot|
  {
    if t.insert then
      var (id, drawn) :- s.store.NextId(t.labelId);
      var props :- PropsFrom(t, s.slot);
      var d := VertexDatum(id, props);
      var made := drawn.Do(InsertVertex(id, props));
      Ok((id, s.(store := if s.base == Some(made.command) then made.EndCommand() else made, slot := PutVariable(s.slot, t, d),
                 pathValues := if t.inPath then s.pathValues + [d] else s.pathValues)))
    else
      var d := s.slot[t.pos - 1];
      if d.NullDatum? then Err(NullVertexVariable)
      else if !d.VertexDatum? then Err(NotAnEntity)
      else if !t.sameClause && d.id !in s.seen then Err(VertexWasDeleted)
      else Ok((d.id, s.(pathValues := if t.inPath then s.pathValues + [d] else s.pathValues)))
  }

  function WriteVertex(c: Clause, nodes: seq<Target>, i: nat, s: State): (r: Result<Run>)
    requires WellShaped(nodes) && AllFit(nodes, |s.slot|) && i < |nodes| && nodes[i].VertexTarget?
    ensures r.Ok? ==> |r.value.ids| == |nodes| - i && |r.value.s.slot| == |s.slot|
    decreases |nodes| - i, 1
  {
    var (id, s1) :- OneVertex(nodes[i], s);
    if i + 1 == |nodes| then Ok(Run([id], s1))
    else
      var rest :- WriteEdge(c, nodes, i + 1, id, s1);
      Ok(Run([id] + rest.ids, rest.s))
  }

  function WriteEdge(c: Clause, nodes: seq<Target>, i: nat, prev: GraphId, s: State): (r: Result<Run>)
    requires WellShaped(nodes) && AllFit(nodes, |s.slot|) && i < |nodes| && nodes[i].EdgeTarget?
    ensures r.Ok? ==> |r.value.ids| == |nodes| - i && |r.value.s.slot| == |s.slot|
    decreases |nodes| - i, 0
  {
    assert nodes[i + 1].VertexTarget?;
    var rest :- WriteVertex(c, nodes, i + 1, s.(pathValues := []));
    var s1 :- OneEdge(c, nodes[i], prev, rest.ids[0], s.pathValues, rest.s);
    Ok(Run([s1.0] + rest.ids, s1.1))
  }

  /** The edge itself, once the vertices on both sides are there; `before` are the path values up to it. */
  function OneEdge(c: Clause, t: Target, x: GraphId, y: GraphId, before: seq<Datum>, s: State): (r: Result<(GraphId, State)>)
    requires t.EdgeTarget? && Fits(t, |s.slot|)
    ensures r.Ok? ==> |r.value.1.slot| == |s.slot|
  {
    var (start, end) :- EndsOf(c, t.dir, x, y);
    var (id, drawn) :- s.store.NextId(t.labelId);
    var props :- PropsFrom(t, s.slot);
    var d := EdgeDatum(id, Edge(start, end, props));
    Ok((id, s.(store := drawn.Do(InsertEdge(id, d.edge)), slot := PutVariable(s.slot, t, d),
               pathValues := if t.inPath then before + [d] + s.pathValues else s.pathValues)))
  }

  // ---------------------------------------------------------------- what a run leaves

  /** Different variables have different attributes. */
  ghost predicate VariablesApart(nodes: seq<Target>) {
    forall j, k | 0 <= j < k < |nodes| && nodes[j].Declares() && nodes[k].Declares() :: nodes[j].pos != nodes[k].pos
  }

  /** No variable's attribute carries a target's properties, and variables that are mentioned again are apart. */
  ghost predicate AttributesApart(nodes: seq<Target>) {
    && (VariablesApart(nodes) || forall k | 0 <= k < |nodes| :: nodes[k].Inserts())
    && (forall j, k | 0 <= j < |nodes| && 0 <= k < |nodes| && nodes[j].Declares() && nodes[k].Inserts()
                      && nodes[k].from.Attribute? :: nodes[j].pos != nodes[k].from.pos + 1)
  }

  /** Nothing that was in the graph has been touched. */
  ghost predicate Extends(g: Graph, h: Graph) {
    && (forall v | v in g.vertices :: v in h.vertices && h.vertices[v] == g.vertices[v])
    && (forall e | e in g.edges :: e in h.edges && h.edges[e] == g.edges[e])
  }

  /** The attribute of a variable that the clause itself declared holds a live vertex. */
  ghost predicate HoldsLiveVertex(s: State, pos: nat) {
    0 < pos <= |s.slot| && s.slot[pos - 1].VertexDatum? && s.slot[pos - 1].id in s.store.g.vertices
  }

  /** If the existence check finds the vertex in the attribute, it is live. */
  ghost predicate ShownIsLive(s: State, pos: nat) {
    0 < pos <= |s.slot| && s.slot[pos - 1].VertexDatum? && s.slot[pos - 1].id in s.seen ==> s.slot[pos - 1].id in s.store.g.vertices
  }

  /** No check of the path shows a vertex that is gone. */
  ghost predicate ChecksAreTrue(nodes: seq<Target>, i: nat, s: State) {
    forall k | i <= k < |nodes| && nodes[k].Checked() :: ShownIsLive(s, nodes[k].pos)
  }

  /** Mentions are of live vertices: those of the clause's own variables, and those that are checked. */
  ghost predicate Resolvable(nodes: seq<Target>, i: nat, s: State) {
    LocalsResolve(nodes, i, s) && ChecksAreTrue(nodes, i, s)
  }

  /** Later mentions of a clause-local variable find it: declared earlier in the path, or already in the tuple. */
  ghost predicate LocalsResolve(nodes: seq<Target>, i: nat, s: State) {
    forall k | i <= k < |nodes| && nodes[k].VertexTarget? && !nodes[k].insert && nodes[k].sameClause ::
      || (exists j | i <= j < k :: nodes[j].VertexTarget? && nodes[j].Declares() && nodes[j].pos == nodes[k].pos)
      || (HoldsLiveVertex(s, nodes[k].pos)
          && forall j | i <= j < |nodes| && nodes[j].Declares() :: nodes[j].pos != nodes[k].pos)
  }

  function Inserted(nodes: seq<Target>, i: nat): nat
    requires i <= |nodes|
    decreases |nodes| - i
  {
    if i == |nodes| then 0 else (if nodes[i].Inserts() then 1 else 0) + Inserted(nodes, i + 1)
  }

  /** The entity the target made or found, as it ends up in the graph. */
  ghost predicate Made(c: Clause, nodes: seq<Target>, i: nat, k: int, slot: seq<Datum>, ids: seq<GraphId>, g: Graph)
    requires 0 <= i <= k < |nodes| && |ids| == |nodes| - i
  {
    var id := ids[k - i];
    match nodes[k]
    case VertexTarget(_, _, _, _, _, _, _) =>
      && id in g.vertices
      && (nodes[k].insert ==> Describes(nodes[k], slot, g.vertices[id]) && id.labelId == nodes[k].labelId)
    case EdgeTarget(_, _, _, _, _, _) =>
      && i < k < |nodes| - 1
      && id in g.edges && id.labelId == nodes[k].labelId
      && Describes(nodes[k], slot, g.edges[id].props)
      && LiesBetween(g.edges[id], c, nodes[k].dir, ids[k - i - 1], ids[k - i + 1])
  }

  /** One vertex: the store stays safe, nothing old changes, and the attribute of a new variable holds it. */
  lemma OneVertexKeeps(t: Target, s: State)
    requires t.VertexTarget? && Fits(t, |s.slot|) && s.store.Safe() && OneVertex(t, s).Ok?
    requires !t.insert ==> if t.sameClause then HoldsLiveVertex(s, t.pos) else ShownIsLive(s, t.pos)
    ensures var (id, s1) := OneVertex(t, s).value;
            && s1.store.Safe() && Extends(s.store.g, s1.store.g) && id in s1.store.g.vertices
            && s1.store.g.edges == s.store.g.edges
            && s1.store.g.vertices.Keys == s.store.g.vertices.Keys + {id}
            && (t.insert <==> id !in s.store.g.vertices)
            && (forall l :: s.store.LastOf(l) <= s1.store.LastOf(l))
            && |s1.store.writes| == |s.store.writes| + (if t.insert then 1 else 0)
            && (t.Declares() ==> HoldsLiveVertex(s1, t.pos) && s1.slot[t.pos - 1].id == id)
            && (forall p | 0 <= p < |s.slot| && !(t.Declares() && p == t.pos - 1) :: s1.slot[p] == s.slot[p])
  {
    hide GraphStore.Store.Safe;
    SafeIsNotDangling(s.store);
    if t.insert {
      var (id, drawn) := s.store.NextId(t.labelId).value;
      NextIdIsFresh(s.store, t.labelId);
      var made := drawn.Do(InsertVertex(id, PropsFrom(t, s.slot).value));
      DoKeepsSafe(drawn, InsertVertex(id, PropsFrom(t, s.slot).value));
      EndCommandKeepsSafe(made);
    }
  }

  lemma OneEdgeKeeps(c: Clause, t: Target, x: GraphId, y: GraphId, before: seq<Datum>, s: State)
    requires t.EdgeTarget? && Fits(t, |s.slot|) && s.store.Safe() && OneEdge(c, t, x, y, before, s).Ok?
    requires x in s.store.g.vertices && y in s.store.g.vertices
    ensures var (id, s1) := OneEdge(c, t, x, y, before, s).value;
            && s1.store.Safe() && Extends(s.store.g, s1.store.g)
            && s1.store.g.vertices == s.store.g.vertices
            && id !in s.store.g.edges && id in s1.store.g.edges
            && s1.store.g.edges.Keys == s.store.g.edges.Keys + {id}
            && (forall l :: s.store.LastOf(l) <= s1.store.LastOf(l))
            && |s1.store.writes| == |s.store.writes| + 1
            && id.labelId == t.labelId
            && PropsFrom(t, s.slot) == Ok(s1.store.g.edges[id].props)
            && LiesBetween(s1.store.g.edges[id], c, t.dir, x, y)
            && (forall p | 0 <= p < |s.slot| && !(t.isVar && p == t.pos - 1) :: s1.slot[p] == s.slot[p])
            && (t.isVar ==> s1.slot[t.pos - 1] == EdgeDatum(id, s1.store.g.edges[id]))
  {
    hide GraphStore.Store.Safe;
    SafeIsNotDangling(s.store);
    var (id, drawn) := s.store.NextId(t.labelId).value;
    NextIdIsFresh(s.store, t.labelId);
    var (start, end) := EndsOf(c, t.dir, x, y).value;
    EndsLieBetween(c, t.dir, x, y, PropsFrom(t, s.slot).value);
    DoKeepsSafe(drawn, InsertEdge(id, Edge(start, end, PropsFrom(t, s.slot).value)));
  }
}
