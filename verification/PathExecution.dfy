/**
 * The executor's side of creating a path: it overwrites the scan tuple, appends to the path values
 * and inserts, vertex before edge. CREATE and MERGE differ in what they make of an undirected edge.
 */
module PathExecution {
  import opened Results
  import opened PropertyGraph
  import opened MatchPattern
  import opened GraphStore
  import opened PathWriter

  class PathExecutor {
    const clause: Clause
    const base: Option<nat>
    var store: Store
    var slot: seq<Datum>
    var pathValues: seq<Datum>
    var seen: set<GraphId>

    constructor (clause: Clause, store: Store, base: Option<nat>)
      ensures this.clause == clause && this.base == base && this.store == store && slot == [] && pathValues == [] && seen == {}
    {
      this.clause, this.base := clause, base;
      this.store, slot, pathValues, seen := store, [], [], {};
    }

    ghost function Now(): State
      reads this
    {
      State(store, slot, pathValues, seen, base)
    }

    method CreateVertex(nodes: seq<Target>, i: nat) returns (r: Result<GraphId>)
      requires WellShaped(nodes) && AllFit(nodes, |slot|) && i < |nodes| && nodes[i].VertexTarget?
      modifies this`store, this`slot, this`pathValues
      ensures match WriteVertex(clause, nodes, i, old(Now()))
              case Ok(run) => r == Ok(run.ids[0]) && Now() == run.s
              case Err(e) => r == Err(e)
      decreases |nodes| - i, 1
    {
      var node := nodes[i];
      var id: GraphId;
      if node.insert {
        var drawn :- store.NextId(node.labelId);
        id, store := drawn.0, drawn.1;
        var props :- PropsFrom(node, slot);
        store := store.Do(InsertVertex(id, props));
        if base == Some(store.command) { store := store.EndCommand(); }
        if node.Output() {
          var v := VertexDatum(id, props);
          if node.inPath { pathValues := pathValues + [v]; }
          if node.isVar { slot := slot[node.pos - 1 := v]; }
        }
      } else {
        var v := slot[node.pos - 1];
        if v.NullDatum? { return Err(NullVertexVariable); }
        if !v.VertexDatum? { return Err(NotAnEntity); }
        id := v.id;
        if !node.sameClause {
          if id !in seen { return Err(VertexWasDeleted); }
        }
        if node.inPath { pathValues := pathValues + [v]; }
      }
      if i + 1 < |nodes| {
        var _ :- CreateEdge(nodes, i + 1, id);
      }
      r := Ok(id);
    }

    method CreateEdge(nodes: seq<Target>, i: nat, prevVertexId: GraphId) returns (r: Result<GraphId>)
      requires WellShaped(nodes) && AllFit(nodes, |slot|) && i < |nodes| && nodes[i].EdgeTarget?
      modifies this`store, this`slot, this`pathValues
      ensures match WriteEdge(clause, nodes, i, prevVertexId, old(Now()))
              case Ok(run) => r == Ok(run.ids[0]) && Now() == run.s
              case Err(e) => r == Err(e)
      decreases |nodes| - i, 0
    {
      var node := nodes[i];
      assert nodes[i + 1].VertexTarget?;
      var prevPath := pathValues;
      pathValues := [];
      var nextVertexId :- CreateVertex(nodes, i + 1);
      var startId, endId: GraphId;
      if node.dir.Right? || (node.dir.Either? && clause.Merge?) {
        startId, endId := prevVertexId, nextVertexId;
      } else if node.dir.Left? {
        startId, endId := nextVertexId, prevVertexId;
      } else {
        return Err(MissingDirection);
      }
      var drawn :- store.NextId(node.labelId);
      var id := drawn.0;
      store := drawn.1;
      var props :- PropsFrom(node, slot);
      var edge := Edge(startId, endId, props);
      store := store.Do(InsertEdge(id, edge));
      if node.Output() {
        if node.inPath { pathValues := prevPath + [EdgeDatum(id, edge)] + pathValues; }
        if node.isVar { slot := slot[node.pos - 1 := EdgeDatum(id, edge)]; }
      }
      r := Ok(id);
    }
  }
}
