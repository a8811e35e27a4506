/** What creating a path leaves behind: the graph, the tuple and the path value. */
module PathWritten {
  import opened Results
  import opened PropertyGraph
  import opened MatchPattern
  import opened GraphStore
  import opened PathWriter

  /** The state between the vertex at `i` and the rest of the path. */
  function Between(nodes: seq<Target>, i: nat, s: State): (s1: State)
    requires i < |nodes| && nodes[i].VertexTarget? && Fits(nodes[i], |s.slot|) && OneVertex(nodes[i], s).Ok?
    ensures |s1.slot| == |s.slot|
  {
    OneVertex(nodes[i], s).value.1.(pathValues := [])
  }

  /** A run of two elements or more: the vertex, the run behind its edge, and the edge. */
  lemma RunSplits(c: Clause, nodes: seq<Target>, i: nat, s: State)
    requires WellShaped(nodes) && AllFit(nodes, |s.slot|) && i < |nodes| && nodes[i].VertexTarget?
    requires WriteVertex(c, nodes, i, s).Ok? && i + 1 < |nodes|
    ensures i + 2 < |nodes| && nodes[i + 1].EdgeTarget? && nodes[i + 2].VertexTarget?
    ensures OneVertex(nodes[i], s).Ok? && WriteVertex(c, nodes, i + 2, Between(nodes, i, s)).Ok?
    ensures var (id, s1) := OneVertex(nodes[i], s).value;
            var inner := WriteVertex(c, nodes, i + 2, Between(nodes, i, s)).value;
            && OneEdge(c, nodes[i + 1], id, inner.ids[0], s1.pathValues, inner.s).Ok?
            && var edge := OneEdge(c, nodes[i + 1], id, inner.ids[0], s1.pathValues, inner.s).value;
               WriteVertex(c, nodes, i, s).value == Run([id] + ([edge.0] + inner.ids), edge.1)
  {
    assert nodes[i + 1].VertexTarget? == nodes[i].EdgeTarget?;
    assert nodes[i + 2].VertexTarget? == nodes[i + 1].EdgeTarget?;
  }

  lemma ResolvableNext(nodes: seq<Target>, i: nat, s: State)
    requires WellShaped(nodes) && AllFit(nodes, |s.slot|) && i + 2 < |nodes| && nodes[i].VertexTarget? && nodes[i + 1].EdgeTarget?
    requires AttributesApart(nodes) && Resolvable(nodes, i, s) && s.store.Safe() && OneVertex(nodes[i], s).Ok?
    ensures !nodes[i].insert ==> if nodes[i].sameClause then HoldsLiveVertex(s, nodes[i].pos) else ShownIsLive(s, nodes[i].pos)
    ensures Resolvable(nodes, i + 2, Between(nodes, i, s))
  {
    OneVertexKeeps(nodes[i], s);
    var s2 := Between(nodes, i, s);
    forall k | i + 2 <= k < |nodes| && nodes[k].VertexTarget? && !nodes[k].insert && nodes[k].sameClause
      ensures || (exists j | i + 2 <= j < k :: nodes[j].VertexTarget? && nodes[j].Declares() && nodes[j].pos == nodes[k].pos)
              || (HoldsLiveVertex(s2, nodes[k].pos)
                  && forall j | i + 2 <= j < |nodes| && nodes[j].Declares() :: nodes[j].pos != nodes[k].pos)
    {
      if exists j | i <= j < k :: nodes[j].VertexTarget? && nodes[j].Declares() && nodes[j].pos == nodes[k].pos {
        var j :| i <= j < k && nodes[j].VertexTarget? && nodes[j].Declares() && nodes[j].pos == nodes[k].pos;
        if j == i { assert HoldsLiveVertex(s2, nodes[k].pos); }
      }
    }
  }

  /**
   * Safety of the recursion: no write of it ever leaves a dangling edge, nothing old is touched, and
   * there is exactly one write for each target that inserts.
   */
  lemma {:induction false} RunIsSafe(c: Clause, nodes: seq<Target>, i: nat, s: State)
    requires WellShaped(nodes) && AllFit(nodes, |s.slot|) && i < |nodes| && nodes[i].VertexTarget?
    requires AttributesApart(nodes) && Resolvable(nodes, i, s) && s.store.Safe()
    requires WriteVertex(c, nodes, i, s).Ok?
    ensures var r := WriteVertex(c, nodes, i, s).value;
            && r.s.store.Safe() && Extends(s.store.g, r.s.store.g) && r.ids[0] in r.s.store.g.vertices
            && |r.s.store.writes| == |s.store.writes| + Inserted(nodes, i)
            && |r.s.store.g.vertices| + |r.s.store.g.edges| == |s.store.g.vertices| + |s.store.g.edges| + Inserted(nodes, i)
    decreases |nodes| - i
  {
    if i + 1 < |nodes| {
      RunSplits(c, nodes, i, s);
      ResolvableNext(nodes, i, s);
      OneVertexKeeps(nodes[i], s);
      var (id, s1) := OneVertex(nodes[i], s).value;
      RunIsSafe(c, nodes, i + 2, Between(nodes, i, s));
      var inner := WriteVertex(c, nodes, i + 2, Between(nodes, i, s)).value;
      OneEdgeKeeps(c, nodes[i + 1], id, inner.ids[0], s1.pathValues, inner.s);
      var edge := OneEdge(c, nodes[i + 1], id, inner.ids[0], s1.pathValues, inner.s).value;
      OneMoreKey(s.store.g.vertices, s1.store.g.vertices, id, nodes[i].insert);
      OneMoreKey(inner.s.store.g.edges, edge.1.store.g.edges, edge.0, true);
      assert Inserted(nodes, i) == (if nodes[i].Inserts() then 1 else 0) + 1 + Inserted(nodes, i + 2);
    } else {
      assert !nodes[i].insert ==> if nodes[i].sameClause then HoldsLiveVertex(s, nodes[i].pos) else ShownIsLive(s, nodes[i].pos);
      OneVertexKeeps(nodes[i], s);
      OneMoreKey(s.store.g.vertices, WriteVertex(c, nodes, i, s).value.s.store.g.vertices,
                 WriteVertex(c, nodes, i, s).value.ids[0], nodes[i].insert);
      assert Inserted(nodes, i) == (if nodes[i].insert then 1 else 0) + Inserted(nodes, i + 1);
    }
  }

  lemma {:induction false} RunKeepsStart(c: Clause, nodes: seq<Target>, i: nat, s: State)
    requires WellShaped(nodes) && AllFit(nodes, |s.slot|) && i < |nodes| && nodes[i].VertexTarget?
    requires WriteVertex(c, nodes, i, s).Ok?
    ensures var t := WriteVertex(c, nodes, i, s).value.s.store; t.start == s.store.start && s.store.writes <= t.writes
    decreases |nodes| - i
  {
    if i + 1 < |nodes| {
      RunSplits(c, nodes, i, s);
      RunKeepsStart(c, nodes, i + 2, Between(nodes, i, s));
    }
  }

  /** One write for each target that inserts, whatever the checks show. */
  lemma {:induction false} RunWrites(c: Clause, nodes: seq<Target>, i: nat, s: State)
    requires WellShaped(nodes) && AllFit(nodes, |s.slot|) && i < |nodes| && nodes[i].VertexTarget?
    requires WriteVertex(c, nodes, i, s).Ok?
    ensures |WriteVertex(c, nodes, i, s).value.s.store.writes| == |s.store.writes| + Inserted(nodes, i)
    decreases |nodes| - i
  {
    if i + 1 < |nodes| {
      RunSplits(c, nodes, i, s);
      RunWrites(c, nodes, i + 2, Between(nodes, i, s));
      assert Inserted(nodes, i) == (if nodes[i].Inserts() then 1 else 0) + 1 + Inserted(nodes, i + 2);
    } else {
      assert Inserted(nodes, i) == (if nodes[i].insert then 1 else 0) + Inserted(nodes, i + 1);
    }
  }

  lemma OneMoreKey<A, B>(m: map<A, B>, n: map<A, B>, k: A, isNew: bool)
    requires n.Keys == m.Keys + {k} && (isNew <==> k !in m)
    ensures |n| == |m| + if isNew then 1 else 0
  {
    assert |n| == |n.Keys| && |m| == |m.Keys|;
    if !isNew { assert n.Keys == m.Keys; }
  }

  /** A run begins with its first vertex, and may end there. */
  lemma RunStarts(c: Clause, nodes: seq<Target>, i: nat, s: State)
    requires WellShaped(nodes) && AllFit(nodes, |s.slot|) && i < |nodes| && nodes[i].VertexTarget?
    requires WriteVertex(c, nodes, i, s).Ok?
    ensures OneVertex(nodes[i], s).Ok?
    ensures WriteVertex(c, nodes, i, s).value.ids[0] == OneVertex(nodes[i], s).value.0
    ensures i + 1 == |nodes| ==>
      WriteVertex(c, nodes, i, s).value == Run([OneVertex(nodes[i], s).value.0], OneVertex(nodes[i], s).value.1)
  {}

  /** One step of the recursion, with what its three parts leave. */
  lemma RunStep(c: Clause, nodes: seq<Target>, i: nat, s: State)
    returns (id: GraphId, s1: State, inner: Run, edge: GraphId)
    requires WellShaped(nodes) && AllFit(nodes, |s.slot|) && i + 1 < |nodes| && nodes[i].VertexTarget?
    requires AttributesApart(nodes) && Resolvable(nodes, i, s) && s.store.Safe()
    requires WriteVertex(c, nodes, i, s).Ok?
    ensures i + 2 < |nodes| && nodes[i + 1].EdgeTarget? && nodes[i + 2].VertexTarget?
    ensures OneVertex(nodes[i], s) == Ok((id, s1)) && s1.(pathValues := []) == Between(nodes, i, s)
    ensures WriteVertex(c, nodes, i + 2, Between(nodes, i, s)) == Ok(inner)
    ensures var r := WriteVertex(c, nodes, i, s).value;
            && OneEdge(c, nodes[i + 1], id, inner.ids[0], s1.pathValues, inner.s) == Ok((edge, r.s))
            && r.ids == [id] + ([edge] + inner.ids)
            && Extends(s.store.g, s1.store.g) && Extends(s1.store.g, inner.s.store.g) && Extends(inner.s.store.g, r.s.store.g)
            && id in s1.store.g.vertices && inner.ids[0] in inner.s.store.g.vertices && edge in r.s.store.g.edges
            && r.s.store.g.vertices == inner.s.store.g.vertices
    ensures s1.store.Safe() && inner.s.store.Safe() && Resolvable(nodes, i + 2, Between(nodes, i, s))
  {
    RunSplits(c, nodes, i, s);
    ResolvableNext(nodes, i, s);
    OneVertexKeeps(nodes[i], s);
    var pair := OneVertex(nodes[i], s).value;
    id, s1 := pair.0, pair.1;
    RunIsSafe(c, nodes, i + 2, Between(nodes, i, s));
    inner := WriteVertex(c, nodes, i + 2, Between(nodes, i, s)).value;
    OneEdgeKeeps(c, nodes[i + 1], id, inner.ids[0], s1.pathValues, inner.s);
    edge := OneEdge(c, nodes[i + 1], id, inner.ids[0], s1.pathValues, inner.s).value.0;
  }

  // ---------------------------------------------------------------- the entities of the path

  lemma PropsUnmoved(t: Target, a: seq<Datum>, b: seq<Datum>)
    requires t.Inserts() && Fits(t, |a|) && |a| == |b|
    requires t.from.Attribute? ==> a[t.from.pos] == b[t.from.pos]
    ensures PropsFrom(t, a) == PropsFrom(t, b)
  {}

  /** Attributes that no declared variable owns keep their contents. */
  lemma {:induction false} RunFramesSlot(c: Clause, nodes: seq<Target>, i: nat, s: State, p: nat)
    requires WellShaped(nodes) && AllFit(nodes, |s.slot|) && i < |nodes| && nodes[i].VertexTarget?
    requires WriteVertex(c, nodes, i, s).Ok? && p < |s.slot|
    requires forall k | i <= k < |nodes| && nodes[k].Declares() :: nodes[k].pos != p + 1
    ensures WriteVertex(c, nodes, i, s).value.s.slot[p] == s.slot[p]
    decreases |nodes| - i
  {
    if i + 1 < |nodes| {
      RunSplits(c, nodes, i, s);
      RunFramesSlot(c, nodes, i + 2, Between(nodes, i, s), p);
    }
  }

  lemma PropsDescribe(t: Target, slot: seq<Datum>)
    requires t.Inserts() && Fits(t, |slot|)
    ensures forall props :: PropsFrom(t, slot) == Ok(props) <==> Describes(t, slot, props)
  {}

  lemma VertexMade(t: Target, s: State)
    requires t.VertexTarget? && Fits(t, |s.slot|) && s.store.Safe() && OneVertex(t, s).Ok? && t.insert
    ensures var (id, s1) := OneVertex(t, s).value;
            && id in s1.store.g.vertices && PropsFrom(t, s.slot) == Ok(s1.store.g.vertices[id])
            && id.labelId == t.labelId && id !in s.store.g.vertices
  {
    OneVertexKeeps(t, s);
  }

  lemma FirstMade(c: Clause, nodes: seq<Target>, i: nat, s: State, r: Run)
    requires AllFit(nodes, |s.slot|) && i < |nodes| && nodes[i].VertexTarget? && s.store.Safe()
    requires OneVertex(nodes[i], s).Ok? && |r.ids| == |nodes| - i && r.ids[0] == OneVertex(nodes[i], s).value.0
    requires r.ids[0] in r.s.store.g.vertices && Extends(OneVertex(nodes[i], s).value.1.store.g, r.s.store.g)
    ensures Made(c, nodes, i, i, s.slot, r.ids, r.s.store.g)
  {
    if nodes[i].insert {
      VertexMade(nodes[i], s);
      PropsDescribe(nodes[i], s.slot);
    }
  }

  /** Every target of the path made, or found, the entity it describes, with the neighbours its direction demands. */
  lemma {:induction false} RunMakesPath(c: Clause, nodes: seq<Target>, i: nat, s: State, k: nat)
    requires WellShaped(nodes) && AllFit(nodes, |s.slot|) && i <= k < |nodes| && nodes[i].VertexTarget?
    requires AttributesApart(nodes) && Resolvable(nodes, i, s) && s.store.Safe()
    requires WriteVertex(c, nodes, i, s).Ok?
    ensures var r := WriteVertex(c, nodes, i, s).value; Made(c, nodes, i, k, s.slot, r.ids, r.s.store.g)
    decreases |nodes| - i
  {
    hide WriteVertex, WriteEdge, Resolvable, GraphStore.Store.Safe, PathWriter.PropsFrom, PathWriter.EndsOf, Made, VariablesApart, LiesBetween;
    RunStarts(c, nodes, i, s);
    var r := WriteVertex(c, nodes, i, s).value;
    if k == i {
      RunIsSafe(c, nodes, i, s);
      if i + 1 < |nodes| {
        var id, s1, inner, edge := RunStep(c, nodes, i, s);
      }
      FirstMade(c, nodes, i, s, r);
    } else {
      var id, s1, inner, edge := RunStep(c, nodes, i, s);
      var s2 := Between(nodes, i, s);
      if nodes[k].Inserts() { PropsBehind(nodes, i, s, k); }
      if k == i + 1 {
        if nodes[k].from.Attribute? { RunFramesSlot(c, nodes, i + 2, s2, nodes[k].from.pos); }
        SecondMade(c, nodes, i, s, s1, s2.slot, inner, edge, r);
      } else {
        RunMakesPath(c, nodes, i + 2, s2, k);
        MadeBehind(c, nodes, i, k, s.slot, s2.slot, r, inner);
      }
    }
  }

  lemma SecondMade(c: Clause, nodes: seq<Target>, i: nat, s: State, s1: State, slot2: seq<Datum>, inner: Run, edge: GraphId, r: Run)
    requires i + 2 < |nodes| && nodes[i + 1].EdgeTarget? && AllFit(nodes, |s.slot|)
    requires |slot2| == |s.slot| == |inner.s.slot| && |inner.ids| == |nodes| - (i + 2) && inner.s.store.Safe()
    requires |r.ids| == |nodes| - i && r.ids == [r.ids[0]] + ([edge] + inner.ids)
    requires r.ids[0] in inner.s.store.g.vertices && inner.ids[0] in inner.s.store.g.vertices
    requires OneEdge(c, nodes[i + 1], r.ids[0], inner.ids[0], s1.pathValues, inner.s) == Ok((edge, r.s))
    requires PropsFrom(nodes[i + 1], s.slot) == PropsFrom(nodes[i + 1], slot2)
    requires nodes[i + 1].from.Attribute? ==> slot2[nodes[i + 1].from.pos] == inner.s.slot[nodes[i + 1].from.pos]
    ensures Made(c, nodes, i, i + 1, s.slot, r.ids, r.s.store.g)
  {
    PropsUnmoved(nodes[i + 1], slot2, inner.s.slot);
    PropsDescribe(nodes[i + 1], s.slot);
    OneEdgeKeeps(c, nodes[i + 1], r.ids[0], inner.ids[0], s1.pathValues, inner.s);
    assert r.ids[1] == edge && r.ids[2] == inner.ids[0];
  }

  /** The vertex at `i` does not move the properties of a target behind it. */
  lemma PropsBehind(nodes: seq<Target>, i: nat, s: State, k: nat)
    requires AllFit(nodes, |s.slot|) && i < k < |nodes| && nodes[i].VertexTarget? && AttributesApart(nodes)
    requires OneVertex(nodes[i], s).Ok? && nodes[k].Inserts()
    ensures PropsFrom(nodes[k], s.slot) == PropsFrom(nodes[k], Between(nodes, i, s).slot)
  {}

  lemma MadeBehind(c: Clause, nodes: seq<Target>, i: nat, k: nat, slot: seq<Datum>, slot2: seq<Datum>, r: Run, inner: Run)
    requires i + 2 <= k < |nodes| && AllFit(nodes, |slot|) && |slot2| == |slot|
    requires |r.ids| == |nodes| - i && |inner.ids| == |nodes| - (i + 2) && r.ids[2..] == inner.ids
    requires nodes[k].EdgeTarget? ==> k > i + 2
    requires Made(c, nodes, i + 2, k, slot2, inner.ids, inner.s.store.g) && Extends(inner.s.store.g, r.s.store.g)
    requires nodes[k].Inserts() ==> PropsFrom(nodes[k], slot) == PropsFrom(nodes[k], slot2)
    ensures Made(c, nodes, i, k, slot, r.ids, r.s.store.g)
  {
    if nodes[k].Inserts() {
      PropsDescribe(nodes[k], slot);
      PropsDescribe(nodes[k], slot2);
    }
    assert forall j | 0 <= j < |inner.ids| :: inner.ids[j] == r.ids[j + 2];
  }

  lemma MadeStays(c: Clause, nodes: seq<Target>, i: nat, k: nat, slot: seq<Datum>, ids: seq<GraphId>, g: Graph, h: Graph)
    requires i <= k < |nodes| && |ids| == |nodes| - i && Made(c, nodes, i, k, slot, ids, g) && Extends(g, h)
    ensures Made(c, nodes, i, k, slot, ids, h)
  {}

  lemma InsertedVertexIsNew(t: Target, s: State)
    requires t.VertexTarget? && Fits(t, |s.slot|) && s.store.Safe() && OneVertex(t, s).Ok? && t.insert
    ensures NeverUsed(s.store, OneVertex(t, s).value.0)
  {
    hide GraphStore.Store.Safe;
    NextIdIsFresh(s.store, t.labelId);
    NeverUsedBefore(s.store, s.store.NextId(t.labelId).value.1, OneVertex(t, s).value.0);
  }

  /** Inserted entities are new: at no time before the run did anything have their ids. */
  lemma {:induction false} RunIsNew(c: Clause, nodes: seq<Target>, i: nat, s: State, k: nat)
    requires WellShaped(nodes) && AllFit(nodes, |s.slot|) && i <= k < |nodes| && nodes[i].VertexTarget?
    requires AttributesApart(nodes) && Resolvable(nodes, i, s) && s.store.Safe()
    requires WriteVertex(c, nodes, i, s).Ok? && nodes[k].Inserts()
    ensures NeverUsed(s.store, WriteVertex(c, nodes, i, s).value.ids[k - i])
    ensures !Has(s.store.g, WriteVertex(c, nodes, i, s).value.ids[k - i])
    decreases |nodes| - i
  {
    hide WriteVertex, WriteEdge, Resolvable, GraphStore.Store.Safe, PathWriter.PropsFrom, PathWriter.EndsOf, NeverUsed;
    RunStarts(c, nodes, i, s);
    var newId := WriteVertex(c, nodes, i, s).value.ids[k - i];
    if k == i {
      InsertedVertexIsNew(nodes[i], s);
    } else {
      var id, s1, inner, edge := RunStep(c, nodes, i, s);
      VertexKeepsWrites(nodes[i], s);
      if k == i + 1 {
        RunKeepsStart(c, nodes, i + 2, Between(nodes, i, s));
        NextIdIsFresh(inner.s.store, nodes[k].labelId);
        NeverUsedBefore(s.store, inner.s.store.NextId(nodes[k].labelId).value.1, newId);
      } else {
        RunIsNew(c, nodes, i + 2, Between(nodes, i, s), k);
        assert newId == inner.ids[k - (i + 2)];
        NeverUsedBefore(s.store, s1.store, newId);
      }
    }
    SafeIsConsistent(s.store);
    NeverUsedIsNotThere(s.store, newId);
  }

  lemma VertexKeepsWrites(t: Target, s: State)
    requires t.VertexTarget? && Fits(t, |s.slot|) && OneVertex(t, s).Ok?
    ensures var t := OneVertex(t, s).value.1.store; t.start == s.store.start && s.store.writes <= t.writes
  {}

  // ---------------------------------------------------------------- variables

  /** The attribute of a variable declared by the target at `k` ends up holding its entity. */
  ghost predicate Holds(r: Run, nodes: seq<Target>, i: nat, k: int)
    requires 0 <= i <= k < |nodes| && AllFit(nodes, |r.s.slot|) && |r.ids| == |nodes| - i && nodes[k].Declares()
  {
    var d, id, g := r.s.slot[nodes[k].pos - 1], r.ids[k - i], r.s.store.g;
    if nodes[k].VertexTarget? then id in g.vertices && d == VertexDatum(id, g.vertices[id])
    else id in g.edges && d == EdgeDatum(id, g.edges[id])
  }

  lemma HoldsBehind(nodes: seq<Target>, i: nat, k: nat, inner: Run, r: Run)
    requires i + 2 <= k < |nodes| && AllFit(nodes, |r.s.slot|) && |r.s.slot| == |inner.s.slot| && nodes[k].Declares()
    requires |r.ids| == |nodes| - i && |inner.ids| == |nodes| - (i + 2) && r.ids[2..] == inner.ids
    requires Holds(inner, nodes, i + 2, k) && Extends(inner.s.store.g, r.s.store.g)
    requires r.s.slot[nodes[k].pos - 1] == inner.s.slot[nodes[k].pos - 1]
    ensures Holds(r, nodes, i, k)
  {
    assert inner.ids[k - (i + 2)] == r.ids[k - i];
  }

  lemma HoldsSecond(nodes: seq<Target>, i: nat, edge: GraphId, r: Run)
    requires i + 1 < |nodes| && nodes[i + 1].EdgeTarget? && nodes[i + 1].Declares() && AllFit(nodes, |r.s.slot|)
    requires |r.ids| == |nodes| - i && r.ids[1] == edge && edge in r.s.store.g.edges
    requires r.s.slot[nodes[i + 1].pos - 1] == EdgeDatum(edge, r.s.store.g.edges[edge])
    ensures Holds(r, nodes, i, i + 1)
  {}

  lemma DeclaredFirst(c: Clause, nodes: seq<Target>, i: nat, s: State)
    requires WellShaped(nodes) && AllFit(nodes, |s.slot|) && i < |nodes| && nodes[i].VertexTarget? && nodes[i].Declares()
    requires AttributesApart(nodes) && VariablesApart(nodes) && Resolvable(nodes, i, s) && s.store.Safe()
    requires WriteVertex(c, nodes, i, s).Ok?
    ensures Holds(WriteVertex(c, nodes, i, s).value, nodes, i, i)
  {
    hide WriteVertex, WriteEdge, Resolvable, AttributesApart, GraphStore.Store.Safe, PathWriter.PropsFrom, PathWriter.EndsOf;
    RunStarts(c, nodes, i, s);
    VertexMade(nodes[i], s);
    if i + 1 < |nodes| {
      var id, s1, inner, edge := RunStep(c, nodes, i, s);
      RunFramesSlot(c, nodes, i + 2, Between(nodes, i, s), nodes[i].pos - 1);
    }
  }

  lemma {:induction false} RunDeclares(c: Clause, nodes: seq<Target>, i: nat, s: State, k: nat)
    requires WellShaped(nodes) && AllFit(nodes, |s.slot|) && i <= k < |nodes| && nodes[i].VertexTarget?
    requires AttributesApart(nodes) && Resolvable(nodes, i, s) && s.store.Safe()
    requires WriteVertex(c, nodes, i, s).Ok? && nodes[k].Declares() && VariablesApart(nodes)
    ensures Holds(WriteVertex(c, nodes, i, s).value, nodes, i, k)
    decreases |nodes| - i
  {
    hide WriteVertex, WriteEdge, Resolvable, Holds, GraphStore.Store.Safe, PathWriter.PropsFrom, PathWriter.EndsOf;
    if k == i {
      DeclaredFirst(c, nodes, i, s);
    } else {
      var id, s1, inner, edge := RunStep(c, nodes, i, s);
      var r := WriteVertex(c, nodes, i, s).value;
      OneEdgeKeeps(c, nodes[i + 1], id, inner.ids[0], s1.pathValues, inner.s);
      if k == i + 1 {
        HoldsSecond(nodes, i, edge, r);
      } else {
        RunDeclares(c, nodes, i + 2, Between(nodes, i, s), k);
        assert r.ids[2..] == inner.ids;
        HoldsBehind(nodes, i, k, inner, r);
      }
    }
  }

  /** A later mention of a variable declared in this path is the vertex made for it in this same run. */
  lemma {:induction false} RunResolves(c: Clause, nodes: seq<Target>, i: nat, s: State, j: nat, k: nat)
    requires WellShaped(nodes) && AllFit(nodes, |s.slot|) && i <= j < k < |nodes| && nodes[i].VertexTarget?
    requires VariablesApart(nodes) && WriteVertex(c, nodes, i, s).Ok?
    requires nodes[j].VertexTarget? && nodes[j].Declares() && nodes[k].VertexTarget? && !nodes[k].insert
    requires nodes[k].pos == nodes[j].pos
    ensures var r := WriteVertex(c, nodes, i, s).value; r.ids[k - i] == r.ids[j - i]
    decreases |nodes| - i
  {
    hide WriteVertex, WriteEdge, AttributesApart, Resolvable, GraphStore.Store.Safe;
    RunSplits(c, nodes, i, s);
    var r, s2 := WriteVertex(c, nodes, i, s).value, Between(nodes, i, s);
    var inner := WriteVertex(c, nodes, i + 2, s2).value;
    if j > i {
      RunResolves(c, nodes, i + 2, s2, j, k);
      assert r.ids[k - i] == inner.ids[k - (i + 2)] && r.ids[j - i] == inner.ids[j - (i + 2)];
    } else {
      RunFinds(c, nodes, i + 2, s2, k);
      assert r.ids[k - i] == inner.ids[k - (i + 2)];
    }
  }

  /** A mention, like every vertex of the path, is live in the graph that the run leaves. */
  lemma RunFindsLive(c: Clause, nodes: seq<Target>, i: nat, s: State, k: nat)
    requires WellShaped(nodes) && AllFit(nodes, |s.slot|) && i <= k < |nodes| && nodes[i].VertexTarget? && nodes[k].VertexTarget?
    requires AttributesApart(nodes) && Resolvable(nodes, i, s) && s.store.Safe() && WriteVertex(c, nodes, i, s).Ok?
    ensures var r := WriteVertex(c, nodes, i, s).value; r.ids[k - i] in r.s.store.g.vertices
  {
    hide WriteVertex, WriteEdge, Resolvable, GraphStore.Store.Safe, AttributesApart;
    RunMakesPath(c, nodes, i, s, k);
  }

  /** A mention of a variable that no target of the run declares is the vertex the tuple held, and is live. */
  lemma {:induction false} RunFinds(c: Clause, nodes: seq<Target>, i: nat, s: State, k: nat)
    requires WellShaped(nodes) && AllFit(nodes, |s.slot|) && i <= k < |nodes| && nodes[i].VertexTarget?
    requires WriteVertex(c, nodes, i, s).Ok? && nodes[k].VertexTarget? && !nodes[k].insert
    requires forall j | i <= j < |nodes| && nodes[j].Declares() :: nodes[j].pos != nodes[k].pos
    ensures s.slot[nodes[k].pos - 1].VertexDatum?
    ensures WriteVertex(c, nodes, i, s).value.ids[k - i] == s.slot[nodes[k].pos - 1].id
    ensures AttributesApart(nodes) && Resolvable(nodes, i, s) && s.store.Safe() ==>
      s.slot[nodes[k].pos - 1].id in WriteVertex(c, nodes, i, s).value.s.store.g.vertices
    decreases |nodes| - i
  {
    hide WriteVertex, WriteEdge, AttributesApart, Resolvable, GraphStore.Store.Safe;
    if AttributesApart(nodes) && Resolvable(nodes, i, s) && s.store.Safe() { RunFindsLive(c, nodes, i, s, k); }
    if i < k {
      RunSplits(c, nodes, i, s);
      RunFinds(c, nodes, i + 2, Between(nodes, i, s), k);
    } else {
      RunStarts(c, nodes, i, s);
    }
  }

  // ---------------------------------------------------------------- the path value

  /** The entity of the target at `k`, as a datum. */
  ghost predicate IsDatumOf(d: Datum, t: Target, id: GraphId, g: Graph) {
    if t.EdgeTarget? then id in g.edges && d == EdgeDatum(id, g.edges[id])
    else d.VertexDatum? && d.id == id && (t.insert ==> id in g.vertices && d.props == g.vertices[id])
  }

  /**
   * The path value lists v0, e0, v1, ..., vn behind what was there before, although the edges are
   * inserted last to first.
   */
  lemma {:induction false} RunListsPath(c: Clause, nodes: seq<Target>, i: nat, s: State)
    requires WellShaped(nodes) && AllFit(nodes, |s.slot|) && i < |nodes| && nodes[i].VertexTarget?
    requires AttributesApart(nodes) && Resolvable(nodes, i, s) && s.store.Safe()
    requires WriteVertex(c, nodes, i, s).Ok? && forall k | i <= k < |nodes| :: nodes[k].inPath
    ensures ListsPath(nodes, i, s.pathValues, WriteVertex(c, nodes, i, s).value)
    decreases |nodes| - i
  {
    hide WriteVertex, WriteEdge, Resolvable, AttributesApart, GraphStore.Store.Safe, PathWriter.PropsFrom, PathWriter.EndsOf;
    RunStarts(c, nodes, i, s);
    var r := WriteVertex(c, nodes, i, s).value;
    VertexListed(nodes[i], s);
    if i + 1 < |nodes| {
      var id, s1, inner, edge := RunStep(c, nodes, i, s);
      RunListsPath(c, nodes, i + 2, Between(nodes, i, s));
      PathJoins(nodes, i, s.pathValues, s1.pathValues[|s.pathValues|], EdgeDatum(edge, r.s.store.g.edges[edge]), r, inner);
    }
  }

  /** The vertex is appended to the path values. */
  lemma VertexListed(t: Target, s: State)
    requires t.VertexTarget? && Fits(t, |s.slot|) && s.store.Safe() && OneVertex(t, s).Ok? && t.inPath
    ensures var (id, s1) := OneVertex(t, s).value;
            && |s1.pathValues| == |s.pathValues| + 1 && s1.pathValues[..|s.pathValues|] == s.pathValues
            && IsDatumOf(s1.pathValues[|s.pathValues|], t, id, s1.store.g)
  {
    if t.insert { VertexMade(t, s); }
    hide GraphStore.Store.Safe;
  }

  /** The run's part of the path value, behind the values that were there before. */
  ghost predicate ListsPath(nodes: seq<Target>, i: nat, before: seq<Datum>, r: Run) {
    && i <= |nodes| && |r.ids| == |nodes| - i
    && |r.s.pathValues| == |before| + |nodes| - i
    && r.s.pathValues[..|before|] == before
    && forall k | i <= k < |nodes| ::
         IsDatumOf(r.s.pathValues[|before| + k - i], nodes[k], r.ids[k - i], r.s.store.g)
  }

  lemma PathJoins(nodes: seq<Target>, i: nat, before: seq<Datum>, v: Datum, e: Datum, r: Run, inner: Run)
    requires i + 2 < |nodes| && nodes[i].VertexTarget? && nodes[i + 1].EdgeTarget? && ListsPath(nodes, i + 2, [], inner)
    requires |r.ids| == |nodes| - i && r.ids[2..] == inner.ids && Extends(inner.s.store.g, r.s.store.g)
    requires r.s.pathValues == before + [v] + [e] + inner.s.pathValues
    requires IsDatumOf(v, nodes[i], r.ids[0], r.s.store.g) && IsDatumOf(e, nodes[i + 1], r.ids[1], r.s.store.g)
    ensures ListsPath(nodes, i, before, r)
  {
    var n := |before|;
    forall k | i <= k < |nodes| ensures IsDatumOf(r.s.pathValues[n + k - i], nodes[k], r.ids[k - i], r.s.store.g) {
      if k >= i + 2 {
        var j := k - (i + 2);
        assert r.s.pathValues[n + k - i] == inner.s.pathValues[j] && r.ids[k - i] == inner.ids[j];
        assert IsDatumOf(inner.s.pathValues[0 + k - (i + 2)], nodes[k], inner.ids[k - (i + 2)], inner.s.store.g);
      }
    }
  }
}
