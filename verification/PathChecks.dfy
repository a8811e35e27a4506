/**
 * The existence checks of CREATE and MERGE read through a command id of their own, so they may find a
 * vertex that is gone. What a run does then: exactly when it leaves a dangling edge.
 */
module PathChecks {
  import opened Results
  import opened PropertyGraph
  import opened MatchPattern
  import opened GraphStore
  import opened PathWriter
  import opened PathWritten

  // ---------------------------------------------------------------- what every run keeps, safe or not

  /** The tables are what the writes made of the starting graph, and every id in them has been drawn from its sequence. */
  ghost predicate Drawn(st: Store) {
    Replays(st) && forall id | Has(st.g, id) :: id.entry <= st.LastOf(id.labelId)
  }

  lemma DrawnReplays(st: Store)
    requires Drawn(st)
    ensures Replays(st)
  {}

  lemma ConsistentIsDrawn(st: Store)
    requires st.Consistent()
    ensures Drawn(st)
  {
    Now(st);
    assert forall id | Has(st.g, id) :: Has(Past(st.start, st.writes, |st.writes|), id);
  }

  ghost predicate SlotGrows(a: seq<Datum>, b: seq<Datum>, g: Graph) {
    |b| == |a| && forall p | 0 <= p < |a| :: b[p] == a[p] || b[p].EdgeDatum? || (b[p].VertexDatum? && b[p].id in g.vertices)
  }

  /** Nothing old is touched, no id is drawn twice, and attributes are overwritten by new entities only. */
  ghost predicate Grows(s: State, t: State) {
    && Extends(s.store.g, t.store.g) && t.store.start == s.store.start && s.store.writes <= t.store.writes
    && (forall l :: s.store.LastOf(l) <= t.store.LastOf(l))
    && (forall v: GraphId | v !in s.store.g.vertices && v.entry <= s.store.LastOf(v.labelId) :: v !in t.store.g.vertices)
    && SlotGrows(s.slot, t.slot, t.store.g) && t.seen == s.seen && t.base == s.base
  }

  lemma GrowsTransitive(s: State, t: State, u: State)
    requires Grows(s, t) && Grows(t, u)
    ensures Grows(s, u)
  {}

  /** Drawing an id and inserting under it. */
  lemma InsertGrows(st: Store, w: Write)
    requires Drawn(st) && st.NextId(w.id.labelId).Ok? && st.NextId(w.id.labelId).value.0 == w.id && (w.InsertVertex? || w.InsertEdge?)
    ensures var made := st.NextId(w.id.labelId).value.1.Do(w);
            && Drawn(made) && Drawn(made.EndCommand()) && made.start == st.start && st.writes <= made.writes
            && (forall l :: st.LastOf(l) <= made.LastOf(l)) && made.EndCommand().last == made.last
    ensures !Has(st.g, w.id) && w.id.entry > st.LastOf(w.id.labelId)
  {
    hide Replay, Apply;
    var drawn := st.NextId(w.id.labelId).value.1;
    assert Replays(drawn);
    DoReplays(drawn, w);
    HasMore(st.g, w);
    hide Replays;
    assert !Has(st.g, w.id);
  }

  lemma HasMore(g: Graph, w: Write)
    requires w.InsertVertex? || w.InsertEdge?
    ensures forall id :: Has(Apply(g, w), id) <==> Has(g, id) || id == w.id
  {}

  lemma OneVertexGrows(t: Target, s: State)
    requires t.VertexTarget? && Fits(t, |s.slot|) && OneVertex(t, s).Ok? && Drawn(s.store)
    ensures Grows(s, OneVertex(t, s).value.1) && Drawn(OneVertex(t, s).value.1.store)
    ensures Grows(s, OneVertex(t, s).value.1.(pathValues := []))
  {
    hide Drawn, Replay;
    if t.insert {
      var w := InsertVertex(s.store.NextId(t.labelId).value.0, PropsFrom(t, s.slot).value);
      InsertGrows(s.store, w);
      InsertExtends(s.store.g, w);
    }
  }

  lemma InsertExtends(g: Graph, w: Write)
    requires !Has(g, w.id) && (w.InsertVertex? || w.InsertEdge?)
    ensures Extends(g, Apply(g, w))
  {}

  lemma OneEdgeGrows(c: Clause, t: Target, x: GraphId, y: GraphId, before: seq<Datum>, s: State)
    requires t.EdgeTarget? && Fits(t, |s.slot|) && OneEdge(c, t, x, y, before, s).Ok? && Drawn(s.store)
    ensures var (id, s1) := OneEdge(c, t, x, y, before, s).value;
            && Grows(s, s1) && Drawn(s1.store) && s1.store.g.vertices == s.store.g.vertices
            && id in s1.store.g.edges && StoredBetween(s1.store.g, id, c, t.dir, x, y)
  {
    hide Drawn, Replay;
    var (start, end) := EndsOf(c, t.dir, x, y).value;
    EndsLieBetween(c, t.dir, x, y, PropsFrom(t, s.slot).value);
    var w := InsertEdge(s.store.NextId(t.labelId).value.0, Edge(start, end, PropsFrom(t, s.slot).value));
    InsertGrows(s.store, w);
    InsertExtends(s.store.g, w);
  }

  lemma {:induction false} RunGrows(c: Clause, nodes: seq<Target>, i: nat, s: State)
    requires WellShaped(nodes) && AllFit(nodes, |s.slot|) && i < |nodes| && nodes[i].VertexTarget?
    requires WriteVertex(c, nodes, i, s).Ok? && Drawn(s.store)
    ensures Grows(s, WriteVertex(c, nodes, i, s).value.s) && Drawn(WriteVertex(c, nodes, i, s).value.s.store)
    decreases |nodes| - i
  {
    hide WriteVertex, WriteEdge, Grows, Drawn, OneVertex, OneEdge;
    RunStarts(c, nodes, i, s);
    OneVertexGrows(nodes[i], s);
    if i + 1 < |nodes| {
      RunSplits(c, nodes, i, s);
      var s2 := Between(nodes, i, s);
      RunGrows(c, nodes, i + 2, s2);
      var (id, s1) := OneVertex(nodes[i], s).value;
      var inner := WriteVertex(c, nodes, i + 2, s2).value;
      OneEdgeGrows(c, nodes[i + 1], id, inner.ids[0], s1.pathValues, inner.s);
      GrowsTransitive(s, s2, inner.s);
      GrowsTransitive(s, inner.s, WriteVertex(c, nodes, i, s).value.s);
    }
  }

  /**
   * Every edge of an accepted path, whatever the checks show, lies between the entities on its two sides in the
   * direction of the pattern: rightward from the one before it, leftward from the one behind it, and rightward
   * for an undirected edge of MERGE. An accepted path of CREATE has no undirected edge.
   */
  lemma {:induction false} RunJoins(c: Clause, nodes: seq<Target>, i: nat, s: State, k: nat)
    requires WellShaped(nodes) && AllFit(nodes, |s.slot|) && i <= k < |nodes| && nodes[i].VertexTarget?
    requires WriteVertex(c, nodes, i, s).Ok? && Drawn(s.store) && nodes[k].EdgeTarget?
    ensures k < |nodes| - 1
    ensures var run := WriteVertex(c, nodes, i, s).value;
            StoredBetween(run.s.store.g, run.ids[k - i], c, nodes[k].dir, run.ids[k - i - 1], run.ids[k - i + 1])
    decreases |nodes| - i
  {
    assert Fits(nodes[i], |s.slot|) && (i + 1 < |nodes| ==> Fits(nodes[i + 1], |s.slot|));
    hide *;
    RunSplits(c, nodes, i, s);
    OneVertexGrows(nodes[i], s);
    var (id, s1) := OneVertex(nodes[i], s).value;
    var s2 := Between(nodes, i, s);
    assert s2 == s1.(pathValues := []) by { BetweenIs(nodes, i, s); }
    RunGrows(c, nodes, i + 2, s2);
    var inner := WriteVertex(c, nodes, i + 2, s2).value;
    OneEdgeGrows(c, nodes[i + 1], id, inner.ids[0], s1.pathValues, inner.s);
    var (edge, s3) := OneEdge(c, nodes[i + 1], id, inner.ids[0], s1.pathValues, inner.s).value;
    var ids := WriteVertex(c, nodes, i, s).value.ids;
    InFront(id, edge, inner.ids);
    assert ids == [id] + ([edge] + inner.ids);
    var j := k - i;
    if j == 1 {
      assert ids[j - 1] == id && ids[j] == edge && ids[j + 1] == inner.ids[0];
    } else {
      RunJoins(c, nodes, i + 2, s2, k);
      assert ids[j - 1] == inner.ids[j - 3] && ids[j] == inner.ids[j - 2] && ids[j + 1] == inner.ids[j - 1];
      StaysBetween(inner.s, s3, ids[j], c, nodes[k].dir, ids[j - 1], ids[j + 1]);
    }
  }

  lemma InFront(x: GraphId, y: GraphId, ids: seq<GraphId>)
    ensures var all := [x] + ([y] + ids);
            all[0] == x && all[1] == y && forall j | 2 <= j < |all| :: all[j] == ids[j - 2]
  {}

  /** An edge of the graph that lies between two vertices in the direction of the pattern. */
  ghost predicate StoredBetween(g: Graph, e: GraphId, c: Clause, dir: Dir, x: GraphId, y: GraphId) {
    e in g.edges && LiesBetween(g.edges[e], c, dir, x, y)
  }

  lemma StaysBetween(s: State, t: State, e: GraphId, c: Clause, dir: Dir, x: GraphId, y: GraphId)
    requires Grows(s, t) && StoredBetween(s.store.g, e, c, dir, x, y)
    ensures StoredBetween(t.store.g, e, c, dir, x, y)
  {}

  lemma BetweenIs(nodes: seq<Target>, i: nat, s: State)
    requires i < |nodes| && nodes[i].VertexTarget? && Fits(nodes[i], |s.slot|) && OneVertex(nodes[i], s).Ok?
    ensures Between(nodes, i, s) == OneVertex(nodes[i], s).value.1.(pathValues := [])
  {}

  lemma GrowsKeepsTrue(s: State, t: State, pos: nat)
    requires Grows(s, t) && ShownIsLive(s, pos)
    ensures ShownIsLive(t, pos)
  {}

  // ---------------------------------------------------------------- exactly when a path dangles

  /** The attribute of a checked variable is none of the path's own. */
  ghost predicate ChecksOutside(nodes: seq<Target>) {
    forall j, k | 0 <= j < |nodes| && 0 <= k < |nodes| && nodes[k].Checked() && nodes[j].Declares() :: nodes[j].pos != nodes[k].pos
  }

  /** What the checks find has existed at some time. */
  ghost predicate SeenDrawn(s: State) {
    forall v: GraphId | v in s.seen :: v.entry <= s.store.LastOf(v.labelId)
  }

  ghost predicate HoldsGone(s: State, pos: nat) {
    && 0 < pos <= |s.slot| && s.slot[pos - 1].VertexDatum?
    && var v := s.slot[pos - 1].id; v !in s.store.g.vertices && v.entry <= s.store.LastOf(v.labelId)
  }

  lemma EdgeDangles(c: Clause, t: Target, x: GraphId, y: GraphId, before: seq<Datum>, s: State)
    requires t.EdgeTarget? && Fits(t, |s.slot|) && OneEdge(c, t, x, y, before, s).Ok? && Drawn(s.store)
    requires x !in s.store.g.vertices || y !in s.store.g.vertices || !NoDangling(s.store.g)
    ensures !NoDangling(OneEdge(c, t, x, y, before, s).value.1.store.g)
  {
    OneEdgeGrows(c, t, x, y, before, s);
    var (id, s1) := OneEdge(c, t, x, y, before, s).value;
    if x in s.store.g.vertices && y in s.store.g.vertices {
      var e :| e in s.store.g.edges && !(s.store.g.edges[e].start in s.store.g.vertices && s.store.g.edges[e].end in s.store.g.vertices);
      assert e in s1.store.g.edges && s1.store.g.edges[e] == s.store.g.edges[e];
    }
  }

  lemma StaysGone(s: State, t: State, v: GraphId)
    requires Grows(s, t) && v !in s.store.g.vertices && v.entry <= s.store.LastOf(v.labelId)
    ensures v !in t.store.g.vertices && v.entry <= t.store.LastOf(v.labelId)
  {}

  /** A vertex that is gone gets an edge, at whatever position of the path it is mentioned. */
  lemma {:induction false} RunDangles(c: Clause, nodes: seq<Target>, i: nat, s: State, k: nat)
    requires WellShaped(nodes) && AllFit(nodes, |s.slot|) && i <= k < |nodes| && nodes[i].VertexTarget? && i + 1 < |nodes|
    requires WriteVertex(c, nodes, i, s).Ok? && Drawn(s.store)
    requires nodes[k].VertexTarget? && !nodes[k].insert && HoldsGone(s, nodes[k].pos)
    requires forall j | i <= j < |nodes| && nodes[j].Declares() :: nodes[j].pos != nodes[k].pos
    ensures !NoDangling(WriteVertex(c, nodes, i, s).value.s.store.g)
    decreases |nodes| - i
  {
    hide WriteVertex, WriteEdge, Drawn, OneEdge, NoDangling, Grows, AttributesApart, Resolvable, GraphStore.Store.Safe;
    RunFinds(c, nodes, i, s, k);
    RunSplits(c, nodes, i, s);
    OneVertexGrows(nodes[i], s);
    var s2 := Between(nodes, i, s);
    var (id, s1) := OneVertex(nodes[i], s).value;
    RunGrows(c, nodes, i + 2, s2);
    var inner := WriteVertex(c, nodes, i + 2, s2).value;
    GrowsTransitive(s, s2, inner.s);
    assert nodes[k].VertexTarget? && k != i + 1;
    StaysGone(s, inner.s, s.slot[nodes[k].pos - 1].id);
    if k > i + 2 {
      StaysGone(s, s2, s.slot[nodes[k].pos - 1].id);
      assert HoldsGone(s2, nodes[k].pos);
      RunDangles(c, nodes, i + 2, s2, k);
    } else if k == i + 2 {
      assert WriteVertex(c, nodes, i, s).value.ids[2] == inner.ids[0];
    }
    EdgeDangles(c, nodes[i + 1], id, inner.ids[0], s1.pathValues, inner.s);
  }

  /**
   * A path is created without a dangling edge, at any of its writes, exactly when no check shows a vertex
   * that is gone, or the path has no edge.
   */
  lemma RunSafeExactly(c: Clause, nodes: seq<Target>, s: State)
    requires WellShaped(nodes) && AllFit(nodes, |s.slot|) && AttributesApart(nodes) && ChecksOutside(nodes)
    requires LocalsResolve(nodes, 0, s) && s.store.Safe() && SeenDrawn(s) && WriteVertex(c, nodes, 0, s).Ok?
    ensures WriteVertex(c, nodes, 0, s).value.s.store.Safe() <==> |nodes| == 1 || ChecksAreTrue(nodes, 0, s)
    ensures !WriteVertex(c, nodes, 0, s).value.s.store.Safe() ==> !NoDangling(WriteVertex(c, nodes, 0, s).value.s.store.g)
  {
    hide WriteVertex, WriteEdge, GraphStore.Store.Safe, AttributesApart, LocalsResolve;
    var t := WriteVertex(c, nodes, 0, s).value.s.store;
    if ChecksAreTrue(nodes, 0, s) {
      RunIsSafe(c, nodes, 0, s);
    } else if |nodes| == 1 {
      RunStarts(c, nodes, 0, s);
    } else {
      var k :| 0 <= k < |nodes| && nodes[k].Checked() && !ShownIsLive(s, nodes[k].pos);
      SafeIsConsistent(s.store);
      ConsistentIsDrawn(s.store);
      RunDangles(c, nodes, 0, s, k);
      if t.Safe() { SafeIsNotDangling(t); }
    }
  }
}
