/**
 * Runs that leave a dangling edge, from start to end: each is one that the clauses could read, and none of
 * its steps fails. S is the first command id of the query.
 */
module DanglingRuns {
  import opened Results
  import opened PropertyGraph
  import opened MatchPattern
  import opened GraphStore
  import opened PathWriter
  import opened CreateClause
  import opened CreateTheorems
  import opened DeleteClause
  import opened CommandIds
  import opened SetClause
  import opened Runs
  import opened Pipelines

  function V(k: nat): GraphId {
    GraphId(3, k)
  }

  function E(k: nat): GraphId {
    GraphId(4, k)
  }

  const NO_PROPS: Props := map[]

  function Edge(i: nat, j: nat): PropertyGraph.Edge {
    PropertyGraph.Edge(V(i), V(j), NO_PROPS)
  }

  /** A graph before the query, with the last numbers its sequences have given out. */
  function Start(g: Graph, vertices: nat, edges: nat, S: nat): Store {
    Store(g, [], [], g, map[3 := vertices, 4 := edges], 0, S)
  }

  /** `(v)-[:e]->(:v)`, with the vertex v of the first attribute. */
  const PATH := CreatePath([VertexTarget(false, false, false, false, 3, Expression(NO_PROPS), 1),
                            EdgeTarget(false, false, Right, 4, Expression(NO_PROPS), 0),
                            VertexTarget(true, true, false, false, 3, Expression(NO_PROPS), 0)], 0)

  lemma PathIsPlanned(cid: nat)
    ensures WellPlanned(CreateStep([PATH], [VertexDatum(V(1), NO_PROPS)], cid))
  {
    assert [PATH][0] == PATH;
    assert forall p, j, pos :: !DeclaresAt([PATH], p, j, pos);
    assert forall q, k :: !MentionsAt([PATH], q, k);
  }

  /** The path makes the vertex `n` and the edge `m` from v, live or not, if the check finds v. */
  lemma PathMakes(store: Store, cid: nat, n: nat, m: nat)
    requires store.LastOf(3) == n - 1 && store.LastOf(4) == m - 1 && 0 < n <= ENTRY_ID_MAX && 0 < m <= ENTRY_ID_MAX
    requires WellPlanned(CreateStep([PATH], [VertexDatum(V(1), NO_PROPS)], cid))
    ensures V(1) !in FoundAt(store, cid) ==> Act(CreateStep([PATH], [VertexDatum(V(1), NO_PROPS)], cid), store) == Err(VertexWasDeleted)
    ensures V(1) in FoundAt(store, cid) ==>
      var r := Act(CreateStep([PATH], [VertexDatum(V(1), NO_PROPS)], cid), store);
      && r.Ok? && r.value.g == Graph(store.g.vertices[V(n) := NO_PROPS], store.g.edges[E(m) := Edge(1, n)])
      && r.value.writes == store.writes + [InsertVertex(V(n), NO_PROPS), InsertEdge(E(m), Edge(1, n))]
      && r.value.stamps == store.stamps + [store.command, store.command]
      && r.value.start == store.start && r.value.finished == store.finished && r.value.command == store.command
  {
    var s := CreateTheorems.StateFor(Input([VertexDatum(V(1), NO_PROPS)], FoundAt(store, cid)), store);
    var nodes := PATH.nodes;
    hide FoundAt;
    assert [PATH][1..] == [];
    if V(1) in s.seen {
      var s1 := s.(store := store.NextId(3).value.1.Do(InsertVertex(V(n), NO_PROPS)));
      assert OneVertex(nodes[0], s) == Ok((V(1), s));
      assert OneVertex(nodes[2], s.(pathValues := [])) == Ok((V(n), s1));
      assert WriteVertex(Create, nodes, 2, s.(pathValues := [])) == Ok(Run([V(n)], s1));
      assert s1.store.LastOf(4) == m - 1 && s1.store.NextId(4).Ok?;
      var s2 := s1.(store := s1.store.NextId(4).value.1.Do(InsertEdge(E(m), Edge(1, n))));
      assert OneEdge(Create, nodes[1], V(1), V(n), [], s1) == Ok((E(m), s2));
      assert WriteEdge(Create, nodes, 1, V(1), s) == Ok(Run([E(m)] + [V(n)], s2));
      assert WriteVertex(Create, nodes, 0, s) == Ok(Run([V(1)] + ([E(m)] + [V(n)]), s2));
      NoPaths(StorePath(PATH, s2));
      assert ProcessPattern([PATH], s).Ok? && ProcessPattern([PATH], s).value.s == StorePath(PATH, s2);
      assert s2.store.stamps == store.stamps + [store.command] + [store.command];
      assert s2.store.writes == store.writes + [InsertVertex(V(n), NO_PROPS)] + [InsertEdge(E(m), Edge(1, n))];
    } else {
      assert OneVertex(nodes[0], s) == Err(VertexWasDeleted);
    }
  }

  // ---------------------------------------------------------------- CREATE above DETACH DELETE

  const TWO_EDGES := Graph(map[V(1) := NO_PROPS, V(2) := NO_PROPS, V(3) := NO_PROPS], map[E(1) := Edge(1, 2), E(2) := Edge(1, 3)])

  const TWO_SCANNED := Scan(true, true, [[Tuple(E(1), V(1), V(2), true), Tuple(E(2), V(1), V(3), true)]])

  /** `MATCH (n)-[e]->() DETACH DELETE n CREATE (n)-[:e]->(:v)`, for its first row. */
  function DeleteThenCreate(scan: Scan, S: nat): seq<Step> {
    [DeleteStep(true, [VertexDatum(V(1), NO_PROPS)], [scan], S + FIRST_CLAUSE),
     CreateStep([PATH], [VertexDatum(V(1), NO_PROPS)], S + SECOND_CLAUSE)]
  }

  function TwoEdgesGone(S: nat): Store {
    Store(TWO_EDGES, [DeleteEdge(E(1)), DeleteEdge(E(2)), DeleteVertex(V(1))], [S, S + 1, S + 2],
          Graph(map[V(2) := NO_PROPS, V(3) := NO_PROPS], map[]), map[3 := 3, 4 := 2], 3, S + 3)
  }

  lemma TwoEdgesDeleted(S: nat)
    ensures DeleteAll([VertexDatum(V(1), NO_PROPS)], [TWO_SCANNED], true, Start(TWO_EDGES, 3, 2, S)) == Ok(TwoEdgesGone(S))
  {
    var s0 := Start(TWO_EDGES, 3, 2, S);
    var t, u := TWO_SCANNED.tables[0][0], TWO_SCANNED.tables[0][1];
    var s1 := DropEdge(s0, E(1), true);
    var s2 := DropEdge(s1, E(2), true);
    assert [t, u][1..] == [u] && [u][1..] == [] && TWO_SCANNED.tables[1..] == [];
    assert ScanTable([u], V(1), true, s1) == Ok(s2);
    assert ScanTable([t, u], V(1), true, s0) == Ok(s2);
    assert FindConnectedEdges(TWO_SCANNED.tables, V(1), true, s0) == Ok(s2);
    assert s2.writes == [DeleteEdge(E(1)), DeleteEdge(E(2))] && s2.stamps == [S, S + 1];
    var s3 := DropVertex(s2, V(1), true);
    assert s3.writes == [DeleteEdge(E(1)), DeleteEdge(E(2)), DeleteVertex(V(1))] && s3.stamps == [S, S + 1, S + 2];
    assert s3.g.edges == map[];
    assert s3.g.vertices == map[V(2) := NO_PROPS, V(3) := NO_PROPS];
    assert s3 == TwoEdgesGone(S);
  }

  lemma TwoEdgesRead(S: nat)
    ensures AllReadAt([VertexDatum(V(1), NO_PROPS)], [TWO_SCANNED], true, Start(TWO_EDGES, 3, 2, S), S + FIRST_CLAUSE)
  {
    var s0 := Start(TWO_EDGES, 3, 2, S);
    var t, u := TWO_SCANNED.tables[0][0], TWO_SCANNED.tables[0][1];
    var s1 := DropEdge(s0, E(1), true);
    var s2 := DropEdge(s1, E(2), true);
    assert [t, u][1..] == [u] && [u][1..] == [] && TWO_SCANNED.tables[1..] == [];
    assert Concat(TWO_SCANNED.tables) == [t, u] + Concat([]) == [t, u];
    assert s0.SeenAt(S + 1) == TWO_EDGES && s0.SeenAt(S + 2) == TWO_EDGES;
    assert EdgeLocks(s0, E(1), S + 2) && EdgeLocks(s1, E(2), S + 2);
    assert LocksRead([], V(1), true, s2, S + 2);
    assert LocksRead([u], V(1), true, s1, S + 2);
    assert LocksRead([t, u], V(1), true, s0, S + 2);
    assert ScanTable([u], V(1), true, s1) == Ok(s2);
    assert ScanTable([t, u], V(1), true, s0) == Ok(s2);
    assert FindConnectedEdges(TWO_SCANNED.tables, V(1), true, s0) == Ok(s2);
    assert VertexLocks(s2, V(1), S + 1);
    assert ListsEdges([t, u], TWO_EDGES) by {
      assert [t, u][0].id == E(1) && [t, u][1].id == E(2);
    }
    assert [VertexDatum(V(1), NO_PROPS)][1..] == [] && [TWO_SCANNED][1..] == [];
  }

  /** The run could have happened: the graph was whole, the clauses are planned, the scans are those of their command ids. */
  ghost predicate Possible(steps: seq<Step>, store: Store) {
    && (forall k | 0 <= k < |steps| :: WellPlanned(steps[k])) && Initial(store) && SeesAll(steps, store)
  }

  ghost predicate Dangles(steps: seq<Step>, store: Store)
    requires forall k | 0 <= k < |steps| :: WellPlanned(steps[k])
  {
    RunAll(steps, store).Ok? && !NoDangling(RunAll(steps, store).value.g)
  }

  lemma OneStep(step: Step, rest: seq<Step>, store: Store, next: Store)
    requires WellPlanned(step) && Sees(step, store) && Act(step, store) == Ok(next)
    requires forall k | 0 <= k < |rest| :: WellPlanned(rest[k])
    ensures forall k | 0 <= k < |[step] + rest| :: WellPlanned(([step] + rest)[k])
    ensures SeesAll([step] + rest, store) <==> SeesAll(rest, next)
    ensures RunAll([step] + rest, store) == RunAll(rest, next)
  {
    hide WellPlanned, Sees, Act;
    assert ([step] + rest)[0] == step && ([step] + rest)[1..] == rest;
  }

  lemma ThreeSteps(a: Step, b: Step, c: Step, rest: seq<Step>, s0: Store, s1: Store, s2: Store, s3: Store)
    requires WellPlanned(a) && Sees(a, s0) && Act(a, s0) == Ok(s1) && WellPlanned(b) && Sees(b, s1) && Act(b, s1) == Ok(s2)
    requires WellPlanned(c) && Sees(c, s2) && Act(c, s2) == Ok(s3) && forall k | 0 <= k < |rest| :: WellPlanned(rest[k])
    ensures var steps := [a] + ([b] + ([c] + rest));
            && (forall k | 0 <= k < |steps| :: WellPlanned(steps[k]))
            && (SeesAll(steps, s0) <==> SeesAll(rest, s3)) && RunAll(steps, s0) == RunAll(rest, s3)
  {
    hide WellPlanned, Sees, Act, SeesAll, RunAll;
    OneStep(c, rest, s2, s3);
    OneStep(b, [c] + rest, s1, s2);
    OneStep(a, [b] + ([c] + rest), s0, s1);
  }

  lemma LastStep(step: Step, store: Store)
    requires WellPlanned(step) && Sees(step, store)
    ensures SeesAll([step], store) && RunAll([step], store) == Act(step, store)
  {
    hide WellPlanned, Sees, Act;
    assert [step][1..] == [];
  }

  lemma StartIsInitial(g: Graph, vertices: nat, edges: nat, S: nat)
    requires NoDangling(g) && (forall v | v in g.vertices :: v.labelId == 3 && v.entry <= vertices)
    requires forall e | e in g.edges :: e.labelId == 4 && e.entry <= edges
    ensures Initial(Start(g, vertices, edges, S))
  {}

  lemma DeleteIs(d: Datum, scan: Scan, cid: nat, store: Store, done: Store)
    requires AllReadAt([d], [scan], true, store, cid) && DeleteAll([d], [scan], true, store) == Ok(done)
    ensures var step := DeleteStep(true, [d], [scan], cid); WellPlanned(step) && Sees(step, store) && Act(step, store) == Ok(done)
  {}

  lemma TwoEdgesStillShown(S: nat)
    ensures V(1) in FoundAt(TwoEdgesGone(S), S + 2)
  {
    var done := TwoEdgesGone(S);
    assert done.stamps[..2] == [S, S + 1];
    assert Before(done.stamps, S + 2) == 2;
    assert done.writes[..0] == [];
    PastNext(TWO_EDGES, done.writes, 0);
    PastNext(TWO_EDGES, done.writes, 1);
  }

  /** With two edges at n CREATE still finds n after its deletion, the third of the query: n gets an edge, which dangles. */
  lemma TwoEdgesDangle(S: nat)
    ensures var store := Start(TWO_EDGES, 3, 2, S);
            Possible(DeleteThenCreate(TWO_SCANNED, S), store) && Dangles(DeleteThenCreate(TWO_SCANNED, S), store)
  {
    hide WellPlanned, Sees, Act, AllReadAt, DeleteAll, SeesAll, RunAll, FoundAt, Initial;
    var store, done := Start(TWO_EDGES, 3, 2, S), TwoEdgesGone(S);
    var steps := DeleteThenCreate(TWO_SCANNED, S);
    TwoEdgesDeleted(S);
    TwoEdgesRead(S);
    DeleteIs(VertexDatum(V(1), NO_PROPS), TWO_SCANNED, S + FIRST_CLAUSE, store, done);
    PathIsPlanned(S + SECOND_CLAUSE);
    StartIsInitial(TWO_EDGES, 3, 2, S);
    CreateIsSeen([PATH], [VertexDatum(V(1), NO_PROPS)], S + SECOND_CLAUSE, done);
    OneStep(steps[0], [steps[1]], store, done);
    LastStep(steps[1], done);
    assert steps == [steps[0]] + [steps[1]];
    TwoEdgesStillShown(S);
    PathMakes(done, S + SECOND_CLAUSE, 4, 3);
    var g := RunAll(steps, store).value.g;
    assert E(3) in g.edges && g.edges[E(3)].start == V(1) && V(1) !in g.vertices;
  }

  lemma CreateIsSeen(pattern: seq<CreatePath>, row: seq<Datum>, cid: nat, store: Store)
    requires WellPlanned(CreateStep(pattern, row, cid))
    ensures Sees(CreateStep(pattern, row, cid), store)
  {}

  const ONE_EDGE := Graph(map[V(1) := NO_PROPS, V(2) := NO_PROPS], map[E(1) := Edge(1, 2)])

  const ONE_SCANNED := Scan(true, true, [[Tuple(E(1), V(1), V(2), true)]])

  function OneEdgeGone(S: nat): Store {
    Store(ONE_EDGE, [DeleteEdge(E(1)), DeleteVertex(V(1))], [S, S + 1], Graph(map[V(2) := NO_PROPS], map[]), map[3 := 2, 4 := 1], 2, S + 2)
  }

  lemma OneEdgeDeleted(S: nat)
    ensures DeleteAll([VertexDatum(V(1), NO_PROPS)], [ONE_SCANNED], true, Start(ONE_EDGE, 2, 1, S)) == Ok(OneEdgeGone(S))
  {
    var s0, done, t := Start(ONE_EDGE, 2, 1, S), OneEdgeGone(S), ONE_SCANNED.tables[0][0];
    var s1 := DropEdge(s0, E(1), true);
    assert [t][1..] == [] && ONE_SCANNED.tables[1..] == [];
    assert ScanTable([t], V(1), true, s0) == Ok(s1);
    assert FindConnectedEdges(ONE_SCANNED.tables, V(1), true, s0) == Ok(s1);
    assert DropVertex(s1, V(1), true).writes == [DeleteEdge(E(1)), DeleteVertex(V(1))] && DropVertex(s1, V(1), true).stamps == [S, S + 1];
    assert DropVertex(s1, V(1), true).g == done.g;
    assert [VertexDatum(V(1), NO_PROPS)][1..] == [] && [ONE_SCANNED][1..] == [];
  }

  lemma OneEdgeRead(S: nat)
    ensures AllReadAt([VertexDatum(V(1), NO_PROPS)], [ONE_SCANNED], true, Start(ONE_EDGE, 2, 1, S), S + FIRST_CLAUSE)
  {
    var s0, t := Start(ONE_EDGE, 2, 1, S), ONE_SCANNED.tables[0][0];
    var s1 := DropEdge(s0, E(1), true);
    assert [t][1..] == [] && ONE_SCANNED.tables[1..] == [];
    assert Concat(ONE_SCANNED.tables) == [t] + Concat([]) == [t];
    assert s0.SeenAt(S + 1) == ONE_EDGE && s0.SeenAt(S + 2) == ONE_EDGE;
    assert EdgeLocks(s0, E(1), S + 2);
    assert LocksRead([], V(1), true, s1, S + 2);
    assert LocksRead([t], V(1), true, s0, S + 2);
    assert ScanTable([t], V(1), true, s0) == Ok(s1);
    assert FindConnectedEdges(ONE_SCANNED.tables, V(1), true, s0) == Ok(s1);
    assert VertexLocks(s1, V(1), S + 1);
    assert ListsEdges([t], ONE_EDGE) by { assert [t][0].id == E(1); }
    assert [VertexDatum(V(1), NO_PROPS)][1..] == [] && [ONE_SCANNED][1..] == [];
  }

  lemma OneEdgeNotShown(S: nat)
    ensures V(1) !in FoundAt(OneEdgeGone(S), S + SECOND_CLAUSE)
  {
    var done := OneEdgeGone(S);
    assert done.writes[..0] == [];
    PastNext(ONE_EDGE, done.writes, 0);
    PastNext(ONE_EDGE, done.writes, 1);
    assert Before(done.stamps, S + 2) == 2;
  }

  /** With one edge at n the deletion of n is the second, and CREATE is refused. */
  lemma OneEdgeIsRefused(S: nat)
    ensures var store := Start(ONE_EDGE, 2, 1, S);
            Possible(DeleteThenCreate(ONE_SCANNED, S), store) && RunAll(DeleteThenCreate(ONE_SCANNED, S), store) == Err(VertexWasDeleted)
  {
    hide WellPlanned, Sees, Act, AllReadAt, DeleteAll, SeesAll, RunAll, FoundAt, Initial;
    var store, done := Start(ONE_EDGE, 2, 1, S), OneEdgeGone(S);
    var steps := DeleteThenCreate(ONE_SCANNED, S);
    OneEdgeDeleted(S);
    OneEdgeRead(S);
    OneEdgeNotShown(S);
    DeleteIs(VertexDatum(V(1), NO_PROPS), ONE_SCANNED, S + FIRST_CLAUSE, store, done);
    PathIsPlanned(S + SECOND_CLAUSE);
    StartIsInitial(ONE_EDGE, 2, 1, S);
    CreateIsSeen([PATH], [VertexDatum(V(1), NO_PROPS)], S + SECOND_CLAUSE, done);
    OneStep(steps[0], [steps[1]], store, done);
    LastStep(steps[1], done);
    assert steps == [steps[0]] + [steps[1]];
    PathMakes(done, S + SECOND_CLAUSE, 3, 2);
  }

  // ---------------------------------------------------------------- DETACH DELETE above CREATE

  const LONE := Graph(map[V(1) := NO_PROPS], map[])

  const NEW_SCANNED := Scan(true, true, [[Tuple(E(1), V(1), V(2), false)]])

  /** `MATCH (v) CREATE (v)-[:e]->(:v) DETACH DELETE v`, for the only row. */
  function CreateThenDelete(S: nat): seq<Step> {
    [CreateStep([PATH], [VertexDatum(V(1), NO_PROPS)], S + FIRST_CLAUSE),
     DeleteStep(true, [VertexDatum(V(1), NO_PROPS)], [NEW_SCANNED], S + SECOND_CLAUSE)]
  }

  /** The new edge is shown, but cannot be locked; the vertex can. */
  lemma NewEdgeRead(st: Store, S: nat)
    requires st.start == LONE && st.writes == [InsertVertex(V(2), NO_PROPS), InsertEdge(E(1), Edge(1, 2))] && st.stamps == [S, S]
    requires st.finished == 0 && st.command == S && st.g == Graph(map[V(1) := NO_PROPS, V(2) := NO_PROPS], map[E(1) := Edge(1, 2)])
    ensures AllReadAt([VertexDatum(V(1), NO_PROPS)], [NEW_SCANNED], true, st, S + SECOND_CLAUSE)
    ensures DeleteAll([VertexDatum(V(1), NO_PROPS)], [NEW_SCANNED], true, st) == Ok(st.Do(DeleteVertex(V(1))).EndCommand())
  {
    var t := NEW_SCANNED.tables[0][0];
    assert [t][1..] == [] && NEW_SCANNED.tables[1..] == [];
    assert Concat(NEW_SCANNED.tables) == [t] + Concat([]) == [t];
    assert Before(st.stamps, S + 2) == 2 && Before(st.stamps, S + 3) == 2;
    assert st.writes[..0] == [];
    PastNext(LONE, st.writes, 0);
    PastNext(LONE, st.writes, 1);
    assert st.SeenAt(S + 2) == st.g && st.SeenAt(S + 3) == st.g;
    assert Hits(st.writes[1], false, E(1));
    assert !EdgeLocks(st, E(1), S + 3);
    assert LocksRead([], V(1), true, st, S + 3);
    assert LocksRead([t], V(1), true, st, S + 3);
    assert ScanTable([t], V(1), true, st) == Ok(st);
    assert FindConnectedEdges(NEW_SCANNED.tables, V(1), true, st) == Ok(st);
    assert VertexLocks(st, V(1), S + 2);
    assert ListsEdges([t], st.g) by { assert [t][0].id == E(1); }
    assert [VertexDatum(V(1), NO_PROPS)][1..] == [] && [NEW_SCANNED][1..] == [];
  }

  lemma NewEdgeDangles(S: nat)
    ensures var store := Start(LONE, 1, 0, S); Possible(CreateThenDelete(S), store) && Dangles(CreateThenDelete(S), store)
  {
    hide WellPlanned, Sees, Act, AllReadAt, DeleteAll, SeesAll, RunAll, FoundAt, Initial;
    var store, steps := Start(LONE, 1, 0, S), CreateThenDelete(S);
    PathIsPlanned(S + FIRST_CLAUSE);
    CreateIsSeen([PATH], [VertexDatum(V(1), NO_PROPS)], S + FIRST_CLAUSE, store);
    StartIsInitial(LONE, 1, 0, S);
    NothingWritten(LONE, 1, 0, S, S + FIRST_CLAUSE);
    PathMakes(store, S + FIRST_CLAUSE, 2, 1);
    var made := Act(steps[0], store).value;
    assert made.g == Graph(map[V(1) := NO_PROPS, V(2) := NO_PROPS], map[E(1) := Edge(1, 2)]);
    assert [] + [InsertVertex(V(2), NO_PROPS), InsertEdge(E(1), Edge(1, 2))] == [InsertVertex(V(2), NO_PROPS), InsertEdge(E(1), Edge(1, 2))];
    NewEdgeRead(made, S);
    var done := made.Do(DeleteVertex(V(1))).EndCommand();
    DeleteIs(VertexDatum(V(1), NO_PROPS), NEW_SCANNED, S + SECOND_CLAUSE, made, done);
    OneStep(steps[0], [steps[1]], store, made);
    LastStep(steps[1], made);
    assert steps == [steps[0]] + [steps[1]];
    assert E(1) in done.g.edges && done.g.edges[E(1)].start == V(1) && V(1) !in done.g.vertices;
  }

  lemma NothingWritten(g: Graph, vertices: nat, edges: nat, S: nat, cid: nat)
    ensures FoundAt(Start(g, vertices, edges, S), cid) == g.vertices.Keys
  {}

  // ---------------------------------------------------------------- DETACH DELETE above SET

  const NEW_PROPS: Props := map["x" := Num(1)]

  const TWO_PAIRS := Graph(map[V(1) := NO_PROPS, V(2) := NO_PROPS, V(3) := NO_PROPS, V(4) := NO_PROPS],
                           map[E(1) := Edge(1, 2), E(2) := Edge(3, 4)])

  /** `SET e.x = 1`. */
  const SET_X := [SetItem(2, 3, "x", false)]

  function PairRow(k: nat, i: nat, j: nat): seq<Datum> {
    [VertexDatum(V(i), NO_PROPS), EdgeDatum(E(k), Edge(i, j)), ValueDatum(Num(1))]
  }

  function EdgeSet(k: nat, i: nat, j: nat): Write {
    UpdateEdge(E(k), PropertyGraph.Edge(V(i), V(j), NEW_PROPS))
  }

  lemma SetOne(store: Store, k: nat, i: nat, j: nat, cid: nat)
    requires E(k) in store.SeenByCommand().edges && !store.WrittenNow(false, E(k))
    ensures var step := SetStep(SET_X, PairRow(k, i, j), cid); WellPlanned(step) && Act(step, store) == Ok(store.Do(EdgeSet(k, i, j)))
  {
    var row := PairRow(k, i, j);
    assert ItemFits(SET_X[0], row) && ItemsFit(SET_X, row);
    assert LastIndex(SET_X, 2) == 0;
    assert Alter(NO_PROPS, SET_X[0], row) == NEW_PROPS;
    assert SetClause.After(SET_X, 0, row, store, cid) == Ok(Progress(0, row, store));
    var e := EdgeDatum(E(k), PropertyGraph.Edge(V(i), V(j), NEW_PROPS));
    assert WithProps(row[1], NEW_PROPS) == e;
    assert Rewrite(store, e, cid) == Ok(store.Do(EdgeSet(k, i, j)));
    assert SetClause.After(SET_X, 1, row, store, cid) == OneItem(SET_X, 0, Progress(0, row, store), cid);
  }

  const FIRST_PAIR := Scan(true, true, [[Tuple(E(1), V(1), V(2), true), Tuple(E(2), V(3), V(4), true)]])

  /** The edge scan shows the old version of the second edge, which cannot be locked. */
  const SECOND_PAIR := Scan(true, true, [[Tuple(E(2), V(3), V(4), false)]])

  /** `MATCH (v)-[e]->() SET e.x = 1 DETACH DELETE v`, for both rows. */
  function SetThenDelete(S: nat): seq<Step> {
    [SetStep(SET_X, PairRow(1, 1, 2), S + FIRST_CLAUSE), EndStep,
     DeleteStep(true, [VertexDatum(V(1), NO_PROPS)], [FIRST_PAIR], S + SECOND_CLAUSE),
     SetStep(SET_X, PairRow(2, 3, 4), S + FIRST_CLAUSE), EndStep,
     DeleteStep(true, [VertexDatum(V(3), NO_PROPS)], [SECOND_PAIR], S + SECOND_CLAUSE)]
  }

  function FirstSet(S: nat): Store {
    Store(TWO_PAIRS, [EdgeSet(1, 1, 2)], [S],
          Graph(TWO_PAIRS.vertices, map[E(1) := PropertyGraph.Edge(V(1), V(2), NEW_PROPS), E(2) := Edge(3, 4)]),
          map[3 := 4, 4 := 2], 1, S + 1)
  }

  function FirstGone(S: nat): Store {
    Store(TWO_PAIRS, [EdgeSet(1, 1, 2), DeleteEdge(E(1)), DeleteVertex(V(1))], [S, S + 1, S + 2],
          Graph(map[V(2) := NO_PROPS, V(3) := NO_PROPS, V(4) := NO_PROPS], map[E(2) := Edge(3, 4)]),
          map[3 := 4, 4 := 2], 3, S + 3)
  }

  function SecondSet(S: nat): Store {
    Store(TWO_PAIRS, [EdgeSet(1, 1, 2), DeleteEdge(E(1)), DeleteVertex(V(1)), EdgeSet(2, 3, 4)], [S, S + 1, S + 2, S + 3],
          Graph(map[V(2) := NO_PROPS, V(3) := NO_PROPS, V(4) := NO_PROPS], map[E(2) := PropertyGraph.Edge(V(3), V(4), NEW_PROPS)]),
          map[3 := 4, 4 := 2], 4, S + 4)
  }

  lemma FirstPairShown(S: nat)
    ensures FirstSet(S).SeenAt(S + 2) == FirstSet(S).g && FirstSet(S).SeenAt(S + 3) == FirstSet(S).g
  {
    var s0 := FirstSet(S);
    assert Before(s0.stamps, S + 2) == 1 && Before(s0.stamps, S + 3) == 1;
    assert s0.writes[..0] == [];
    PastNext(TWO_PAIRS, s0.writes, 0);
  }

  lemma FirstPairDeleted(S: nat)
    ensures DeleteAll([VertexDatum(V(1), NO_PROPS)], [FIRST_PAIR], true, FirstSet(S)) == Ok(FirstGone(S))
  {
    var s0 := FirstSet(S);
    var t, u := FIRST_PAIR.tables[0][0], FIRST_PAIR.tables[0][1];
    var s1 := DropEdge(s0, E(1), true);
    assert [t, u][1..] == [u] && [u][1..] == [] && FIRST_PAIR.tables[1..] == [];
    assert ScanTable([u], V(1), true, s1) == Ok(s1);
    assert ScanTable([t, u], V(1), true, s0) == Ok(s1);
    assert FindConnectedEdges(FIRST_PAIR.tables, V(1), true, s0) == Ok(s1);
    assert s1.writes == [EdgeSet(1, 1, 2), DeleteEdge(E(1))] && s1.stamps == [S, S + 1];
    var s2 := DropVertex(s1, V(1), true);
    assert s2.writes == FirstGone(S).writes && s2.stamps == FirstGone(S).stamps && s2.g == FirstGone(S).g;
    assert [VertexDatum(V(1), NO_PROPS)][1..] == [] && [FIRST_PAIR][1..] == [];
  }

  lemma FirstPairRead(S: nat)
    ensures AllReadAt([VertexDatum(V(1), NO_PROPS)], [FIRST_PAIR], true, FirstSet(S), S + SECOND_CLAUSE)
  {
    var s0 := FirstSet(S);
    var t, u := FIRST_PAIR.tables[0][0], FIRST_PAIR.tables[0][1];
    var s1 := DropEdge(s0, E(1), true);
    FirstPairShown(S);
    hide Store.SeenAt, Past, Replay;
    assert [t, u][1..] == [u] && [u][1..] == [] && FIRST_PAIR.tables[1..] == [];
    assert Concat(FIRST_PAIR.tables) == [t, u] + Concat([]) == [t, u];
    assert EdgeLocks(s0, E(1), S + 3);
    assert LocksRead([], V(1), true, s1, S + 3);
    assert LocksRead([u], V(1), true, s1, S + 3);
    assert LocksRead([t, u], V(1), true, s0, S + 3);
    assert ScanTable([u], V(1), true, s1) == Ok(s1);
    assert ScanTable([t, u], V(1), true, s0) == Ok(s1);
    assert FindConnectedEdges(FIRST_PAIR.tables, V(1), true, s0) == Ok(s1);
    assert s1.writes == [EdgeSet(1, 1, 2), DeleteEdge(E(1))] && s1.stamps == [S, S + 1];
    assert VertexLocks(s1, V(1), S + 2);
    assert ListsEdges([t, u], s0.g) by { assert [t, u][0].id == E(1) && [t, u][1].id == E(2); }
    assert [VertexDatum(V(1), NO_PROPS)][1..] == [] && [FIRST_PAIR][1..] == [];
  }

  lemma SecondPairShown(S: nat)
    ensures SecondSet(S).SeenAt(S + 3).edges == map[E(2) := Edge(3, 4)] && V(3) in SecondSet(S).SeenAt(S + 2).vertices
  {
    var st := SecondSet(S);
    assert st.stamps[0] == S && st.stamps[1] == S + 1 && st.stamps[2] == S + 2 && st.stamps[3] == S + 3;
    assert Before(st.stamps, S + 3) == 3;
    assert Before(st.stamps, S + 2) == 2;
    assert st.writes[..0] == [];
    PastNext(TWO_PAIRS, st.writes, 0);
    PastNext(TWO_PAIRS, st.writes, 1);
    PastNext(TWO_PAIRS, st.writes, 2);
  }

  lemma SecondPairLocks(S: nat)
    ensures !EdgeLocks(SecondSet(S), E(2), S + 3) && VertexLocks(SecondSet(S), V(3), S + 2)
  {
    var st := SecondSet(S);
    assert st.stamps[3] == S + 3 && Hits(st.writes[3], false, E(2));
  }

  lemma SecondPairScanned(S: nat)
    ensures Concat(SECOND_PAIR.tables) == SECOND_PAIR.tables[0]
    ensures FindConnectedEdges(SECOND_PAIR.tables, V(3), true, SecondSet(S)) == Ok(SecondSet(S))
  {
    var st, t := SecondSet(S), SECOND_PAIR.tables[0][0];
    assert [t][1..] == [] && SECOND_PAIR.tables[1..] == [];
    assert Concat(SECOND_PAIR.tables) == [t] + Concat([]) == [t];
    assert ScanTable([t], V(3), true, st) == Ok(st);
  }

  lemma SecondPairDeleted(S: nat)
    ensures DeleteAll([VertexDatum(V(3), NO_PROPS)], [SECOND_PAIR], true, SecondSet(S)) == Ok(SecondSet(S).Do(DeleteVertex(V(3))).EndCommand())
    ensures AllReadAt([VertexDatum(V(3), NO_PROPS)], [SECOND_PAIR], true, SecondSet(S), S + SECOND_CLAUSE)
  {
    var st, t := SecondSet(S), SECOND_PAIR.tables[0][0];
    SecondPairShown(S);
    SecondPairLocks(S);
    SecondPairScanned(S);
    hide Store.SeenAt, Past, Replay, EdgeLocks, VertexLocks, Concat, FindConnectedEdges;
    assert [t][1..] == [] && SECOND_PAIR.tables[0] == [t];
    assert LocksRead([], V(3), true, st, S + 3);
    assert LocksRead([t], V(3), true, st, S + 3);
    assert ListsEdges([t], st.SeenAt(S + 3)) by { assert [t][0].id == E(2); }
    assert [VertexDatum(V(3), NO_PROPS)][1..] == [] && [SECOND_PAIR][1..] == [];
  }

  lemma SetIsSeen(store: Store, k: nat, i: nat, j: nat, n: nat, cid: nat)
    requires WellPlanned(SetStep(SET_X, PairRow(k, i, j), cid)) && n <= |store.writes|
    requires var g := Past(store.start, store.writes, n);
             E(k) in g.edges && g.edges[E(k)].start == V(i) && g.edges[E(k)].end == V(j)
    ensures Sees(SetStep(SET_X, PairRow(k, i, j), cid), store)
  {
    assert WasEdge(store, E(k), Edge(i, j));
  }

  lemma FirstPairSet(S: nat)
    ensures var store, step := Start(TWO_PAIRS, 4, 2, S), SetStep(SET_X, PairRow(1, 1, 2), S + FIRST_CLAUSE);
            && WellPlanned(step) && Sees(step, store) && Act(step, store).Ok? && Act(step, store).value.EndCommand() == FirstSet(S)
  {
    var store := Start(TWO_PAIRS, 4, 2, S);
    assert store.writes[..0] == [];
    SetOne(store, 1, 1, 2, S + FIRST_CLAUSE);
    SetIsSeen(store, 1, 1, 2, 0, S + FIRST_CLAUSE);
    var made := store.Do(EdgeSet(1, 1, 2)).EndCommand();
    assert made.writes == FirstSet(S).writes && made.stamps == FirstSet(S).stamps && made.g == FirstSet(S).g;
  }

  lemma FirstGoneShown(S: nat)
    ensures FirstGone(S).SeenByCommand() == FirstGone(S).g && Past(FirstGone(S).start, FirstGone(S).writes, 0) == TWO_PAIRS
  {
    var store := FirstGone(S);
    assert store.writes[..0] == [];
    PastNext(TWO_PAIRS, store.writes, 0);
    PastNext(TWO_PAIRS, store.writes, 1);
    PastNext(TWO_PAIRS, store.writes, 2);
  }

  lemma SecondPairSet(S: nat)
    ensures var store, step := FirstGone(S), SetStep(SET_X, PairRow(2, 3, 4), S + FIRST_CLAUSE);
            && WellPlanned(step) && Sees(step, store) && Act(step, store).Ok? && Act(step, store).value.EndCommand() == SecondSet(S)
  {
    var store := FirstGone(S);
    FirstGoneShown(S);
    hide Past, Replay;
    SetOne(store, 2, 3, 4, S + FIRST_CLAUSE);
    SetIsSeen(store, 2, 3, 4, 0, S + FIRST_CLAUSE);
    var made := store.Do(EdgeSet(2, 3, 4)).EndCommand();
    assert made.writes == SecondSet(S).writes && made.stamps == SecondSet(S).stamps && made.g == SecondSet(S).g;
  }

  lemma EndIs(store: Store)
    ensures WellPlanned(EndStep) && Sees(EndStep, store) && Act(EndStep, store) == Ok(store.EndCommand())
  {}

  lemma SecondRowDangles(S: nat)
    ensures var steps, done := SetThenDelete(S)[3..], SecondSet(S).Do(DeleteVertex(V(3))).EndCommand();
            && (forall k | 0 <= k < |steps| :: WellPlanned(steps[k]))
            && SeesAll(steps, FirstGone(S)) && RunAll(steps, FirstGone(S)) == Ok(done)
  {
    hide WellPlanned, Sees, Act, AllReadAt, DeleteAll, SeesAll, RunAll;
    var steps := SetThenDelete(S);
    SecondPairSet(S);
    SecondPairDeleted(S);
    var s3 := Act(steps[3], FirstGone(S)).value;
    var done := SecondSet(S).Do(DeleteVertex(V(3))).EndCommand();
    EndIs(s3);
    DeleteIs(VertexDatum(V(3), NO_PROPS), SECOND_PAIR, S + SECOND_CLAUSE, SecondSet(S), done);
    LastStep(steps[5], SecondSet(S));
    OneStep(steps[4], [steps[5]], s3, SecondSet(S));
    OneStep(steps[3], [steps[4]] + [steps[5]], FirstGone(S), s3);
    assert steps[3..] == [steps[3]] + ([steps[4]] + [steps[5]]);
  }

  /** The second SET is the query's fourth command; DETACH DELETE shows only the edge's old version, and leaves the new one. */
  lemma SetEdgeDangles(S: nat)
    ensures var store := Start(TWO_PAIRS, 4, 2, S); Possible(SetThenDelete(S), store) && Dangles(SetThenDelete(S), store)
  {
    hide WellPlanned, Sees, Act, AllReadAt, DeleteAll, SeesAll, RunAll, Initial;
    var s0, steps := Start(TWO_PAIRS, 4, 2, S), SetThenDelete(S);
    StartIsInitial(TWO_PAIRS, 4, 2, S);
    FirstPairSet(S);
    FirstPairRead(S);
    FirstPairDeleted(S);
    SecondRowDangles(S);
    var s1 := Act(steps[0], s0).value;
    EndIs(s1);
    DeleteIs(VertexDatum(V(1), NO_PROPS), FIRST_PAIR, S + SECOND_CLAUSE, FirstSet(S), FirstGone(S));
    ThreeSteps(steps[0], steps[1], steps[2], steps[3..], s0, s1, FirstSet(S), FirstGone(S));
    assert steps == [steps[0]] + ([steps[1]] + ([steps[2]] + steps[3..]));
    var done := SecondSet(S).Do(DeleteVertex(V(3))).EndCommand();
    assert E(2) in done.g.edges && done.g.edges[E(2)].start == V(3) && V(3) !in done.g.vertices;
  }
}
