/**
 * MERGE behind another clause. A lateral left join gives each row of that clause the rows of the query
 * compiled from the pattern, or nulls if there is none, and MERGE creates the path for the rows with nulls.
 * So it creates exactly for the rows whose pattern has no embedding, and then there is one.
 */
module MergeBehind {
  import opened Results
  import opened PropertyGraph
  import opened MatchPattern
  import opened MatchQuals
  import opened MatchLinks
  import opened MatchCorrect
  import opened MatchTheorems
  import opened MergeFinds
  import GraphStore
  import PW = PathWriter
  import PathWritten
  import CreateClause
  import MergeClause

  /** What the row of the earlier clause holds of its variables. */
  type Outer = map<Name, PW.Datum>

  /** A MERGE path may mention vertices of the earlier clause; the label of such a mention is not looked at. */
  ghost predicate Behind(p: Path, outer: Outer) {
    && Mergeable(p)
    && (forall n | n in outer :: n.User?)
    && forall k | 0 <= k < |p.elems| && p.elems[k].Name().Some? && p.elems[k].Name().value in outer ::
         p.elems[k].Node? && p.elems[k].node.ofLabel.AnyLabel?
  }

  /** The variable of an element once MERGE has named them all. */
  function NameAt(p: Path, k: nat): (n: Name)
    requires k < |p.elems|
    ensures Named(p).elems[k].Name() == Some(n)
  {
    NameFromKeeps(p.elems, 0, k);
    Named(p).elems[k].Name().value
  }

  /** The plan: a target for each element, in the attribute of its variable; vertices of the earlier clause are not inserted. */
  ghost predicate IsPlanBehind(nodes: seq<PW.Target>, p: Path, outer: Outer, pos: map<Name, nat>) {
    && |nodes| == |p.elems|
    && forall k | 0 <= k < |nodes| ::
         && nodes[k].VertexTarget? == p.elems[k].Node?
         && NameAt(p, k) in pos && nodes[k].pos == pos[NameAt(p, k)]
         && (nodes[k].VertexTarget? ==> nodes[k].insert == (NameAt(p, k) !in outer) && !nodes[k].sameClause)
  }

  /** The query compiled from the pattern, every element scanned. */
  ghost predicate AllScanned(p: Path, ents: seq<Entity>) {
    WellFormed(Named(p)) && Compiled(Named(p), ents) && Alternates(ents) && forall e | e in ents :: e.InTree()
  }

  /** A row of that query for the given row of the earlier clause: shared variables are the same vertices. */
  ghost predicate JoinsWith(ents: seq<Entity>, w: World, outer: Outer, found: Row)
    requires Alternates(ents)
  {
    Satisfies(ents, w, found)
    && forall n | n in outer && n in found :: outer[n].VertexDatum? && found[n] == V(outer[n].id)
  }

  function DatumOf(b: Binding, g: Graph): PW.Datum {
    match b
    case V(id) => if id in g.vertices then PW.VertexDatum(id, g.vertices[id]) else PW.NullDatum
    case E(id) => if id in g.edges then PW.EdgeDatum(id, g.edges[id]) else PW.NullDatum
    case P(_) => PW.NullDatum
  }

  /** What the join puts into the attribute of each variable of the pattern; shared ones come from the left. */
  ghost predicate Shows(row: seq<PW.Datum>, p: Path, outer: Outer, pos: map<Name, nat>, found: Option<Row>, g: Graph) {
    forall k | 0 <= k < |p.elems| ::
      var n := NameAt(p, k);
      && n in pos && 0 < pos[n] <= |row|
      && row[pos[n] - 1] ==
           if n in outer then outer[n]
           else if found.Some? && n in found.value then DatumOf(found.value[n], g) else PW.NullDatum
  }

  /** The left join keeps a row of the earlier clause that joins with nothing, with nulls. */
  ghost predicate LeftJoined(row: seq<PW.Datum>, p: Path, ents: seq<Entity>, outer: Outer, pos: map<Name, nat>, w: World)
    requires Alternates(ents)
  {
    if exists found :: JoinsWith(ents, w, outer, found) then
      exists found :: JoinsWith(ents, w, outer, found) && Shows(row, p, outer, pos, Some(found), w.g)
    else Shows(row, p, outer, pos, None, w.g)
  }

  /** The embedding has the vertices that the row of the earlier clause holds. */
  ghost predicate Fixes(p: Path, outer: Outer, emb: seq<Binding>) {
    && |emb| == |p.elems|
    && forall k | 0 <= k < |emb| && NameAt(p, k) in outer ::
         outer[NameAt(p, k)].VertexDatum? && emb[k] == V(outer[NameAt(p, k)].id)
  }

  /** The graph has the pattern, with the earlier clause's vertices in their places. */
  ghost predicate HasPattern(p: Path, outer: Outer, w: World) {
    WellFormed(Named(p)) && exists emb :: IsEmbedding(Named(p), w, emb) && Fixes(p, outer, emb)
  }

  /** With every element scanned, the names of the row are those of the pattern. */
  lemma NamesOfRow(p: Path, ents: seq<Entity>, k: nat)
    requires AllScanned(p, ents) && k < |p.elems|
    ensures |ents| == |p.elems| && ents[k].Name() == Some(NameAt(p, k)) && NameAt(p, k) in TreeNames(ents)
  {
    assert ents[k] in ents;
  }

  lemma EmbeddingJoins(p: Path, ents: seq<Entity>, outer: Outer, w: World, emb: seq<Binding>) returns (found: Row)
    requires Mergeable(p) && AllScanned(p, ents) && VleYieldsTrails(w)
    requires IsEmbedding(Named(p), w, emb) && Fixes(p, outer, emb)
    ensures JoinsWith(ents, w, outer, found)
  {
    var q := Named(p);
    found := Project(q, ents, emb);
    EveryEmbeddingHasItsRow(q, ents, w, emb, found);
    forall n | n in outer && n in found ensures outer[n].VertexDatum? && found[n] == V(outer[n].id) {
      assert n in TreeNames(ents);
      var k :| 0 <= k < |ents| && ents[k].InTree() && ents[k].Name() == Some(n);
      NamesOfRow(p, ents, k);
      assert found[n] == emb[k];
    }
  }

  lemma JoinHasEmbedding(p: Path, ents: seq<Entity>, outer: Outer, w: World, found: Row)
    requires Mergeable(p) && AllScanned(p, ents) && VleYieldsTrails(w) && NoDangling(w.g)
    requires JoinsWith(ents, w, outer, found)
    ensures HasPattern(p, outer, w)
  {
    var q := Named(p);
    assert NoUndirectedMeeting(ents) by { assert forall k | 0 <= k < |ents| :: ents[k] in ents; }
    GuardsSuffice(q, ents, w, found);
    var emb := EveryRowHasAnEmbedding(q, ents, w, found);
    forall k | 0 <= k < |emb| && NameAt(p, k) in outer
      ensures outer[NameAt(p, k)].VertexDatum? && emb[k] == V(outer[NameAt(p, k)].id)
    {
      NamesOfRow(p, ents, k);
      assert ents[k] in ents;
      assert found[NameAt(p, k)] == emb[k];
    }
  }

  /** The compiled query has a row for the earlier clause's row exactly when the graph has the pattern. */
  lemma JoinsExactly(p: Path, ents: seq<Entity>, outer: Outer, w: World)
    requires Mergeable(p) && AllScanned(p, ents) && VleYieldsTrails(w) && NoDangling(w.g)
    ensures (exists found :: JoinsWith(ents, w, outer, found)) <==> HasPattern(p, outer, w)
  {
    NamedIsWellFormed(p);
    hide JoinsWith, Fixes, AllScanned;
    forall found | JoinsWith(ents, w, outer, found) ensures HasPattern(p, outer, w) {
      JoinHasEmbedding(p, ents, outer, w, found);
    }
    if HasPattern(p, outer, w) {
      var emb :| IsEmbedding(Named(p), w, emb) && Fixes(p, outer, emb);
      var found := EmbeddingJoins(p, ents, outer, w, emb);
    }
  }

  /** Some target is inserted: the pattern is more than one vertex of the earlier clause. */
  ghost predicate MayInsert(nodes: seq<PW.Target>) {
    exists k | 0 <= k < |nodes| :: nodes[k].Inserts()
  }

  /** The binding of a variable in a row of the compiled query is an entity of the graph. */
  lemma FoundIsThere(p: Path, ents: seq<Entity>, w: World, found: Row, k: nat)
    requires Mergeable(p) && AllScanned(p, ents) && Satisfies(ents, w, found) && k < |p.elems|
    ensures NameAt(p, k) in found && !DatumOf(found[NameAt(p, k)], w.g).NullDatum?
  {
    NamesOfRow(p, ents, k);
    assert ents[k] in ents && Scanned(ents, k, w, found);
    NameFromKeeps(p.elems, 0, k);
    assert Renames(Named(p).elems[k], ents[k]);
  }

  lemma TargetShown(row: seq<PW.Datum>, nodes: seq<PW.Target>, p: Path, outer: Outer, pos: map<Name, nat>, found: Option<Row>, g: Graph, k: nat)
    requires IsPlanBehind(nodes, p, outer, pos) && Shows(row, p, outer, pos, found, g) && k < |nodes|
    ensures 0 < nodes[k].pos <= |row|
    ensures var n := NameAt(p, k);
            row[nodes[k].pos - 1] == if n in outer then outer[n]
                                     else if found.Some? && n in found.value then DatumOf(found.value[n], g) else PW.NullDatum
  {}

  lemma JoinedHasNoNull(row: seq<PW.Datum>, nodes: seq<PW.Target>, p: Path, ents: seq<Entity>, outer: Outer, pos: map<Name, nat>,
      w: World, found: Row)
    requires Behind(p, outer) && AllScanned(p, ents) && IsPlanBehind(nodes, p, outer, pos)
    requires JoinsWith(ents, w, outer, found) && Shows(row, p, outer, pos, Some(found), w.g)
    ensures forall k | 0 <= k < |nodes| :: 0 < nodes[k].pos <= |row| && !row[nodes[k].pos - 1].NullDatum?
  {
    hide AllScanned, Satisfies, IsPlanBehind, Shows, Behind, NameAt;
    assert |nodes| == |p.elems| && Mergeable(p) by { PlanHasLength(nodes, p, outer, pos); }
    forall k | 0 <= k < |nodes| ensures 0 < nodes[k].pos <= |row| && !row[nodes[k].pos - 1].NullDatum? {
      TargetShown(row, nodes, p, outer, pos, Some(found), w.g, k);
      FoundIsThere(p, ents, w, found, k);
    }
  }

  lemma PlanHasLength(nodes: seq<PW.Target>, p: Path, outer: Outer, pos: map<Name, nat>)
    requires Behind(p, outer) && IsPlanBehind(nodes, p, outer, pos)
    ensures |nodes| == |p.elems| && Mergeable(p)
  {}

  /** The joined row has no null in the path's attributes exactly when the graph has the pattern. */
  lemma NullsTell(row: seq<PW.Datum>, nodes: seq<PW.Target>, p: Path, ents: seq<Entity>, outer: Outer, pos: map<Name, nat>, w: World)
    requires Behind(p, outer) && AllScanned(p, ents) && VleYieldsTrails(w) && NoDangling(w.g)
    requires IsPlanBehind(nodes, p, outer, pos) && MayInsert(nodes) && LeftJoined(row, p, ents, outer, pos, w)
    ensures forall k | 0 <= k < |nodes| :: 0 < nodes[k].pos <= |row|
    ensures HasPattern(p, outer, w) <==> forall k | 0 <= k < |nodes| :: !row[nodes[k].pos - 1].NullDatum?
  {
    PlanHasLength(nodes, p, outer, pos);
    JoinsExactly(p, ents, outer, w);
    hide HasPattern, AllScanned, JoinsWith, IsPlanBehind, Shows, Behind, NameAt;
    if HasPattern(p, outer, w) {
      var found :| JoinsWith(ents, w, outer, found) && Shows(row, p, outer, pos, Some(found), w.g);
      JoinedHasNoNull(row, nodes, p, ents, outer, pos, w, found);
    } else {
      forall k | 0 <= k < |nodes| ensures 0 < nodes[k].pos <= |row| { TargetShown(row, nodes, p, outer, pos, None, w.g, k); }
      var k :| 0 <= k < |nodes| && nodes[k].Inserts();
      NotOuter(nodes, p, outer, pos, k);
      TargetShown(row, nodes, p, outer, pos, None, w.g, k);
    }
  }

  lemma NotOuter(nodes: seq<PW.Target>, p: Path, outer: Outer, pos: map<Name, nat>, k: nat)
    requires Behind(p, outer) && IsPlanBehind(nodes, p, outer, pos) && k < |nodes| && nodes[k].Inserts()
    ensures NameAt(p, k) !in outer
  {
    NameFromKeeps(p.elems, 0, k);
  }

  /** A row of the earlier clause: the pattern with its property expressions evaluated, and the graph the join reads. */
  datatype Case = Case(p: Path, ents: seq<Entity>, outer: Outer, w: World)

  ghost predicate IsCase(c: Case, path: CreateClause.CreatePath, row: seq<PW.Datum>, pos: map<Name, nat>) {
    && Behind(c.p, c.outer) && AllScanned(c.p, c.ents) && VleYieldsTrails(c.w) && NoDangling(c.w.g)
    && IsPlanBehind(path.nodes, c.p, c.outer, pos) && MayInsert(path.nodes) && LeftJoined(row, c.p, c.ents, c.outer, pos, c.w)
    && MergeClause.Placed(path, |row|)
  }

  /**
   * One row: if the graph that the join has read has the pattern, MERGE writes nothing; if not, and the row is
   * accepted, it makes exactly one write for each target that inserts.
   */
  lemma CreatesExactlyWithoutPattern(path: CreateClause.CreatePath, input: PW.Input, c: Case, pos: map<Name, nat>,
      store: GraphStore.Store, values: seq<PW.Datum>, base: nat)
    requires IsCase(c, path, input.row, pos)
    ensures var r := MergeClause.MergeRows(path, [input], store, values, base);
            if HasPattern(c.p, c.outer, c.w) then r == Ok((store, values))
            else PW.Inserted(path.nodes, 0) > 0
                 && (r.Ok? ==> |r.value.0.writes| == |store.writes| + PW.Inserted(path.nodes, 0))
  {
    NullsTell(input.row, path.nodes, c.p, c.ents, c.outer, pos, c.w);
    hide HasPattern, AllScanned, LeftJoined, MergeClause.MergeRows, MergeClause.Placed;
    MergeClause.OneRowCreatesExactly(path, input, store, values, base);
    var k :| 0 <= k < |path.nodes| && path.nodes[k].Inserts();
    SomeInserted(path.nodes, 0, k);
  }

  lemma {:induction false} SomeInserted(nodes: seq<PW.Target>, i: nat, k: nat)
    requires i <= k < |nodes| && nodes[k].Inserts()
    ensures PW.Inserted(nodes, i) > 0
    decreases |nodes| - i
  {
    if i < k { SomeInserted(nodes, i + 1, k); }
  }

  // ---------------------------------------------------------------- what has been created is found

  function PropsOr(props: Option<Props>): Props {
    if props.Some? then props.value else map[]
  }

  /** The rest of the plan: labels, directions and, on this row, properties; and each variable has an attribute of its own. */
  ghost predicate IsFullPlan(nodes: seq<PW.Target>, p: Path, outer: Outer, pos: map<Name, nat>, row: seq<PW.Datum>) {
    && IsPlanBehind(nodes, p, outer, pos)
    && (forall k | 0 <= k < |nodes| ::
          match p.elems[k]
          case Node(n) =>
            if NameAt(p, k) in outer then n.props.None?
            else PW.Describes(nodes[k], row, PropsOr(n.props)) && LabelOk(n.ofLabel, GraphId(nodes[k].labelId, 0))
          case Rel(r) =>
            nodes[k].dir == r.dir && PW.Describes(nodes[k], row, PropsOr(r.props)) && r.ofLabel == Label(nodes[k].labelId))
    && (forall j, k | 0 <= j < k < |nodes| && NameAt(p, j) != NameAt(p, k) :: nodes[j].pos != nodes[k].pos)
  }

  lemma DescribedOnce(t: PW.Target, row: seq<PW.Datum>, a: Props, b: Props)
    requires PW.Describes(t, row, a) && PW.Describes(t, row, b)
    ensures a == b
  {}

  /** A made target matches its element. */
  lemma MadeMatches(nodes: seq<PW.Target>, p: Path, outer: Outer, pos: map<Name, nat>, row: seq<PW.Datum>, ids: seq<GraphId>, w: World, k: nat)
    requires Behind(p, outer) && WellFormed(Named(p)) && IsFullPlan(nodes, p, outer, pos, row) && k < |nodes| == |ids|
    requires PW.Made(PW.Merge, nodes, 0, k, row, ids, w.g)
    ensures ElemMatches(Named(p), w, MergeFinds.BindingsOf(nodes, ids), k)
  {
    NameFromKeeps(p.elems, 0, k);
    var id := ids[k];
    match p.elems[k]
    case Node(n) =>
      if NameAt(p, k) !in outer { DescribedOnce(nodes[k], row, w.g.vertices[id], PropsOr(n.props)); }
    case Rel(r) =>
      DescribedOnce(nodes[k], row, w.g.edges[id].props, PropsOr(r.props));
      assert Named(p).elems[k - 1].Node? && Named(p).elems[k + 1].Node?;
      NameFromKeeps(p.elems, 0, k - 1);
      NameFromKeeps(p.elems, 0, k + 1);
      assert MergeFinds.BindingsOf(nodes, ids)[k - 1] == V(ids[k - 1]) && MergeFinds.BindingsOf(nodes, ids)[k + 1] == V(ids[k + 1]);
  }

  lemma MadeEdgesDiffer(nodes: seq<PW.Target>, s: PW.State)
    requires PW.WellShaped(nodes) && PW.AllFit(nodes, |s.slot|) && PW.AttributesApart(nodes) && PW.Resolvable(nodes, 0, s) && s.store.Safe()
    requires PW.WriteVertex(PW.Merge, nodes, 0, s).Ok?
    ensures NoRepeats(AllEdges(MergeFinds.BindingsOf(nodes, PW.WriteVertex(PW.Merge, nodes, 0, s).value.ids)))
  {
    hide PW.WriteVertex, PW.WriteEdge, GraphStore.Store.Safe, PW.AttributesApart, PW.Resolvable;
    var bs := MergeFinds.BindingsOf(nodes, PW.WriteVertex(PW.Merge, nodes, 0, s).value.ids);
    forall i, j | 0 <= i < j < |bs| && bs[i].E? && bs[j].E? ensures bs[i] != bs[j] { InsertedDiffer(PW.Merge, nodes, 0, s, i, j); }
    NoRepeatsPairwise(bs);
  }

  /**
   * After the path of a row has been created, the graph has the pattern for that row, so that the same row would
   * create nothing. The variables are distinct, and mentions of earlier vertices are bare.
   */
  lemma CreatedIsThere(nodes: seq<PW.Target>, p: Path, outer: Outer, pos: map<Name, nat>, s: PW.State, w: World)
    requires Behind(p, outer) && VariablesOnce(p) && IsFullPlan(nodes, p, outer, pos, s.slot)
    requires forall k | 0 <= k < |nodes| && NameAt(p, k) in outer :: 0 < nodes[k].pos <= |s.slot| && s.slot[nodes[k].pos - 1] == outer[NameAt(p, k)]
    requires PW.WellShaped(nodes) && PW.AllFit(nodes, |s.slot|) && PW.AttributesApart(nodes) && PW.Resolvable(nodes, 0, s) && s.store.Safe()
    requires PW.WriteVertex(PW.Merge, nodes, 0, s).Ok? && w.g == PW.WriteVertex(PW.Merge, nodes, 0, s).value.s.store.g
    ensures HasPattern(p, outer, w)
  {
    hide PW.WriteVertex, PW.WriteEdge, GraphStore.Store.Safe, PW.AttributesApart, PW.Resolvable, PW.Made, ElemMatches;
    NamedIsWellFormed(p);
    var q, ids := Named(p), PW.WriteVertex(PW.Merge, nodes, 0, s).value.ids;
    var emb := MergeFinds.BindingsOf(nodes, ids);
    forall k | 0 <= k < |emb| ensures ElemMatches(q, w, emb, k) {
      PathWritten.RunMakesPath(PW.Merge, nodes, 0, s, k);
      MadeMatches(nodes, p, outer, pos, s.slot, ids, w, k);
    }
    MadeEdgesDiffer(nodes, s);
    AllNamesDiffer(p);
    assert IsEmbedding(q, w, emb);
    forall k | 0 <= k < |emb| && NameAt(p, k) in outer
      ensures outer[NameAt(p, k)].VertexDatum? && emb[k] == V(outer[NameAt(p, k)].id)
    {
      OuterIsVertex(nodes, p, outer, pos, k);
      forall j | 0 <= j < |nodes| && nodes[j].Declares() ensures nodes[j].pos != nodes[k].pos { DeclaredElsewhere(nodes, p, outer, pos, s.slot, j, k); }
      PathWritten.RunFinds(PW.Merge, nodes, 0, s, k);
    }
    assert Fixes(p, outer, emb);
  }

  lemma AllNamesDiffer(p: Path)
    requires Mergeable(p) && VariablesOnce(p)
    ensures forall i, j | 0 <= i < j < |p.elems| :: Named(p).elems[i].Name() != Named(p).elems[j].Name()
  {
    forall i, j | 0 <= i < j < |p.elems| ensures Named(p).elems[i].Name() != Named(p).elems[j].Name() { NameFromDiffers(p.elems, 0, i, j); }
  }

  /** Only variables that their author wrote are the earlier clause's, and only vertices. */
  lemma OuterIsVertex(nodes: seq<PW.Target>, p: Path, outer: Outer, pos: map<Name, nat>, k: nat)
    requires Behind(p, outer) && IsPlanBehind(nodes, p, outer, pos) && k < |nodes| && NameAt(p, k) in outer
    ensures nodes[k].VertexTarget? && !nodes[k].insert
  {
    NameFromKeeps(p.elems, 0, k);
  }

  lemma DeclaredElsewhere(nodes: seq<PW.Target>, p: Path, outer: Outer, pos: map<Name, nat>, row: seq<PW.Datum>, j: nat, k: nat)
    requires Behind(p, outer) && IsFullPlan(nodes, p, outer, pos, row) && j < |nodes| && k < |nodes|
    requires nodes[j].Declares() && NameAt(p, k) in outer
    ensures nodes[j].pos != nodes[k].pos
  {
    NotOuter(nodes, p, outer, pos, j);
    assert NameAt(p, j) != NameAt(p, k);
  }

  // ---------------------------------------------------------------- all rows

  /** How many of the rows have no embedding of their pattern. */
  ghost function WithoutPattern(cases: seq<Case>): nat {
    if cases == [] then 0
    else (if HasPattern(cases[0].p, cases[0].outer, cases[0].w) then 0 else 1) + WithoutPattern(cases[1..])
  }

  lemma {:induction false} UnmatchedAre(path: CreateClause.CreatePath, rows: seq<PW.Input>, cases: seq<Case>, pos: map<Name, nat>)
    requires |rows| == |cases| && forall i | 0 <= i < |rows| :: IsCase(cases[i], path, rows[i].row, pos)
    ensures forall i | 0 <= i < |rows| :: MergeClause.Placed(path, |rows[i].row|)
    ensures MergeClause.Unmatched(path, rows) == WithoutPattern(cases)
  {
    hide AllScanned, LeftJoined, IsPlanBehind, MayInsert, HasPattern;
    if rows != [] {
      var c := cases[0];
      NullsTell(rows[0].row, path.nodes, c.p, c.ents, c.outer, pos, c.w);
      assert forall i | 0 <= i < |rows[1..]| :: rows[1..][i] == rows[i + 1] && cases[1..][i] == cases[i + 1];
      UnmatchedAre(path, rows[1..], cases[1..], pos);
    }
  }

  /** Over all rows MERGE creates its path exactly as often as there are rows without an embedding of their pattern. */
  lemma RowsCreateExactlyWithoutPattern(path: CreateClause.CreatePath, rows: seq<PW.Input>, cases: seq<Case>, pos: map<Name, nat>,
      store: GraphStore.Store, values: seq<PW.Datum>, base: nat)
    requires |rows| == |cases| && forall i | 0 <= i < |rows| :: IsCase(cases[i], path, rows[i].row, pos)
    ensures forall i | 0 <= i < |rows| :: MergeClause.Placed(path, |rows[i].row|)
    ensures MergeClause.MergeRows(path, rows, store, values, base).Ok? ==>
      |MergeClause.MergeRows(path, rows, store, values, base).value.0.writes|
        == |store.writes| + WithoutPattern(cases) * PW.Inserted(path.nodes, 0)
  {
    UnmatchedAre(path, rows, cases, pos);
    if MergeClause.MergeRows(path, rows, store, values, base).Ok? {
      MergeClause.MergeRowsWrite(path, rows, store, values, base);
    }
  }
}
