/** Main results about MATCH: exactness of the join, row counts, and well-formedness of the emitted quals. */
module MatchTheorems {
  import opened Results
  import opened PropertyGraph
  import opened MatchPattern
  import opened MatchQuals
  import opened MatchLinks
  import opened MatchCorrect

  // ---------------------------------------------------------------- guards a caller can check

  /** Pattern guard: no two undirected edges meet at a vertex that is not scanned. */
  ghost predicate NoUndirectedMeeting(ents: seq<Entity>) {
    forall i | 0 < i < |ents| - 1 && ents[i].Vertex? && !ents[i].InTree() && ents[i - 1].Edge? && ents[i + 1].Edge? ::
      !(ents[i - 1].rel.dir.Either? && ents[i + 1].rel.dir.Either?)
  }

  lemma RowIsBound(ents: seq<Entity>, w: World, row: Row)
    requires Alternates(ents) && Satisfies(ents, w, row)
    ensures Bound(ents, w, row)
  {
    ScannedIsBound(ents, w, row);
  }

  /** The bindings of a row, with unscanned vertices bound to `any`. */
  ghost function Bindings(ents: seq<Entity>, row: Row, any: Binding): (bs: seq<Binding>) {
    seq(|ents|, i requires 0 <= i < |ents| =>
      if ents[i].InTree() && ents[i].Name().Some? && ents[i].Name().value in row then row[ents[i].Name().value] else any)
  }

  /** A row that the FROM list gives extends to bindings of every position. */
  lemma RowExtends(ents: seq<Entity>, w: World, row: Row)
    requires Alternates(ents) && VleFenced(ents) && forall k | 0 <= k < |ents| :: Scanned(ents, k, w, row)
    ensures var bs := Bindings(ents, row, V(GraphId(0, 0)));
            && Extends(ents, bs, row)
            && forall k | 0 <= k < |ents| && ents[k].VleEdge? :: exists r, u, v :: w.vle(r, u, v, bs[k].edges)
  {
    var bs := Bindings(ents, row, V(GraphId(0, 0)));
    forall k | 0 <= k < |ents|
      ensures && (ents[k].Vertex? ==> bs[k].V?) && (ents[k].Edge? ==> bs[k].E?) && (ents[k].VleEdge? ==> bs[k].P?)
              && (ents[k].InTree() ==> ents[k].Name().Some? && ents[k].Name().value in row && row[ents[k].Name().value] == bs[k])
              && (ents[k].VleEdge? ==> exists r, u, v :: w.vle(r, u, v, bs[k].edges))
    {
      assert Scanned(ents, k, w, row);
    }
  }

  /** A row never binds two edge positions to one edge. */
  lemma RowEdgesDiffer(p: Path, ents: seq<Entity>, w: World, row: Row, i: int, j: int)
    requires WellFormed(p) && Compiled(p, ents) && Alternates(ents) && VleYieldsTrails(w)
    requires Satisfies(ents, w, row) && Bound(ents, w, row)
    requires 0 <= i < j < |ents| && ents[i].Edge? && ents[j].Edge?
    ensures row[ents[i].Name().value].id != row[ents[j].Name().value].id
  {
    CompiledIsFenced(p, ents);
    assert EdgeBound(ents, w, row, i) && EdgeBound(ents, w, row, j);
    var bs := Bindings(ents, row, V(GraphId(0, 0)));
    hide Compiled, WellFormed, PathQuals, AllHold, Bound, Scanned, VleYieldsTrails, VleFenced, PropsHold;
    RowExtends(ents, w, row);
    PathQualsMean(ents, bs, w, row);
    EdgePositionsDiffer(bs, i, j);
  }

  lemma {:induction false} EdgePositionsDiffer(bs: seq<Binding>, i: int, j: int)
    requires NoRepeats(AllEdges(bs)) && 0 <= i < j < |bs| && bs[i].E? && bs[j].E?
    ensures bs[i].id != bs[j].id
  {
    var rest := AllEdges(bs[1..]);
    assert AllEdges(bs) == EdgesOf(bs[0]) + rest;
    if i == 0 {
      EdgeIsListed(bs[1..], j - 1);
      NoRepeatsCons(bs[0].id, rest);
    } else {
      NoRepeatsSuffix(EdgesOf(bs[0]), rest);
      EdgePositionsDiffer(bs[1..], i - 1, j - 1);
    }
  }

  lemma {:induction false} NoRepeatsSuffix<T>(a: seq<T>, b: seq<T>)
    requires NoRepeats(a + b)
    ensures NoRepeats(b)
  {
    if a == [] {
      assert a + b == b;
    } else {
      assert a + b == [a[0]] + (a[1..] + b);
      NoRepeatsCons(a[0], a[1..] + b);
      NoRepeatsSuffix(a[1..], b);
    }
  }

  lemma {:induction false} EdgeIsListed(bs: seq<Binding>, j: int)
    requires 0 <= j < |bs| && bs[j].E?
    ensures bs[j].id in AllEdges(bs)
  {
    if j > 0 { EdgeIsListed(bs[1..], j - 1); }
  }

  /** Either guard is enough: on the pattern, or on the graph. */
  lemma GuardsSuffice(p: Path, ents: seq<Entity>, w: World, row: Row)
    requires WellFormed(p) && Compiled(p, ents) && Alternates(ents) && VleYieldsTrails(w)
    requires Satisfies(ents, w, row)
    requires NoUndirectedMeeting(ents) || NoParallelEdges(w.g)
    ensures Bound(ents, w, row) && Unambiguous(ents, w, row)
  {
    RowIsBound(ents, w, row);
    if !NoUndirectedMeeting(ents) {
      forall i | 0 < i < |ents| - 1 && ents[i].Vertex? && !ents[i].InTree() && ents[i - 1].Edge? && ents[i + 1].Edge?
        ensures ShareAtMostOne(EdgeAt(ents, w, row, i - 1), EdgeAt(ents, w, row, i + 1))
      {
        assert EdgeBound(ents, w, row, i - 1) && EdgeBound(ents, w, row, i + 1);
        RowEdgesDiffer(p, ents, w, row, i - 1, i + 1);
      }
    }
  }

  // ---------------------------------------------------------------- exactness

  /** Every row of every compiled pattern comes from a matching walk. */
  ghost predicate RowsAreSound(w: World) {
    forall p, ents, row | WellFormed(p) && Compiled(p, ents) && Alternates(ents) && Satisfies(ents, w, row) ::
      exists emb :: IsEmbedding(p, w, emb) && Agree(ents, emb, row)
  }

  /** The row comes from exactly one embedding. */
  ghost predicate ExactlyOneEmbedding(p: Path, ents: seq<Entity>, w: World, row: Row)
    requires WellFormed(p)
  {
    exists emb :: IsEmbedding(p, w, emb) && Agree(ents, emb, row)
                  && forall other :: IsEmbedding(p, w, other) && Agree(ents, other, row) ==> other == emb
  }

  lemma GuardedRowIsExact(p: Path, ents: seq<Entity>, w: World, row: Row)
    requires WellFormed(p) && Compiled(p, ents) && Alternates(ents) && VleYieldsTrails(w) && NoDangling(w.g)
    requires Satisfies(ents, w, row) && Bound(ents, w, row) && Unambiguous(ents, w, row)
    ensures ExactlyOneEmbedding(p, ents, w, row)
  {
    var emb := EveryRowHasAnEmbedding(p, ents, w, row);
    forall other | IsEmbedding(p, w, other) && Agree(ents, other, row) ensures other == emb {
      AtMostOneEmbedding(p, ents, w, row, other, emb);
    }
  }

  const UNDIRECTED := RelPat(None, AnyLabel, None, None, Either)

  function NamedNode(s: string): NodePat {
    NodePat(Some(User(s)), AnyLabel, None)
  }

  /** `(a)-[]-()-[]-(b)`: two undirected edges that meet at a vertex nothing mentions. */
  const TWO_STEPS := Path(None, [Node(NamedNode("a")), Rel(UNDIRECTED), Node(NodePat(None, AnyLabel, None)),
                                 Rel(UNDIRECTED), Node(NamedNode("b"))])

  const TWO_STEPS_ENTITIES := [Vertex(NamedNode("a"), true), Entity.Edge(UNDIRECTED.(name := Some(Alias(0)))),
                               Vertex(NodePat(None, AnyLabel, None), false),
                               Entity.Edge(UNDIRECTED.(name := Some(Alias(1)))), Vertex(NamedNode("b"), true)]

  lemma TwoStepsCompiles()
    ensures WellFormed(TWO_STEPS) && Compiled(TWO_STEPS, TWO_STEPS_ENTITIES) && Alternates(TWO_STEPS_ENTITIES)
  {
    var p, ents := TWO_STEPS, TWO_STEPS_ENTITIES;
    assert !NextToVle(p, 2);
    assert User("a") != User("b") by { assert "a"[0] != "b"[0]; }
    forall i, j | 0 <= i < j < |ents| && ents[i].InTree() && ents[j].InTree() ensures ents[i].Name() != ents[j].Name() {}
    EntitiesAlternate(p, ents);
  }

  function TwoStepsRow(e: GraphId, f: GraphId, x: GraphId, y: GraphId): Row {
    map[User("a") := V(x), Alias(0) := E(e), Alias(1) := E(f), User("b") := V(y)]
  }

  lemma TwoStepsRowIsBound(w: World, e: GraphId, f: GraphId, x: GraphId, y: GraphId)
    requires e in w.g.edges && f in w.g.edges && x in w.g.vertices && y in w.g.vertices
    ensures Alternates(TWO_STEPS_ENTITIES)
    ensures TwoStepsRow(e, f, x, y).Keys == TreeNames(TWO_STEPS_ENTITIES)
    ensures forall i | 0 <= i < 5 :: Scanned(TWO_STEPS_ENTITIES, i, w, TwoStepsRow(e, f, x, y))
    ensures Bound(TWO_STEPS_ENTITIES, w, TwoStepsRow(e, f, x, y))
    ensures Extends(TWO_STEPS_ENTITIES, [V(x), E(e), V(x), E(f), V(y)], TwoStepsRow(e, f, x, y))
  {
    TwoStepsCompiles();
    assert User("a") != User("b") by { assert "a"[0] != "b"[0]; }
    TwoStepsNames(TwoStepsRow(e, f, x, y));
    ScannedIsBound(TWO_STEPS_ENTITIES, w, TwoStepsRow(e, f, x, y));
  }

  lemma ParallelEdgesSatisfy(w: World, e: GraphId, f: GraphId, x: GraphId, y: GraphId)
    requires NoDangling(w.g) && VleYieldsTrails(w)
    requires e in w.g.edges && f in w.g.edges && e != f && x != y
    requires Touches(w.g.edges[e], x) && Touches(w.g.edges[f], x) && Touches(w.g.edges[e], y) && Touches(w.g.edges[f], y)
    ensures Alternates(TWO_STEPS_ENTITIES) && Satisfies(TWO_STEPS_ENTITIES, w, TwoStepsRow(e, f, x, y))
  {
    var ents, row, bs := TWO_STEPS_ENTITIES, TwoStepsRow(e, f, x, y), [V(x), E(e), V(x), E(f), V(y)];
    TwoStepsRowIsBound(w, e, f, x, y);
    TwoStepsLinked(w, e, f, x, y);
    TwoStepsUnique(e, f, x, y);
    TwoStepsPlain();
    hide PathQuals, QualsFrom, Linked, Bound, Scanned, Extends, NoRepeats, AllEdges, Holds, PropQuals;
    PathQualsMean(ents, bs, w, row);
  }

  /** The two bindings of edges differ, and nothing in the pattern has properties. */
  lemma TwoStepsUnique(e: GraphId, f: GraphId, x: GraphId, y: GraphId)
    requires e != f
    ensures NoRepeats(AllEdges([V(x), E(e), V(x), E(f), V(y)]))
  {
    var bs := [V(x), E(e), V(x), E(f), V(y)];
    NoRepeatsPairwise(bs);
  }

  lemma TwoStepsPlain()
    ensures Alternates(TWO_STEPS_ENTITIES) && VleFenced(TWO_STEPS_ENTITIES)
    ensures forall i | 0 <= i < 5 && !TWO_STEPS_ENTITIES[i].VleEdge? ::
      (if TWO_STEPS_ENTITIES[i].Vertex? then TWO_STEPS_ENTITIES[i].node.props else TWO_STEPS_ENTITIES[i].rel.props).None?
  {
    TwoStepsCompiles();
  }

  /** Each edge alone reaches both ends. */
  lemma TwoStepsLinked(w: World, e: GraphId, f: GraphId, x: GraphId, y: GraphId)
    requires NoDangling(w.g) && Bound(TWO_STEPS_ENTITIES, w, TwoStepsRow(e, f, x, y)) && Alternates(TWO_STEPS_ENTITIES)
    requires e in w.g.edges && f in w.g.edges && x != y
    requires Touches(w.g.edges[e], x) && Touches(w.g.edges[f], x) && Touches(w.g.edges[e], y) && Touches(w.g.edges[f], y)
    ensures Linked(TWO_STEPS_ENTITIES, w, TwoStepsRow(e, f, x, y), 1) && Linked(TWO_STEPS_ENTITIES, w, TwoStepsRow(e, f, x, y), 3)
  {
    var ents, row := TWO_STEPS_ENTITIES, TwoStepsRow(e, f, x, y);
    assert LeftLink(ents, w, row, 1, x) && RightLink(ents, w, row, 1, y);
    assert LeftLink(ents, w, row, 3, x) && RightLink(ents, w, row, 3, y);
  }

  lemma TwoStepsAgree(emb: seq<Binding>, e: GraphId, f: GraphId, x: GraphId, y: GraphId)
    ensures Agree(TWO_STEPS_ENTITIES, emb, TwoStepsRow(e, f, x, y)) ==>
      |emb| == 5 && emb[0] == V(x) && emb[1] == E(e) && emb[3] == E(f) && emb[4] == V(y)
  {
    var ents, row := TWO_STEPS_ENTITIES, TwoStepsRow(e, f, x, y);
    assert User("a") != User("b") by { assert "a"[0] != "b"[0]; }
    assert ents[0].InTree() && ents[0].Name() == Some(User("a")) && row[User("a")] == V(x);
    assert ents[1].InTree() && ents[1].Name() == Some(Alias(0)) && row[Alias(0)] == E(e);
    assert ents[3].InTree() && ents[3].Name() == Some(Alias(1)) && row[Alias(1)] == E(f);
    assert ents[4].InTree() && ents[4].Name() == Some(User("b")) && row[User("b")] == V(y);
  }

  lemma ParallelEdgesHaveNoWalk(w: World, e: GraphId, f: GraphId, x: GraphId, y: GraphId, emb: seq<Binding>)
    requires e in w.g.edges && f in w.g.edges && x != y
    requires Touches(w.g.edges[e], x) && Touches(w.g.edges[f], x) && Touches(w.g.edges[e], y) && Touches(w.g.edges[f], y)
    requires WellFormed(TWO_STEPS) && IsEmbedding(TWO_STEPS, w, emb)
    ensures !Agree(TWO_STEPS_ENTITIES, emb, TwoStepsRow(e, f, x, y))
  {
    assert ElemMatches(TWO_STEPS, w, emb, 1) && ElemMatches(TWO_STEPS, w, emb, 3);
    TwoStepsAgree(emb, e, f, x, y);
  }

  /** Two parallel edges satisfy the quals of `(a)-[]-()-[]-(b)` from one end to the other, where no walk leads. */
  lemma ParallelEdgesMislead(w: World, e: GraphId, f: GraphId, x: GraphId, y: GraphId)
    requires NoDangling(w.g) && VleYieldsTrails(w)
    requires e in w.g.edges && f in w.g.edges && e != f && x != y
    requires Touches(w.g.edges[e], x) && Touches(w.g.edges[f], x) && Touches(w.g.edges[e], y) && Touches(w.g.edges[f], y)
    ensures WellFormed(TWO_STEPS) && Compiled(TWO_STEPS, TWO_STEPS_ENTITIES) && Alternates(TWO_STEPS_ENTITIES)
    ensures Satisfies(TWO_STEPS_ENTITIES, w, TwoStepsRow(e, f, x, y))
    ensures forall emb | IsEmbedding(TWO_STEPS, w, emb) :: !Agree(TWO_STEPS_ENTITIES, emb, TwoStepsRow(e, f, x, y))
    ensures !RowsAreSound(w)
  {
    TwoStepsCompiles();
    ParallelEdgesSatisfy(w, e, f, x, y);
    forall emb | IsEmbedding(TWO_STEPS, w, emb) ensures !Agree(TWO_STEPS_ENTITIES, emb, TwoStepsRow(e, f, x, y)) {
      ParallelEdgesHaveNoWalk(w, e, f, x, y, emb);
    }
  }

  lemma TwoStepsNames(row: Row)
    requires row.Keys == {User("a"), Alias(0), Alias(1), User("b")}
    ensures row.Keys == TreeNames(TWO_STEPS_ENTITIES)
  {
    var ents := TWO_STEPS_ENTITIES;
    assert ents[0].InTree() && ents[1].InTree() && ents[3].InTree() && ents[4].InTree();
    assert ents[0].Name().value == User("a") && ents[1].Name().value == Alias(0);
    assert ents[3].Name().value == Alias(1) && ents[4].Name().value == User("b");
  }

  /**
   * Exactness. On a graph without dangling edges, the compiled joins never invent a row, whatever the
   * pattern, if and only if no two edges of the graph are parallel.
   */
  lemma SoundExactlyWithoutParallelEdges(w: World)
    requires NoDangling(w.g) && VleYieldsTrails(w)
    ensures NoParallelEdges(w.g) <==> RowsAreSound(w)
  {
    if NoParallelEdges(w.g) {
      forall p, ents, row | WellFormed(p) && Compiled(p, ents) && Alternates(ents) && Satisfies(ents, w, row)
        ensures exists emb :: IsEmbedding(p, w, emb) && Agree(ents, emb, row)
      {
        GuardsSuffice(p, ents, w, row);
        var emb := EveryRowHasAnEmbedding(p, ents, w, row);
      }
    } else {
      var e, f :| e in w.g.edges && f in w.g.edges && e != f && !ShareAtMostOne(w.g.edges[e], w.g.edges[f]);
      var x, y :| Touches(w.g.edges[e], x) && Touches(w.g.edges[f], x)
                  && Touches(w.g.edges[e], y) && Touches(w.g.edges[f], y) && x != y;
      ParallelEdgesMislead(w, e, f, x, y);
    }
  }

  // ---------------------------------------------------------------- row counts

  /** The row of an embedding. */
  ghost function Project(p: Path, ents: seq<Entity>, emb: seq<Binding>): (row: Row)
    requires WellFormed(p) && Compiled(p, ents) && |emb| == |ents|
    requires forall i, j | 0 <= i < j < |emb| && p.elems[i].Name().Some? && p.elems[i].Name() == p.elems[j].Name() :: emb[i] == emb[j]
    ensures Agree(ents, emb, row)
  {
    map n | n in TreeNames(ents) :: PickBinding(ents, emb, n)
  }

  ghost function PickBinding(ents: seq<Entity>, emb: seq<Binding>, n: Name): Binding
    requires |emb| == |ents| && n in TreeNames(ents)
  {
    var i :| 0 <= i < |ents| && ents[i].InTree() && ents[i].Name() == Some(n);
    emb[i]
  }

  lemma {:induction false} SameSize<A, B>(xs: set<A>, ys: set<B>, f: map<A, B>)
    requires xs == f.Keys && (forall x | x in xs :: f[x] in ys)
    requires forall x, x' | x in xs && x' in xs && f[x] == f[x'] :: x == x'
    requires forall y | y in ys :: exists x | x in xs :: f[x] == y
    ensures |xs| == |ys|
  {
    if xs != {} {
      var x :| x in xs;
      var g := map z | z in xs - {x} :: f[z];
      forall y | y in ys - {f[x]} ensures exists z | z in xs - {x} :: g[z] == y {
        var z :| z in xs && f[z] == y;
        assert g[z] == y;
      }
      SameSize(xs - {x}, ys - {f[x]}, g);
    } else {
      assert ys == {};
    }
  }

  /**
   * Leaving vertices out of the join keeps the row count: the rows of the query and the embeddings
   * of the whole path are equally many whenever each row passes the guard.
   */
  lemma ElisionKeepsRowCount(p: Path, ents: seq<Entity>, w: World, rows: set<Row>, embs: set<seq<Binding>>)
    requires WellFormed(p) && Compiled(p, ents) && Alternates(ents) && VleYieldsTrails(w) && NoDangling(w.g)
    requires forall row :: row in rows <==> Satisfies(ents, w, row)
    requires forall emb :: emb in embs <==> IsEmbedding(p, w, emb)
    requires NoUndirectedMeeting(ents) || NoParallelEdges(w.g)
    ensures |rows| == |embs|
  {
    var f := map emb | emb in embs :: Project(p, ents, emb);
    forall emb | emb in embs ensures f[emb] in rows {
      EveryEmbeddingHasItsRow(p, ents, w, emb, f[emb]);
    }
    forall a, b | a in embs && b in embs && f[a] == f[b] ensures a == b {
      GuardsSuffice(p, ents, w, f[a]);
      AtMostOneEmbedding(p, ents, w, f[a], a, b);
    }
    forall row | row in rows ensures exists emb | emb in embs :: f[emb] == row {
      GuardsSuffice(p, ents, w, row);
      var emb := EveryRowHasAnEmbedding(p, ents, w, row);
      AgreeingRowsAreEqual(ents, emb, row, f[emb]);
    }
    SameSize(embs, rows, f);
  }

  lemma AgreeingRowsAreEqual(ents: seq<Entity>, emb: seq<Binding>, a: Row, b: Row)
    requires Agree(ents, emb, a) && Agree(ents, emb, b)
    ensures a == b
  {
    forall n | n in a.Keys ensures a[n] == b[n] {
      var i :| 0 <= i < |ents| && ents[i].InTree() && ents[i].Name() == Some(n);
    }
  }

  // ---------------------------------------------------------------- the emitted quals are well formed

  /** No conjunction or disjunction is empty. */
  ghost predicate NoEmptyList(q: Qual) {
    match q
    case And(qs) => qs != [] && forall k | 0 <= k < |qs| :: NoEmptyList(qs[k])
    case Or(qs) => qs != [] && forall k | 0 <= k < |qs| :: NoEmptyList(qs[k])
    case _ => true
  }

  ghost predicate NoneEmpty(qs: seq<Qual>) {
    forall k | 0 <= k < |qs| :: NoEmptyList(qs[k])
  }

  lemma NoneEmptyAppend(a: seq<Qual>, b: seq<Qual>)
    requires NoneEmpty(a) && NoneEmpty(b)
    ensures NoneEmpty(a + b)
  {}

  lemma DirectedIsPlain(prev: Entity, next: Entity, near: Col, far: Col, prevFilter: LabelSpec, nextFilter: LabelSpec)
    requires !prev.VleEdge?
    ensures MakeDirectedEdgeJoinConditions(prev, next, near, far, prevFilter, nextFilter).Ok?
    ensures var qs := MakeDirectedEdgeJoinConditions(prev, next, near, far, prevFilter, nextFilter).value;
            NoneEmpty(qs) && (prev.InTree() || (next.InTree() && !next.VleEdge?) ==> qs != [])
  {
    var a := if prev.InTree() then JoinToEntity(prev, near, LeftSide) else Ok([]);
    var b := if next.InTree() && !next.VleEdge? then JoinToEntity(next, far, RightSide) else Ok([]);
    var c, d := FilterOnLabel(prevFilter, near), FilterOnLabel(nextFilter, far);
    assert a.Ok? && b.Ok? && NoneEmpty(a.value) && NoneEmpty(b.value) && NoneEmpty(c) && NoneEmpty(d);
    hide NoneEmpty, JoinToEntity, FilterOnLabel;
    NoneEmptyAppend(a.value, b.value);
    NoneEmptyAppend(a.value + b.value, c);
    NoneEmptyAppend(a.value + b.value + c, d);
  }

  lemma JoinConditionWellFormed(prevEdge: Option<Entity>, prevNode: Entity, edge: Entity, nextNode: Entity,
      nextEdge: Option<Entity>)
    requires prevNode.Vertex? && edge.Edge? && nextNode.Vertex?
    requires !prevNode.InTree() && prevEdge.Some? ==> prevEdge.value.Edge?
    requires !nextNode.InTree() && nextEdge.Some? ==> nextEdge.value.Edge?
    requires edge.rel.dir.Either? ==> prevNode.InTree() || prevEdge.Some? || nextNode.InTree() || nextEdge.Some?
    ensures MakeJoinConditionForEdge(prevEdge, prevNode, edge, nextNode, nextEdge).Ok?
    ensures NoneEmpty(MakeJoinConditionForEdge(prevEdge, prevNode, edge, nextNode, nextEdge).value)
  {
    var s, e := StartId(edge.rel.name), EndId(edge.rel.name);
    var prevFilter := if !prevNode.InTree() then prevNode.node.ofLabel else AnyLabel;
    var nextFilter := if !nextNode.InTree() && nextEdge.None? then nextNode.node.ofLabel else AnyLabel;
    var prev := if !prevNode.InTree() && prevEdge.Some? then prevEdge.value else prevNode;
    var next := if !nextNode.InTree() && nextEdge.Some? then nextEdge.value else nextNode;
    match edge.rel.dir
    case Right => DirectedIsPlain(prev, nextNode, s, e, prevFilter, nextFilter);
    case Left => DirectedIsPlain(prev, nextNode, e, s, prevFilter, nextFilter);
    case Either =>
      DirectedIsPlain(prev, next, s, e, prevFilter, nextFilter);
      DirectedIsPlain(prev, next, e, s, prevFilter, nextFilter);
  }

  lemma EdgeQualsWellFormed(p: Path, ents: seq<Entity>, i: int)
    requires WellFormed(p) && Compiled(p, ents) && Alternates(ents) && 0 < i < |ents| - 1 && !ents[i].Vertex?
    ensures EdgeQuals(ents, i).Ok? && NoneEmpty(EdgeQuals(ents, i).value)
  {
    CompiledIsFenced(p, ents);
    assert Renames(p.elems[i - 1], ents[i - 1]) && Renames(p.elems[i], ents[i]) && Renames(p.elems[i + 1], ents[i + 1]);
    if ents[i].Edge? {
      JoinConditionWellFormed(if i >= 2 then Some(ents[i - 2]) else None, ents[i - 1], ents[i], ents[i + 1],
                              if i + 2 < |ents| then Some(ents[i + 2]) else None);
    }
  }

  lemma {:induction false} QualsFromWellFormed(p: Path, ents: seq<Entity>, i: int)
    requires WellFormed(p) && Compiled(p, ents) && Alternates(ents) && 0 <= i <= |ents|
    ensures QualsFrom(ents, i).Ok? && NoneEmpty(QualsFrom(ents, i).value)
    decreases |ents| - i
  {
    if i < |ents| {
      QualsFromWellFormed(p, ents, i + 1);
      if !ents[i].Vertex? { EdgeQualsWellFormed(p, ents, i); }
    }
  }

  lemma {:induction false} DistinctFromPlain(ents: seq<Entity>, i: nat, j: nat)
    requires i < |ents| && j <= |ents|
    ensures NoneEmpty(DistinctFrom(ents, i, j))
    ensures (exists k | j <= k < |ents| :: ents[k].Edge?) ==> DistinctFrom(ents, i, j) != []
    decreases |ents| - j
  {
    if j < |ents| { DistinctFromPlain(ents, i, j + 1); }
  }

  lemma {:induction false} PairwiseDistinctPlain(ents: seq<Entity>, i: nat)
    requires i <= |ents|
    ensures NoneEmpty(PairwiseDistinct(ents, i))
    ensures (exists j, k | i <= j < k < |ents| :: ents[j].Edge? && ents[k].Edge?) ==> PairwiseDistinct(ents, i) != []
    decreases |ents| - i
  {
    if i < |ents| {
      PairwiseDistinctPlain(ents, i + 1);
      if ents[i].Edge? { DistinctFromPlain(ents, i, i + 1); }
    }
  }

  /**
   * For every path the quals compile without error, so no join ever meets a variable-length edge,
   * and no emitted conjunction or disjunction is empty; a lone undirected edge relies on the vertex
   * forced back into the join.
   */
  lemma PathQualsWellFormed(p: Path, ents: seq<Entity>)
    requires WellFormed(p) && Compiled(p, ents)
    ensures Alternates(ents) && PathQuals(ents).Ok? && NoneEmpty(PathQuals(ents).value)
  {
    hide Compiled, WellFormed, QualsFrom;
    EntitiesAlternate(p, ents);
    QualsFromWellFormed(p, ents, 0);
    if |ents| > 3 && !(exists e | e in ents :: e.VleEdge?) {
      PairwiseDistinctPlain(ents, 0);
      assert ents[1].Edge? && ents[2].Vertex? && ents[3].Edge?;
      assert NoEmptyList(PreventDuplicateEdges(ents));
    }
    PropQualsPlain(ents);
  }

  lemma {:induction false} PropQualsPlain(ents: seq<Entity>)
    ensures NoneEmpty(PropQuals(ents))
  {
    if ents != [] { PropQualsPlain(ents[1..]); }
  }
}
