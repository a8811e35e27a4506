/**
 * What the emitted quals say, edge by edge: some reading of the edge links it to what stands on its
 * left and on its right. Also the relation between a path and the entities compiled from it.
 */
module MatchLinks {
  import opened Results
  import opened PropertyGraph
  import opened MatchPattern
  import opened MatchQuals

  // ---------------------------------------------------------------- entities of a path

  predicate NextToVle(p: Path, i: int)
    requires 0 <= i < |p.elems|
  {
    (i > 0 && p.elems[i - 1].Vle()) || (i + 1 < |p.elems| && p.elems[i + 1].Vle())
  }

  /** The vertex is mentioned: the path, the vertex or its properties are named. */
  predicate Mentioned(p: Path, i: int)
    requires 0 <= i < |p.elems| && p.elems[i].Node?
  {
    p.varName.Some? || p.elems[i].node.name.Some? || p.elems[i].node.props.Some?
  }

  /** Which vertices are scanned. The last disjunct is the lone undirected edge between two unmentioned vertices. */
  predicate Scans(p: Path, i: int)
    requires 0 <= i < |p.elems| && p.elems[i].Node?
  {
    || |p.elems| == 1
    || Mentioned(p, i)
    || NextToVle(p, i)
    || (i == 2 && |p.elems| == 3 && p.elems[0].Node? && p.elems[1].Rel? && p.elems[1].rel.dir.Either?
        && !Mentioned(p, 0))
  }

  /** The entity keeps the element's label and properties; only its variable may have been generated. */
  predicate Renames(e: Elem, ent: Entity) {
    match e
    case Node(n) => ent.Vertex? && ent.node == n.(name := ent.node.name)
    case Rel(r) =>
      (if r.varlen.Some? then ent.VleEdge? else ent.Edge?) && ent.rel == r.(name := ent.rel.name)
  }

  /** The entity list of a path: position by position, with every scanned entity carrying its own variable. */
  ghost predicate Compiled(p: Path, ents: seq<Entity>) {
    && |ents| == |p.elems|
    && (forall i | 0 <= i < |ents| ::
          && Renames(p.elems[i], ents[i])
          && (p.elems[i].Node? ==> ents[i].inJoinTree == Scans(p, i))
          && (p.elems[i].Name().Some? ==> ents[i].Name() == p.elems[i].Name())
          && (ents[i].InTree() ==> ents[i].Name().Some?))
    && (forall i, j | 0 <= i < j < |ents| && ents[i].InTree() && ents[j].InTree() && ents[i].Name() == ents[j].Name() ::
          p.elems[i].Name().Some? && p.elems[i].Name() == p.elems[j].Name())
  }

  /** A later mention `b` of `a`'s variable may only repeat its kind, without label or properties. */
  predicate MayRepeat(a: Elem, b: Elem) {
    match (a, b)
    case (Node(_), Node(n)) => n.ofLabel.AnyLabel? && n.props.None?
    case (Rel(q), Rel(r)) => q.varlen.None? && r.varlen.None? && r.ofLabel.AnyLabel? && r.props.None?
    case _ => false
  }

  predicate SameVariable(a: Elem, b: Elem) {
    a.Name().Some? && a.Name() == b.Name()
  }

  ghost predicate VariablesAgree(p: Path) {
    forall i, j | 0 <= i < j < |p.elems| && SameVariable(p.elems[i], p.elems[j]) :: MayRepeat(p.elems[i], p.elems[j])
  }

  lemma EntitiesAlternate(p: Path, ents: seq<Entity>)
    requires WellFormed(p) && Compiled(p, ents)
    ensures Alternates(ents)
  {
    assert Renames(p.elems[0], ents[0]);
    assert Renames(p.elems[|ents| - 1], ents[|ents| - 1]);
    forall i | 0 < i < |ents| ensures ents[i].Vertex? != ents[i - 1].Vertex? {
      assert Renames(p.elems[i], ents[i]) && Renames(p.elems[i - 1], ents[i - 1]);
    }
  }

  /** The vertices around a variable-length edge are always scanned. */
  lemma VleNeighboursAreScanned(p: Path, ents: seq<Entity>, i: int)
    requires WellFormed(p) && Compiled(p, ents) && 0 <= i < |ents| && ents[i].VleEdge?
    ensures 0 < i < |ents| - 1 && ents[i - 1].InTree() && ents[i + 1].InTree()
  {
    assert Renames(p.elems[i], ents[i]);
    assert NextToVle(p, i - 1) && NextToVle(p, i + 1);
  }

  // ---------------------------------------------------------------- links

  /** The stored edge that the entity at `i` is bound to. */
  function EdgeAt(ents: seq<Entity>, w: World, row: Row, i: int): PropertyGraph.Edge
    requires EdgeBound(ents, w, row, i)
  {
    w.g.edges[row[ents[i].Name().value].id]
  }

  predicate EdgeBound(ents: seq<Entity>, w: World, row: Row, i: int) {
    && 0 <= i < |ents| && ents[i].Edge? && ents[i].Name().Some? && ents[i].Name().value in row
    && row[ents[i].Name().value].E? && row[ents[i].Name().value].id in w.g.edges
  }

  predicate VertexBound(ents: seq<Entity>, w: World, row: Row, i: int) {
    && 0 <= i < |ents| && ents[i].Vertex? && ents[i].InTree() && ents[i].Name().Some? && ents[i].Name().value in row
    && row[ents[i].Name().value].V? && row[ents[i].Name().value].id in w.g.vertices
  }

  function VertexAt(ents: seq<Entity>, w: World, row: Row, i: int): GraphId
    requires VertexBound(ents, w, row, i)
  {
    row[ents[i].Name().value].id
  }

  /** Every scanned entity is bound as its kind demands. */
  ghost predicate Bound(ents: seq<Entity>, w: World, row: Row) {
    && (forall i | 0 <= i < |ents| && ents[i].Edge? :: EdgeBound(ents, w, row, i))
    && (forall i | 0 <= i < |ents| && ents[i].Vertex? && ents[i].InTree() :: VertexBound(ents, w, row, i))
  }

  /** A possible left end of a matched edge, as the pattern's direction allows. */
  predicate MayStartAt(dir: Dir, e: PropertyGraph.Edge, x: GraphId) {
    match dir
    case Right => x == e.start
    case Left => x == e.end
    case Either => Touches(e, x)
  }

  predicate MayEndAt(dir: Dir, e: PropertyGraph.Edge, x: GraphId) {
    match dir
    case Right => x == e.end
    case Left => x == e.start
    case Either => Touches(e, x)
  }

  /** `x`, the left end of the edge at `i`, fits what stands on its left. */
  ghost predicate LeftLink(ents: seq<Entity>, w: World, row: Row, i: int, x: GraphId)
    requires Alternates(ents) && Bound(ents, w, row) && 0 < i < |ents| && ents[i].Edge?
  {
    if ents[i - 1].InTree() then x == VertexAt(ents, w, row, i - 1)
    else
      && LabelOk(ents[i - 1].node.ofLabel, x)
      && (i >= 2 && ents[i - 2].Edge? ==> MayEndAt(ents[i - 2].rel.dir, EdgeAt(ents, w, row, i - 2), x))
  }

  /** `x`, the right end of the edge at `i`, fits what stands on its right. Only an undirected edge looks at the next one. */
  ghost predicate RightLink(ents: seq<Entity>, w: World, row: Row, i: int, x: GraphId)
    requires Alternates(ents) && Bound(ents, w, row) && 0 < i < |ents| - 1 && ents[i].Edge?
  {
    if ents[i + 1].InTree() then x == VertexAt(ents, w, row, i + 1)
    else if i + 2 < |ents| then
      ents[i].rel.dir.Either? && ents[i + 2].Edge? ==>
        MayStartAt(ents[i + 2].rel.dir, EdgeAt(ents, w, row, i + 2), x)
    else LabelOk(ents[i + 1].node.ofLabel, x)
  }

  ghost predicate Linked(ents: seq<Entity>, w: World, row: Row, i: int)
    requires Alternates(ents) && Bound(ents, w, row) && 0 < i < |ents| - 1 && ents[i].Edge?
  {
    var e := EdgeAt(ents, w, row, i);
    match ents[i].rel.dir
    case Right => LeftLink(ents, w, row, i, e.start) && RightLink(ents, w, row, i, e.end)
    case Left => LeftLink(ents, w, row, i, e.end) && RightLink(ents, w, row, i, e.start)
    case Either =>
      || (LeftLink(ents, w, row, i, e.start) && RightLink(ents, w, row, i, e.end))
      || (LeftLink(ents, w, row, i, e.end) && RightLink(ents, w, row, i, e.start))
  }

  lemma AllHoldAppend(a: seq<Qual>, b: seq<Qual>, g: Graph, row: Row)
    ensures AllHold(a + b, g, row) <==> AllHold(a, g, row) && AllHold(b, g, row)
  {
    if AllHold(a + b, g, row) {
      forall k | 0 <= k < |a| ensures Holds(a[k], g, row) { assert (a + b)[k] == a[k]; }
      forall k | 0 <= k < |b| ensures Holds(b[k], g, row) { assert (a + b)[|a| + k] == b[k]; }
    }
  }

  lemma FourHold(a: seq<Qual>, b: seq<Qual>, c: seq<Qual>, d: seq<Qual>, g: Graph, row: Row)
    ensures AllHold(a + b + c + d, g, row) <==>
      AllHold(a, g, row) && AllHold(b, g, row) && AllHold(c, g, row) && AllHold(d, g, row)
  {
    AllHoldAppend(a, b, g, row);
    AllHoldAppend(a + b, c, g, row);
    AllHoldAppend(a + b + c, d, g, row);
  }

  lemma NoneHold(g: Graph, row: Row)
    ensures AllHold([], g, row)
  {}

  /** No variable-length edge stands next to a vertex that is not scanned. */
  ghost predicate VleFenced(ents: seq<Entity>)
    requires Alternates(ents)
  {
    forall i | 0 < i < |ents| - 1 && ents[i].VleEdge? :: ents[i - 1].InTree() && ents[i + 1].InTree()
  }

  lemma JoinMeaning(entity: Entity, ents: seq<Entity>, w: World, row: Row, j: int, col: Col, side: Side)
    requires Alternates(ents) && Bound(ents, w, row) && 0 <= j < |ents| && entity == ents[j]
    requires !entity.VleEdge? && entity.InTree()
    requires ColValue(col, w.g, row).Some?
    ensures JoinToEntity(entity, col, side).Ok?
    ensures AllHold(JoinToEntity(entity, col, side).value, w.g, row) <==>
      var x := ColValue(col, w.g, row).value;
      if entity.Vertex? then x == VertexAt(ents, w, row, j)
      else if side.LeftSide? then MayEndAt(entity.rel.dir, EdgeAt(ents, w, row, j), x)
      else MayStartAt(entity.rel.dir, EdgeAt(ents, w, row, j), x)
  {
    var qs := JoinToEntity(entity, col, side).value;
    assert |qs| == 1;
    assert AllHold(qs, w.g, row) <==> Holds(qs[0], w.g, row);
    if entity.Edge? {
      var cols := MakeEdgeQuals(entity, side);
      if |cols| > 1 {
        assert qs[0] == In(col, cols);
        assert Holds(qs[0], w.g, row) <==>
          ColValue(col, w.g, row) == ColValue(cols[0], w.g, row) || ColValue(col, w.g, row) == ColValue(cols[1], w.g, row);
      }
    }
  }

  lemma FilterMeaning(filter: LabelSpec, col: Col, g: Graph, row: Row)
    requires ColValue(col, g, row).Some?
    ensures AllHold(FilterOnLabel(filter, col), g, row) <==> LabelOk(filter, ColValue(col, g, row).value)
  {
    if filter.Label? {
      assert FilterOnLabel(filter, col)[0] == LabelIdIs(col, filter.id);
    }
  }

  lemma DirectedMeaning(ents: seq<Entity>, w: World, row: Row, prev: int, next: int, nearCol: Col, farCol: Col,
      prevFilter: LabelSpec, nextFilter: LabelSpec)
    requires Alternates(ents) && Bound(ents, w, row) && 0 <= prev < |ents| && 0 <= next < |ents|
    requires !ents[prev].VleEdge? && !ents[next].VleEdge?
    requires ColValue(nearCol, w.g, row).Some? && ColValue(farCol, w.g, row).Some?
    ensures MakeDirectedEdgeJoinConditions(ents[prev], ents[next], nearCol, farCol, prevFilter, nextFilter).Ok?
    ensures
      var qs := MakeDirectedEdgeJoinConditions(ents[prev], ents[next], nearCol, farCol, prevFilter, nextFilter).value;
      var x, y := ColValue(nearCol, w.g, row).value, ColValue(farCol, w.g, row).value;
      AllHold(qs, w.g, row) <==>
        && LabelOk(prevFilter, x) && LabelOk(nextFilter, y)
        && (ents[prev].InTree() ==>
              if ents[prev].Vertex? then x == VertexAt(ents, w, row, prev)
              else MayEndAt(ents[prev].rel.dir, EdgeAt(ents, w, row, prev), x))
        && (ents[next].InTree() ==>
              if ents[next].Vertex? then y == VertexAt(ents, w, row, next)
              else MayStartAt(ents[next].rel.dir, EdgeAt(ents, w, row, next), y))
  {
    hide AllHold, JoinToEntity, FilterOnLabel, Bound, Alternates, ColValue;
    var a := if ents[prev].InTree() then JoinToEntity(ents[prev], nearCol, LeftSide) else Ok([]);
    var b := if ents[next].InTree() && !ents[next].VleEdge? then JoinToEntity(ents[next], farCol, RightSide) else Ok([]);
    if ents[prev].InTree() { JoinMeaning(ents[prev], ents, w, row, prev, nearCol, LeftSide); }
    if ents[next].InTree() { JoinMeaning(ents[next], ents, w, row, next, farCol, RightSide); }
    var c, d := FilterOnLabel(prevFilter, nearCol), FilterOnLabel(nextFilter, farCol);
    FilterMeaning(prevFilter, nearCol, w.g, row);
    FilterMeaning(nextFilter, farCol, w.g, row);
    NoneHold(w.g, row);
    FourHold(a.value, b.value, c, d, w.g, row);
  }

  lemma DirectedEdgeQuals(ents: seq<Entity>, w: World, row: Row, i: int)
    requires Alternates(ents) && VleFenced(ents) && Bound(ents, w, row) && 0 < i < |ents| - 1 && ents[i].Edge?
    requires !ents[i].rel.dir.Either?
    ensures EdgeQuals(ents, i).Ok?
    ensures AllHold(EdgeQuals(ents, i).value, w.g, row) <==> Linked(ents, w, row, i)
  {
    assert EdgeBound(ents, w, row, i);
    var s, e := StartId(ents[i].rel.name), EndId(ents[i].rel.name);
    var prevFilter := if !ents[i - 1].InTree() then ents[i - 1].node.ofLabel else AnyLabel;
    var nextFilter := if !ents[i + 1].InTree() && i + 2 == |ents| then ents[i + 1].node.ofLabel else AnyLabel;
    var prev := if !ents[i - 1].InTree() && i >= 2 then i - 2 else i - 1;
    if ents[i].rel.dir.Right? {
      DirectedMeaning(ents, w, row, prev, i + 1, s, e, prevFilter, nextFilter);
    } else {
      DirectedMeaning(ents, w, row, prev, i + 1, e, s, prevFilter, nextFilter);
    }
  }

  lemma EitherMeans(first: seq<Qual>, second: seq<Qual>, g: Graph, row: Row)
    ensures AllHold([Or([And(first), And(second)])], g, row) <==> AllHold(first, g, row) || AllHold(second, g, row)
  {
    var or := Or([And(first), And(second)]);
    assert Holds(or.args[0], g, row) <==> AllHold(first, g, row);
    assert Holds(or.args[1], g, row) <==> AllHold(second, g, row);
    assert [or][0] == or;
    assert AllHold([or], g, row) <==> Holds(or, g, row);
    assert Holds(or, g, row) <==> Holds(or.args[0], g, row) || Holds(or.args[1], g, row);
  }

  lemma UndirectedEdgeQuals(ents: seq<Entity>, w: World, row: Row, i: int)
    requires Alternates(ents) && VleFenced(ents) && Bound(ents, w, row) && 0 < i < |ents| - 1 && ents[i].Edge?
    requires ents[i].rel.dir.Either?
    ensures EdgeQuals(ents, i).Ok?
    ensures AllHold(EdgeQuals(ents, i).value, w.g, row) <==> Linked(ents, w, row, i)
  {
    assert EdgeBound(ents, w, row, i);
    hide Bound, AllHold, JoinToEntity, FilterOnLabel;
    var s, e := StartId(ents[i].rel.name), EndId(ents[i].rel.name);
    var prevFilter := if !ents[i - 1].InTree() then ents[i - 1].node.ofLabel else AnyLabel;
    var nextFilter := if !ents[i + 1].InTree() && i + 2 == |ents| then ents[i + 1].node.ofLabel else AnyLabel;
    var prev := if !ents[i - 1].InTree() && i >= 2 then i - 2 else i - 1;
    var next := if !ents[i + 1].InTree() && i + 2 < |ents| then i + 2 else i + 1;
    DirectedMeaning(ents, w, row, prev, next, s, e, prevFilter, nextFilter);
    DirectedMeaning(ents, w, row, prev, next, e, s, prevFilter, nextFilter);
    EitherMeans(MakeDirectedEdgeJoinConditions(ents[prev], ents[next], s, e, prevFilter, nextFilter).value,
                MakeDirectedEdgeJoinConditions(ents[prev], ents[next], e, s, prevFilter, nextFilter).value, w.g, row);
  }

  /** The quals of one edge hold exactly when it is linked on both sides; no join ever meets a variable-length edge. */
  lemma EdgeQualsMeanLinked(ents: seq<Entity>, w: World, row: Row, i: int)
    requires Alternates(ents) && VleFenced(ents) && Bound(ents, w, row) && 0 < i < |ents| - 1 && ents[i].Edge?
    ensures EdgeQuals(ents, i).Ok?
    ensures AllHold(EdgeQuals(ents, i).value, w.g, row) <==> Linked(ents, w, row, i)
  {
    if ents[i].rel.dir.Either? { UndirectedEdgeQuals(ents, w, row, i); } else { DirectedEdgeQuals(ents, w, row, i); }
  }

  /** The quals of the whole path hold exactly when every edge is linked. */
  lemma {:induction false} QualsMeanLinked(ents: seq<Entity>, w: World, row: Row, i: int)
    requires Alternates(ents) && VleFenced(ents) && Bound(ents, w, row) && 0 <= i <= |ents|
    ensures QualsFrom(ents, i).Ok?
    ensures AllHold(QualsFrom(ents, i).value, w.g, row) <==>
      forall k | i <= k < |ents| && ents[k].Edge? :: 0 < k < |ents| - 1 && Linked(ents, w, row, k)
    decreases |ents| - i
  {
    if i < |ents| {
      QualsMeanLinked(ents, w, row, i + 1);
      if !ents[i].Vertex? {
        assert 0 < i < |ents| - 1;
        if ents[i].Edge? { EdgeQualsMeanLinked(ents, w, row, i); }
        AllHoldAppend(EdgeQuals(ents, i).value, QualsFrom(ents, i + 1).value, w.g, row);
      }
    }
  }
}
