/**
 * The compiled join means the pattern: every embedding gives a row, and every row comes from exactly
 * one embedding unless two undirected edges that meet at an unscanned vertex are parallel.
 */
module MatchCorrect {
  import opened Results
  import opened PropertyGraph
  import opened MatchPattern
  import opened MatchQuals
  import opened MatchLinks

  /** The row is what the embedding binds the scanned entities to. */
  ghost predicate Agree(ents: seq<Entity>, emb: seq<Binding>, row: Row) {
    && |emb| == |ents|
    && row.Keys == TreeNames(ents)
    && (forall i | 0 <= i < |ents| && ents[i].InTree() && ents[i].Name().Some? ::
          ents[i].Name().value in row && row[ents[i].Name().value] == emb[i])
  }

  /** The bindings, position by position, with vertices that are not scanned bound to any vertex. */
  ghost predicate Extends(ents: seq<Entity>, bs: seq<Binding>, row: Row) {
    && |bs| == |ents|
    && (forall i | 0 <= i < |ents| ::
          && (ents[i].Vertex? ==> bs[i].V?)
          && (ents[i].InTree() ==> ents[i].Name().Some? && ents[i].Name().value in row && row[ents[i].Name().value] == bs[i])
          && (ents[i].Edge? ==> bs[i].E?)
          && (ents[i].VleEdge? ==> bs[i].P?))
  }

  // ---------------------------------------------------------------- edge uniqueness

  lemma {:induction false} SameEdges(ents: seq<Entity>, bs: seq<Binding>, row: Row)
    requires Extends(ents, bs, row)
    ensures AllEdges(BindingsOf(ents, row)) == AllEdges(bs)
  {
    if ents != [] {
      assert Extends(ents[1..], bs[1..], row);
      SameEdges(ents[1..], bs[1..], row);
      assert BindingsOf(ents, row) == (if ents[0].Vertex? then [] else [bs[0]]) + BindingsOf(ents[1..], row);
      if ents[0].Vertex? {
        assert BindingsOf(ents, row) == BindingsOf(ents[1..], row);
      } else {
        assert ([bs[0]] + BindingsOf(ents[1..], row))[1..] == BindingsOf(ents[1..], row);
      }
    }
  }

  lemma {:induction false} EdgeListed(bs: seq<Binding>, id: GraphId)
    requires forall b | b in bs :: !b.P?
    ensures id in AllEdges(bs) <==> E(id) in bs
  {
    if bs != [] { EdgeListed(bs[1..], id); }
  }

  ghost predicate DistinctEdgeIds(bs: seq<Binding>) {
    forall i, j | 0 <= i < j < |bs| && bs[i].E? && bs[j].E? :: bs[i].id != bs[j].id
  }

  lemma NoRepeatsCons<T>(x: T, s: seq<T>)
    ensures NoRepeats([x] + s) <==> x !in s && NoRepeats(s)
  {
    assert ([x] + s)[1..] == s;
  }

  lemma DistinctEdgeIdsCons(bs: seq<Binding>)
    requires bs != []
    ensures DistinctEdgeIds(bs) <==> DistinctEdgeIds(bs[1..]) && (bs[0].E? ==> bs[0] !in bs[1..])
  {
    var t := bs[1..];
    assert forall k | 0 <= k < |t| :: t[k] == bs[k + 1];
    assert forall k | 0 < k < |bs| :: bs[k] == t[k - 1];
  }

  lemma {:induction false} NoRepeatsPairwise(bs: seq<Binding>)
    requires forall b | b in bs :: !b.P?
    ensures NoRepeats(AllEdges(bs)) <==> DistinctEdgeIds(bs)
  {
    if bs != [] {
      var rest := AllEdges(bs[1..]);
      NoRepeatsPairwise(bs[1..]);
      DistinctEdgeIdsCons(bs);
      if bs[0].E? {
        assert AllEdges(bs) == [bs[0].id] + rest;
        EdgeListed(bs[1..], bs[0].id);
        NoRepeatsCons(bs[0].id, rest);
      } else {
        assert AllEdges(bs) == rest;
      }
    }
  }

  /** The id column of every edge entity has the bound edge's id. */
  ghost predicate IdsKnown(ents: seq<Entity>, bs: seq<Binding>, g: Graph, row: Row) {
    |bs| == |ents| && forall k | 0 <= k < |ents| && ents[k].Edge? ::
      bs[k].E? && ColValue(Id(ents[k].Name()), g, row) == Some(bs[k].id)
  }

  lemma DifferentIdsMean(ents: seq<Entity>, bs: seq<Binding>, g: Graph, row: Row, i: nat, j: nat)
    requires IdsKnown(ents, bs, g, row) && i < |ents| && j < |ents| && ents[i].Edge? && ents[j].Edge?
    ensures AllHold([Ne(Id(ents[i].Name()), Id(ents[j].Name()))], g, row) <==> bs[i].id != bs[j].id
  {
    var q := Ne(Id(ents[i].Name()), Id(ents[j].Name()));
    assert [q][0] == q;
  }

  lemma DistinctFromNext(ents: seq<Entity>, i: nat, j: nat, g: Graph, row: Row)
    requires i < |ents| && j <= |ents|
    ensures j == |ents| ==> AllHold(DistinctFrom(ents, i, j), g, row)
    ensures j < |ents| && ents[j].Edge? ==>
      DistinctFrom(ents, i, j) == [Ne(Id(ents[i].Name()), Id(ents[j].Name()))] + DistinctFrom(ents, i, j + 1)
    ensures j < |ents| && !ents[j].Edge? ==> DistinctFrom(ents, i, j) == DistinctFrom(ents, i, j + 1)
  {}

  lemma {:induction false} DistinctFromMeans(ents: seq<Entity>, bs: seq<Binding>, g: Graph, row: Row, i: nat, j: nat)
    requires IdsKnown(ents, bs, g, row) && i < |ents| && j <= |ents| && ents[i].Edge? && |bs| == |ents| && bs[i].E?
    requires forall k | 0 <= k < |ents| && ents[k].Edge? :: bs[k].E?
    ensures AllHold(DistinctFrom(ents, i, j), g, row) <==> forall k | j <= k < |ents| && ents[k].Edge? :: bs[i].id != bs[k].id
    decreases |ents| - j
  {
    hide *;
    DistinctFromNext(ents, i, j, g, row);
    if j < |ents| {
      DistinctFromMeans(ents, bs, g, row, i, j + 1);
      if ents[j].Edge? {
        DifferentIdsMean(ents, bs, g, row, i, j);
        AllHoldAppend([Ne(Id(ents[i].Name()), Id(ents[j].Name()))], DistinctFrom(ents, i, j + 1), g, row);
      }
    }
  }

  lemma PairwiseDistinctNext(ents: seq<Entity>, i: nat, g: Graph, row: Row)
    requires i <= |ents|
    ensures i == |ents| ==> AllHold(PairwiseDistinct(ents, i), g, row)
    ensures i < |ents| && ents[i].Edge? ==> PairwiseDistinct(ents, i) == DistinctFrom(ents, i, i + 1) + PairwiseDistinct(ents, i + 1)
    ensures i < |ents| && !ents[i].Edge? ==> PairwiseDistinct(ents, i) == PairwiseDistinct(ents, i + 1)
  {}

  lemma {:induction false} PairwiseDistinctMeans(ents: seq<Entity>, bs: seq<Binding>, g: Graph, row: Row, i: nat)
    requires IdsKnown(ents, bs, g, row) && i <= |ents| && |bs| == |ents|
    requires forall k | 0 <= k < |ents| && ents[k].Edge? :: bs[k].E?
    ensures AllHold(PairwiseDistinct(ents, i), g, row) <==>
      forall j, k | i <= j < k < |ents| && ents[j].Edge? && ents[k].Edge? :: bs[j].id != bs[k].id
    decreases |ents| - i
  {
    hide *;
    PairwiseDistinctNext(ents, i, g, row);
    if i < |ents| {
      PairwiseDistinctMeans(ents, bs, g, row, i + 1);
      if ents[i].Edge? {
        DistinctFromMeans(ents, bs, g, row, i, i + 1);
        AllHoldAppend(DistinctFrom(ents, i, i + 1), PairwiseDistinct(ents, i + 1), g, row);
      }
    }
  }

  /** Whichever form the uniqueness qual takes, it says that the path uses no edge twice. */
  lemma UniquenessMeans(ents: seq<Entity>, bs: seq<Binding>, g: Graph, row: Row)
    requires Extends(ents, bs, row)
    ensures Holds(PreventDuplicateEdges(ents), g, row) <==> NoRepeats(AllEdges(bs))
  {
    if exists e | e in ents :: e.VleEdge? {
      SameEdges(ents, bs, row);
    } else {
      assert forall b | b in bs :: !b.P?;
      NoRepeatsPairwise(bs);
      PairwiseDistinctMeans(ents, bs, g, row, 0);
      assert Holds(PreventDuplicateEdges(ents), g, row) <==> AllHold(PairwiseDistinct(ents, 0), g, row);
    }
  }

  lemma ShortPathsAreUnique(ents: seq<Entity>, bs: seq<Binding>, w: World, row: Row)
    requires Alternates(ents) && Extends(ents, bs, row) && |ents| <= 3 && VleYieldsTrails(w)
    requires forall i | 0 <= i < |ents| && ents[i].VleEdge? :: exists r, u, v :: w.vle(r, u, v, bs[i].edges)
    ensures NoRepeats(AllEdges(bs))
  {
    if |ents| == 1 {
      assert AllEdges(bs) == AllEdges(bs[1..]) == [];
    } else {
      assert |ents| != 2;
      assert ents[1].Vertex? != ents[0].Vertex?;
      assert bs == [bs[0], bs[1], bs[2]];
      assert AllEdges([bs[2]]) == [];
      assert [bs[1], bs[2]][1..] == [bs[2]];
      assert AllEdges([bs[1], bs[2]]) == EdgesOf(bs[1]);
      assert bs[1..] == [bs[1], bs[2]];
      assert AllEdges(bs) == EdgesOf(bs[1]);
    }
  }

  // ---------------------------------------------------------------- property constraints

  ghost predicate PropsHold(ents: seq<Entity>, g: Graph, row: Row) {
    forall i | 0 <= i < |ents| && !ents[i].VleEdge? ::
      var props := if ents[i].Vertex? then ents[i].node.props else ents[i].rel.props;
      props.Some? ==> Holds(HasProps(ents[i].Name(), props.value), g, row)
  }

  lemma {:induction false} PropQualsMean(ents: seq<Entity>, g: Graph, row: Row)
    ensures AllHold(PropQuals(ents), g, row) <==> PropsHold(ents, g, row)
  {
    if ents != [] {
      PropQualsMean(ents[1..], g, row);
      var here := match ents[0]
        case Vertex(n, _) => if n.props.Some? then [HasProps(n.name, n.props.value)] else []
        case Edge(r) => if r.props.Some? then [HasProps(r.name, r.props.value)] else []
        case VleEdge(_) => [];
      AllHoldAppend(here, PropQuals(ents[1..]), g, row);
      if |here| > 0 {
        assert AllHold(here, g, row) <==> Holds(here[0], g, row);
      }
      if PropsHold(ents, g, row) {
        forall i | 0 <= i < |ents[1..]| ensures ents[1..][i] == ents[i + 1] {}
        assert PropsHold(ents[1..], g, row);
      }
      if PropsHold(ents[1..], g, row) && AllHold(here, g, row) {
        assert forall i | 0 < i < |ents| :: ents[i] == ents[1..][i - 1];
        assert PropsHold(ents, g, row);
      }
    }
  }

  // ---------------------------------------------------------------- all quals together

  ghost predicate AllLinked(ents: seq<Entity>, w: World, row: Row)
    requires Alternates(ents) && Bound(ents, w, row)
  {
    forall k | 0 <= k < |ents| && ents[k].Edge? :: 0 < k < |ents| - 1 && Linked(ents, w, row, k)
  }

  lemma PathQualsMean(ents: seq<Entity>, bs: seq<Binding>, w: World, row: Row)
    requires Alternates(ents) && VleFenced(ents) && Bound(ents, w, row) && Extends(ents, bs, row)
    requires VleYieldsTrails(w)
    requires forall i | 0 <= i < |ents| && ents[i].VleEdge? :: exists r, u, v :: w.vle(r, u, v, bs[i].edges)
    ensures PathQuals(ents).Ok?
    ensures AllHold(PathQuals(ents).value, w.g, row) <==>
      AllLinked(ents, w, row) && NoRepeats(AllEdges(bs)) && PropsHold(ents, w.g, row)
  {
    QualsMeanLinked(ents, w, row, 0);
    var joins := if |ents| < 3 then [] else QualsFrom(ents, 0).value;
    var unique := if |ents| > 3 then [PreventDuplicateEdges(ents)] else [];
    if |ents| < 3 {
      assert |ents| != 2;
    }
    if |ents| > 3 {
      UniquenessMeans(ents, bs, w.g, row);
      assert AllHold(unique, w.g, row) <==> Holds(unique[0], w.g, row);
    } else {
      ShortPathsAreUnique(ents, bs, w, row);
    }
    PropQualsMean(ents, w.g, row);
    AllHoldAppend(joins, unique, w.g, row);
    AllHoldAppend(joins + unique, PropQuals(ents), w.g, row);
  }

  lemma CompiledIsFenced(p: Path, ents: seq<Entity>)
    requires WellFormed(p) && Compiled(p, ents)
    ensures Alternates(ents) && VleFenced(ents)
  {
    EntitiesAlternate(p, ents);
    forall i | 0 < i < |ents| - 1 && ents[i].VleEdge? ensures ents[i - 1].InTree() && ents[i + 1].InTree() {
      VleNeighboursAreScanned(p, ents, i);
    }
  }

  lemma ScannedIsBound(ents: seq<Entity>, w: World, row: Row)
    requires Alternates(ents) && forall i | 0 <= i < |ents| :: Scanned(ents, i, w, row)
    ensures Bound(ents, w, row)
  {
    forall i | 0 <= i < |ents| && ents[i].Edge? ensures EdgeBound(ents, w, row, i) {
      assert Scanned(ents, i, w, row);
    }
    forall i | 0 <= i < |ents| && ents[i].Vertex? && ents[i].InTree() ensures VertexBound(ents, w, row, i) {
      assert Scanned(ents, i, w, row);
    }
  }

  // ---------------------------------------------------------------- completeness

  lemma EmbeddingIsScanned(p: Path, ents: seq<Entity>, w: World, emb: seq<Binding>, row: Row)
    requires WellFormed(p) && Compiled(p, ents) && IsEmbedding(p, w, emb) && Agree(ents, emb, row)
    ensures Alternates(ents) && Extends(ents, emb, row)
    ensures forall i | 0 <= i < |ents| :: Scanned(ents, i, w, row)
  {
    EntitiesAlternate(p, ents);
    forall i | 0 <= i < |ents|
      ensures Scanned(ents, i, w, row) && (ents[i].Vertex? ==> emb[i].V?) && (ents[i].Edge? ==> emb[i].E?)
              && (ents[i].VleEdge? ==> emb[i].P?)
    {
      assert ElemMatches(p, w, emb, i) && Renames(p.elems[i], ents[i]);
      if ents[i].VleEdge? {
        VleNeighboursAreScanned(p, ents, i);
        assert Renames(p.elems[i - 1], ents[i - 1]) && Renames(p.elems[i + 1], ents[i + 1]);
      }
    }
  }

  /** An edge that the embedding walks from left to right may start and end there. */
  lemma JoinsEnds(p: Path, ents: seq<Entity>, w: World, emb: seq<Binding>, row: Row, i: int)
    requires WellFormed(p) && Compiled(p, ents) && IsEmbedding(p, w, emb) && Agree(ents, emb, row)
    requires Alternates(ents) && Bound(ents, w, row)
    requires 0 <= i < |ents| && ents[i].Edge?
    ensures 0 < i < |ents| - 1 && emb[i - 1].V? && emb[i + 1].V?
    ensures Joins(ents[i].rel.dir, EdgeAt(ents, w, row, i), emb[i - 1].id, emb[i + 1].id)
    ensures MayStartAt(ents[i].rel.dir, EdgeAt(ents, w, row, i), emb[i - 1].id)
    ensures MayEndAt(ents[i].rel.dir, EdgeAt(ents, w, row, i), emb[i + 1].id)
  {
    assert EdgeBound(ents, w, row, i);
    assert ElemMatches(p, w, emb, i) && Renames(p.elems[i], ents[i]);
  }

  lemma EmbeddingIsLinked(p: Path, ents: seq<Entity>, w: World, emb: seq<Binding>, row: Row, i: int)
    requires WellFormed(p) && Compiled(p, ents) && IsEmbedding(p, w, emb) && Agree(ents, emb, row)
    requires Alternates(ents) && Bound(ents, w, row)
    requires 0 <= i < |ents| && ents[i].Edge?
    ensures 0 < i < |ents| - 1 && Linked(ents, w, row, i)
  {
    JoinsEnds(p, ents, w, emb, row, i);
    var x, y := emb[i - 1].id, emb[i + 1].id;
    assert ElemMatches(p, w, emb, i - 1) && Renames(p.elems[i - 1], ents[i - 1]);
    assert ElemMatches(p, w, emb, i + 1) && Renames(p.elems[i + 1], ents[i + 1]);
    if i >= 2 && ents[i - 2].Edge? { JoinsEnds(p, ents, w, emb, row, i - 2); }
    if i + 2 < |ents| && ents[i + 2].Edge? { JoinsEnds(p, ents, w, emb, row, i + 2); }
    assert LeftLink(ents, w, row, i, x);
    assert RightLink(ents, w, row, i, y);
  }

  lemma EmbeddingHasProps(p: Path, ents: seq<Entity>, w: World, emb: seq<Binding>, row: Row)
    requires WellFormed(p) && Compiled(p, ents) && IsEmbedding(p, w, emb) && Agree(ents, emb, row)
    ensures PropsHold(ents, w.g, row)
  {
    forall i | 0 <= i < |ents| && !ents[i].VleEdge?
      ensures var props := if ents[i].Vertex? then ents[i].node.props else ents[i].rel.props;
              props.Some? ==> Holds(HasProps(ents[i].Name(), props.value), w.g, row)
    {
      assert ElemMatches(p, w, emb, i) && Renames(p.elems[i], ents[i]);
    }
  }

  /** Completeness: whatever walk of the graph matches the pattern, the join produces its row. No guard is needed. */
  lemma EveryEmbeddingHasItsRow(p: Path, ents: seq<Entity>, w: World, emb: seq<Binding>, row: Row)
    requires WellFormed(p) && Compiled(p, ents) && VleYieldsTrails(w)
    requires IsEmbedding(p, w, emb) && Agree(ents, emb, row)
    ensures Alternates(ents) && Satisfies(ents, w, row)
  {
    CompiledIsFenced(p, ents);
    EmbeddingIsScanned(p, ents, w, emb, row);
    ScannedIsBound(ents, w, row);
    forall i | 0 <= i < |ents| && ents[i].VleEdge? ensures exists r, u, v :: w.vle(r, u, v, emb[i].edges) {
      assert ElemMatches(p, w, emb, i) && Renames(p.elems[i], ents[i]);
    }
    PathQualsMean(ents, emb, w, row);
    forall i | 0 <= i < |ents| && ents[i].Edge? ensures 0 < i < |ents| - 1 && Linked(ents, w, row, i) {
      EmbeddingIsLinked(p, ents, w, emb, row, i);
    }
    EmbeddingHasProps(p, ents, w, emb, row);
  }

  // ---------------------------------------------------------------- soundness

  /**
   * The guard: where two undirected edges meet at a vertex that is not scanned, the two matched
   * edges are not parallel.
   */
  ghost predicate Unambiguous(ents: seq<Entity>, w: World, row: Row)
    requires Bound(ents, w, row)
  {
    forall i | 0 < i < |ents| - 1 && ents[i].Vertex? && !ents[i].InTree()
               && ents[i - 1].Edge? && ents[i + 1].Edge?
               && ents[i - 1].rel.dir.Either? && ents[i + 1].rel.dir.Either? ::
      ShareAtMostOne(EdgeAt(ents, w, row, i - 1), EdgeAt(ents, w, row, i + 1))
  }

  /** Whether the edge at `i` is read from its start to its end; an undirected edge may be read either way. */
  ghost predicate ReadForward(ents: seq<Entity>, w: World, row: Row, i: int)
    requires Alternates(ents) && Bound(ents, w, row) && 0 < i < |ents| - 1 && ents[i].Edge?
  {
    var e := EdgeAt(ents, w, row, i);
    match ents[i].rel.dir
    case Right => true
    case Left => false
    case Either => LeftLink(ents, w, row, i, e.start) && RightLink(ents, w, row, i, e.end)
  }

  ghost function LeftEnd(ents: seq<Entity>, w: World, row: Row, i: int): GraphId
    requires Alternates(ents) && Bound(ents, w, row) && 0 < i < |ents| - 1 && ents[i].Edge?
  {
    var e := EdgeAt(ents, w, row, i);
    if ReadForward(ents, w, row, i) then e.start else e.end
  }

  ghost function RightEnd(ents: seq<Entity>, w: World, row: Row, i: int): GraphId
    requires Alternates(ents) && Bound(ents, w, row) && 0 < i < |ents| - 1 && ents[i].Edge?
  {
    var e := EdgeAt(ents, w, row, i);
    if ReadForward(ents, w, row, i) then e.end else e.start
  }

  /** The vertex at position `i`: read from the row, or from the edge before it, or from the first edge. */
  ghost function VertexOf(ents: seq<Entity>, w: World, row: Row, i: int): GraphId
    requires Alternates(ents) && VleFenced(ents) && Bound(ents, w, row) && 0 <= i < |ents| && ents[i].Vertex?
    requires |ents| > 1 || ents[0].InTree()
  {
    if ents[i].InTree() then VertexAt(ents, w, row, i)
    else if i > 0 then RightEnd(ents, w, row, i - 1)
    else LeftEnd(ents, w, row, 1)
  }

  ghost function Rebuild(ents: seq<Entity>, w: World, row: Row): (bs: seq<Binding>)
    requires Alternates(ents) && VleFenced(ents) && Bound(ents, w, row)
    requires |ents| > 1 || ents[0].InTree()
    requires forall i | 0 <= i < |ents| && !ents[i].Vertex? :: ents[i].Name().Some? && ents[i].Name().value in row
  {
    seq(|ents|, i requires 0 <= i < |ents| =>
      if ents[i].Vertex? then V(VertexOf(ents, w, row, i)) else row[ents[i].Name().value])
  }

  lemma LinkedEnds(ents: seq<Entity>, w: World, row: Row, i: int)
    requires Alternates(ents) && Bound(ents, w, row) && 0 < i < |ents| - 1 && ents[i].Edge? && Linked(ents, w, row, i)
    ensures LeftLink(ents, w, row, i, LeftEnd(ents, w, row, i))
    ensures RightLink(ents, w, row, i, RightEnd(ents, w, row, i))
    ensures Joins(ents[i].rel.dir, EdgeAt(ents, w, row, i), LeftEnd(ents, w, row, i), RightEnd(ents, w, row, i))
  {
  }

  /** At a vertex that is not scanned the two readings meet. */
  lemma EndsMeet(ents: seq<Entity>, w: World, row: Row, i: int)
    requires Alternates(ents) && VleFenced(ents) && Bound(ents, w, row) && AllLinked(ents, w, row)
    requires Unambiguous(ents, w, row)
    requires 0 < i < |ents| - 1 && ents[i].Vertex? && !ents[i].InTree()
    ensures ents[i - 1].Edge? && 0 < i - 1 && ents[i + 1].Edge? && i + 1 < |ents| - 1
    ensures RightEnd(ents, w, row, i - 1) == LeftEnd(ents, w, row, i + 1)
  {
    LinkedEnds(ents, w, row, i - 1);
    LinkedEnds(ents, w, row, i + 1);
    var e, f := EdgeAt(ents, w, row, i - 1), EdgeAt(ents, w, row, i + 1);
    var x, y := RightEnd(ents, w, row, i - 1), LeftEnd(ents, w, row, i + 1);
    if ents[i - 1].rel.dir.Either? && ents[i + 1].rel.dir.Either? {
      assert ShareAtMostOne(e, f);
      assert Touches(e, x) && Touches(f, x) && Touches(e, y) && Touches(f, y);
    }
  }

  /** The vertices on both sides of an edge are the ends it is read from and to. */
  lemma EdgeJoinsItsVertices(ents: seq<Entity>, w: World, row: Row, i: int)
    requires Alternates(ents) && VleFenced(ents) && Bound(ents, w, row) && AllLinked(ents, w, row)
    requires Unambiguous(ents, w, row)
    requires 0 < i < |ents| - 1 && ents[i].Edge?
    ensures VertexOf(ents, w, row, i - 1) == LeftEnd(ents, w, row, i)
    ensures VertexOf(ents, w, row, i + 1) == RightEnd(ents, w, row, i)
  {
    LinkedEnds(ents, w, row, i);
    if !ents[i - 1].InTree() && i > 1 { EndsMeet(ents, w, row, i - 1); }
  }

  lemma UnscannedVertexMatches(p: Path, ents: seq<Entity>, w: World, row: Row, i: int)
    requires WellFormed(p) && Compiled(p, ents) && Alternates(ents) && VleFenced(ents) && Bound(ents, w, row)
    requires AllLinked(ents, w, row) && Unambiguous(ents, w, row) && NoDangling(w.g)
    requires 0 <= i < |ents| && ents[i].Vertex? && !ents[i].InTree()
    ensures |ents| > 1 && NodeMatches(p.elems[i].node, w, V(VertexOf(ents, w, row, i)))
  {
    assert Renames(p.elems[i], ents[i]);
    assert !Scans(p, i);
    if i + 1 < |ents| {
      if i > 0 { EndsMeet(ents, w, row, i); }
      assert ents[i + 1].Edge?;
      LinkedEnds(ents, w, row, i + 1);
      assert EdgeBound(ents, w, row, i + 1);
    } else {
      assert ents[i - 1].Edge?;
      LinkedEnds(ents, w, row, i - 1);
      assert EdgeBound(ents, w, row, i - 1);
    }
  }

  lemma ScannedVertexMatches(p: Path, ents: seq<Entity>, w: World, row: Row, i: int)
    requires Compiled(p, ents) && Alternates(ents) && 0 <= i < |ents| && ents[i].Vertex? && ents[i].InTree()
    requires Scanned(ents, i, w, row) && PropsHold(ents, w.g, row)
    ensures p.elems[i].Node? && VertexBound(ents, w, row, i)
    ensures NodeMatches(p.elems[i].node, w, V(VertexAt(ents, w, row, i)))
  {
    assert Renames(p.elems[i], ents[i]);
    var props := ents[i].node.props;
    assert props.Some? ==> Holds(HasProps(ents[i].Name(), props.value), w.g, row);
  }

  lemma EdgeMatches(p: Path, ents: seq<Entity>, w: World, row: Row, i: int)
    requires Compiled(p, ents) && Alternates(ents) && VleFenced(ents) && Bound(ents, w, row)
    requires 0 <= i < |ents| && ents[i].Edge? && Scanned(ents, i, w, row)
    requires AllLinked(ents, w, row) && PropsHold(ents, w.g, row) && Unambiguous(ents, w, row)
    ensures 0 < i < |ents| - 1 && p.elems[i].Rel?
    ensures RelMatches(p.elems[i].rel, w, row[ents[i].Name().value],
                       V(VertexOf(ents, w, row, i - 1)), V(VertexOf(ents, w, row, i + 1)))
  {
    assert Renames(p.elems[i], ents[i]);
    var props := ents[i].rel.props;
    assert props.Some? ==> Holds(HasProps(ents[i].Name(), props.value), w.g, row);
    assert EdgeBound(ents, w, row, i);
    LinkedEnds(ents, w, row, i);
    EdgeJoinsItsVertices(ents, w, row, i);
  }

  lemma VleMatches(p: Path, ents: seq<Entity>, w: World, row: Row, i: int)
    requires Compiled(p, ents) && Alternates(ents) && VleFenced(ents) && Bound(ents, w, row)
    requires 0 <= i < |ents| && ents[i].VleEdge? && Scanned(ents, i, w, row)
    ensures 0 < i < |ents| - 1 && p.elems[i].Rel?
    ensures RelMatches(p.elems[i].rel, w, row[ents[i].Name().value],
                       V(VertexOf(ents, w, row, i - 1)), V(VertexOf(ents, w, row, i + 1)))
  {
    assert Renames(p.elems[i], ents[i]);
    assert VertexBound(ents, w, row, i - 1) && VertexBound(ents, w, row, i + 1);
  }

  lemma RebuiltMatches(p: Path, ents: seq<Entity>, w: World, row: Row, i: int)
    requires WellFormed(p) && Compiled(p, ents) && Alternates(ents) && VleFenced(ents) && Bound(ents, w, row)
    requires |ents| > 1 || ents[0].InTree()
    requires forall k | 0 <= k < |ents| && !ents[k].Vertex? :: ents[k].Name().Some? && ents[k].Name().value in row
    requires 0 <= i < |ents| && Scanned(ents, i, w, row)
    requires AllLinked(ents, w, row) && PropsHold(ents, w.g, row) && Unambiguous(ents, w, row) && NoDangling(w.g)
    ensures ElemMatches(p, w, Rebuild(ents, w, row), i)
  {
    assert Renames(p.elems[i], ents[i]);
    match ents[i]
    case Edge(_) => EdgeMatches(p, ents, w, row, i);
    case VleEdge(_) => VleMatches(p, ents, w, row, i);
    case Vertex(_, _) =>
      if ents[i].InTree() {
        ScannedVertexMatches(p, ents, w, row, i);
      } else {
        UnscannedVertexMatches(p, ents, w, row, i);
      }
  }

  lemma RebuiltExtends(p: Path, ents: seq<Entity>, w: World, row: Row)
    requires WellFormed(p) && Compiled(p, ents) && Alternates(ents) && VleFenced(ents) && Bound(ents, w, row)
    requires forall i | 0 <= i < |ents| :: Scanned(ents, i, w, row)
    ensures |ents| > 1 || ents[0].InTree()
    ensures forall i | 0 <= i < |ents| && !ents[i].Vertex? :: ents[i].Name().Some? && ents[i].Name().value in row
    ensures Extends(ents, Rebuild(ents, w, row), row)
    ensures forall i | 0 <= i < |ents| && ents[i].VleEdge? ::
      exists r, u, v :: w.vle(r, u, v, Rebuild(ents, w, row)[i].edges)
  {
    if |ents| == 1 {
      assert Renames(p.elems[0], ents[0]) && Scans(p, 0);
    }
    forall i | 0 <= i < |ents| && !ents[i].Vertex? ensures ents[i].Name().Some? && ents[i].Name().value in row {
      assert Scanned(ents, i, w, row);
    }
    var bs := Rebuild(ents, w, row);
    forall i | 0 <= i < |ents|
      ensures && (ents[i].InTree() ==> ents[i].Name().Some? && ents[i].Name().value in row && row[ents[i].Name().value] == bs[i])
              && (ents[i].Edge? ==> bs[i].E?) && (ents[i].VleEdge? ==> bs[i].P?)
              && (ents[i].VleEdge? ==> exists r, u, v :: w.vle(r, u, v, bs[i].edges))
    {
      assert Scanned(ents, i, w, row);
    }
  }

  /** Soundness: under the guard, and with no dangling edges, a row of the join extends to a matching walk. */
  lemma EveryRowHasAnEmbedding(p: Path, ents: seq<Entity>, w: World, row: Row) returns (emb: seq<Binding>)
    requires WellFormed(p) && Compiled(p, ents) && Alternates(ents) && VleYieldsTrails(w) && NoDangling(w.g)
    requires Satisfies(ents, w, row) && Bound(ents, w, row) && Unambiguous(ents, w, row)
    ensures IsEmbedding(p, w, emb) && Agree(ents, emb, row)
  {
    CompiledIsFenced(p, ents);
    RebuiltExtends(p, ents, w, row);
    emb := Rebuild(ents, w, row);
    PathQualsMean(ents, emb, w, row);
    forall i | 0 <= i < |emb| ensures ElemMatches(p, w, emb, i) {
      RebuiltMatches(p, ents, w, row, i);
    }
    SharedVariablesAgree(p, ents, emb, row);
  }

  lemma SharedVariablesAgree(p: Path, ents: seq<Entity>, bs: seq<Binding>, row: Row)
    requires WellFormed(p) && Compiled(p, ents) && Extends(ents, bs, row)
    ensures forall i, j | 0 <= i < j < |bs| && p.elems[i].Name().Some? && p.elems[i].Name() == p.elems[j].Name() ::
      bs[i] == bs[j]
  {
    forall i, j | 0 <= i < j < |bs| && p.elems[i].Name().Some? && p.elems[i].Name() == p.elems[j].Name()
      ensures bs[i] == bs[j]
    {
      assert Renames(p.elems[i], ents[i]) && Renames(p.elems[j], ents[j]);
      assert ents[i].InTree() && ents[j].InTree();
    }
  }

  // ---------------------------------------------------------------- uniqueness

  /** Next to a directed edge, or between two edges with one vertex in common, the vertex is determined. */
  lemma InnerVertexDetermined(p: Path, ents: seq<Entity>, w: World, row: Row, a: seq<Binding>, b: seq<Binding>, i: int)
    requires WellFormed(p) && Compiled(p, ents) && Alternates(ents) && Bound(ents, w, row) && Unambiguous(ents, w, row)
    requires IsEmbedding(p, w, a) && Agree(ents, a, row) && IsEmbedding(p, w, b) && Agree(ents, b, row)
    requires 0 <= i < |ents| && ents[i].Vertex?
    requires || ents[i].InTree()
             || (0 < i < |ents| - 1)
             || (i > 0 && ents[i - 1].Edge? && !ents[i - 1].rel.dir.Either?)
             || (i + 1 < |ents| && ents[i + 1].Edge? && !ents[i + 1].rel.dir.Either?)
    ensures a[i] == b[i]
  {
    CompiledIsFenced(p, ents);
    assert ElemMatches(p, w, a, i) && ElemMatches(p, w, b, i) && Renames(p.elems[i], ents[i]);
    if !ents[i].InTree() {
      if i > 0 && ents[i - 1].Edge? {
        JoinsEnds(p, ents, w, a, row, i - 1);
        JoinsEnds(p, ents, w, b, row, i - 1);
      }
      if i + 1 < |ents| && ents[i + 1].Edge? {
        JoinsEnds(p, ents, w, a, row, i + 1);
        JoinsEnds(p, ents, w, b, row, i + 1);
      }
      if 0 < i < |ents| - 1 {
        assert ents[i - 1].Edge? && ents[i + 1].Edge?;
      }
    }
  }

  lemma VertexDetermined(p: Path, ents: seq<Entity>, w: World, row: Row, a: seq<Binding>, b: seq<Binding>, i: int)
    requires WellFormed(p) && Compiled(p, ents) && Alternates(ents) && Bound(ents, w, row) && Unambiguous(ents, w, row)
    requires IsEmbedding(p, w, a) && Agree(ents, a, row) && IsEmbedding(p, w, b) && Agree(ents, b, row)
    requires 0 <= i < |ents| && ents[i].Vertex?
    ensures a[i] == b[i]
  {
    if ents[i].InTree() || 0 < i < |ents| - 1 {
      hide *;
      InnerVertexDetermined(p, ents, w, row, a, b, i);
    } else {
      // An unscanned end: its only edge has another end, which is determined.
      assert ElemMatches(p, w, a, i) && ElemMatches(p, w, b, i) && Renames(p.elems[i], ents[i]);
      assert |ents| > 1;
      var k, j := if i == 0 then 1 else i - 1, if i == 0 then 2 else i - 2;
      assert ents[k].Edge?;
      JoinsEnds(p, ents, w, a, row, k);
      JoinsEnds(p, ents, w, b, row, k);
      assert Renames(p.elems[k], ents[k]) && Renames(p.elems[j], ents[j]);
      if ents[k].rel.dir.Either? {
        if |ents| == 3 { assert ents[j].InTree(); }
        InnerVertexDetermined(p, ents, w, row, a, b, j);
      }
    }
  }

  /** Under the guard two embeddings with the same row are the same. */
  lemma AtMostOneEmbedding(p: Path, ents: seq<Entity>, w: World, row: Row, a: seq<Binding>, b: seq<Binding>)
    requires WellFormed(p) && Compiled(p, ents) && Alternates(ents) && Bound(ents, w, row) && Unambiguous(ents, w, row)
    requires IsEmbedding(p, w, a) && Agree(ents, a, row) && IsEmbedding(p, w, b) && Agree(ents, b, row)
    ensures a == b
  {
    forall i | 0 <= i < |ents| ensures a[i] == b[i] {
      if ents[i].Vertex? { VertexDetermined(p, ents, w, row, a, b, i); }
    }
  }
}
