/** What MERGE creates, MATCH finds: the path written for a pattern is an embedding of that pattern. */
module MergeFinds {
  import opened Results
  import opened PropertyGraph
  import opened MatchPattern
  import opened MatchQuals
  import opened MatchLinks
  import opened MatchCorrect
  import opened MatchTheorems
  import opened MatchCompile
  import opened GraphStore
  import PW = PathWriter
  import PathWritten
  import CreateClause
  import MergeClause

  const DEFAULT_VERTEX_LABEL: nat := 1

  /** Before anything else MERGE names every element of its path that has no variable. */
  function NameFrom(elems: seq<Elem>, n: nat): (r: seq<Elem>)
    ensures |r| == |elems|
    decreases |elems|
  {
    if elems == [] then []
    else if elems[0].Name().Some? then [elems[0]] + NameFrom(elems[1..], n)
    else
      var name := Some(Alias(n));
      var e := elems[0];
      [if e.Node? then Node(e.node.(name := name)) else Rel(e.rel.(name := name))] + NameFrom(elems[1..], n + 1)
  }

  function Named(p: Path): Path {
    Path(p.varName, NameFrom(p.elems, 0))
  }

  function TargetOf(p: Path, k: nat, pos: map<Name, nat>): PW.Target
    requires k < |p.elems| && Named(p).elems[k].Name().Some? && Named(p).elems[k].Name().value in pos
  {
    var isVar, inPath, at := p.elems[k].Name().Some?, p.varName.Some?, pos[Named(p).elems[k].Name().value];
    match p.elems[k]
    case Node(n) =>
      PW.VertexTarget(true, false, isVar, inPath, if n.ofLabel.Label? then n.ofLabel.id else DEFAULT_VERTEX_LABEL,
                      PW.Expression(if n.props.Some? then n.props.value else map[]), at)
    case Rel(r) =>
      PW.EdgeTarget(isVar, inPath, r.dir, if r.ofLabel.Label? then r.ofLabel.id else 0,
                    PW.Expression(if r.props.Some? then r.props.value else map[]), at)
  }

  /** A MERGE path: parsed, without variable-length steps, and with a label on every edge. */
  ghost predicate Mergeable(p: Path) {
    && Parsed(p)
    && forall k | 0 <= k < |p.elems| && p.elems[k].Rel? :: p.elems[k].rel.varlen.None? && p.elems[k].rel.ofLabel.Label?
  }

  /** The target nodes of the path; variables are placed in the tuple by name. */
  ghost predicate IsPlanOf(nodes: seq<PW.Target>, p: Path, pos: map<Name, nat>) {
    && |nodes| == |p.elems|
    && (forall k | 0 <= k < |nodes| ::
          && Named(p).elems[k].Name().Some? && Named(p).elems[k].Name().value in pos
          && nodes[k] == TargetOf(p, k, pos))
  }

  lemma {:induction false} NameFromKeeps(elems: seq<Elem>, n: nat, k: nat)
    requires k < |elems|
    ensures var r := NameFrom(elems, n);
            && r[k].Name().Some? && r[k].Node? == elems[k].Node?
            && (elems[k].Name().Some? ==> r[k] == elems[k])
            && (elems[k].Name().None? ==> r[k].Name().value.Alias? && r[k].Name().value.n >= n)
            && (elems[k].Node? ==> r[k].node == elems[k].node.(name := r[k].node.name))
            && (elems[k].Rel? ==> r[k].rel == elems[k].rel.(name := r[k].rel.name))
    decreases elems
  {
    if k > 0 {
      NameFromKeeps(elems[1..], if elems[0].Name().Some? then n else n + 1, k - 1);
    }
  }

  lemma {:induction false} NameFromDiffers(elems: seq<Elem>, n: nat, i: nat, j: nat)
    requires i < j < |elems| && forall k | 0 <= k < |elems| && elems[k].Name().Some? :: elems[k].Name().value.User?
    ensures NameFrom(elems, n)[i].Name() == NameFrom(elems, n)[j].Name() ==>
      elems[i].Name().Some? && elems[i].Name() == elems[j].Name()
    decreases elems
  {
    var next := if elems[0].Name().Some? then n else n + 1;
    if i > 0 {
      NameFromDiffers(elems[1..], next, i - 1, j - 1);
    } else {
      NameFromKeeps(elems[1..], next, j - 1);
      assert elems[1..][j - 1] == elems[j];
    }
  }

  lemma NamedIsWellFormed(p: Path)
    requires Mergeable(p)
    ensures WellFormed(Named(p)) && (VariablesOnce(p) <==> VariablesOnce(Named(p)))
  {
    var q := Named(p);
    forall k | 0 <= k < |p.elems| ensures q.elems[k].Node? == p.elems[k].Node? { NameFromKeeps(p.elems, 0, k); }
    if VariablesOnce(p) {
      forall i, j | 0 <= i < j < |q.elems| ensures q.elems[i].Name() != q.elems[j].Name() {
        NameFromDiffers(p.elems, 0, i, j);
      }
    }
    if VariablesOnce(q) {
      forall i, j | 0 <= i < j < |p.elems| && p.elems[i].Name().Some? ensures p.elems[i].Name() != p.elems[j].Name() {
        NameFromKeeps(p.elems, 0, i);
        NameFromKeeps(p.elems, 0, j);
      }
    }
  }

  // ---------------------------------------------------------------- the created path as an embedding

  /** The bindings that the ids of a run stand for. */
  function BindingsOf(nodes: seq<PW.Target>, ids: seq<GraphId>): (bs: seq<Binding>)
    requires |ids| == |nodes|
    ensures |bs| == |nodes|
  {
    seq(|nodes|, k requires 0 <= k < |nodes| => if nodes[k].VertexTarget? then V(ids[k]) else E(ids[k]))
  }

  lemma PlanIsSound(p: Path, nodes: seq<PW.Target>, pos: map<Name, nat>, s: PW.State)
    requires Mergeable(p) && IsPlanOf(nodes, p, pos)
    ensures PW.WellShaped(nodes) && PW.AttributesApart(nodes) && PW.Resolvable(nodes, 0, s) && MergeClause.ChecksAll(nodes)
  {
    forall k | 0 <= k < |nodes|
      ensures nodes[k].Inserts() && nodes[k].from.Expression? && nodes[k].VertexTarget? == p.elems[k].Node? {}
  }

  /** Two entities of one kind that a run inserts are different. */
  lemma {:induction false} InsertedDiffer(c: PW.Clause, nodes: seq<PW.Target>, i: nat, s: PW.State, j: nat, k: nat)
    requires PW.WellShaped(nodes) && PW.AllFit(nodes, |s.slot|) && i <= j < k < |nodes| && nodes[i].VertexTarget?
    requires PW.AttributesApart(nodes) && PW.Resolvable(nodes, i, s) && s.store.Safe()
    requires PW.WriteVertex(c, nodes, i, s).Ok?
    requires nodes[j].Inserts() && nodes[k].Inserts() && nodes[j].VertexTarget? == nodes[k].VertexTarget?
    ensures var ids := PW.WriteVertex(c, nodes, i, s).value.ids; ids[j - i] != ids[k - i]
    decreases |nodes| - i
  {
    hide PW.WriteVertex, PW.WriteEdge, PW.Resolvable, GraphStore.Store.Safe, PW.PropsFrom, PW.EndsOf, PW.AttributesApart;
    var id, s1, inner, edge := PathWritten.RunStep(c, nodes, i, s);
    var s2 := PathWritten.Between(nodes, i, s);
    var ids := PW.WriteVertex(c, nodes, i, s).value.ids;
    assert k >= i + 2 ==> ids[k - i] == inner.ids[k - (i + 2)];
    if j >= i + 2 {
      InsertedDiffer(c, nodes, i + 2, s2, j, k);
      assert ids[j - i] == inner.ids[j - (i + 2)];
    } else if j == i {
      PathWritten.RunIsNew(c, nodes, i + 2, s2, k);
    } else {
      PathWritten.RunMakesPath(c, nodes, i + 2, s2, k);
      NextIdIsFresh(inner.s.store, nodes[j].labelId);
    }
  }

  lemma CreatedElemMatches(p: Path, nodes: seq<PW.Target>, pos: map<Name, nat>, s: PW.State, w: World, k: nat)
    requires Mergeable(p) && IsPlanOf(nodes, p, pos) && PW.WellShaped(nodes) && PW.AllFit(nodes, |s.slot|) && s.store.Safe()
    requires PW.WriteVertex(PW.Merge, nodes, 0, s).Ok? && w.g == PW.WriteVertex(PW.Merge, nodes, 0, s).value.s.store.g
    requires WellFormed(Named(p)) && k < |nodes|
    ensures ElemMatches(Named(p), w, BindingsOf(nodes, PW.WriteVertex(PW.Merge, nodes, 0, s).value.ids), k)
  {
    hide PW.WriteVertex, PW.WriteEdge;
    PlanIsSound(p, nodes, pos, s);
    PathWritten.RunMakesPath(PW.Merge, nodes, 0, s, k);
    NameFromKeeps(p.elems, 0, k);
    assert nodes[k] == TargetOf(p, k, pos);
    if nodes[k].EdgeTarget? {
      assert nodes[k - 1].VertexTarget? && nodes[k + 1].VertexTarget?;
    }
  }

  lemma CreatedBindingsDiffer(p: Path, nodes: seq<PW.Target>, pos: map<Name, nat>, s: PW.State)
    requires Mergeable(p) && IsPlanOf(nodes, p, pos) && PW.WellShaped(nodes) && PW.AllFit(nodes, |s.slot|) && s.store.Safe()
    requires PW.WriteVertex(PW.Merge, nodes, 0, s).Ok?
    ensures var bs := BindingsOf(nodes, PW.WriteVertex(PW.Merge, nodes, 0, s).value.ids);
            (forall i, j | 0 <= i < j < |bs| :: bs[i] != bs[j]) && NoRepeats(AllEdges(bs))
  {
    hide PW.WriteVertex, PW.WriteEdge, GraphStore.Store.Safe;
    PlanIsSound(p, nodes, pos, s);
    var bs := BindingsOf(nodes, PW.WriteVertex(PW.Merge, nodes, 0, s).value.ids);
    forall i, j | 0 <= i < j < |bs| ensures bs[i] != bs[j] {
      assert nodes[i] == TargetOf(p, i, pos) && nodes[j] == TargetOf(p, j, pos);
      if nodes[i].VertexTarget? == nodes[j].VertexTarget? { InsertedDiffer(PW.Merge, nodes, 0, s, i, j); }
    }
    NoRepeatsPairwise(bs);
  }

  lemma DistinctBindingsMatch(q: Path, w: World, bs: seq<Binding>)
    requires WellFormed(q) && |bs| == |q.elems| && forall k | 0 <= k < |bs| :: ElemMatches(q, w, bs, k)
    requires (forall i, j | 0 <= i < j < |bs| :: bs[i] != bs[j]) && NoRepeats(AllEdges(bs))
    ensures IsEmbedding(q, w, bs) <==> VariablesOnce(q)
  {
    hide ElemMatches, AllEdges, NoRepeats;
  }

  /**
   * The path MERGE creates matches its own pattern if and only if no variable occurs twice in it: a
   * repeated vertex variable is written as two vertices.
   */
  lemma CreatedPathMatches(p: Path, nodes: seq<PW.Target>, pos: map<Name, nat>, s: PW.State, w: World)
    requires Mergeable(p) && IsPlanOf(nodes, p, pos) && PW.WellShaped(nodes) && PW.AllFit(nodes, |s.slot|) && s.store.Safe()
    requires PW.WriteVertex(PW.Merge, nodes, 0, s).Ok? && w.g == PW.WriteVertex(PW.Merge, nodes, 0, s).value.s.store.g
    ensures WellFormed(Named(p))
    ensures IsEmbedding(Named(p), w, BindingsOf(nodes, PW.WriteVertex(PW.Merge, nodes, 0, s).value.ids)) <==> VariablesOnce(p)
  {
    assert |nodes| == |p.elems|;
    hide PW.WriteVertex, PW.WriteEdge, GraphStore.Store.Safe, ElemMatches, IsPlanOf, IsEmbedding, VariablesOnce;
    PlanIsSound(p, nodes, pos, s);
    NamedIsWellFormed(p);
    var q, bs := Named(p), BindingsOf(nodes, PW.WriteVertex(PW.Merge, nodes, 0, s).value.ids);
    forall k | 0 <= k < |bs| ensures ElemMatches(q, w, bs, k) { CreatedElemMatches(p, nodes, pos, s, w, k); }
    CreatedBindingsDiffer(p, nodes, pos, s);
    DistinctBindingsMatch(q, w, bs);
  }

  /**
   * Repeating a MERGE creates nothing. When its variables are distinct, the created path gives a row
   * of the query compiled from the same pattern; and a MERGE whose subplan returns that query's rows
   * leaves the store alone, however often it is pulled.
   */
  lemma RepeatedMergeCreatesNothing(p: Path, nodes: seq<PW.Target>, pos: map<Name, nat>, s: PW.State, w: World,
      ents: seq<Entity>, path: CreateClause.CreatePath, rows: seq<MergeClause.Row>, width: nat, n: nat)
    requires Mergeable(p) && VariablesOnce(p) && VleYieldsTrails(w)
    requires IsPlanOf(nodes, p, pos) && PW.WellShaped(nodes) && PW.AllFit(nodes, |s.slot|) && s.store.Safe()
    requires PW.WriteVertex(PW.Merge, nodes, 0, s).Ok? && w.g == PW.WriteVertex(PW.Merge, nodes, 0, s).value.s.store.g
    requires Compiled(Named(p), ents) && Alternates(ents)
    requires CreateClause.Ready(path, width)
    // The subplan is the compiled query: it returns a row if there is one.
    requires (exists row :: Satisfies(ents, w, row)) ==> rows != []
    ensures exists row :: Satisfies(ents, w, row)
    ensures var store := PW.WriteVertex(PW.Merge, nodes, 0, s).value.s.store;
            var pulls := MergeClause.PullMany(path, rows, width, MergeClause.Fresh(store, store.command), n);
            pulls.Ok? && pulls.value.1.s.store == store && !pulls.value.1.created
  {
    hide PW.WriteVertex, PW.WriteEdge;
    CreatedPathMatches(p, nodes, pos, s, w);
    var q, bs := Named(p), BindingsOf(nodes, PW.WriteVertex(PW.Merge, nodes, 0, s).value.ids);
    var row := Project(q, ents, bs);
    EveryEmbeddingHasItsRow(q, ents, w, bs, row);
    MergeClause.PullsMatchOrCreate(path, rows, width, PW.WriteVertex(PW.Merge, nodes, 0, s).value.s.store,
                                   PW.WriteVertex(PW.Merge, nodes, 0, s).value.s.store.command, n);
  }

  lemma NamedIsClear(p: Path)
    requires Mergeable(p)
    ensures WellFormed(Named(p)) && Clear(Named(p), [], 0)
    ensures VariablesOnce(p) ==> Accepted([], Named(p))
  {
    NamedIsWellFormed(p);
    var q := Named(p);
    forall k | 0 <= k < |q.elems| ensures q.elems[k].Name().Some? { NameFromKeeps(p.elems, 0, k); }
    assert AllNamed(q);
  }

  /**
   * The MATCH that a leading MERGE becomes: compiled in a parse state of its own from the path with every
   * element named, it is never refused when the variables are distinct, and leaves no vertex out of
   * the join.
   */
  method CompileMerge(p: Path) returns (ents: seq<Entity>, quals: seq<Qual>)
    requires Mergeable(p) && VariablesOnce(p)
    ensures WellFormed(Named(p)) && Compiled(Named(p), ents) && Alternates(ents) && PathQuals(ents) == Ok(quals)
    ensures forall e | e in ents :: e.InTree()
  {
    NamedIsClear(p);
    var state := new CypherParseState();
    var r := TransformMatchPath(state, Named(p));
    ents, quals := r.value.0, r.value.1;
    forall k | 0 <= k < |ents| ensures ents[k].InTree() {
      assert Renames(Named(p).elems[k], ents[k]);
      NameFromKeeps(p.elems, 0, k);
    }
  }
}
