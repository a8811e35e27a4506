/** When a path is created at all, and what creating it costs: ids from the sequences, and command ids. */
module PathAccepted {
  import opened Results
  import opened PropertyGraph
  import opened MatchPattern
  import opened GraphStore
  import opened PathWriter
  import opened PathWritten
  import opened PathChecks

  // ---------------------------------------------------------------- ids from the sequences

  /** How many ids of the label the targets from one position on draw. */
  function Draws(nodes: seq<Target>, i: nat, l: nat): nat
    requires i <= |nodes|
    decreases |nodes| - i
  {
    if i == |nodes| then 0 else (if nodes[i].Inserts() && nodes[i].labelId == l then 1 else 0) + Draws(nodes, i + 1, l)
  }

  /** No label's sequence runs out. */
  ghost predicate EnoughIds(nodes: seq<Target>, i: nat, store: Store)
    requires i <= |nodes|
  {
    forall l | Draws(nodes, i, l) > 0 :: store.LastOf(l) + Draws(nodes, i, l) <= ENTRY_ID_MAX
  }

  lemma OneVertexDraws(t: Target, s: State)
    requires t.VertexTarget? && Fits(t, |s.slot|) && OneVertex(t, s).Ok?
    ensures forall l :: OneVertex(t, s).value.1.store.LastOf(l) == s.store.LastOf(l) + if t.insert && t.labelId == l then 1 else 0
  {}

  lemma OneEdgeDraws(c: Clause, t: Target, x: GraphId, y: GraphId, before: seq<Datum>, s: State)
    requires t.EdgeTarget? && Fits(t, |s.slot|) && OneEdge(c, t, x, y, before, s).Ok?
    ensures forall l :: OneEdge(c, t, x, y, before, s).value.1.store.LastOf(l) == s.store.LastOf(l) + if t.labelId == l then 1 else 0
  {}

  /** A run draws one id for each target that inserts, from the sequence of its label. */
  lemma {:induction false} RunDraws(c: Clause, nodes: seq<Target>, i: nat, s: State, l: nat)
    requires WellShaped(nodes) && AllFit(nodes, |s.slot|) && i < |nodes| && nodes[i].VertexTarget?
    requires WriteVertex(c, nodes, i, s).Ok?
    ensures WriteVertex(c, nodes, i, s).value.s.store.LastOf(l) == s.store.LastOf(l) + Draws(nodes, i, l)
    decreases |nodes| - i
  {
    hide WriteVertex, WriteEdge, OneVertex, OneEdge;
    RunStarts(c, nodes, i, s);
    OneVertexDraws(nodes[i], s);
    if i + 1 < |nodes| {
      RunSplits(c, nodes, i, s);
      var (id, s1) := OneVertex(nodes[i], s).value;
      var inner := WriteVertex(c, nodes, i + 2, Between(nodes, i, s)).value;
      RunDraws(c, nodes, i + 2, Between(nodes, i, s), l);
      OneEdgeDraws(c, nodes[i + 1], id, inner.ids[0], s1.pathValues, inner.s);
    }
  }

  // ---------------------------------------------------------------- exactly when a path is created

  /** The variable of the target at k is declared by a vertex before it. */
  predicate DeclaredBefore(nodes: seq<Target>, i: nat, k: nat)
    requires k < |nodes|
  {
    exists j | i <= j < k :: nodes[j].VertexTarget? && nodes[j].Declares() && nodes[j].pos == nodes[k].pos
  }

  /**
   * The target finds what it needs in the tuple: a new entity its properties, and a direction if it is an edge of
   * CREATE; a mention of an earlier clause's vertex that vertex, shown by its check; and a mention of the clause's
   * own one, if no vertex before it in the path declares it, a vertex.
   */
  ghost predicate Acceptable(c: Clause, nodes: seq<Target>, i: nat, k: nat, slot: seq<Datum>, seen: set<GraphId>)
    requires k < |nodes|
  {
    var t := nodes[k];
    if t.Inserts() then
      (exists props :: Describes(t, slot, props)) && (t.EdgeTarget? && t.dir.Either? ==> c.Merge?)
    else if t.Checked() then
      0 < t.pos <= |slot| && slot[t.pos - 1].VertexDatum? && slot[t.pos - 1].id in seen
    else
      DeclaredBefore(nodes, i, k) || (0 < t.pos <= |slot| && slot[t.pos - 1].VertexDatum?)
  }

  ghost predicate AllAcceptable(c: Clause, nodes: seq<Target>, i: nat, s: State) {
    forall k | i <= k < |nodes| :: Acceptable(c, nodes, i, k, s.slot, s.seen)
  }

  lemma DescribesMeans(t: Target, slot: seq<Datum>)
    requires t.Inserts() && Fits(t, |slot|)
    ensures (exists props :: Describes(t, slot, props)) <==> PropsFrom(t, slot).Ok?
  {
    PropsDescribe(t, slot);
    if PropsFrom(t, slot).Ok? { assert Describes(t, slot, PropsFrom(t, slot).value); }
  }

  lemma OneVertexAccepted(c: Clause, nodes: seq<Target>, i: nat, s: State)
    requires i < |nodes| && nodes[i].VertexTarget? && Fits(nodes[i], |s.slot|)
    ensures OneVertex(nodes[i], s).Ok? <==>
      Acceptable(c, nodes, i, i, s.slot, s.seen) && (nodes[i].insert ==> s.store.LastOf(nodes[i].labelId) < ENTRY_ID_MAX)
  {
    if nodes[i].insert { DescribesMeans(nodes[i], s.slot); }
  }

  lemma OneEdgeAccepted(c: Clause, nodes: seq<Target>, i: nat, k: nat, x: GraphId, y: GraphId, before: seq<Datum>, s: State)
    requires k < |nodes| && nodes[k].EdgeTarget? && Fits(nodes[k], |s.slot|)
    ensures OneEdge(c, nodes[k], x, y, before, s).Ok? <==>
      Acceptable(c, nodes, i, k, s.slot, s.seen) && s.store.LastOf(nodes[k].labelId) < ENTRY_ID_MAX
  {
    DescribesMeans(nodes[k], s.slot);
  }

  /** What the first vertex changes in the tuple matters to no later target. */
  lemma AcceptableNext(c: Clause, nodes: seq<Target>, i: nat, s: State, k: nat)
    requires WellShaped(nodes) && AllFit(nodes, |s.slot|) && i + 1 <= k < |nodes| && nodes[i].VertexTarget? && nodes[i + 1].EdgeTarget?
    requires AttributesApart(nodes) && ChecksOutside(nodes) && OneVertex(nodes[i], s).Ok?
    ensures Acceptable(c, nodes, i + 2, k, Between(nodes, i, s).slot, Between(nodes, i, s).seen) <==> Acceptable(c, nodes, i, k, s.slot, s.seen)
  {
    var s2, t := Between(nodes, i, s), nodes[k];
    assert forall p | 0 <= p < |s.slot| && !(nodes[i].Declares() && p == nodes[i].pos - 1) :: s2.slot[p] == s.slot[p];
    assert nodes[i].Declares() ==> s2.slot[nodes[i].pos - 1].VertexDatum?;
    if t.Inserts() {
      assert forall props :: Describes(t, s2.slot, props) <==> Describes(t, s.slot, props);
    } else if !t.Checked() {
      assert Fits(t, |s.slot|);
      if nodes[i].Declares() && nodes[i].pos == t.pos {
        assert DeclaredBefore(nodes, i, k);
      } else {
        assert DeclaredBefore(nodes, i + 2, k) <==> DeclaredBefore(nodes, i, k);
      }
    }
  }

  /** Enough ids for the whole are enough for the vertex, for the run behind its edge, and then for the edge. */
  lemma EnoughSplits(nodes: seq<Target>, i: nat, s: State, s2: State)
    requires i + 1 < |nodes| && nodes[i].VertexTarget? && nodes[i + 1].EdgeTarget?
    requires forall l :: s2.store.LastOf(l) == s.store.LastOf(l) + if nodes[i].insert && nodes[i].labelId == l then 1 else 0
    ensures EnoughIds(nodes, i, s.store) <==>
      && (nodes[i].insert ==> s.store.LastOf(nodes[i].labelId) < ENTRY_ID_MAX)
      && EnoughIds(nodes, i + 2, s2.store)
      && s2.store.LastOf(nodes[i + 1].labelId) + Draws(nodes, i + 2, nodes[i + 1].labelId) < ENTRY_ID_MAX
  {
    forall l ensures Draws(nodes, i, l) == (if nodes[i].insert && nodes[i].labelId == l then 1 else 0)
                                           + (if nodes[i + 1].labelId == l then 1 else 0) + Draws(nodes, i + 2, l) {
      assert Draws(nodes, i, l) == (if nodes[i].insert && nodes[i].labelId == l then 1 else 0) + Draws(nodes, i + 1, l);
    }
    hide Draws;
    if EnoughIds(nodes, i, s.store) {
      assert Draws(nodes, i, nodes[i + 1].labelId) > 0;
      if nodes[i].insert { assert Draws(nodes, i, nodes[i].labelId) > 0; }
      forall l | Draws(nodes, i + 2, l) > 0 ensures s2.store.LastOf(l) + Draws(nodes, i + 2, l) <= ENTRY_ID_MAX {
        assert Draws(nodes, i, l) > 0;
      }
    }
  }

  /** A run is a vertex, a run behind its edge, and the edge; it is accepted if these are. */
  lemma RunAcceptedSplits(c: Clause, nodes: seq<Target>, i: nat, s: State)
    requires WellShaped(nodes) && AllFit(nodes, |s.slot|) && i < |nodes| && nodes[i].VertexTarget?
    ensures i + 1 == |nodes| ==> WriteVertex(c, nodes, i, s).Ok? == OneVertex(nodes[i], s).Ok?
    ensures i + 1 < |nodes| ==> i + 2 < |nodes| && nodes[i + 1].EdgeTarget? && nodes[i + 2].VertexTarget?
    ensures i + 1 < |nodes| ==>
      (WriteVertex(c, nodes, i, s).Ok? <==>
         && OneVertex(nodes[i], s).Ok?
         && var s2 := Between(nodes, i, s);
         && WriteVertex(c, nodes, i + 2, s2).Ok?
         && var inner := WriteVertex(c, nodes, i + 2, s2).value;
         OneEdge(c, nodes[i + 1], OneVertex(nodes[i], s).value.0, inner.ids[0], OneVertex(nodes[i], s).value.1.pathValues, inner.s).Ok?)
  {
    if i + 1 < |nodes| {
      assert nodes[i + 1].VertexTarget? == nodes[i].EdgeTarget?;
      assert nodes[i + 2].VertexTarget? == nodes[i + 1].EdgeTarget?;
    }
  }

  /**
   * A path is created, and not refused with an error, exactly when every target finds what it needs and no label
   * runs out of ids.
   */
  lemma {:induction false} RunAcceptedExactly(c: Clause, nodes: seq<Target>, i: nat, s: State)
    requires WellShaped(nodes) && AllFit(nodes, |s.slot|) && i < |nodes| && nodes[i].VertexTarget?
    requires AttributesApart(nodes) && ChecksOutside(nodes)
    ensures WriteVertex(c, nodes, i, s).Ok? <==> AllAcceptable(c, nodes, i, s) && EnoughIds(nodes, i, s.store)
    decreases |nodes| - i
  {
    hide WriteVertex, WriteEdge, OneVertex, OneEdge, Acceptable, AttributesApart, ChecksOutside, EnoughIds;
    RunAcceptedSplits(c, nodes, i, s);
    OneVertexAccepted(c, nodes, i, s);
    if i + 1 == |nodes| {
      LastEnough(nodes, i, s);
    } else if OneVertex(nodes[i], s).Ok? {
      var s2 := Between(nodes, i, s);
      OneVertexDraws(nodes[i], s);
      EnoughSplits(nodes, i, s, s2);
      forall k | i + 1 <= k < |nodes|
        ensures Acceptable(c, nodes, i + 2, k, s2.slot, s2.seen) <==> Acceptable(c, nodes, i, k, s.slot, s.seen)
      {
        AcceptableNext(c, nodes, i, s, k);
      }
      RunAcceptedExactly(c, nodes, i + 2, s2);
      if WriteVertex(c, nodes, i + 2, s2).Ok? {
        var inner, edge := WriteVertex(c, nodes, i + 2, s2).value, nodes[i + 1];
        RunDraws(c, nodes, i + 2, s2, edge.labelId);
        OneEdgeAccepted(c, nodes, i, i + 1, OneVertex(nodes[i], s).value.0, inner.ids[0], OneVertex(nodes[i], s).value.1.pathValues, inner.s);
        EdgeAcceptableStill(c, nodes, i, s2, inner.s);
        AcceptableNext(c, nodes, i, s, i + 1);
      }
      AllAcceptableSplits(c, nodes, i, s, s2);
    } else {
      if EnoughIds(nodes, i, s.store) { VertexNeedsId(nodes, i, s); }
      assert AllAcceptable(c, nodes, i, s) ==> Acceptable(c, nodes, i, i, s.slot, s.seen);
    }
  }

  lemma AllAcceptableSplits(c: Clause, nodes: seq<Target>, i: nat, s: State, s2: State)
    requires i + 1 < |nodes|
    requires forall k | i + 1 <= k < |nodes| ::
      Acceptable(c, nodes, i + 2, k, s2.slot, s2.seen) <==> Acceptable(c, nodes, i, k, s.slot, s.seen)
    ensures AllAcceptable(c, nodes, i, s) <==>
      && Acceptable(c, nodes, i, i, s.slot, s.seen) && Acceptable(c, nodes, i, i + 1, s.slot, s.seen)
      && AllAcceptable(c, nodes, i + 2, s2)
  {
    hide Acceptable;
    var next := i + 2;
    if AllAcceptable(c, nodes, i, s) {
      forall k | next <= k < |nodes| ensures Acceptable(c, nodes, next, k, s2.slot, s2.seen) {
        assert Acceptable(c, nodes, i, k, s.slot, s.seen);
      }
    }
    if Acceptable(c, nodes, i, i, s.slot, s.seen) && Acceptable(c, nodes, i, i + 1, s.slot, s.seen) && AllAcceptable(c, nodes, i + 2, s2) {
      forall k | i <= k < |nodes| ensures Acceptable(c, nodes, i, k, s.slot, s.seen) {
        if k >= i + 2 { assert Acceptable(c, nodes, i + 2, k, s2.slot, s2.seen); }
      }
    }
  }

  lemma LastEnough(nodes: seq<Target>, i: nat, s: State)
    requires i + 1 == |nodes| && nodes[i].VertexTarget?
    ensures EnoughIds(nodes, i, s.store) <==> (nodes[i].insert ==> s.store.LastOf(nodes[i].labelId) < ENTRY_ID_MAX)
  {
    assert forall l :: Draws(nodes, i, l) == (if nodes[i].insert && nodes[i].labelId == l then 1 else 0) + Draws(nodes, i + 1, l);
    if nodes[i].insert { assert Draws(nodes, i, nodes[i].labelId) == 1; }
  }

  lemma VertexNeedsId(nodes: seq<Target>, i: nat, s: State)
    requires i < |nodes| && nodes[i].VertexTarget? && EnoughIds(nodes, i, s.store)
    ensures nodes[i].insert ==> s.store.LastOf(nodes[i].labelId) < ENTRY_ID_MAX
  {
    if nodes[i].insert {
      assert Draws(nodes, i, nodes[i].labelId) == 1 + Draws(nodes, i + 1, nodes[i].labelId);
    }
  }

  /** The run behind an edge leaves the attribute of its properties. */
  lemma EdgeAcceptableStill(c: Clause, nodes: seq<Target>, i: nat, s2: State, s3: State)
    requires WellShaped(nodes) && AllFit(nodes, |s2.slot|) && i + 2 < |nodes| && nodes[i + 1].EdgeTarget? && nodes[i + 2].VertexTarget?
    requires AttributesApart(nodes) && WriteVertex(c, nodes, i + 2, s2).Ok? && s3 == WriteVertex(c, nodes, i + 2, s2).value.s
    ensures Acceptable(c, nodes, i, i + 1, s3.slot, s3.seen) <==> Acceptable(c, nodes, i + 2, i + 1, s2.slot, s2.seen)
  {
    hide WriteVertex, WriteEdge;
    var t := nodes[i + 1];
    if t.from.Attribute? { RunFramesSlot(c, nodes, i + 2, s2, t.from.pos); }
    assert forall props :: Describes(t, s3.slot, props) <==> Describes(t, s2.slot, props);
  }

  // ---------------------------------------------------------------- command ids

  predicate InsertsVertex(nodes: seq<Target>, i: nat) {
    exists k | i <= k < |nodes| :: nodes[k].VertexTarget? && nodes[k].insert
  }

  lemma OneVertexCommands(t: Target, s: State)
    requires t.VertexTarget? && Fits(t, |s.slot|) && OneVertex(t, s).Ok? && s.store.finished <= |s.store.writes|
    ensures var s1 := OneVertex(t, s).value.1;
            && s1.base == s.base && s1.store.finished <= |s1.store.writes|
            && s1.store.command == s.store.command + if t.insert && s.base == Some(s.store.command) then 1 else 0
  {}

  lemma OneEdgeCommands(c: Clause, t: Target, x: GraphId, y: GraphId, before: seq<Datum>, s: State)
    requires t.EdgeTarget? && Fits(t, |s.slot|) && OneEdge(c, t, x, y, before, s).Ok? && s.store.finished <= |s.store.writes|
    ensures var s1 := OneEdge(c, t, x, y, before, s).value.1;
            s1.base == s.base && s1.store.finished <= |s1.store.writes| && s1.store.command == s.store.command
  {}

  /**
   * The first vertex that a MERGE inserts under the command id at which it began ends that command, and nothing else
   * in a path does; CREATE, which has no such id, leaves the command as it is.
   */
  lemma {:induction false} RunCommands(c: Clause, nodes: seq<Target>, i: nat, s: State)
    requires WellShaped(nodes) && AllFit(nodes, |s.slot|) && i < |nodes| && nodes[i].VertexTarget?
    requires WriteVertex(c, nodes, i, s).Ok? && s.store.finished <= |s.store.writes|
    ensures var t := WriteVertex(c, nodes, i, s).value.s;
            && t.base == s.base && t.store.finished <= |t.store.writes|
            && t.store.command == s.store.command + if s.base == Some(s.store.command) && InsertsVertex(nodes, i) then 1 else 0
    decreases |nodes| - i
  {
    hide WriteVertex, WriteEdge, OneVertex, OneEdge;
    RunStarts(c, nodes, i, s);
    OneVertexCommands(nodes[i], s);
    if i + 1 < |nodes| {
      RunSplits(c, nodes, i, s);
      var (id, s1) := OneVertex(nodes[i], s).value;
      var inner := WriteVertex(c, nodes, i + 2, Between(nodes, i, s)).value;
      RunCommands(c, nodes, i + 2, Between(nodes, i, s));
      OneEdgeCommands(c, nodes[i + 1], id, inner.ids[0], s1.pathValues, inner.s);
      assert InsertsVertex(nodes, i) <==> nodes[i].insert || InsertsVertex(nodes, i + 2);
    }
  }
}
