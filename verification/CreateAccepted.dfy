/** Exactly when CREATE accepts its rows, and what each target needs for that. */
module CreateAccepted {
  import opened Results
  import opened PropertyGraph
  import opened MatchPattern
  import opened GraphStore
  import opened PathWriter
  import opened PathWritten
  import opened PathChecks
  import opened PathAccepted
  import opened CreateClause
  import opened CreateTheorems

  /** A new entity finds its properties and has a direction if it is an edge; a checked mention finds a vertex that its check shows. */
  ghost predicate Supplied(t: Target, slot: seq<Datum>, seen: set<GraphId>) {
    if t.Inserts() then (exists props :: Describes(t, slot, props)) && (t.EdgeTarget? ==> !t.dir.Either?)
    else t.Checked() ==> 0 < t.pos <= |slot| && slot[t.pos - 1].VertexDatum? && slot[t.pos - 1].id in seen
  }

  ghost predicate AllSupplied(pattern: seq<CreatePath>, slot: seq<Datum>, seen: set<GraphId>) {
    forall q, k | At(pattern, q, k) :: Supplied(pattern[q].nodes[k], slot, seen)
  }

  function DrawsIn(pattern: seq<CreatePath>, l: nat): nat {
    if pattern == [] then 0 else Draws(pattern[0].nodes, 0, l) + DrawsIn(pattern[1..], l)
  }

  /** No label's sequence runs out. */
  ghost predicate EnoughIn(pattern: seq<CreatePath>, store: Store) {
    forall l | DrawsIn(pattern, l) > 0 :: store.LastOf(l) + DrawsIn(pattern, l) <= ENTRY_ID_MAX
  }

  /** The attribute of a clause-local variable that no path declares any more holds a vertex. */
  ghost predicate HoldsVertex(slot: seq<Datum>, pos: nat) {
    0 < pos <= |slot| && slot[pos - 1].VertexDatum?
  }

  ghost predicate MentionHeld(pattern: seq<CreatePath>, slot: seq<Datum>, q: int, k: int)
    requires At(pattern, q, k)
  {
    var pos := pattern[q].nodes[k].pos;
    || (exists p, j :: DeclaresVertexAt(pattern, p, j, pos) && (p < q || (p == q && j < k)))
    || (HoldsVertex(slot, pos) && Undeclared(pattern, pos))
  }

  /** Mentions of clause-local variables come behind their declaration, here or in an earlier path. */
  ghost predicate LocalsHeld(pattern: seq<CreatePath>, slot: seq<Datum>) {
    forall q, k | MentionsAt(pattern, q, k) :: MentionHeld(pattern, slot, q, k)
  }

  lemma PlannedIsHeld(pattern: seq<CreatePath>, slot: seq<Datum>)
    requires Planned(pattern)
    ensures Apart(pattern) && LocalsHeld(pattern, slot)
  {
    hide Apart, Undeclared;
  }

  lemma OneVertexHolds(t: Target, s: State)
    requires t.VertexTarget? && Fits(t, |s.slot|) && OneVertex(t, s).Ok?
    ensures OneVertex(t, s).value.1.seen == s.seen
    ensures t.Declares() ==> OneVertex(t, s).value.1.slot[t.pos - 1].VertexDatum?
  {}

  lemma {:induction false} RunKeepsSeen(c: Clause, nodes: seq<Target>, i: nat, s: State)
    requires WellShaped(nodes) && AllFit(nodes, |s.slot|) && i < |nodes| && nodes[i].VertexTarget?
    requires WriteVertex(c, nodes, i, s).Ok?
    ensures WriteVertex(c, nodes, i, s).value.s.seen == s.seen
    decreases |nodes| - i
  {
    hide WriteVertex, WriteEdge, OneVertex;
    RunStarts(c, nodes, i, s);
    OneVertexHolds(nodes[i], s);
    if i + 1 < |nodes| {
      RunSplits(c, nodes, i, s);
      RunKeepsSeen(c, nodes, i + 2, Between(nodes, i, s));
    }
  }

  /** The attribute of a vertex variable of the path ends up holding a vertex. */
  lemma {:induction false} RunHoldsVertex(c: Clause, nodes: seq<Target>, i: nat, s: State, j: nat)
    requires WellShaped(nodes) && AllFit(nodes, |s.slot|) && i <= j < |nodes| && nodes[i].VertexTarget?
    requires VariablesApart(nodes) && WriteVertex(c, nodes, i, s).Ok? && nodes[j].VertexTarget? && nodes[j].Declares()
    ensures HoldsVertex(WriteVertex(c, nodes, i, s).value.s.slot, nodes[j].pos)
    decreases |nodes| - i
  {
    hide WriteVertex, WriteEdge, OneVertex, OneEdge;
    RunStarts(c, nodes, i, s);
    OneVertexHolds(nodes[i], s);
    assert Fits(nodes[j], |s.slot|);
    if i + 1 < |nodes| {
      RunSplits(c, nodes, i, s);
      var s2 := Between(nodes, i, s);
      var inner, r := WriteVertex(c, nodes, i + 2, s2).value, WriteVertex(c, nodes, i, s).value;
      EdgeFramesSlot(c, nodes[i + 1], OneVertex(nodes[i], s).value.0, inner.ids[0], OneVertex(nodes[i], s).value.1.pathValues, inner.s);
      if j == i {
        RunFramesSlot(c, nodes, i + 2, s2, nodes[j].pos - 1);
      } else {
        RunHoldsVertex(c, nodes, i + 2, s2, j);
      }
    }
  }

  lemma EdgeFramesSlot(c: Clause, t: Target, x: GraphId, y: GraphId, before: seq<Datum>, s: State)
    requires t.EdgeTarget? && Fits(t, |s.slot|) && OneEdge(c, t, x, y, before, s).Ok?
    ensures var s1 := OneEdge(c, t, x, y, before, s).value.1;
            |s1.slot| == |s.slot| && forall p | 0 <= p < |s.slot| && !(t.Declares() && p == t.pos - 1) :: s1.slot[p] == s.slot[p]
  {}

  /** After the first path the other paths' mentions still find their variables. */
  lemma RestHeld(pattern: seq<CreatePath>, s: State)
    requires pattern != [] && AllReady(pattern, |s.slot|) && Apart(pattern) && LocalsHeld(pattern, s.slot)
    requires Ready(pattern[0], |s.slot|) && WriteVertex(Create, pattern[0].nodes, 0, s).Ok?
    ensures LocalsHeld(pattern[1..], After(pattern, s).slot)
  {
    hide WriteVertex, WriteEdge, Apart, Undeclared, HoldsVertex;
    var rest := pattern[1..];
    forall q, k | MentionsAt(rest, q, k) ensures MentionHeld(rest, After(pattern, s).slot, q, k) {
      assert MentionsAt(pattern, q + 1, k);
      var pos := rest[q].nodes[k].pos;
      if p, j :| DeclaresVertexAt(pattern, p, j, pos) && (p < q + 1 || (p == q + 1 && j < k)) {
        if p == 0 { FirstHolds(pattern, s, j, pos); } else { assert DeclaresVertexAt(rest, p - 1, j, pos); }
      } else {
        StillHolds(pattern, s, q + 1, k);
      }
    }
  }

  lemma FirstHolds(pattern: seq<CreatePath>, s: State, j: int, pos: nat)
    requires pattern != [] && Apart(pattern) && Ready(pattern[0], |s.slot|) && WriteVertex(Create, pattern[0].nodes, 0, s).Ok?
    requires DeclaresVertexAt(pattern, 0, j, pos)
    ensures HoldsVertex(After(pattern, s).slot, pos) && Undeclared(pattern[1..], pos)
  {
    FirstPathApart(pattern);
    hide WriteVertex, WriteEdge, Apart, AttributesApart, VariablesApart;
    RunHoldsVertex(Create, pattern[0].nodes, 0, s, j);
    PathValueApart(pattern, WriteVertex(Create, pattern[0].nodes, 0, s).value.s, 0, j);
    DeclaredOnce(pattern, j, pos);
  }

  lemma StillHolds(pattern: seq<CreatePath>, s: State, q: int, k: int)
    requires pattern != [] && AllReady(pattern, |s.slot|) && Apart(pattern) && Ready(pattern[0], |s.slot|)
    requires WriteVertex(Create, pattern[0].nodes, 0, s).Ok? && MentionsAt(pattern, q, k)
    requires HoldsVertex(s.slot, pattern[q].nodes[k].pos) && Undeclared(pattern, pattern[q].nodes[k].pos)
    ensures HoldsVertex(After(pattern, s).slot, pattern[q].nodes[k].pos) && Undeclared(pattern[1..], pattern[q].nodes[k].pos)
  {
    hide WriteVertex, WriteEdge, Apart;
    FirstPathKeeps(pattern, s, q, k);
    UndeclaredRest(pattern, pattern[q].nodes[k].pos);
  }

  /** The first path is accepted exactly when its targets are supplied and there are ids enough. */
  lemma FirstAccepted(pattern: seq<CreatePath>, s: State)
    requires pattern != [] && AllReady(pattern, |s.slot|) && Apart(pattern) && ChecksUndeclared(pattern) && LocalsHeld(pattern, s.slot)
    ensures Ready(pattern[0], |s.slot|)
    ensures WriteVertex(Create, pattern[0].nodes, 0, s).Ok? <==>
      && (forall k | At(pattern, 0, k) :: Supplied(pattern[0].nodes[k], s.slot, s.seen))
      && EnoughIds(pattern[0].nodes, 0, s.store)
  {
    RestReady(pattern, |s.slot|);
    FirstPathApart(pattern);
    FirstChecksOutside(pattern);
    var nodes := pattern[0].nodes;
    hide WriteVertex, WriteEdge, Apart, AttributesApart, VariablesApart, ChecksOutside;
    RunAcceptedExactly(Create, nodes, 0, s);
    forall k | 0 <= k < |nodes| ensures Acceptable(Create, nodes, 0, k, s.slot, s.seen) <==> Supplied(nodes[k], s.slot, s.seen) {
      if MentionsAt(pattern, 0, k) { FirstMention(pattern, s, k); }
    }
    hide Acceptable, Supplied;
    assert forall k :: At(pattern, 0, k) <==> 0 <= k < |nodes|;
    if WriteVertex(Create, nodes, 0, s).Ok? {
      forall k | 0 <= k < |nodes| ensures Supplied(nodes[k], s.slot, s.seen) { assert Acceptable(Create, nodes, 0, k, s.slot, s.seen); }
    }
    if forall k | At(pattern, 0, k) :: Supplied(nodes[k], s.slot, s.seen) {
      forall k | 0 <= k < |nodes| ensures Acceptable(Create, nodes, 0, k, s.slot, s.seen) { assert At(pattern, 0, k); }
    }
  }

  lemma FirstMention(pattern: seq<CreatePath>, s: State, k: nat)
    requires LocalsHeld(pattern, s.slot) && MentionsAt(pattern, 0, k)
    ensures Acceptable(Create, pattern[0].nodes, 0, k, s.slot, s.seen)
  {
    assert MentionHeld(pattern, s.slot, 0, k);
  }

  /** The first path takes nothing from what the others need. */
  lemma RestSupplied(pattern: seq<CreatePath>, s: State)
    requires pattern != [] && AllReady(pattern, |s.slot|) && Apart(pattern) && ChecksUndeclared(pattern)
    requires Ready(pattern[0], |s.slot|) && WriteVertex(Create, pattern[0].nodes, 0, s).Ok?
    ensures After(pattern, s).seen == s.seen
    ensures AllSupplied(pattern, s.slot, s.seen) <==>
      && (forall k | At(pattern, 0, k) :: Supplied(pattern[0].nodes[k], s.slot, s.seen))
      && AllSupplied(pattern[1..], After(pattern, s).slot, s.seen)
  {
    hide WriteVertex, WriteEdge, Apart, AllReady;
    RunKeepsSeen(Create, pattern[0].nodes, 0, s);
    var rest, s1 := pattern[1..], After(pattern, s);
    forall q, k | At(pattern, q, k)
      ensures Supplied(pattern[q].nodes[k], s1.slot, s.seen) <==> Supplied(pattern[q].nodes[k], s.slot, s.seen)
    {
      if pattern[q].nodes[k].Inserts() {
        FirstPathKeepsProps(pattern, s, q, k);
      } else if ChecksAt(pattern, q, k) {
        FirstPathKeeps(pattern, s, q, k);
      }
    }
    hide Supplied;
    if AllSupplied(pattern, s.slot, s.seen) {
      forall q, k | At(rest, q, k) ensures Supplied(rest[q].nodes[k], s1.slot, s.seen) { assert At(pattern, q + 1, k); }
    }
    if (forall k | At(pattern, 0, k) :: Supplied(pattern[0].nodes[k], s.slot, s.seen)) && AllSupplied(rest, s1.slot, s.seen) {
      forall q, k | At(pattern, q, k) ensures Supplied(pattern[q].nodes[k], s.slot, s.seen) {
        if q > 0 { assert At(rest, q - 1, k); }
      }
    }
  }

  /** A pattern draws one id for each target that inserts. */
  lemma {:induction false} PatternDraws(pattern: seq<CreatePath>, s: State, l: nat)
    requires AllReady(pattern, |s.slot|) && ProcessPattern(pattern, s).Ok?
    ensures ProcessPattern(pattern, s).value.s.store.LastOf(l) == s.store.LastOf(l) + DrawsIn(pattern, l)
  {
    hide WriteVertex, WriteEdge, ProcessPattern, AllReady;
    if pattern == [] {
      NoPaths(s);
    } else {
      PatternEnds(pattern, s);
      RestReady(pattern, |s.slot|);
      RunDraws(Create, pattern[0].nodes, 0, s, l);
      PatternDraws(pattern[1..], After(pattern, s), l);
    }
  }

  lemma PatternAcceptedSplits(pattern: seq<CreatePath>, s: State)
    requires pattern != [] && AllReady(pattern, |s.slot|)
    ensures Ready(pattern[0], |s.slot|) && AllReady(pattern[1..], |s.slot|)
    ensures ProcessPattern(pattern, s).Ok? <==>
      WriteVertex(Create, pattern[0].nodes, 0, s).Ok? && ProcessPattern(pattern[1..], After(pattern, s)).Ok?
  {
    hide WriteVertex, WriteEdge;
    RestReady(pattern, |s.slot|);
  }

  /**
   * A row is accepted, and not refused with an error, exactly when every target of every path is supplied by the row
   * as it came, and no label's sequence runs out.
   */
  lemma {:induction false} PatternAcceptedExactly(pattern: seq<CreatePath>, s: State)
    requires AllReady(pattern, |s.slot|) && Apart(pattern) && ChecksUndeclared(pattern) && LocalsHeld(pattern, s.slot)
    ensures ProcessPattern(pattern, s).Ok? <==>
      AllSupplied(pattern, s.slot, s.seen) && EnoughIn(pattern, s.store)
  {
    hide WriteVertex, WriteEdge, ProcessPattern, AllReady, Apart, ChecksUndeclared, LocalsHeld, Supplied;
    if pattern == [] {
      NoPaths(s);
    } else {
      PatternAcceptedSplits(pattern, s);
      FirstAccepted(pattern, s);
      if WriteVertex(Create, pattern[0].nodes, 0, s).Ok? {
        var s1 := After(pattern, s);
        RestSupplied(pattern, s);
        RestApart(pattern);
        RestChecksUndeclared(pattern);
        RestHeld(pattern, s);
        PatternAcceptedExactly(pattern[1..], s1);
        forall l ensures s1.store.LastOf(l) == s.store.LastOf(l) + Draws(pattern[0].nodes, 0, l) {
          RunDraws(Create, pattern[0].nodes, 0, s, l);
        }
        EnoughInSplits(pattern, s.store, s1.store);
      } else {
        if EnoughIn(pattern, s.store) { EnoughForFirst(pattern, s.store); }
        NotSupplied(pattern, s.slot, s.seen);
      }
    }
  }

  lemma EnoughForFirst(pattern: seq<CreatePath>, store: Store)
    requires pattern != [] && EnoughIn(pattern, store)
    ensures EnoughIds(pattern[0].nodes, 0, store)
  {
    forall l | Draws(pattern[0].nodes, 0, l) > 0 ensures store.LastOf(l) + Draws(pattern[0].nodes, 0, l) <= ENTRY_ID_MAX {
      assert DrawsIn(pattern, l) > 0;
    }
  }

  lemma EnoughInSplits(pattern: seq<CreatePath>, store: Store, next: Store)
    requires pattern != [] && forall l :: next.LastOf(l) == store.LastOf(l) + Draws(pattern[0].nodes, 0, l)
    ensures EnoughIn(pattern, store) <==> EnoughIds(pattern[0].nodes, 0, store) && EnoughIn(pattern[1..], next)
  {
    forall l ensures DrawsIn(pattern, l) == Draws(pattern[0].nodes, 0, l) + DrawsIn(pattern[1..], l) {}
    if EnoughIn(pattern, store) {
      EnoughForFirst(pattern, store);
      forall l | DrawsIn(pattern[1..], l) > 0 ensures next.LastOf(l) + DrawsIn(pattern[1..], l) <= ENTRY_ID_MAX {
        assert DrawsIn(pattern, l) > 0;
      }
    }
    if EnoughIds(pattern[0].nodes, 0, store) && EnoughIn(pattern[1..], next) {
      forall l | DrawsIn(pattern, l) > 0 ensures store.LastOf(l) + DrawsIn(pattern, l) <= ENTRY_ID_MAX {
        assert DrawsIn(pattern[1..], l) > 0 || Draws(pattern[0].nodes, 0, l) > 0;
      }
    }
  }

  lemma NotSupplied(pattern: seq<CreatePath>, slot: seq<Datum>, seen: set<GraphId>)
    requires pattern != []
    ensures AllSupplied(pattern, slot, seen) ==> forall k | At(pattern, 0, k) :: Supplied(pattern[0].nodes[k], slot, seen)
  {}

  // ---------------------------------------------------------------- all rows

  /** No label's sequence runs out over n rows. */
  ghost predicate EnoughForRows(pattern: seq<CreatePath>, n: nat, store: Store) {
    forall l | n * DrawsIn(pattern, l) > 0 :: store.LastOf(l) + n * DrawsIn(pattern, l) <= ENTRY_ID_MAX
  }

  lemma OneMoreRow(n: nat, d: nat)
    ensures (n + 1) * d == d + n * d && n * d >= 0 && (n * d > 0 ==> d > 0)
  {}

  lemma EnoughForRowsSplits(pattern: seq<CreatePath>, n: nat, store: Store, next: Store)
    requires forall l :: next.LastOf(l) == store.LastOf(l) + DrawsIn(pattern, l)
    ensures EnoughForRows(pattern, n + 1, store) <==> EnoughIn(pattern, store) && EnoughForRows(pattern, n, next)
  {
    forall l ensures (n + 1) * DrawsIn(pattern, l) == DrawsIn(pattern, l) + n * DrawsIn(pattern, l) { OneMoreRow(n, DrawsIn(pattern, l)); }
    if EnoughForRows(pattern, n + 1, store) {
      EnoughForFirstRow(pattern, n, store);
      forall l | n * DrawsIn(pattern, l) > 0 ensures next.LastOf(l) + n * DrawsIn(pattern, l) <= ENTRY_ID_MAX {
        assert (n + 1) * DrawsIn(pattern, l) > 0;
      }
    }
    if EnoughIn(pattern, store) && EnoughForRows(pattern, n, next) {
      forall l | (n + 1) * DrawsIn(pattern, l) > 0 ensures store.LastOf(l) + (n + 1) * DrawsIn(pattern, l) <= ENTRY_ID_MAX {
        OneMoreRow(n, DrawsIn(pattern, l));
        assert n * DrawsIn(pattern, l) > 0 || DrawsIn(pattern, l) > 0;
      }
    }
  }

  lemma EnoughForFirstRow(pattern: seq<CreatePath>, n: nat, store: Store)
    requires EnoughForRows(pattern, n + 1, store)
    ensures EnoughIn(pattern, store)
  {
    forall l | DrawsIn(pattern, l) > 0 ensures store.LastOf(l) + DrawsIn(pattern, l) <= ENTRY_ID_MAX {
      OneMoreRow(n, DrawsIn(pattern, l));
      assert (n + 1) * DrawsIn(pattern, l) > 0;
    }
  }

  lemma RowsAcceptedSplits(pattern: seq<CreatePath>, rows: seq<Input>, store: Store)
    requires rows != [] && forall i | 0 <= i < |rows| :: AllReady(pattern, |rows[i].row|)
    ensures AllReady(pattern, |rows[0].row|)
    ensures ProcessRows(pattern, rows, store).Ok? <==>
      && ProcessPattern(pattern, StateFor(rows[0], store)).Ok?
      && ProcessRows(pattern, rows[1..], ProcessPattern(pattern, StateFor(rows[0], store)).value.s.store).Ok?
  {
    hide ProcessPattern;
  }

  lemma NoRowsAccepted(pattern: seq<CreatePath>, store: Store)
    ensures ProcessRows(pattern, [], store).Ok? && EnoughForRows(pattern, 0, store)
  {}

  /** Every row is accepted exactly when each of them supplies all targets and no label's sequence runs out on the way. */
  lemma {:induction false} RowsAcceptedExactly(pattern: seq<CreatePath>, rows: seq<Input>, store: Store)
    requires forall i | 0 <= i < |rows| :: AllReady(pattern, |rows[i].row|)
    requires Planned(pattern) && ChecksUndeclared(pattern)
    ensures ProcessRows(pattern, rows, store).Ok? <==>
      (forall i | 0 <= i < |rows| :: AllSupplied(pattern, rows[i].row, rows[i].seen)) && EnoughForRows(pattern, |rows|, store)
  {
    hide ProcessPattern, ProcessRows, AllReady, Planned, Apart, ChecksUndeclared, AllSupplied, EnoughForRows, EnoughIn, LocalsHeld;
    if rows == [] {
      NoRowsAccepted(pattern, store);
    } else {
      RowsAcceptedSplits(pattern, rows, store);
      var s := StateFor(rows[0], store);
      PlannedIsHeld(pattern, s.slot);
      PatternAcceptedExactly(pattern, s);
      if ProcessPattern(pattern, s).Ok? {
        var next := ProcessPattern(pattern, s).value.s.store;
        forall l ensures next.LastOf(l) == store.LastOf(l) + DrawsIn(pattern, l) { PatternDraws(pattern, s, l); }
        EnoughForRowsSplits(pattern, |rows| - 1, store, next);
        assert forall i | 0 <= i < |rows[1..]| :: rows[1..][i] == rows[i + 1];
        RowsAcceptedExactly(pattern, rows[1..], next);
        assert forall i | 0 < i < |rows| :: rows[i] == rows[1..][i - 1];
      } else if EnoughForRows(pattern, |rows|, store) {
        EnoughForFirstRow(pattern, |rows| - 1, store);
      }
    }
  }
}
