/**
 * Runs of update clauses over one graph. The clauses of a query pull rows from each other, so a run is any
 * sequence of single rows, each handled by some CREATE, MERGE, SET or DELETE, with the command counter
 * advancing in between. Each clause reads through a command id of its own.
 */
module Runs {
  import opened Results
  import opened PropertyGraph
  import opened GraphStore
  import opened PathWriter
  import opened PathWritten
  import opened PathChecks
  import opened CreateClause
  import opened CreateTheorems
  import opened MergeClause
  import opened DeleteClause
  import opened CommandIds
  import opened SetClause
  import opened SetTheorems

  datatype Step =
    | CreateStep(pattern: seq<CreatePath>, row: seq<Datum>, cid: nat)
    | MergeStep(path: CreatePath, row: seq<Datum>, pathValues: seq<Datum>, cid: nat, base: nat)
    | PullStep(path: CreatePath, rows: seq<seq<Datum>>, width: nat, puller: Puller)
    | SetStep(items: seq<SetItem>, row: seq<Datum>, outputCid: nat)
    | DeleteStep(detach: bool, entities: seq<Datum>, scans: seq<Scan>, cid: nat)
    | EndStep

  /** What the planner guarantees of a clause, whatever the store holds. */
  ghost predicate WellPlanned(step: Step) {
    match step
    case CreateStep(pattern, row, _) => AllReady(pattern, |row|) && Planned(pattern) && ChecksUndeclared(pattern)
    case MergeStep(path, row, _, _, _) =>
      Placed(path, |row|) && AttributesApart(path.nodes) && ChecksAll(path.nodes) && ChecksOutside(path.nodes)
    case PullStep(path, rows, width, m) =>
      Ready(path, width) && m.cursor <= |rows| && AttributesApart(path.nodes) && ChecksAll(path.nodes)
    case SetStep(items, row, _) => ItemsFit(items, row)
    case DeleteStep(_, entities, scans, _) => |scans| == |entities|
    case EndStep => true
  }

  /** The vertices that an existence check finds through the command id. */
  function FoundAt(store: Store, cid: nat): set<GraphId> {
    store.SeenAt(cid).vertices.Keys
  }

  function Act(step: Step, store: Store): Result<Store>
    requires WellPlanned(step)
  {
    match step
    case CreateStep(pattern, row, cid) =>
      var run :- ProcessPattern(pattern, CreateTheorems.StateFor(Input(row, FoundAt(store, cid)), store));
      Ok(run.s.store)
    case MergeStep(path, row, values, cid, base) =>
      var (next, _) :- MergeRows(path, [Input(row, FoundAt(store, cid))], store, values, base);
      Ok(next)
    case PullStep(path, rows, width, m) =>
      var (_, next) :- PullOnce(path, rows, width, m.(s := m.s.(store := store)));
      Ok(next.s.store)
    case SetStep(items, row, outputCid) =>
      var (_, next) :- SetRow(items, row, store, outputCid);
      Ok(next)
    case DeleteStep(detach, entities, scans, _) => DeleteAll(entities, scans, detach, store)
    case EndStep => Ok(store.EndCommand())
  }

  /** The edge, with these endpoints, was in the graph at some moment of the run so far. */
  ghost predicate WasEdge(store: Store, id: GraphId, e: Edge) {
    exists n :: 0 <= n <= |store.writes| && var g := Past(store.start, store.writes, n);
                id in g.edges && e.start == g.edges[id].start && e.end == g.edges[id].end
  }

  /** A row may be out of date, but shows no edge that never was; and scans show what their command ids let them see. */
  ghost predicate Sees(step: Step, store: Store)
    requires WellPlanned(step)
  {
    match step
    case SetStep(_, row, _) => forall i | 0 <= i < |row| && row[i].EdgeDatum? :: WasEdge(store, row[i].id, row[i].edge)
    case DeleteStep(detach, entities, scans, cid) => AllReadAt(entities, scans, detach, store, cid)
    case _ => true
  }

  lemma WasEdgeIsCurrent(store: Store, id: GraphId, e: Edge)
    requires store.Safe() && WasEdge(store, id, e) && id in store.g.edges
    ensures e.start == store.g.edges[id].start && e.end == store.g.edges[id].end
  {
    Now(store);
    var n :| 0 <= n <= |store.writes| && var g := Past(store.start, store.writes, n);
             id in g.edges && e.start == g.edges[id].start && e.end == g.edges[id].end;
    assert SameEndsAt(Past(store.start, store.writes, n), Past(store.start, store.writes, |store.writes|), id);
  }

  // ---------------------------------------------------------------- exactly when a step dangles

  /** The vertex in the attribute, if the check finds it, has not been deleted by the check's command or a later one. */
  ghost predicate NotDeletedSince(row: seq<Datum>, pos: nat, store: Store, cid: nat) {
    0 < pos <= |row| && row[pos - 1].VertexDatum? && row[pos - 1].id in FoundAt(store, cid) ==> !store.DeletedSince(row[pos - 1].id, cid)
  }

  /** The condition on a step, before it is taken. */
  ghost predicate Settles(step: Step, store: Store)
    requires WellPlanned(step)
  {
    match step
    case CreateStep(pattern, row, cid) =>
      forall q, k | ChecksAt(pattern, q, k) && |pattern[q].nodes| > 1 :: NotDeletedSince(row, pattern[q].nodes[k].pos, store, cid)
    case MergeStep(path, row, _, cid, _) =>
      IsMissing(path, row) && |path.nodes| > 1 ==>
        forall k | 0 <= k < |path.nodes| && path.nodes[k].Checked() :: NotDeletedSince(row, path.nodes[k].pos, store, cid)
    case DeleteStep(detach, entities, scans, cid) => AllSettled(entities, scans, detach, store, cid)
    case _ => true
  }

  lemma CheckIsTrue(row: seq<Datum>, pos: nat, s: State, cid: nat)
    requires s.store.Safe() && s.slot == row && s.seen == FoundAt(s.store, cid)
    ensures ShownIsLive(s, pos) <==> NotDeletedSince(row, pos, s.store, cid)
  {
    hide Store.Safe;
    if 0 < pos <= |row| && row[pos - 1].VertexDatum? && row[pos - 1].id in s.seen {
      SeenUnlessDeleted(s.store, cid, row[pos - 1].id);
    }
  }

  lemma FoundIsDrawn(s: State, cid: nat)
    requires s.store.Safe() && s.seen == FoundAt(s.store, cid)
    ensures SeenDrawn(s)
  {
    SafeIsConsistent(s.store);
    forall v | v in s.seen ensures v.entry <= s.store.LastOf(v.labelId) {
      SeenIsDrawn(s.store, cid, v);
    }
  }

  lemma CreateSafeExactly(pattern: seq<CreatePath>, row: seq<Datum>, cid: nat, store: Store)
    requires WellPlanned(CreateStep(pattern, row, cid)) && store.Safe() && Act(CreateStep(pattern, row, cid), store).Ok?
    ensures var next := Act(CreateStep(pattern, row, cid), store).value;
            && (next.Safe() <==> Settles(CreateStep(pattern, row, cid), store)) && (!next.Safe() ==> !NeverDangling(next.start, next.writes))
  {
    var s := CreateTheorems.StateFor(Input(row, FoundAt(store, cid)), store);
    hide Store.Safe, ProcessPattern, AllReady, SeenDrawn, ShownIsLive, NotDeletedSince, Replay;
    FoundIsDrawn(s, cid);
    PatternSafeExactly(pattern, s);
    forall q, k | ChecksAt(pattern, q, k)
      ensures ShownIsLive(s, pattern[q].nodes[k].pos) <==> NotDeletedSince(row, pattern[q].nodes[k].pos, store, cid)
    {
      CheckIsTrue(row, pattern[q].nodes[k].pos, s, cid);
    }
  }

  lemma MergeSafeExactly(path: CreatePath, row: seq<Datum>, values: seq<Datum>, cid: nat, base: nat, store: Store)
    requires WellPlanned(MergeStep(path, row, values, cid, base)) && store.Safe() && Act(MergeStep(path, row, values, cid, base), store).Ok?
    ensures var step := MergeStep(path, row, values, cid, base);
            var next := Act(step, store).value;
            (next.Safe() <==> Settles(step, store)) && (!next.Safe() ==> !NeverDangling(next.start, next.writes))
  {
    var input := Input(row, FoundAt(store, cid));
    var s := MergeClause.StateFor(input, store, values, base);
    hide Store.Safe, ProcessPath, AttributesApart, Ready, SeenDrawn, ShownIsLive, NotDeletedSince, Replay, MergeRows, NeverDangling;
    OneRowMerged(path, input, store, values, base);
    if IsMissing(path, row) {
      FoundIsDrawn(s, cid);
      PathSafeExactly(path, s);
      forall k | 0 <= k < |path.nodes| && path.nodes[k].Checked()
        ensures ShownIsLive(s, path.nodes[k].pos) <==> NotDeletedSince(row, path.nodes[k].pos, store, cid)
      {
        CheckIsTrue(row, path.nodes[k].pos, s, cid);
      }
    }
  }

  /** A leading MERGE has nothing to check. */
  lemma PullIsSafe(path: CreatePath, rows: seq<seq<Datum>>, width: nat, m: Puller, store: Store)
    requires WellPlanned(PullStep(path, rows, width, m)) && store.Safe() && Act(PullStep(path, rows, width, m), store).Ok?
    ensures Act(PullStep(path, rows, width, m), store).value.Safe()
  {
    hide Store.Safe, AttributesApart;
    var s := m.s.(store := store, slot := MergeClause.Nulls(width));
    if ProcessPath(path, s).Ok? { ProcessPathIsSafe(path, s); }
  }

  lemma SetIsSafe(items: seq<SetItem>, row: seq<Datum>, outputCid: nat, store: Store)
    requires ItemsFit(items, row) && store.Safe() && SetRow(items, row, store, outputCid).Ok?
    requires forall i | 0 <= i < |row| && row[i].EdgeDatum? :: WasEdge(store, row[i].id, row[i].edge)
    ensures SetRow(items, row, store, outputCid).value.1.Safe()
  {
    hide Store.Safe, WasEdge, SetClause.After;
    forall i | 0 <= i < |row| && row[i].EdgeDatum? && row[i].id in store.g.edges
      ensures row[i].edge.start == store.g.edges[row[i].id].start && row[i].edge.end == store.g.edges[row[i].id].end
    {
      WasEdgeIsCurrent(store, row[i].id, row[i].edge);
    }
    AfterIsSafe(items, |items|, row, store, outputCid);
  }

  /**
   * One row of any clause leaves no dangling edge, at any of its writes, exactly when a CREATE or MERGE gives
   * no edge to a vertex deleted since its check's command id, and a DELETE takes with every vertex all its edges.
   */
  lemma ActSafeExactly(step: Step, store: Store)
    requires WellPlanned(step) && store.Safe() && Sees(step, store) && Act(step, store).Ok?
    ensures Act(step, store).value.Safe() <==> Settles(step, store)
    ensures !Settles(step, store) ==> !NeverDangling(Act(step, store).value.start, Act(step, store).value.writes)
  {
    hide Store.Safe, AllSettled, AllReadAt, ProcessPattern, MergeRows, PullOnce, DeleteAll, SetRow, NeverDangling;
    match step
    case CreateStep(pattern, row, cid) => CreateSafeExactly(pattern, row, cid, store);
    case MergeStep(path, row, values, cid, base) => MergeSafeExactly(path, row, values, cid, base, store);
    case PullStep(path, rows, width, m) => PullIsSafe(path, rows, width, m, store);
    case SetStep(items, row, outputCid) => SetIsSafe(items, row, outputCid, store);
    case DeleteStep(detach, entities, scans, cid) => DeleteSafeAt(entities, scans, detach, store, cid);
    case EndStep => EndCommandKeepsSafe(store);
  }

  // ---------------------------------------------------------------- a history only grows

  ghost predicate Later(store: Store, next: Store) {
    next.start == store.start && store.writes <= next.writes
  }

  lemma {:induction false} PatternIsLater(pattern: seq<CreatePath>, s: State)
    requires AllReady(pattern, |s.slot|) && ProcessPattern(pattern, s).Ok?
    ensures Later(s.store, ProcessPattern(pattern, s).value.s.store)
  {
    hide WriteVertex, WriteEdge, ProcessPattern, AllReady;
    if pattern != [] {
      PatternEnds(pattern, s);
      RestReady(pattern, |s.slot|);
      RunKeepsStart(Create, pattern[0].nodes, 0, s);
      PatternIsLater(pattern[1..], CreateTheorems.After(pattern, s));
    } else {
      NoPaths(s);
    }
  }

  lemma PathIsLater(path: CreatePath, s: State)
    requires Ready(path, |s.slot|) && ProcessPath(path, s).Ok?
    ensures Later(s.store, ProcessPath(path, s).value.store)
  {
    RunKeepsStart(Merge, path.nodes, 0, s);
  }

  lemma OneItemIsLater(items: seq<SetItem>, k: nat, s: SetClause.Progress, outputCid: nat)
    requires k < |items| && SetClause.ItemFits(items[k], s.slot) && SetClause.OneItem(items, k, s, outputCid).Ok?
    ensures Later(s.store, SetClause.OneItem(items, k, s, outputCid).value.store)
  {
    hide LastIndex, Alter, Found, Written;
  }

  lemma LaterTransitive(store: Store, next: Store, last: Store)
    requires Later(store, next) && Later(next, last)
    ensures Later(store, last)
  {}

  lemma {:induction false} ItemsAreLater(items: seq<SetItem>, n: nat, row: seq<Datum>, store: Store, outputCid: nat)
    requires n <= |items| && ItemsFit(items, row) && SetClause.After(items, n, row, store, outputCid).Ok?
    ensures Later(store, SetClause.After(items, n, row, store, outputCid).value.store)
  {
    hide ItemsFit, SetClause.ItemFits, SetClause.OneItem;
    if n > 0 {
      AfterPrefix(items, n - 1, row, store, outputCid);
      AfterNext(items, n - 1, row, store, outputCid);
      ItemsAreLater(items, n - 1, row, store, outputCid);
      hide *;
      var s := SetClause.After(items, n - 1, row, store, outputCid).value;
      OneItemIsLater(items, n - 1, s, outputCid);
      LaterTransitive(store, s.store, SetClause.After(items, n, row, store, outputCid).value.store);
    }
  }

  lemma ActIsLater(step: Step, store: Store)
    requires WellPlanned(step) && Act(step, store).Ok?
    ensures Later(store, Act(step, store).value)
  {
    hide ProcessPattern, ProcessPath, DeleteAll, SetClause.After, Ready, MergeRows;
    match step
    case CreateStep(pattern, row, cid) => PatternIsLater(pattern, CreateTheorems.StateFor(Input(row, FoundAt(store, cid)), store));
    case MergeStep(path, row, values, cid, base) =>
      var input := Input(row, FoundAt(store, cid));
      OneRowMerged(path, input, store, values, base);
      if IsMissing(path, row) { PathIsLater(path, MergeClause.StateFor(input, store, values, base)); }
    case PullStep(path, rows, width, m) =>
      var s := m.s.(store := store, slot := MergeClause.Nulls(width));
      if ProcessPath(path, s).Ok? { PathIsLater(path, s); }
    case SetStep(items, row, outputCid) => ItemsAreLater(items, |items|, row, store, outputCid);
    case DeleteStep(detach, entities, scans, _) => DeleteAllGrows(entities, scans, detach, store);
    case EndStep =>
  }

  // ---------------------------------------------------------------- whole runs

  function RunAll(steps: seq<Step>, store: Store): Result<Store>
    requires forall k | 0 <= k < |steps| :: WellPlanned(steps[k])
  {
    if steps == [] then Ok(store) else
    var next :- Act(steps[0], store);
    RunAll(steps[1..], next)
  }

  /** Each row is one that its clause could have read when its turn came, and so are the scans. */
  ghost predicate SeesAll(steps: seq<Step>, store: Store)
    requires forall k | 0 <= k < |steps| :: WellPlanned(steps[k])
  {
    steps == [] ||
    (Sees(steps[0], store) && (Act(steps[0], store).Ok? ==> SeesAll(steps[1..], Act(steps[0], store).value)))
  }

  /** Each step meets its condition when its turn comes. */
  ghost predicate AllSettle(steps: seq<Step>, store: Store)
    requires forall k | 0 <= k < |steps| :: WellPlanned(steps[k])
  {
    steps == [] ||
    (Settles(steps[0], store) && (Act(steps[0], store).Ok? ==> AllSettle(steps[1..], Act(steps[0], store).value)))
  }

  lemma {:induction false} RunIsLater(steps: seq<Step>, store: Store)
    requires forall k | 0 <= k < |steps| :: WellPlanned(steps[k])
    requires RunAll(steps, store).Ok?
    ensures Later(store, RunAll(steps, store).value)
  {
    hide WellPlanned, Act;
    if steps != [] {
      ActIsLater(steps[0], store);
      RunIsLater(steps[1..], Act(steps[0], store).value);
    }
  }

  lemma OnceDangling(store: Store, next: Store)
    requires Later(store, next) && !NeverDangling(store.start, store.writes)
    ensures !NeverDangling(next.start, next.writes)
  {
    var n :| 0 <= n <= |store.writes| && !NoDangling(Past(store.start, store.writes, n));
    assert next.writes[..n] == store.writes[..n];
    assert Past(next.start, next.writes, n) == Past(store.start, store.writes, n);
  }

  lemma {:induction false} RunSafeExactly(steps: seq<Step>, store: Store)
    requires forall k | 0 <= k < |steps| :: WellPlanned(steps[k])
    requires store.Safe() && SeesAll(steps, store) && RunAll(steps, store).Ok?
    ensures RunAll(steps, store).value.Safe() <==> AllSettle(steps, store)
    ensures !AllSettle(steps, store) ==> !NeverDangling(RunAll(steps, store).value.start, RunAll(steps, store).value.writes)
  {
    hide WellPlanned, Act, Sees, Settles, NeverDangling, Later;
    if steps != [] {
      ActSafeExactly(steps[0], store);
      var next := Act(steps[0], store).value;
      if Settles(steps[0], store) {
        RunSafeExactly(steps[1..], next);
      } else {
        RunIsLater(steps[1..], next);
        OnceDangling(next, RunAll(steps, store).value);
      }
    }
  }

  /**
   * From a graph without dangling edges, a run of CREATE, MERGE, SET and DELETE rows never has a dangling
   * edge, not even between two writes of one clause, if and only if every step meets its condition when its
   * turn comes. Then no edge ever changes its endpoints either.
   */
  lemma NeverDanglesExactly(steps: seq<Step>, store: Store)
    requires forall k | 0 <= k < |steps| :: WellPlanned(steps[k])
    requires Initial(store) && SeesAll(steps, store) && RunAll(steps, store).Ok?
    ensures var done := RunAll(steps, store).value;
            && ((forall n | 0 <= n <= |done.writes| :: NoDangling(Past(store.g, done.writes, n))) <==> AllSettle(steps, store))
            && (AllSettle(steps, store) ==>
                  NoDangling(done.g) && forall e | e in store.g.edges && e in done.g.edges :: SameEndsAt(store.g, done.g, e))
  {
    InitialIsSafe(store);
    RunSafeExactly(steps, store);
    RunIsLater(steps, store);
    var done := RunAll(steps, store).value;
    assert done.start == store.g && Past(done.start, done.writes, 0) == store.g by { InitialIsStart(store); }
    if AllSettle(steps, store) {
      SafeIsNotDangling(done);
      Now(done);
      forall e | e in store.g.edges && e in done.g.edges ensures SameEndsAt(store.g, done.g, e) {
        assert SameEndsAt(Past(done.start, done.writes, 0), Past(done.start, done.writes, |done.writes|), e);
      }
    }
  }

  lemma InitialIsStart(store: Store)
    requires Initial(store)
    ensures store.start == store.g && forall ws: seq<Write> :: Past(store.g, ws, 0) == store.g
  {}
}
