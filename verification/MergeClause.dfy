/** The MERGE clause: pull by pull when it leads the query, row by row behind another clause. */
module MergeClause {
  import opened Results
  import opened PropertyGraph
  import opened MatchPattern
  import opened GraphStore
  import opened PathWriter
  import opened PathWritten
  import opened PathChecks
  import opened PathAccepted
  import opened PathExecution
  import opened CreateClause

  type Row = seq<Datum>

  // ---------------------------------------------------------------- a leading MERGE that emits rows

  /** The two flags, how many rows the subplan has returned, and the executor's state. */
  datatype Puller = Puller(found: bool, created: bool, cursor: nat, s: State)

  function Nulls(width: nat): Row {
    seq(width, _ => NullDatum)
  }

  /** Creates the path in a fresh tuple of nulls. MERGE keeps the path values it has collected. */
  function ProcessPath(path: CreatePath, s: State): (r: Result<State>)
    requires Ready(path, |s.slot|)
    ensures r.Ok? ==> |r.value.slot| == |s.slot|
  {
    var run :- WriteVertex(Merge, path.nodes, 0, s);
    Ok(run.s.(slot := if path.pathAttr == 0 then run.s.slot
                      else run.s.slot[path.pathAttr - 1 := TraversalDatum(run.s.pathValues)]))
  }

  /** One pull by the parent, which gets a row or the end of the rows. */
  function PullOnce(path: CreatePath, rows: seq<Row>, width: nat, m: Puller): Result<(Option<Row>, Puller)>
    requires Ready(path, width) && m.cursor <= |rows|
  {
    if m.created then Ok((None, m))
    else if m.cursor < |rows| then Ok((Some(rows[m.cursor]), m.(found := true, cursor := m.cursor + 1)))
    else if m.found then Ok((None, m))
    else
      var s :- ProcessPath(path, m.s.(slot := Nulls(width)));
      Ok((Some(s.slot), m.(created := true, s := s)))
  }

  function PullMany(path: CreatePath, rows: seq<Row>, width: nat, m: Puller, n: nat): (r: Result<(seq<Option<Row>>, Puller)>)
    requires Ready(path, width) && m.cursor <= |rows|
    ensures r.Ok? ==> |r.value.0| == n && r.value.1.cursor <= |rows|
  {
    if n == 0 then Ok(([], m)) else
    var before :- PullMany(path, rows, width, m, n - 1);
    var last :- PullOnce(path, rows, width, before.1);
    Ok((before.0 + [last.0], last.1))
  }

  /** At the start, when the command id is `base`. A leading MERGE has no earlier variables to check. */
  function Fresh(store: Store, base: nat): Puller {
    Puller(false, false, 0, State(store, [], [], {}, Some(base)))
  }

  /**
   * Whatever the number of pulls: with rows from the subplan MERGE emits exactly those and creates
   * nothing; without, the first pull creates the path and emits one row. All later pulls return
   * nothing, and the two flags are never both set.
   */
  lemma {:induction false} PullsMatchOrCreate(path: CreatePath, rows: seq<Row>, width: nat, store: Store, base: nat, n: nat)
    requires Ready(path, width)
    ensures var made := ProcessPath(path, State(store, Nulls(width), [], {}, Some(base)));
            match PullMany(path, rows, width, Fresh(store, base), n)
            case Err(e) => rows == [] && n > 0 && made == Err(e)
            case Ok((outs, m)) =>
              && !(m.found && m.created)
              && (m.found <==> rows != [] && n > 0) && (m.created <==> rows == [] && n > 0)
              && m.s == (if rows == [] && n > 0 && made.Ok? then made.value else State(store, [], [], {}, Some(base)))
              && (rows == [] && n > 0 ==> made.Ok?)
              && m.cursor == (if n < |rows| then n else |rows|)
              && forall k | 0 <= k < n ::
                   outs[k] == if k < |rows| then Some(rows[k])
                              else if k == 0 then Some(made.value.slot) else None
  {
    if n > 0 {
      PullsMatchOrCreate(path, rows, width, store, base, n - 1);
    }
  }

  /** A vertex or an edge, as the target is one, that the graph did not have before. */
  ghost predicate IsNewEntity(d: Datum, t: Target, before: Graph, after: Graph) {
    if t.VertexTarget? then d.VertexDatum? && d.id in after.vertices && d.props == after.vertices[d.id] && d.id !in before.vertices
    else d.EdgeDatum? && d.id in after.edges && d.edge == after.edges[d.id] && d.id !in before.edges
  }

  lemma RunAddsRow(path: CreatePath, s: State, p: nat)
    requires Ready(path, |s.slot|) && AttributesApart(path.nodes) && VariablesApart(path.nodes) && ChecksAll(path.nodes)
    requires ChecksAreTrue(path.nodes, 0, s) && s.store.Safe() && ProcessPath(path, s).Ok? && p < |s.slot| && p + 1 != path.pathAttr
    ensures var t := ProcessPath(path, s).value;
            && (forall k | 0 <= k < |path.nodes| && path.nodes[k].Declares() && path.nodes[k].pos == p + 1 ::
                  IsNewEntity(t.slot[p], path.nodes[k], s.store.g, t.store.g))
            && ((forall k | 0 <= k < |path.nodes| && path.nodes[k].Declares() :: path.nodes[k].pos != p + 1) ==> t.slot[p] == s.slot[p])
  {
    NothingLocal(path.nodes, s);
    hide WriteVertex, WriteEdge, AttributesApart, VariablesApart, ChecksAll, ChecksAreTrue, Store.Safe, Resolvable;
    forall k | 0 <= k < |path.nodes| && path.nodes[k].Declares() && path.nodes[k].pos == p + 1
      ensures IsNewEntity(ProcessPath(path, s).value.slot[p], path.nodes[k], s.store.g, ProcessPath(path, s).value.store.g)
    {
      RunDeclares(Merge, path.nodes, 0, s, k);
      RunIsNew(Merge, path.nodes, 0, s, k);
    }
    if forall k | 0 <= k < |path.nodes| && path.nodes[k].Declares() :: path.nodes[k].pos != p + 1 {
      RunFramesSlot(Merge, path.nodes, 0, s, p);
    }
  }

  /**
   * The one row that a leading MERGE emits for a created path: its variables with their new entities, the path's
   * variable with the traversal, and nulls.
   */
  lemma CreatedRowIs(path: CreatePath, width: nat, store: Store, base: nat, p: nat)
    requires Ready(path, width) && AttributesApart(path.nodes) && VariablesApart(path.nodes) && ChecksAll(path.nodes)
    requires store.Safe() && p < width && PullOnce(path, [], width, Fresh(store, base)).Ok?
    ensures var (out, m) := PullOnce(path, [], width, Fresh(store, base)).value;
            && m.created && out.Some? && |out.value| == width
            && (p + 1 == path.pathAttr ==> out.value[p].TraversalDatum?)
            && (p + 1 != path.pathAttr ==>
                  && (forall k | 0 <= k < |path.nodes| && path.nodes[k].Declares() && path.nodes[k].pos == p + 1 ::
                        IsNewEntity(out.value[p], path.nodes[k], store.g, m.s.store.g))
                  && ((forall k | 0 <= k < |path.nodes| && path.nodes[k].Declares() :: path.nodes[k].pos != p + 1) ==> out.value[p] == NullDatum))
  {
    var s := State(store, Nulls(width), [], {}, Some(base));
    assert ProcessPath(path, s).Ok?;
    if p + 1 != path.pathAttr { RunAddsRow(path, s, p); }
  }

  class MergeExecutor {
    const exec: PathExecutor
    const rows: seq<Row>
    var foundAPath: bool
    var createdNewPath: bool
    var cursor: nat

    ghost predicate Valid()
      reads this, exec
    {
      && exec.clause == Merge && cursor <= |rows|
      && !(foundAPath && createdNewPath)
      && (foundAPath <==> cursor > 0) && (createdNewPath ==> cursor == |rows|)
    }

    ghost function Now(): Puller
      reads this, exec
    {
      Puller(foundAPath, createdNewPath, cursor, exec.Now())
    }

    constructor (store: Store, rows: seq<Row>)
      ensures Valid() && fresh(exec) && this.rows == rows && Now() == Fresh(store, store.command)
    {
      exec := new PathExecutor(Merge, store, Some(store.command));
      this.rows := rows;
      foundAPath, createdNewPath, cursor := false, false, 0;
    }

    /** The source's assertions about the two flags are the assertions here. */
    method Pull(path: CreatePath, width: nat) returns (r: Result<Option<Row>>)
      requires Valid() && Ready(path, width)
      modifies this, exec
      ensures match PullOnce(path, rows, width, old(Now()))
              case Ok((out, m)) => r == Ok(out) && Now() == m && Valid()
              case Err(e) => r == Err(e)
    {
      if createdNewPath {
        assert foundAPath == false;
        return Ok(None);
      }
      if cursor < |rows| {
        foundAPath := true;
        var row := rows[cursor];
        cursor := cursor + 1;
        return Ok(Some(row));
      } else if foundAPath {
        return Ok(None);
      }
      assert foundAPath == false;
      assert createdNewPath == false;
      exec.slot := Nulls(width);
      var _ :- exec.CreateVertex(path.nodes, 0);
      if path.pathAttr != 0 {
        exec.slot := exec.slot[path.pathAttr - 1 := TraversalDatum(exec.pathValues)];
      }
      createdNewPath := true;
      r := Ok(Some(exec.slot));
    }
  }

  // ---------------------------------------------------------------- behind another clause

  /** Some attribute of the path is null, which tells that the left join found no match for the row. */
  predicate IsMissing(path: CreatePath, row: Row)
    requires forall k | 0 <= k < |path.nodes| :: 0 < path.nodes[k].pos <= |row|
  {
    exists k | 0 <= k < |path.nodes| :: row[path.nodes[k].pos - 1].NullDatum?
  }

  method CheckPath(path: CreatePath, row: Row) returns (missing: bool)
    requires forall k | 0 <= k < |path.nodes| :: 0 < path.nodes[k].pos <= |row|
    ensures missing <==> IsMissing(path, row)
  {
    for k := 0 to |path.nodes|
      invariant forall j | 0 <= j < k :: !row[path.nodes[j].pos - 1].NullDatum?
    {
      if row[path.nodes[k].pos - 1].NullDatum? { return true; }
    }
    missing := false;
  }

  ghost predicate Placed(path: CreatePath, width: nat) {
    Ready(path, width) && forall k | 0 <= k < |path.nodes| :: 0 < path.nodes[k].pos <= width
  }

  function MergeRows(path: CreatePath, rows: seq<Input>, store: Store, values: seq<Datum>, base: nat): Result<(Store, seq<Datum>)>
    requires forall i | 0 <= i < |rows| :: Placed(path, |rows[i].row|)
  {
    if rows == [] then Ok((store, values)) else
    assert Placed(path, |rows[0].row|);
    if IsMissing(path, rows[0].row) then
      var s :- ProcessPath(path, State(store, rows[0].row, values, rows[0].seen, Some(base)));
      MergeRows(path, rows[1..], s.store, s.pathValues, base)
    else MergeRows(path, rows[1..], store, values, base)
  }

  lemma OneRowMerged(path: CreatePath, input: Input, store: Store, values: seq<Datum>, base: nat)
    requires Placed(path, |input.row|)
    ensures MergeRows(path, [input], store, values, base) ==
      if !IsMissing(path, input.row) then Ok((store, values))
      else match ProcessPath(path, State(store, input.row, values, input.seen, Some(base)))
           case Ok(s) => Ok((s.store, s.pathValues))
           case Err(e) => Err(e)
  {
    hide ProcessPath;
    assert [input][1..] == [];
    if IsMissing(path, input.row) && ProcessPath(path, State(store, input.row, values, input.seen, Some(base))).Ok? {
      var s := ProcessPath(path, State(store, input.row, values, input.seen, Some(base))).value;
      assert MergeRows(path, [], s.store, s.pathValues, base) == Ok((s.store, s.pathValues));
    }
    assert MergeRows(path, [], store, values, base) == Ok((store, values));
  }

  /** A row in which every target has its entity writes nothing; one in which some target has none makes the whole path, one write for each target that inserts. */
  lemma OneRowCreatesExactly(path: CreatePath, input: Input, store: Store, values: seq<Datum>, base: nat)
    requires Placed(path, |input.row|)
    ensures (forall k | 0 <= k < |path.nodes| :: !input.row[path.nodes[k].pos - 1].NullDatum?) ==>
      MergeRows(path, [input], store, values, base) == Ok((store, values))
    ensures (exists k | 0 <= k < |path.nodes| :: input.row[path.nodes[k].pos - 1].NullDatum?) && MergeRows(path, [input], store, values, base).Ok? ==>
      |MergeRows(path, [input], store, values, base).value.0.writes| == |store.writes| + Inserted(path.nodes, 0)
  {
    OneRowMerged(path, input, store, values, base);
    hide MergeRows, WriteVertex, WriteEdge, Inserted;
    var s := State(store, input.row, values, input.seen, Some(base));
    if WriteVertex(Merge, path.nodes, 0, s).Ok? { RunWrites(Merge, path.nodes, 0, s); }
  }

  /** What a row without its path makes: every target's entity, from that row, with the neighbours its direction demands. */
  lemma MissingPathIsMade(path: CreatePath, input: Input, store: Store, values: seq<Datum>, base: nat) returns (ids: seq<GraphId>)
    requires Placed(path, |input.row|) && AttributesApart(path.nodes) && ChecksAll(path.nodes) && store.Safe()
    requires ChecksAreTrue(path.nodes, 0, StateFor(input, store, values, base))
    requires (exists k | 0 <= k < |path.nodes| :: input.row[path.nodes[k].pos - 1].NullDatum?) && MergeRows(path, [input], store, values, base).Ok?
    ensures |ids| == |path.nodes|
    ensures var t := MergeRows(path, [input], store, values, base).value.0;
            t.Safe() && Extends(store.g, t.g) && forall k | 0 <= k < |path.nodes| :: Made(Merge, path.nodes, 0, k, input.row, ids, t.g)
  {
    var s := StateFor(input, store, values, base);
    OneRowMerged(path, input, store, values, base);
    ProcessPathIsSafe(path, s);
    ids := WriteVertex(Merge, path.nodes, 0, s).value.ids;
    hide MergeRows, WriteVertex, WriteEdge, Made, Store.Safe, AttributesApart, ChecksAll, ChecksAreTrue;
    forall k | 0 <= k < |path.nodes|
      ensures Made(Merge, path.nodes, 0, k, input.row, ids, WriteVertex(Merge, path.nodes, 0, s).value.s.store.g)
    {
      NothingLocal(path.nodes, s);
      RunMakesPath(Merge, path.nodes, 0, s, k);
    }
  }

  lemma NothingLocal(nodes: seq<Target>, s: State)
    requires ChecksAll(nodes) && ChecksAreTrue(nodes, 0, s)
    ensures Resolvable(nodes, 0, s)
  {}

  /** The existence check stands in for clause-local variables, of which MERGE has none. */
  ghost predicate ChecksAll(nodes: seq<Target>) {
    forall k | 0 <= k < |nodes| && nodes[k].VertexTarget? && !nodes[k].insert :: !nodes[k].sameClause
  }

  /** A path is created without ever leaving a dangling edge exactly when no check shows a vertex that is gone, or it has no edge. */
  lemma PathSafeExactly(path: CreatePath, s: State)
    requires Ready(path, |s.slot|) && AttributesApart(path.nodes) && ChecksAll(path.nodes) && ChecksOutside(path.nodes)
    requires s.store.Safe() && SeenDrawn(s) && ProcessPath(path, s).Ok?
    ensures var t := ProcessPath(path, s).value.store;
            && (t.Safe() <==> |path.nodes| == 1 || ChecksAreTrue(path.nodes, 0, s)) && (!t.Safe() ==> !NeverDangling(t.start, t.writes))
            && t.start == s.store.start && s.store.writes <= t.writes
  {
    hide Store.Safe, WriteVertex, WriteEdge, NeverDangling, Replay, AttributesApart;
    RunSafeExactly(Merge, path.nodes, s);
    RunKeepsStart(Merge, path.nodes, 0, s);
    var t := ProcessPath(path, s).value.store;
    if !t.Safe() {
      SafeIsConsistent(s.store);
      ConsistentIsDrawn(s.store);
      RunGrows(Merge, path.nodes, 0, s);
      DrawnReplays(t);
      DanglesForGood(t, t);
    }
  }

  /** The path is created, and not refused, exactly when every target finds what it needs and no label runs out of ids. */
  lemma ProcessPathAccepted(path: CreatePath, s: State)
    requires Ready(path, |s.slot|) && AttributesApart(path.nodes) && ChecksOutside(path.nodes)
    ensures ProcessPath(path, s).Ok? <==> AllAcceptable(Merge, path.nodes, 0, s) && EnoughIds(path.nodes, 0, s.store)
  {
    hide WriteVertex, WriteEdge, AttributesApart, ChecksOutside, Acceptable;
    RunAcceptedExactly(Merge, path.nodes, 0, s);
  }

  /** A path that MERGE creates under the command id at which it began ends that command, if it inserts a vertex. */
  lemma ProcessPathEndsCommand(path: CreatePath, s: State)
    requires Ready(path, |s.slot|) && ProcessPath(path, s).Ok? && s.store.finished <= |s.store.writes|
    ensures ProcessPath(path, s).value.store.command ==
      s.store.command + if s.base == Some(s.store.command) && InsertsVertex(path.nodes, 0) then 1 else 0
  {
    RunCommands(Merge, path.nodes, 0, s);
  }

  lemma ProcessPathIsSafe(path: CreatePath, s: State)
    requires Ready(path, |s.slot|) && AttributesApart(path.nodes) && ChecksAll(path.nodes) && s.store.Safe()
    requires ChecksAreTrue(path.nodes, 0, s) && ProcessPath(path, s).Ok?
    ensures var t := ProcessPath(path, s).value.store;
            && t.Safe() && t.start == s.store.start && Extends(s.store.g, t.g)
            && |t.writes| == |s.store.writes| + Inserted(path.nodes, 0)
  {
    RunIsSafe(Merge, path.nodes, 0, s);
    RunKeepsStart(Merge, path.nodes, 0, s);
  }

  /** The rows for which the left join found no match. */
  function Unmatched(path: CreatePath, rows: seq<Input>): nat
    requires forall i | 0 <= i < |rows| :: Placed(path, |rows[i].row|)
  {
    if rows == [] then 0 else
    assert Placed(path, |rows[0].row|);
    (if IsMissing(path, rows[0].row) then 1 else 0) + Unmatched(path, rows[1..])
  }

  function StateFor(input: Input, store: Store, values: seq<Datum>, base: nat): State {
    State(store, input.row, values, input.seen, Some(base))
  }

  /** No check of a row without a match shows a vertex that is gone when the row's turn comes. */
  ghost predicate RowsCheckTrue(path: CreatePath, rows: seq<Input>, store: Store, values: seq<Datum>, base: nat)
    requires forall i | 0 <= i < |rows| :: Placed(path, |rows[i].row|)
  {
    if rows == [] then true
    else
      assert Placed(path, |rows[0].row|);
      if IsMissing(path, rows[0].row) then
        var s := StateFor(rows[0], store, values, base);
        ChecksAreTrue(path.nodes, 0, s)
        && (ProcessPath(path, s).Ok? ==>
              RowsCheckTrue(path, rows[1..], ProcessPath(path, s).value.store, ProcessPath(path, s).value.pathValues, base))
      else RowsCheckTrue(path, rows[1..], store, values, base)
  }

  /**
   * Over all rows of the previous clause there is never a dangling edge, nothing old is touched, and the
   * path is created once for each row without a match, if no check shows a vertex that is gone.
   */
  lemma {:induction false} MergeRowsAreSafe(path: CreatePath, rows: seq<Input>, store: Store, values: seq<Datum>, base: nat)
    requires forall i | 0 <= i < |rows| :: Placed(path, |rows[i].row|)
    requires AttributesApart(path.nodes) && ChecksAll(path.nodes) && store.Safe() && RowsCheckTrue(path, rows, store, values, base)
    requires MergeRows(path, rows, store, values, base).Ok?
    ensures var t := MergeRows(path, rows, store, values, base).value.0;
            && t.Safe() && t.start == store.start && Extends(store.g, t.g)
            && |t.writes| == |store.writes| + Unmatched(path, rows) * Inserted(path.nodes, 0)
  {
    hide Store.Safe, AttributesApart, ChecksAreTrue;
    if rows != [] {
      assert Placed(path, |rows[0].row|);
      if IsMissing(path, rows[0].row) {
        ProcessPathIsSafe(path, StateFor(rows[0], store, values, base));
        var s := ProcessPath(path, StateFor(rows[0], store, values, base)).value;
        MergeRowsAreSafe(path, rows[1..], s.store, s.pathValues, base);
        OneMore(Unmatched(path, rows[1..]), Inserted(path.nodes, 0));
      } else {
        MergeRowsAreSafe(path, rows[1..], store, values, base);
      }
    }
  }

  /** Over all rows, accepted whatever their checks show, the path is created once for each row without a match. */
  lemma {:induction false} MergeRowsWrite(path: CreatePath, rows: seq<Input>, store: Store, values: seq<Datum>, base: nat)
    requires forall i | 0 <= i < |rows| :: Placed(path, |rows[i].row|)
    requires MergeRows(path, rows, store, values, base).Ok?
    ensures |MergeRows(path, rows, store, values, base).value.0.writes| == |store.writes| + Unmatched(path, rows) * Inserted(path.nodes, 0)
  {
    hide WriteVertex, WriteEdge, Inserted;
    if rows != [] {
      assert Placed(path, |rows[0].row|);
      if IsMissing(path, rows[0].row) {
        var s := StateFor(rows[0], store, values, base);
        RunWrites(Merge, path.nodes, 0, s);
        MergeRowsWrite(path, rows[1..], ProcessPath(path, s).value.store, ProcessPath(path, s).value.pathValues, base);
        OneMore(Unmatched(path, rows[1..]), Inserted(path.nodes, 0));
      } else {
        MergeRowsWrite(path, rows[1..], store, values, base);
      }
    }
  }

  lemma OneMore(m: nat, n: nat)
    ensures (1 + m) * n == n + m * n
  {}

  /**
   * Because the path values are never reset, the traversal stored for a created path is that path
   * alone exactly when no path was collected before it.
   */
  lemma TraversalIsOwnPathOnlyFirst(path: CreatePath, s: State)
    requires Ready(path, |s.slot|) && AttributesApart(path.nodes) && ChecksAll(path.nodes) && s.store.Safe()
    requires ChecksAreTrue(path.nodes, 0, s) && ProcessPath(path, s).Ok? && path.pathAttr > 0 && forall k | 0 <= k < |path.nodes| :: path.nodes[k].inPath
    ensures var t := ProcessPath(path, s).value;
            var d := t.slot[path.pathAttr - 1];
            && d == TraversalDatum(t.pathValues) && s.pathValues <= t.pathValues
            && (|d.items| == |path.nodes| <==> s.pathValues == [])
            && (s.pathValues == [] ==>
                  var run := WriteVertex(Merge, path.nodes, 0, s).value;
                  forall k | 0 <= k < |path.nodes| :: IsDatumOf(d.items[k], path.nodes[k], run.ids[k], t.store.g))
  {
    RunListsPath(Merge, path.nodes, 0, s);
    var run := WriteVertex(Merge, path.nodes, 0, s).value;
    if s.pathValues == [] {
      forall k | 0 <= k < |path.nodes| ensures IsDatumOf(run.s.pathValues[k], path.nodes[k], run.ids[k], run.s.store.g) {
        assert IsDatumOf(run.s.pathValues[0 + k - 0], path.nodes[k], run.ids[k - 0], run.s.store.g);
      }
    }
  }

  // ---------------------------------------------------------------- the executor behind another clause

  /** `rows` are what the left join returns. */
  class JoinedMergeExecutor {
    const exec: PathExecutor
    const rows: seq<Input>
    var cursor: nat

    ghost predicate Valid(path: CreatePath)
      reads this, exec
    {
      && exec.clause == Merge && exec.base.Some? && cursor <= |rows|
      && forall i | 0 <= i < |rows| :: Placed(path, |rows[i].row|)
    }

    constructor (store: Store, rows: seq<Input>)
      ensures fresh(exec) && this.rows == rows && cursor == 0
      ensures exec.clause == Merge && exec.base == Some(store.command) && exec.store == store && exec.pathValues == []
    {
      exec := new PathExecutor(Merge, store, Some(store.command));
      this.rows, cursor := rows, 0;
    }

    /** The loop goes on to the end of the rows in a terminal clause, and does one row otherwise. */
    method Pull(path: CreatePath, isTerminal: bool) returns (r: Result<Option<Row>>)
      requires Valid(path)
      modifies this, exec
      ensures var todo := if isTerminal || old(cursor) == |rows| then rows[old(cursor)..] else [rows[old(cursor)]];
              match MergeRows(path, todo, old(exec.store), old(exec.pathValues), exec.base.value)
              case Ok((store, values)) =>
                && Valid(path) && exec.store == store && exec.pathValues == values && cursor == old(cursor) + |todo|
                && if isTerminal || old(cursor) == |rows| then r == Ok(None)
                   else r == MergedRow(path, todo[0], old(exec.store), old(exec.pathValues), exec.base.value)
              case Err(e) => r == Err(e)
    {
      hide MergeRows, ProcessPath, IsMissing, Placed;
      ghost var store0, values0, base := exec.store, exec.pathValues, exec.base.value;
      ghost var todo := if isTerminal || cursor == |rows| then rows[cursor..] else [rows[cursor]];
      ghost var left := todo;
      var terminal := isTerminal;
      while true
        invariant Valid(path) && (terminal <==> isTerminal)
        invariant left == if isTerminal || cursor == |rows| then rows[cursor..] else [rows[cursor]]
        invariant cursor + |left| == old(cursor) + |todo| && (!isTerminal ==> cursor == old(cursor) && exec.store == store0 && exec.pathValues == values0)
        invariant MergeRows(path, todo, store0, values0, base) == MergeRows(path, left, exec.store, exec.pathValues, base)
        decreases |rows| - cursor
      {
        if cursor == |rows| {
          assert left == [];
          NothingMerged(path, exec.store, exec.pathValues, base);
          terminal := true;
          break;
        }
        FirstMerged(path, left, exec.store, exec.pathValues, base);
        RestOfRows(rows, cursor);
        left := left[1..];
        var _ :- MergeNext(path);
        if !terminal {
          assert left == [];
          NothingMerged(path, exec.store, exec.pathValues, base);
          break;
        }
      }
      r := Ok(if terminal then None else Some(exec.slot));
    }

    /** One row is put into the tuple, and its path created if there is none. */
    method MergeNext(path: CreatePath) returns (r: Result<()>)
      requires Valid(path) && cursor < |rows|
      modifies this, exec
      ensures cursor == old(cursor) + 1 && Valid(path)
      ensures var input := rows[old(cursor)];
              if !IsMissing(path, input.row) then
                r.Ok? && exec.store == old(exec.store) && exec.pathValues == old(exec.pathValues) && exec.slot == input.row
              else match ProcessPath(path, StateFor(input, old(exec.store), old(exec.pathValues), exec.base.value))
                   case Ok(s) => r.Ok? && exec.store == s.store && exec.pathValues == s.pathValues && exec.slot == s.slot
                   case Err(e) => r == Err(e)
    {
      hide ProcessPath, IsMissing;
      var input := rows[cursor];
      cursor := cursor + 1;
      exec.slot, exec.seen := input.row, input.seen;
      var missing := CheckPath(path, input.row);
      if missing { r := CreatePathIn(path); } else { r := Ok(()); }
    }

    method CreatePathIn(path: CreatePath) returns (r: Result<()>)
      requires Placed(path, |exec.slot|) && exec.clause == Merge
      modifies exec
      ensures match ProcessPath(path, old(exec.Now()))
              case Ok(s) => r.Ok? && exec.Now() == s
              case Err(e) => r == Err(e)
    {
      var _ :- exec.CreateVertex(path.nodes, 0);
      if path.pathAttr != 0 {
        exec.slot := exec.slot[path.pathAttr - 1 := TraversalDatum(exec.pathValues)];
      }
      r := Ok(());
    }
  }

  /** The row that is passed on: as it came, or with what has been created in it. */
  function MergedRow(path: CreatePath, input: Input, store: Store, values: seq<Datum>, base: nat): Result<Option<Row>>
    requires Placed(path, |input.row|)
  {
    if IsMissing(path, input.row) then
      var s :- ProcessPath(path, StateFor(input, store, values, base));
      Ok(Some(s.slot))
    else Ok(Some(input.row))
  }

  lemma RestOfRows(rows: seq<Input>, k: nat)
    requires k < |rows|
    ensures rows[k..][0] == rows[k] && rows[k..][1..] == rows[k + 1..] && (k + 1 == |rows| ==> rows[k + 1..] == [])
  {}

  lemma NothingMerged(path: CreatePath, store: Store, values: seq<Datum>, base: nat)
    ensures MergeRows(path, [], store, values, base) == Ok((store, values))
  {}

  lemma FirstMerged(path: CreatePath, rows: seq<Input>, store: Store, values: seq<Datum>, base: nat)
    requires rows != [] && forall i | 0 <= i < |rows| :: Placed(path, |rows[i].row|)
    ensures Placed(path, |rows[0].row|)
    ensures MergeRows(path, rows, store, values, base) ==
      if !IsMissing(path, rows[0].row) then MergeRows(path, rows[1..], store, values, base)
      else match ProcessPath(path, StateFor(rows[0], store, values, base))
           case Ok(s) => MergeRows(path, rows[1..], s.store, s.pathValues, base)
           case Err(e) => Err(e)
  {
    hide ProcessPath, IsMissing;
    assert Placed(path, |rows[0].row|);
  }
}
