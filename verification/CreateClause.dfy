/** The CREATE clause: its executor, the paths of a pattern one after another, and its input rows. */
module CreateClause {
  import opened Results
  import opened PropertyGraph
  import opened MatchPattern
  import opened GraphStore
  import opened PathWriter
  import opened PathExecution

  /** `pathAttr` is the attribute of the path's variable, 0 when it has none. */
  datatype CreatePath = CreatePath(nodes: seq<Target>, pathAttr: nat)

  /** The ids of each path's entities. */
  datatype PatternRun = PatternRun(ids: seq<seq<GraphId>>, s: State)

  ghost predicate Ready(path: CreatePath, width: nat) {
    WellShaped(path.nodes) && AllFit(path.nodes, width) && path.pathAttr <= width
  }

  ghost predicate AllReady(pattern: seq<CreatePath>, width: nat) {
    forall k | 0 <= k < |pattern| :: Ready(pattern[k], width)
  }

  lemma RestReady(pattern: seq<CreatePath>, width: nat)
    requires AllReady(pattern, width) && pattern != []
    ensures AllReady(pattern[1..], width) && Ready(pattern[0], width)
  {
    assert forall k | 0 <= k < |pattern[1..]| :: pattern[1..][k] == pattern[k + 1];
  }

  function StorePath(path: CreatePath, s: State): (r: State)
    requires path.pathAttr <= |s.slot|
    ensures |r.slot| == |s.slot| && r.store == s.store
  {
    s.(slot := if path.pathAttr == 0 then s.slot else s.slot[path.pathAttr - 1 := TraversalDatum(s.pathValues)],
       pathValues := [])
  }

  /** An id for every target of every path. */
  ghost predicate IdsFit(pattern: seq<CreatePath>, run: PatternRun) {
    |run.ids| == |pattern| && forall k | 0 <= k < |pattern| :: |run.ids[k]| == |pattern[k].nodes|
  }

  function ProcessPattern(pattern: seq<CreatePath>, s: State): (r: Result<PatternRun>)
    requires AllReady(pattern, |s.slot|)
    ensures r.Ok? ==> IdsFit(pattern, r.value) && |r.value.s.slot| == |s.slot|
  {
    if pattern == [] then Ok(PatternRun([], s)) else
    assert AllReady(pattern[1..], |s.slot|) by { RestReady(pattern, |s.slot|); }
    var run :- WriteVertex(Create, pattern[0].nodes, 0, s);
    var rest :- ProcessPattern(pattern[1..], StorePath(pattern[0], run.s));
    Ok(PatternRun([run.ids] + rest.ids, rest.s))
  }

  /** Every input row is put into the tuple, and the pattern is created for it. */
  function ProcessRows(pattern: seq<CreatePath>, rows: seq<Input>, store: Store): (r: Result<(seq<PatternRun>, Store)>)
    requires forall i | 0 <= i < |rows| :: AllReady(pattern, |rows[i].row|)
    ensures r.Ok? ==> |r.value.0| == |rows| && forall i | 0 <= i < |rows| :: IdsFit(pattern, r.value.0[i])
  {
    if rows == [] then Ok(([], store)) else
    var first :- ProcessPattern(pattern, State(store, rows[0].row, [], rows[0].seen, None));
    var rest :- ProcessRows(pattern, rows[1..], first.s.store);
    Ok(([first] + rest.0, rest.1))
  }

  // ---------------------------------------------------------------- the executor

  /** Both fail alike, or both end in the same state. */
  predicate SameEnd(a: Result<PatternRun>, b: Result<PatternRun>) {
    if a.Ok? then b.Ok? && a.value.s == b.value.s else b.Err? && a.error == b.error
  }

  lemma EndIsThatOfRest(pattern: seq<CreatePath>, s: State, k: nat)
    requires AllReady(pattern, |s.slot|) && k < |pattern|
    ensures AllReady(pattern[k..], |s.slot|) && AllReady(pattern[k + 1..], |s.slot|) && Ready(pattern[k], |s.slot|)
    ensures match WriteVertex(Create, pattern[k].nodes, 0, s)
            case Ok(run) => SameEnd(ProcessPattern(pattern[k..], s), ProcessPattern(pattern[k + 1..], StorePath(pattern[k], run.s)))
            case Err(e) => ProcessPattern(pattern[k..], s) == Err(e)
  {
    hide WriteVertex, WriteEdge;
    assert pattern[k..][0] == pattern[k] && pattern[k..][1..] == pattern[k + 1..];
    assert forall j | 0 <= j < |pattern[k..]| :: pattern[k..][j] == pattern[k + j];
    RestReady(pattern[k..], |s.slot|);
  }

  lemma PathReady(pattern: seq<CreatePath>, k: nat, width: nat)
    requires AllReady(pattern, width) && k < |pattern|
    ensures Ready(pattern[k], width) && pattern[k].pathAttr <= width
  {}

  lemma NoPaths(s: State)
    ensures AllReady([], |s.slot|) && ProcessPattern([], s) == Ok(PatternRun([], s))
  {}

  method RunPath(exec: PathExecutor, path: CreatePath) returns (r: Result<()>)
    requires exec.clause == Create && Ready(path, |exec.slot|)
    modifies exec
    ensures match WriteVertex(Create, path.nodes, 0, old(exec.Now()))
            case Ok(run) => r.Ok? && exec.Now() == StorePath(path, run.s)
            case Err(e) => r == Err(e)
  {
    var _ :- exec.CreateVertex(path.nodes, 0);
    if path.pathAttr != 0 {
      exec.slot := exec.slot[path.pathAttr - 1 := TraversalDatum(exec.pathValues)];
    }
    exec.pathValues := [];
    r := Ok(());
  }

  method RunPattern(exec: PathExecutor, pattern: seq<CreatePath>) returns (r: Result<()>)
    requires exec.clause == Create && AllReady(pattern, |exec.slot|)
    modifies exec
    ensures match ProcessPattern(pattern, old(exec.Now()))
            case Ok(run) => r.Ok? && exec.Now() == run.s
            case Err(e) => r == Err(e)
  {
    hide WriteVertex, WriteEdge, ProcessPattern, StorePath, AllReady, Ready;
    var k := 0;
    ghost var width := |exec.slot|;
    assert pattern[0..] == pattern;
    while k < |pattern|
      invariant 0 <= k <= |pattern| && |exec.slot| == width && AllReady(pattern[k..], width)
      invariant SameEnd(ProcessPattern(pattern, old(exec.Now())), ProcessPattern(pattern[k..], exec.Now()))
    {
      PathReady(pattern, k, width);
      EndIsThatOfRest(pattern, exec.Now(), k);
      var _ :- RunPath(exec, pattern[k]);
      k := k + 1;
    }
    assert pattern[k..] == [];
    NoPaths(exec.Now());
    r := Ok(());
  }

  /** A terminal CREATE: all rows of the subtree in one call. */
  method ExecTerminal(exec: PathExecutor, pattern: seq<CreatePath>, rows: seq<Input>) returns (r: Result<()>)
    requires forall i | 0 <= i < |rows| :: AllReady(pattern, |rows[i].row|)
    requires exec.clause == Create && exec.base == None && exec.pathValues == []
    modifies exec
    ensures match ProcessRows(pattern, rows, old(exec.store))
            case Ok(done) => r.Ok? && exec.store == done.1
            case Err(e) => r == Err(e)
  {
    hide ProcessPattern;
    var n := 0;
    assert rows[0..] == rows;
    while n < |rows|
      invariant 0 <= n <= |rows| && exec.pathValues == []
      invariant match (ProcessRows(pattern, rows, old(exec.store)), ProcessRows(pattern, rows[n..], exec.store))
                case (Ok(all), Ok(rest)) => all.1 == rest.1
                case (Err(e), Err(f)) => e == f
                case _ => false
    {
      assert rows[n..][0] == rows[n] && rows[n..][1..] == rows[n + 1..];
      exec.slot, exec.seen := rows[n].row, rows[n].seen;
      PathValuesCleared(pattern, exec.Now());
      var _ :- RunPattern(exec, pattern);
      n := n + 1;
    }
    r := Ok(());
  }

  lemma {:induction false} PathValuesCleared(pattern: seq<CreatePath>, s: State)
    requires AllReady(pattern, |s.slot|)
    requires s.pathValues == []
    ensures ProcessPattern(pattern, s).Ok? ==> ProcessPattern(pattern, s).value.s.pathValues == []
  {
    if pattern != [] && WriteVertex(Create, pattern[0].nodes, 0, s).Ok? {
      PathValuesCleared(pattern[1..], StorePath(pattern[0], WriteVertex(Create, pattern[0].nodes, 0, s).value.s));
    }
  }
}
