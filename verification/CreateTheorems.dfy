/** Main results about CREATE: whole patterns and whole runs over input rows. */
module CreateTheorems {
  import opened Results
  import opened PropertyGraph
  import opened MatchPattern
  import opened GraphStore
  import opened PathWriter
  import opened PathWritten
  import opened PathChecks
  import opened CreateClause

  predicate At(pattern: seq<CreatePath>, p: int, j: int) {
    0 <= p < |pattern| && 0 <= j < |pattern[p].nodes|
  }

  predicate DeclaresAt(pattern: seq<CreatePath>, p: int, j: int, pos: nat) {
    At(pattern, p, j) && pattern[p].nodes[j].Declares() && pattern[p].nodes[j].pos == pos
  }

  predicate DeclaresVertexAt(pattern: seq<CreatePath>, p: int, j: int, pos: nat) {
    DeclaresAt(pattern, p, j, pos) && pattern[p].nodes[j].VertexTarget?
  }

  /** A mention of a variable that this clause declares. */
  predicate MentionsAt(pattern: seq<CreatePath>, q: int, k: int) {
    At(pattern, q, k) && pattern[q].nodes[k].VertexTarget? && !pattern[q].nodes[k].insert && pattern[q].nodes[k].sameClause
  }

  /** The planner gives every variable of the clause an attribute of its own, apart from properties and path values. */
  ghost predicate Apart(pattern: seq<CreatePath>) {
    && (forall p, j, q, k | At(pattern, p, j) && At(pattern, q, k) && (p != q || j != k)
          && pattern[p].nodes[j].Declares() && pattern[q].nodes[k].Declares() :: pattern[p].nodes[j].pos != pattern[q].nodes[k].pos)
    && (forall p, j, q, k | At(pattern, p, j) && At(pattern, q, k) && pattern[p].nodes[j].Declares()
          && pattern[q].nodes[k].Inserts() && pattern[q].nodes[k].from.Attribute? ::
          pattern[p].nodes[j].pos != pattern[q].nodes[k].from.pos + 1)
    && (forall p, q, k | 0 <= p < |pattern| && At(pattern, q, k) ::
          && (pattern[q].nodes[k].Declares() || pattern[q].nodes[k].VertexTarget? ==>
                pattern[p].pathAttr == 0 || pattern[q].nodes[k].pos != pattern[p].pathAttr)
          && (pattern[q].nodes[k].Inserts() && pattern[q].nodes[k].from.Attribute? ==>
                pattern[q].nodes[k].from.pos + 1 != pattern[p].pathAttr))
  }

  /** A mention of a variable of an earlier clause, whose existence is checked. */
  predicate ChecksAt(pattern: seq<CreatePath>, q: int, k: int) {
    At(pattern, q, k) && pattern[q].nodes[k].Checked()
  }

  /** No check of the pattern shows a vertex that is gone. */
  ghost predicate TrueChecks(pattern: seq<CreatePath>, s: State) {
    forall q, k | ChecksAt(pattern, q, k) :: ShownIsLive(s, pattern[q].nodes[k].pos)
  }

  /** Mentions are of live vertices, whether of the clause's own variables or of earlier ones. */
  ghost predicate Resolved(pattern: seq<CreatePath>, s: State) {
    LocalsResolved(pattern, s) && TrueChecks(pattern, s)
  }

  /** Mentions find their variable: declared earlier in the pattern, or already a live vertex in the tuple. */
  ghost predicate LocalsResolved(pattern: seq<CreatePath>, s: State) {
    forall q, k | MentionsAt(pattern, q, k) ::
      || (exists p, j :: DeclaresVertexAt(pattern, p, j, pattern[q].nodes[k].pos) && (p < q || (p == q && j < k)))
      || (HoldsLiveVertex(s, pattern[q].nodes[k].pos)
          && Undeclared(pattern, pattern[q].nodes[k].pos))
  }

  /** What the planner makes: every mention of a clause-local variable comes after its declaration. */
  ghost predicate Planned(pattern: seq<CreatePath>) {
    && Apart(pattern)
    && forall q, k | MentionsAt(pattern, q, k) ::
         exists p, j :: DeclaresVertexAt(pattern, p, j, pattern[q].nodes[k].pos) && (p < q || (p == q && j < k))
  }

  ghost predicate Undeclared(pattern: seq<CreatePath>, pos: nat) {
    forall p, j :: !DeclaresAt(pattern, p, j, pos)
  }

  lemma UndeclaredRest(pattern: seq<CreatePath>, pos: nat)
    requires pattern != [] && Undeclared(pattern, pos)
    ensures Undeclared(pattern[1..], pos)
    ensures forall j | 0 <= j < |pattern[0].nodes| && pattern[0].nodes[j].Declares() :: pattern[0].nodes[j].pos != pos
  {
    forall p, j ensures !DeclaresAt(pattern[1..], p, j, pos) {
      assert DeclaresAt(pattern[1..], p, j, pos) ==> DeclaresAt(pattern, p + 1, j, pos);
    }
    forall j | 0 <= j < |pattern[0].nodes| && pattern[0].nodes[j].Declares() ensures pattern[0].nodes[j].pos != pos {
      assert !DeclaresAt(pattern, 0, j, pos);
    }
  }

  /** What the first path declares, no later path does. */
  lemma DeclaredOnce(pattern: seq<CreatePath>, j: int, pos: nat)
    requires pattern != [] && Apart(pattern) && DeclaresAt(pattern, 0, j, pos)
    ensures Undeclared(pattern[1..], pos)
  {
    forall p, k ensures !DeclaresAt(pattern[1..], p, k, pos) {
      assert DeclaresAt(pattern[1..], p, k, pos) ==> At(pattern, p + 1, k) && At(pattern, 0, j);
    }
  }

  lemma FirstPathApart(pattern: seq<CreatePath>)
    requires pattern != [] && Apart(pattern)
    ensures AttributesApart(pattern[0].nodes) && VariablesApart(pattern[0].nodes)
  {
    var nodes := pattern[0].nodes;
    assert forall j | 0 <= j < |nodes| :: At(pattern, 0, j);
  }

  lemma FirstPathReady(pattern: seq<CreatePath>, s: State)
    requires pattern != [] && AllReady(pattern, |s.slot|) && Apart(pattern) && Resolved(pattern, s)
    ensures Ready(pattern[0], |s.slot|) && AttributesApart(pattern[0].nodes) && VariablesApart(pattern[0].nodes)
    ensures Resolvable(pattern[0].nodes, 0, s)
  {
    FirstPathApart(pattern);
    hide Apart, AttributesApart, VariablesApart;
    FirstLocalsResolve(pattern, s);
    hide LocalsResolved, LocalsResolve;
    var nodes := pattern[0].nodes;
    forall k | 0 <= k < |nodes| && nodes[k].Checked() ensures ShownIsLive(s, nodes[k].pos) {
      assert ChecksAt(pattern, 0, k);
    }
  }

  lemma FirstLocalsResolve(pattern: seq<CreatePath>, s: State)
    requires pattern != [] && LocalsResolved(pattern, s)
    ensures LocalsResolve(pattern[0].nodes, 0, s)
  {
    var nodes := pattern[0].nodes;
    forall k | 0 <= k < |nodes| && nodes[k].VertexTarget? && !nodes[k].insert && nodes[k].sameClause
      ensures || (exists j | 0 <= j < k :: nodes[j].VertexTarget? && nodes[j].Declares() && nodes[j].pos == nodes[k].pos)
              || (HoldsLiveVertex(s, nodes[k].pos) && forall j | 0 <= j < |nodes| && nodes[j].Declares() :: nodes[j].pos != nodes[k].pos)
    {
      assert MentionsAt(pattern, 0, k);
      if Undeclared(pattern, nodes[k].pos) { UndeclaredRest(pattern, nodes[k].pos); }
    }
  }

  lemma RestApart(pattern: seq<CreatePath>)
    requires pattern != [] && Apart(pattern)
    ensures Apart(pattern[1..])
  {
    var rest := pattern[1..];
    assert forall q | 0 <= q < |rest| :: rest[q] == pattern[q + 1];
    forall p, j, q, k | At(rest, p, j) && At(rest, q, k)
      ensures At(pattern, p + 1, j) && At(pattern, q + 1, k) {}
    forall p, q, k | 0 <= p < |rest| && At(rest, q, k)
      ensures && (rest[q].nodes[k].Declares() || rest[q].nodes[k].VertexTarget? ==>
                    rest[p].pathAttr == 0 || rest[q].nodes[k].pos != rest[p].pathAttr)
              && (rest[q].nodes[k].Inserts() && rest[q].nodes[k].from.Attribute? ==>
                    rest[q].nodes[k].from.pos + 1 != rest[p].pathAttr)
    {
      assert At(pattern, q + 1, k) && 0 <= p + 1 < |pattern|;
    }
  }

  /** The state after the first path. */
  function After(pattern: seq<CreatePath>, s: State): State
    requires pattern != [] && Ready(pattern[0], |s.slot|) && WriteVertex(Create, pattern[0].nodes, 0, s).Ok?
  {
    StorePath(pattern[0], WriteVertex(Create, pattern[0].nodes, 0, s).value.s)
  }

  /** Storing the path value leaves the attribute of a mentioned variable alone. */
  lemma PathValueApart(pattern: seq<CreatePath>, s: State, q: int, k: int)
    requires pattern != [] && Apart(pattern) && At(pattern, q, k)
    requires pattern[q].nodes[k].Declares() || pattern[q].nodes[k].VertexTarget?
    requires 0 < pattern[q].nodes[k].pos <= |s.slot| && pattern[0].pathAttr <= |s.slot|
    ensures StorePath(pattern[0], s).slot[pattern[q].nodes[k].pos - 1] == s.slot[pattern[q].nodes[k].pos - 1]
  {}

  /** After the first path, the attribute of a vertex it declared holds that vertex, and no other path overwrites it. */
  lemma FirstPathDeclares(pattern: seq<CreatePath>, s: State, j: int, pos: nat)
    requires pattern != [] && Apart(pattern) && Ready(pattern[0], |s.slot|) && s.store.Safe()
    requires AttributesApart(pattern[0].nodes) && VariablesApart(pattern[0].nodes) && Resolvable(pattern[0].nodes, 0, s)
    requires WriteVertex(Create, pattern[0].nodes, 0, s).Ok? && DeclaresVertexAt(pattern, 0, j, pos)
    ensures HoldsLiveVertex(After(pattern, s), pos) && Undeclared(pattern[1..], pos)
    ensures After(pattern, s).slot[pos - 1].id == WriteVertex(Create, pattern[0].nodes, 0, s).value.ids[j]
  {
    hide WriteVertex, WriteEdge, Resolvable, AttributesApart, VariablesApart, GraphStore.Store.Safe, Apart;
    RunDeclares(Create, pattern[0].nodes, 0, s, j);
    PathValueApart(pattern, WriteVertex(Create, pattern[0].nodes, 0, s).value.s, 0, j);
    DeclaredOnce(pattern, j, pos);
  }

  /** The first path leaves the attribute of a variable that the pattern does not declare. */
  lemma FirstPathKeeps(pattern: seq<CreatePath>, s: State, q: int, k: int)
    requires pattern != [] && Apart(pattern) && AllReady(pattern, |s.slot|) && Ready(pattern[0], |s.slot|)
    requires WriteVertex(Create, pattern[0].nodes, 0, s).Ok?
    requires At(pattern, q, k) && pattern[q].nodes[k].VertexTarget? && !pattern[q].nodes[k].insert
    requires Undeclared(pattern, pattern[q].nodes[k].pos)
    ensures 0 < pattern[q].nodes[k].pos <= |s.slot|
    ensures After(pattern, s).slot[pattern[q].nodes[k].pos - 1] == s.slot[pattern[q].nodes[k].pos - 1]
  {
    hide WriteVertex, WriteEdge, Apart;
    assert Ready(pattern[q], |s.slot|) && Fits(pattern[q].nodes[k], |s.slot|);
    UndeclaredRest(pattern, pattern[q].nodes[k].pos);
    RunFramesSlot(Create, pattern[0].nodes, 0, s, pattern[q].nodes[k].pos - 1);
    PathValueApart(pattern, WriteVertex(Create, pattern[0].nodes, 0, s).value.s, q, k);
  }

  ghost predicate MentionOk(pattern: seq<CreatePath>, s: State, q: int, k: int)
    requires At(pattern, q, k)
  {
    || (exists p, j :: DeclaresVertexAt(pattern, p, j, pattern[q].nodes[k].pos) && (p < q || (p == q && j < k)))
    || (HoldsLiveVertex(s, pattern[q].nodes[k].pos) && Undeclared(pattern, pattern[q].nodes[k].pos))
  }

  lemma RestResolved(pattern: seq<CreatePath>, s: State)
    requires pattern != [] && AllReady(pattern, |s.slot|) && Apart(pattern) && Resolved(pattern, s) && s.store.Safe()
    requires Ready(pattern[0], |s.slot|) && WriteVertex(Create, pattern[0].nodes, 0, s).Ok?
    ensures Resolved(pattern[1..], After(pattern, s))
  {
    hide WriteVertex, WriteEdge, Apart, GraphStore.Store.Safe, LocalsResolved, ShownIsLive;
    FirstPathReady(pattern, s);
    var rest, s1 := pattern[1..], After(pattern, s);
    RestLocalsResolved(pattern, s);
    forall q, k | ChecksAt(rest, q, k) ensures ShownIsLive(s1, rest[q].nodes[k].pos) {
      assert ChecksAt(pattern, q + 1, k);
      CheckStaysTrue(pattern, s, rest[q].nodes[k].pos);
    }
  }

  /** The first path resolves, or is a lone mention, which writes nothing. */
  ghost predicate FirstResolves(pattern: seq<CreatePath>, s: State)
    requires pattern != []
  {
    var nodes := pattern[0].nodes;
    Resolvable(nodes, 0, s) || (|nodes| == 1 && nodes[0].VertexTarget? && !nodes[0].insert)
  }

  lemma RestLocalsResolved(pattern: seq<CreatePath>, s: State)
    requires pattern != [] && AllReady(pattern, |s.slot|) && Apart(pattern) && LocalsResolved(pattern, s) && s.store.Safe()
    requires Ready(pattern[0], |s.slot|) && WriteVertex(Create, pattern[0].nodes, 0, s).Ok? && FirstResolves(pattern, s)
    ensures LocalsResolved(pattern[1..], After(pattern, s))
  {
    hide WriteVertex, WriteEdge, Apart, GraphStore.Store.Safe, FirstResolves;
    FirstPathApart(pattern);
    var rest, s1 := pattern[1..], After(pattern, s);
    forall q, k | MentionsAt(rest, q, k) ensures MentionOk(rest, s1, q, k) {
      assert MentionsAt(pattern, q + 1, k);
      MentionResolved(pattern, s, q, k);
    }
  }

  /** What the first path puts into an attribute is no path value, or live. */
  lemma CheckStaysTrue(pattern: seq<CreatePath>, s: State, pos: nat)
    requires pattern != [] && Ready(pattern[0], |s.slot|) && WriteVertex(Create, pattern[0].nodes, 0, s).Ok?
    requires s.store.Safe() && ShownIsLive(s, pos)
    ensures ShownIsLive(After(pattern, s), pos)
  {
    hide WriteVertex, WriteEdge, GraphStore.Store.Safe, Grows;
    SafeIsConsistent(s.store);
    ConsistentIsDrawn(s.store);
    RunGrows(Create, pattern[0].nodes, 0, s);
    GrowsKeepsTrue(s, WriteVertex(Create, pattern[0].nodes, 0, s).value.s, pos);
  }

  lemma MentionResolved(pattern: seq<CreatePath>, s: State, q: int, k: int)
    requires pattern != [] && AllReady(pattern, |s.slot|) && Apart(pattern) && s.store.Safe() && Ready(pattern[0], |s.slot|)
    requires WriteVertex(Create, pattern[0].nodes, 0, s).Ok?
    requires AttributesApart(pattern[0].nodes) && VariablesApart(pattern[0].nodes) && FirstResolves(pattern, s)
    requires MentionsAt(pattern[1..], q, k) && At(pattern, q + 1, k) && MentionOk(pattern, s, q + 1, k)
    ensures MentionOk(pattern[1..], After(pattern, s), q, k)
  {
    hide WriteVertex, WriteEdge, Resolvable, AttributesApart, VariablesApart, GraphStore.Store.Safe, Apart;
    var rest := pattern[1..];
    var pos := rest[q].nodes[k].pos;
    if p, j :| DeclaresVertexAt(pattern, p, j, pos) && (p < q + 1 || (p == q + 1 && j < k)) {
      if p == 0 {
        FirstPathDeclares(pattern, s, j, pos);
      } else {
        assert DeclaresVertexAt(rest, p - 1, j, pos);
      }
    } else {
      UndeclaredRest(pattern, pos);
      FirstPathKeeps(pattern, s, q + 1, k);
      SafeIsConsistent(s.store);
      ConsistentIsDrawn(s.store);
      RunGrows(Create, pattern[0].nodes, 0, s);
    }
  }

  function InsertedIn(pattern: seq<CreatePath>): nat {
    if pattern == [] then 0 else Inserted(pattern[0].nodes, 0) + InsertedIn(pattern[1..])
  }

  /**
   * A whole pattern for one row: the graph never has a dangling edge, not even between two inserts of
   * one path; nothing old changes; and each target that inserts makes exactly one entity.
   */
  lemma {:induction false} PatternIsSafe(pattern: seq<CreatePath>, s: State)
    requires AllReady(pattern, |s.slot|) && Apart(pattern) && Resolved(pattern, s) && s.store.Safe()
    requires ProcessPattern(pattern, s).Ok?
    ensures var t := ProcessPattern(pattern, s).value.s.store;
            && t.Safe() && t.start == s.store.start && Extends(s.store.g, t.g)
            && |t.writes| == |s.store.writes| + InsertedIn(pattern)
            && |t.g.vertices| + |t.g.edges| == |s.store.g.vertices| + |s.store.g.edges| + InsertedIn(pattern)
  {
    if pattern != [] {
      FirstPathReady(pattern, s);
      RunIsSafe(Create, pattern[0].nodes, 0, s);
      RunKeepsStart(Create, pattern[0].nodes, 0, s);
      RestApart(pattern);
      RestResolved(pattern, s);
      RestReady(pattern, |s.slot|);
      PatternIsSafe(pattern[1..], After(pattern, s));
    }
  }

  /** A pattern is its first path, and the other paths from the state that leaves. */
  lemma PatternSplits(pattern: seq<CreatePath>, s: State)
    requires pattern != [] && AllReady(pattern, |s.slot|) && ProcessPattern(pattern, s).Ok?
    ensures AllReady(pattern[1..], |s.slot|) && Ready(pattern[0], |s.slot|)
    ensures WriteVertex(Create, pattern[0].nodes, 0, s).Ok? && ProcessPattern(pattern[1..], After(pattern, s)).Ok?
    ensures var ids, rest := ProcessPattern(pattern, s).value.ids, ProcessPattern(pattern[1..], After(pattern, s)).value.ids;
            && ids[0] == WriteVertex(Create, pattern[0].nodes, 0, s).value.ids
            && forall q | 0 < q < |pattern| :: ids[q] == rest[q - 1]
  {
    RestReady(pattern, |s.slot|);
  }

  /** A mention of a clause-local variable in one path is the vertex an earlier path made for that same row. */
  lemma {:induction false} PatternResolves(pattern: seq<CreatePath>, s: State, p: nat, j: nat, q: nat, k: nat)
    requires AllReady(pattern, |s.slot|) && Apart(pattern) && Resolved(pattern, s) && s.store.Safe()
    requires ProcessPattern(pattern, s).Ok?
    requires MentionsAt(pattern, q, k) && DeclaresVertexAt(pattern, p, j, pattern[q].nodes[k].pos)
    requires p < q || (p == q && j < k)
    ensures var ids := ProcessPattern(pattern, s).value.ids; ids[q][k] == ids[p][j]
    decreases p
  {
    hide WriteVertex, WriteEdge, ProcessPattern, GraphStore.Store.Safe, Apart, Resolved, Resolvable, AttributesApart, VariablesApart;
    PatternSplits(pattern, s);
    FirstPathReady(pattern, s);
    if p == 0 {
      FirstPathResolves(pattern, s, j, q, k);
    } else {
      RestApart(pattern);
      RestResolved(pattern, s);
      RunIsSafe(Create, pattern[0].nodes, 0, s);
      assert pattern[1..][q - 1] == pattern[q] && pattern[1..][p - 1] == pattern[p];
      PatternResolves(pattern[1..], After(pattern, s), p - 1, j, q - 1, k);
    }
  }

  lemma FirstPathResolves(pattern: seq<CreatePath>, s: State, j: nat, q: nat, k: nat)
    requires AllReady(pattern, |s.slot|) && Apart(pattern) && s.store.Safe()
    requires pattern != [] && Ready(pattern[0], |s.slot|) && AttributesApart(pattern[0].nodes)
    requires VariablesApart(pattern[0].nodes) && Resolvable(pattern[0].nodes, 0, s)
    requires ProcessPattern(pattern, s).Ok? && (q > 0 || j < k)
    requires MentionsAt(pattern, q, k) && DeclaresVertexAt(pattern, 0, j, pattern[q].nodes[k].pos)
    ensures var ids := ProcessPattern(pattern, s).value.ids; ids[q][k] == ids[0][j]
  {
    hide WriteVertex, WriteEdge, ProcessPattern, GraphStore.Store.Safe, Apart, Resolvable, AttributesApart, VariablesApart;
    PatternSplits(pattern, s);
    if q == 0 {
      RunResolves(Create, pattern[0].nodes, 0, s, j, k);
    } else {
      RestApart(pattern);
      assert pattern[1..][q - 1] == pattern[q];
      FirstPathDeclares(pattern, s, j, pattern[q].nodes[k].pos);
      PatternFindsId(pattern[1..], After(pattern, s), q - 1, k);
    }
  }

  /** Every vertex of every path, made or mentioned, is live when the pattern is done. */
  lemma {:induction false} PatternVertexLives(pattern: seq<CreatePath>, s: State, q: nat, k: nat)
    requires AllReady(pattern, |s.slot|) && Apart(pattern) && Resolved(pattern, s) && s.store.Safe() && ProcessPattern(pattern, s).Ok?
    requires At(pattern, q, k) && pattern[q].nodes[k].VertexTarget?
    ensures ProcessPattern(pattern, s).value.ids[q][k] in ProcessPattern(pattern, s).value.s.store.g.vertices
  {
    hide WriteVertex, WriteEdge, ProcessPattern, GraphStore.Store.Safe, Apart, Resolved, Resolvable, AttributesApart, VariablesApart, AllReady;
    PatternSplits(pattern, s);
    FirstPathReady(pattern, s);
    RestApart(pattern);
    RestResolved(pattern, s);
    RunIsSafe(Create, pattern[0].nodes, 0, s);
    PatternIsSafe(pattern[1..], After(pattern, s));
    PatternEnds(pattern, s);
    if q == 0 {
      RunFindsLive(Create, pattern[0].nodes, 0, s, k);
    } else {
      assert pattern[1..][q - 1] == pattern[q];
      PatternVertexLives(pattern[1..], After(pattern, s), q - 1, k);
    }
  }

  /** The first path leaves the attribute that carries a target's properties. */
  lemma FirstPathKeepsProps(pattern: seq<CreatePath>, s: State, q: int, k: int)
    requires pattern != [] && Apart(pattern) && AllReady(pattern, |s.slot|) && Ready(pattern[0], |s.slot|)
    requires WriteVertex(Create, pattern[0].nodes, 0, s).Ok?
    requires At(pattern, q, k) && pattern[q].nodes[k].Inserts()
    ensures forall props :: Describes(pattern[q].nodes[k], After(pattern, s).slot, props) <==> Describes(pattern[q].nodes[k], s.slot, props)
  {
    hide WriteVertex, WriteEdge;
    var t := pattern[q].nodes[k];
    if t.from.Attribute? {
      assert Ready(pattern[q], |s.slot|) && Fits(t, |s.slot|);
      var p := t.from.pos;
      forall j | 0 <= j < |pattern[0].nodes| && pattern[0].nodes[j].Declares() ensures pattern[0].nodes[j].pos != p + 1 {
        assert At(pattern, 0, j);
      }
      RunFramesSlot(Create, pattern[0].nodes, 0, s, p);
      assert p + 1 != pattern[0].pathAttr;
    }
  }

  lemma MadeFrom(c: Clause, nodes: seq<Target>, k: nat, slot: seq<Datum>, other: seq<Datum>, ids: seq<GraphId>, g: Graph)
    requires k < |nodes| == |ids| && Made(c, nodes, 0, k, slot, ids, g)
    requires nodes[k].Inserts() ==> forall props :: Describes(nodes[k], slot, props) <==> Describes(nodes[k], other, props)
    ensures Made(c, nodes, 0, k, other, ids, g)
  {
    hide Describes;
  }

  /**
   * Every target of every path, once the whole pattern is done: its vertex has the properties and the label of
   * the plan, and its edge lies between its neighbours as the arrow of the pattern points.
   */
  lemma {:induction false} PatternMakes(pattern: seq<CreatePath>, s: State, q: nat, k: nat)
    requires AllReady(pattern, |s.slot|) && Apart(pattern) && Resolved(pattern, s) && s.store.Safe() && ProcessPattern(pattern, s).Ok?
    requires At(pattern, q, k)
    ensures var r := ProcessPattern(pattern, s).value; Made(Create, pattern[q].nodes, 0, k, s.slot, r.ids[q], r.s.store.g)
  {
    hide WriteVertex, WriteEdge, ProcessPattern, GraphStore.Store.Safe, Apart, Resolved, Resolvable, AttributesApart, VariablesApart, AllReady, Made,
         Describes;
    PatternSplits(pattern, s);
    FirstPathReady(pattern, s);
    RestApart(pattern);
    RestResolved(pattern, s);
    RunIsSafe(Create, pattern[0].nodes, 0, s);
    PatternIsSafe(pattern[1..], After(pattern, s));
    PatternEnds(pattern, s);
    var r := ProcessPattern(pattern, s).value;
    if q == 0 {
      RunMakesPath(Create, pattern[0].nodes, 0, s, k);
      MadeStays(Create, pattern[0].nodes, 0, k, s.slot, r.ids[0], After(pattern, s).store.g, r.s.store.g);
    } else {
      assert pattern[1..][q - 1] == pattern[q];
      PatternMakes(pattern[1..], After(pattern, s), q - 1, k);
      if pattern[q].nodes[k].Inserts() { FirstPathKeepsProps(pattern, s, q, k); }
      MadeFrom(Create, pattern[q].nodes, k, After(pattern, s).slot, s.slot, r.ids[q], r.s.store.g);
    }
  }

  /** The state after the pattern is the one after its other paths. */
  lemma PatternEnds(pattern: seq<CreatePath>, s: State)
    requires pattern != [] && AllReady(pattern, |s.slot|) && ProcessPattern(pattern, s).Ok?
    ensures AllReady(pattern[1..], |s.slot|) && WriteVertex(Create, pattern[0].nodes, 0, s).Ok?
    ensures ProcessPattern(pattern[1..], After(pattern, s)).Ok?
    ensures ProcessPattern(pattern, s).value.s == ProcessPattern(pattern[1..], After(pattern, s)).value.s
    ensures After(pattern, s).store == WriteVertex(Create, pattern[0].nodes, 0, s).value.s.store
  {
    hide WriteVertex, WriteEdge;
    RestReady(pattern, |s.slot|);
  }

  lemma {:induction false} PatternFindsId(pattern: seq<CreatePath>, s: State, q: nat, k: nat)
    requires AllReady(pattern, |s.slot|) && Apart(pattern) && ProcessPattern(pattern, s).Ok?
    requires At(pattern, q, k) && pattern[q].nodes[k].VertexTarget? && !pattern[q].nodes[k].insert
    requires Undeclared(pattern, pattern[q].nodes[k].pos)
    ensures 0 < pattern[q].nodes[k].pos <= |s.slot| && s.slot[pattern[q].nodes[k].pos - 1].VertexDatum?
    ensures ProcessPattern(pattern, s).value.ids[q][k] == s.slot[pattern[q].nodes[k].pos - 1].id
  {
    hide WriteVertex, WriteEdge, ProcessPattern, Apart;
    PatternSplits(pattern, s);
    var pos := pattern[q].nodes[k].pos;
    UndeclaredRest(pattern, pos);
    FirstPathKeeps(pattern, s, q, k);
    if q == 0 {
      RunFinds(Create, pattern[0].nodes, 0, s, k);
    } else {
      RestApart(pattern);
      assert pattern[1..][q - 1] == pattern[q];
      PatternFindsId(pattern[1..], After(pattern, s), q - 1, k);
    }
  }

  /** A variable that the clause does not declare is the vertex in the row, and that vertex is live. */
  lemma PatternFinds(pattern: seq<CreatePath>, s: State, q: nat, k: nat)
    requires AllReady(pattern, |s.slot|) && Apart(pattern) && Resolved(pattern, s) && s.store.Safe() && ProcessPattern(pattern, s).Ok?
    requires At(pattern, q, k) && pattern[q].nodes[k].VertexTarget? && !pattern[q].nodes[k].insert
    requires Undeclared(pattern, pattern[q].nodes[k].pos)
    ensures 0 < pattern[q].nodes[k].pos <= |s.slot| && s.slot[pattern[q].nodes[k].pos - 1].VertexDatum?
    ensures var id := ProcessPattern(pattern, s).value.ids[q][k];
            id == s.slot[pattern[q].nodes[k].pos - 1].id && id in ProcessPattern(pattern, s).value.s.store.g.vertices
  {
    hide ProcessPattern, Apart, Resolved, GraphStore.Store.Safe, AllReady;
    PatternFindsId(pattern, s, q, k);
    PatternVertexLives(pattern, s, q, k);
  }

  /** An attribute that no variable and no path of the pattern owns keeps its contents. */
  lemma {:induction false} PatternFramesSlot(pattern: seq<CreatePath>, s: State, a: nat)
    requires AllReady(pattern, |s.slot|) && ProcessPattern(pattern, s).Ok? && a < |s.slot|
    requires Undeclared(pattern, a + 1) && forall p | 0 <= p < |pattern| :: pattern[p].pathAttr != a + 1
    ensures ProcessPattern(pattern, s).value.s.slot[a] == s.slot[a]
  {
    if pattern != [] {
      hide WriteVertex, WriteEdge, ProcessPattern, Undeclared, AllReady;
      PatternSplits(pattern, s);
      PatternEnds(pattern, s);
      UndeclaredRest(pattern, a + 1);
      RunFramesSlot(Create, pattern[0].nodes, 0, s, a);
      assert forall p | 0 <= p < |pattern[1..]| :: pattern[1..][p] == pattern[p + 1];
      PatternFramesSlot(pattern[1..], After(pattern, s), a);
    }
  }

  /** The datum is a path value of these entities: v0, e0, v1, ..., vn. */
  ghost predicate IsPathValue(d: Datum, nodes: seq<Target>, ids: seq<GraphId>, g: Graph) {
    && |ids| == |nodes| && d.TraversalDatum? && |d.items| == |nodes|
    && forall k | 0 <= k < |nodes| :: IsDatumOf(d.items[k], nodes[k], ids[k], g)
  }

  lemma PathValueStays(d: Datum, nodes: seq<Target>, ids: seq<GraphId>, g: Graph, h: Graph)
    requires IsPathValue(d, nodes, ids, g) && Extends(g, h)
    ensures IsPathValue(d, nodes, ids, h)
  {}

  /** The attribute of the path's variable belongs to no other path and to no other variable. */
  ghost predicate OwnAttribute(pattern: seq<CreatePath>, q: int) {
    && 0 <= q < |pattern| && pattern[q].pathAttr > 0 && Undeclared(pattern, pattern[q].pathAttr)
    && forall p | 0 <= p < |pattern| && p != q :: pattern[p].pathAttr != pattern[q].pathAttr
  }

  /** After the first path its attribute holds its entities in order. */
  lemma FirstPathListed(pattern: seq<CreatePath>, s: State)
    requires pattern != [] && AllReady(pattern, |s.slot|) && Apart(pattern) && Resolved(pattern, s) && s.store.Safe()
    requires ProcessPattern(pattern, s).Ok? && s.pathValues == [] && pattern[0].pathAttr > 0
    requires forall k | 0 <= k < |pattern[0].nodes| :: pattern[0].nodes[k].inPath
    ensures WriteVertex(Create, pattern[0].nodes, 0, s).Ok? && Ready(pattern[0], |s.slot|)
    ensures IsPathValue(After(pattern, s).slot[pattern[0].pathAttr - 1], pattern[0].nodes,
                        WriteVertex(Create, pattern[0].nodes, 0, s).value.ids, After(pattern, s).store.g)
  {
    PatternSplits(pattern, s);
    FirstPathReady(pattern, s);
    hide WriteVertex, WriteEdge, Apart, Resolved, Resolvable, AttributesApart, VariablesApart, GraphStore.Store.Safe;
    RunListsPath(Create, pattern[0].nodes, 0, s);
    var nodes, run := pattern[0].nodes, WriteVertex(Create, pattern[0].nodes, 0, s).value;
    forall k | 0 <= k < |nodes| ensures IsDatumOf(run.s.pathValues[k], nodes[k], run.ids[k], run.s.store.g) {
      assert IsDatumOf(run.s.pathValues[0 + k - 0], nodes[k], run.ids[k - 0], run.s.store.g);
    }
  }

  /**
   * After the whole pattern, the attribute of every path variable holds v0, e0, v1, ..., vn of its own
   * path, although edges are inserted in reverse and later paths are created over the same tuple.
   */
  lemma {:induction false} PatternListsPaths(pattern: seq<CreatePath>, s: State, q: nat)
    requires AllReady(pattern, |s.slot|) && Apart(pattern) && Resolved(pattern, s) && s.store.Safe()
    requires ProcessPattern(pattern, s).Ok? && s.pathValues == [] && OwnAttribute(pattern, q)
    requires forall k | 0 <= k < |pattern[q].nodes| :: pattern[q].nodes[k].inPath
    ensures pattern[q].pathAttr <= |s.slot|
    ensures var r := ProcessPattern(pattern, s).value;
            IsPathValue(r.s.slot[pattern[q].pathAttr - 1], pattern[q].nodes, r.ids[q], r.s.store.g)
  {
    hide WriteVertex, WriteEdge, ProcessPattern, AllReady, Apart, Resolved, Resolvable, Undeclared, GraphStore.Store.Safe, IsPathValue, AttributesApart,
         VariablesApart;
    PatternSplits(pattern, s);
    PatternEnds(pattern, s);
    FirstPathReady(pattern, s);
    RestApart(pattern);
    RestResolved(pattern, s);
    RunIsSafe(Create, pattern[0].nodes, 0, s);
    var a := pattern[q].pathAttr;
    UndeclaredRest(pattern, a);
    assert forall p | 0 <= p < |pattern[1..]| :: pattern[1..][p] == pattern[p + 1];
    if q == 0 {
      FirstPathListed(pattern, s);
      PatternFramesSlot(pattern[1..], After(pattern, s), a - 1);
      PatternIsSafe(pattern[1..], After(pattern, s));
      PathValueStays(After(pattern, s).slot[a - 1], pattern[0].nodes, ProcessPattern(pattern, s).value.ids[0],
                     After(pattern, s).store.g, ProcessPattern(pattern, s).value.s.store.g);
    } else {
      PatternListsPaths(pattern[1..], After(pattern, s), q - 1);
    }
  }

  lemma PlannedIsResolved(pattern: seq<CreatePath>, s: State)
    requires Planned(pattern) && TrueChecks(pattern, s)
    ensures Apart(pattern) && Resolved(pattern, s)
  {}

  // ---------------------------------------------------------------- exactly when a pattern dangles

  /** The planner checks the mentions of variables that the clause does not declare. */
  ghost predicate ChecksUndeclared(pattern: seq<CreatePath>) {
    forall q, k | ChecksAt(pattern, q, k) :: Undeclared(pattern, pattern[q].nodes[k].pos)
  }

  /** No check of a path with an edge shows a vertex that is gone. */
  ghost predicate EdgesCheckTrue(pattern: seq<CreatePath>, s: State) {
    forall q, k | ChecksAt(pattern, q, k) && |pattern[q].nodes| > 1 :: ShownIsLive(s, pattern[q].nodes[k].pos)
  }

  lemma {:induction false} PatternGrows(pattern: seq<CreatePath>, s: State)
    requires AllReady(pattern, |s.slot|) && ProcessPattern(pattern, s).Ok? && Drawn(s.store)
    ensures var t := ProcessPattern(pattern, s).value.s.store; t.start == s.store.start && s.store.writes <= t.writes && Drawn(t)
  {
    hide WriteVertex, WriteEdge, ProcessPattern, Drawn, AllReady;
    if pattern != [] {
      PatternEnds(pattern, s);
      RestReady(pattern, |s.slot|);
      RunGrows(Create, pattern[0].nodes, 0, s);
      PatternGrows(pattern[1..], After(pattern, s));
    } else {
      NoPaths(s);
    }
  }

  lemma FirstChecksOutside(pattern: seq<CreatePath>)
    requires pattern != [] && ChecksUndeclared(pattern)
    ensures ChecksOutside(pattern[0].nodes)
  {
    forall j, k | 0 <= j < |pattern[0].nodes| && 0 <= k < |pattern[0].nodes| && pattern[0].nodes[k].Checked() && pattern[0].nodes[j].Declares()
      ensures pattern[0].nodes[j].pos != pattern[0].nodes[k].pos
    {
      assert ChecksAt(pattern, 0, k);
      UndeclaredRest(pattern, pattern[0].nodes[k].pos);
    }
  }

  lemma RestChecksUndeclared(pattern: seq<CreatePath>)
    requires pattern != [] && ChecksUndeclared(pattern)
    ensures ChecksUndeclared(pattern[1..])
  {
    forall q, k | ChecksAt(pattern[1..], q, k) ensures Undeclared(pattern[1..], pattern[1..][q].nodes[k].pos) {
      assert ChecksAt(pattern, q + 1, k);
      UndeclaredRest(pattern, pattern[1..][q].nodes[k].pos);
    }
  }

  /** The first path changes neither what a later check finds nor whether it is true. */
  lemma CheckUnmoved(pattern: seq<CreatePath>, s: State, q: int, k: int)
    requires pattern != [] && AllReady(pattern, |s.slot|) && Apart(pattern) && ChecksUndeclared(pattern) && SeenDrawn(s) && Drawn(s.store)
    requires Ready(pattern[0], |s.slot|) && WriteVertex(Create, pattern[0].nodes, 0, s).Ok? && ChecksAt(pattern, q, k)
    ensures ShownIsLive(After(pattern, s), pattern[q].nodes[k].pos) <==> ShownIsLive(s, pattern[q].nodes[k].pos)
  {
    hide WriteVertex, WriteEdge, Apart, Drawn;
    FirstPathKeeps(pattern, s, q, k);
    RunGrows(Create, pattern[0].nodes, 0, s);
  }

  lemma RestChecks(pattern: seq<CreatePath>, s: State)
    requires pattern != [] && AllReady(pattern, |s.slot|) && Apart(pattern) && ChecksUndeclared(pattern) && SeenDrawn(s) && Drawn(s.store)
    requires Ready(pattern[0], |s.slot|) && WriteVertex(Create, pattern[0].nodes, 0, s).Ok?
    ensures EdgesCheckTrue(pattern, s) <==>
      (|pattern[0].nodes| == 1 || ChecksAreTrue(pattern[0].nodes, 0, s)) && EdgesCheckTrue(pattern[1..], After(pattern, s))
    ensures SeenDrawn(After(pattern, s))
  {
    hide WriteVertex, WriteEdge, Apart, Drawn, ChecksUndeclared, AllReady, Ready, ShownIsLive;
    var rest, s1 := pattern[1..], After(pattern, s);
    forall q, k | ChecksAt(pattern, q, k) ensures ShownIsLive(s1, pattern[q].nodes[k].pos) <==> ShownIsLive(s, pattern[q].nodes[k].pos) {
      CheckUnmoved(pattern, s, q, k);
    }
    forall k | 0 <= k < |pattern[0].nodes| && pattern[0].nodes[k].Checked() ensures ChecksAt(pattern, 0, k) {}
    forall q, k ensures ChecksAt(rest, q, k) <==> q >= 0 && ChecksAt(pattern, q + 1, k) {}
    forall q, k | ChecksAt(pattern, q, k) && q > 0 ensures ChecksAt(rest, q - 1, k) && rest[q - 1] == pattern[q] {}
    SeenStaysDrawn(pattern, s);
  }

  lemma SeenStaysDrawn(pattern: seq<CreatePath>, s: State)
    requires pattern != [] && Ready(pattern[0], |s.slot|) && WriteVertex(Create, pattern[0].nodes, 0, s).Ok? && SeenDrawn(s) && Drawn(s.store)
    ensures SeenDrawn(After(pattern, s))
  {
    hide WriteVertex, WriteEdge, Drawn;
    RunGrows(Create, pattern[0].nodes, 0, s);
  }

  /**
   * A pattern is created for a row without ever leaving a dangling edge exactly when no check of a path
   * with an edge shows a vertex that is gone.
   */
  lemma {:induction false} PatternSafeExactly(pattern: seq<CreatePath>, s: State)
    requires AllReady(pattern, |s.slot|) && Apart(pattern) && LocalsResolved(pattern, s) && ChecksUndeclared(pattern)
    requires s.store.Safe() && SeenDrawn(s) && ProcessPattern(pattern, s).Ok?
    ensures var t := ProcessPattern(pattern, s).value.s.store;
            && (t.Safe() <==> EdgesCheckTrue(pattern, s)) && (!t.Safe() ==> !NeverDangling(t.start, t.writes))
  {
    hide WriteVertex, WriteEdge, ProcessPattern, AllReady, Apart, LocalsResolved, ChecksUndeclared, GraphStore.Store.Safe, SeenDrawn, Drawn,
         EdgesCheckTrue, AttributesApart, VariablesApart;
    if pattern == [] {
      NoPaths(s);
      NothingToCheck(s);
    } else {
      PatternEnds(pattern, s);
      RestReady(pattern, |s.slot|);
      FirstPathApart(pattern);
      FirstLocalsResolve(pattern, s);
      FirstChecksOutside(pattern);
      RunSafeExactly(Create, pattern[0].nodes, s);
      SafeIsConsistent(s.store);
      ConsistentIsDrawn(s.store);
      RestChecks(pattern, s);
      RunGrows(Create, pattern[0].nodes, 0, s);
      var s1 := After(pattern, s);
      if s1.store.Safe() {
        FirstIsResolved(pattern, s);
        RestApart(pattern);
        RestLocalsResolved(pattern, s);
        RestChecksUndeclared(pattern);
        PatternSafeExactly(pattern[1..], s1);
      } else {
        PatternGrows(pattern[1..], s1);
        DrawnReplays(s1.store);
        DanglesForGood(s1.store, ProcessPattern(pattern, s).value.s.store);
      }
    }
  }

  lemma NothingToCheck(s: State)
    ensures EdgesCheckTrue([], s)
  {}

  lemma FirstIsResolved(pattern: seq<CreatePath>, s: State)
    requires pattern != [] && Ready(pattern[0], |s.slot|) && LocalsResolve(pattern[0].nodes, 0, s)
    requires |pattern[0].nodes| == 1 || ChecksAreTrue(pattern[0].nodes, 0, s)
    ensures FirstResolves(pattern, s)
  {}

  function StateFor(input: Input, store: Store): State {
    State(store, input.row, [], input.seen, None)
  }

  /** No check shows a vertex that is gone when the turn of its row comes. */
  ghost predicate RowsCheckTrue(pattern: seq<CreatePath>, rows: seq<Input>, store: Store)
    requires forall i | 0 <= i < |rows| :: AllReady(pattern, |rows[i].row|)
  {
    rows == [] ||
    (TrueChecks(pattern, StateFor(rows[0], store))
     && (ProcessPattern(pattern, StateFor(rows[0], store)).Ok? ==>
           RowsCheckTrue(pattern, rows[1..], ProcessPattern(pattern, StateFor(rows[0], store)).value.s.store)))
  }

  /** Over all input rows: never a dangling edge, and one entity per inserting target and row. */
  lemma {:induction false} RowsAreSafe(pattern: seq<CreatePath>, rows: seq<Input>, store: Store)
    requires forall i | 0 <= i < |rows| :: AllReady(pattern, |rows[i].row|)
    requires Planned(pattern) && store.Safe() && RowsCheckTrue(pattern, rows, store)
    requires ProcessRows(pattern, rows, store).Ok?
    ensures var t := ProcessRows(pattern, rows, store).value.1;
            && t.Safe() && t.start == store.start && Extends(store.g, t.g)
            && |t.writes| == |store.writes| + |rows| * InsertedIn(pattern)
            && |t.g.vertices| + |t.g.edges| == |store.g.vertices| + |store.g.edges| + |rows| * InsertedIn(pattern)
  {
    hide ProcessPattern, AllReady, Planned, InsertedIn, Apart, Resolved, TrueChecks, GraphStore.Store.Safe;
    if rows != [] {
      assert AllReady(pattern, |rows[0].row|);
      var s := StateFor(rows[0], store);
      PlannedIsResolved(pattern, s);
      PatternIsSafe(pattern, s);
      var first := ProcessPattern(pattern, s).value;
      RowsAreSafe(pattern, rows[1..], first.s.store);
      assert |rows| * InsertedIn(pattern) == InsertedIn(pattern) + |rows[1..]| * InsertedIn(pattern);
    }
  }

  /** The first row, and the rows behind it from the store that leaves. */
  lemma RowsSplit(pattern: seq<CreatePath>, rows: seq<Input>, store: Store)
    requires forall i | 0 <= i < |rows| :: AllReady(pattern, |rows[i].row|)
    requires ProcessRows(pattern, rows, store).Ok? && rows != []
    ensures AllReady(pattern, |rows[0].row|) && ProcessPattern(pattern, StateFor(rows[0], store)).Ok?
    ensures var first := ProcessPattern(pattern, StateFor(rows[0], store)).value;
            && ProcessRows(pattern, rows[1..], first.s.store).Ok?
            && ProcessRows(pattern, rows, store).value.0 == [first] + ProcessRows(pattern, rows[1..], first.s.store).value.0
            && ProcessRows(pattern, rows, store).value.1 == ProcessRows(pattern, rows[1..], first.s.store).value.1
            && (RowsCheckTrue(pattern, rows, store) ==>
                  TrueChecks(pattern, StateFor(rows[0], store)) && RowsCheckTrue(pattern, rows[1..], first.s.store))
  {
    hide ProcessPattern, TrueChecks;
  }

  lemma RowsExtend(pattern: seq<CreatePath>, rows: seq<Input>, store: Store)
    requires forall i | 0 <= i < |rows| :: AllReady(pattern, |rows[i].row|)
    requires Planned(pattern) && store.Safe() && RowsCheckTrue(pattern, rows, store) && ProcessRows(pattern, rows, store).Ok?
    ensures Extends(store.g, ProcessRows(pattern, rows, store).value.1.g)
  {
    hide *;
    RowsAreSafe(pattern, rows, store);
  }

  lemma FirstRowMakes(pattern: seq<CreatePath>, rows: seq<Input>, store: Store, q: nat, k: nat)
    requires forall j | 0 <= j < |rows| :: AllReady(pattern, |rows[j].row|)
    requires Planned(pattern) && store.Safe() && RowsCheckTrue(pattern, rows, store)
    requires ProcessRows(pattern, rows, store).Ok? && rows != [] && At(pattern, q, k)
    ensures ProcessPattern(pattern, StateFor(rows[0], store)).Ok?
    ensures ProcessPattern(pattern, StateFor(rows[0], store)).value.s.store.Safe()
    ensures var (runs, done) := ProcessRows(pattern, rows, store).value;
            Made(Create, pattern[q].nodes, 0, k, rows[0].row, runs[0].ids[q], done.g)
  {
    hide ProcessPattern, AllReady, Planned, Apart, Resolved, TrueChecks, GraphStore.Store.Safe, Made, ProcessRows, RowsCheckTrue, Extends,
         InsertedIn;
    RowsSplit(pattern, rows, store);
    var s := StateFor(rows[0], store);
    PlannedIsResolved(pattern, s);
    PatternIsSafe(pattern, s);
    PatternMakes(pattern, s, q, k);
    var first := ProcessPattern(pattern, s).value;
    RowsExtend(pattern, rows[1..], first.s.store);
    MadeStays(Create, pattern[q].nodes, 0, k, rows[0].row, first.ids[q], first.s.store.g, ProcessRows(pattern, rows, store).value.1.g);
  }

  /** For every input row, every target of every path is made from that row, and is still so after all rows. */
  lemma {:induction false} RowsMake(pattern: seq<CreatePath>, rows: seq<Input>, store: Store, i: nat, q: nat, k: nat)
    requires forall j | 0 <= j < |rows| :: AllReady(pattern, |rows[j].row|)
    requires Planned(pattern) && store.Safe() && RowsCheckTrue(pattern, rows, store)
    requires ProcessRows(pattern, rows, store).Ok? && i < |rows| && At(pattern, q, k)
    ensures var (runs, done) := ProcessRows(pattern, rows, store).value;
            Made(Create, pattern[q].nodes, 0, k, rows[i].row, runs[i].ids[q], done.g)
  {
    hide ProcessPattern, AllReady, Planned, Apart, Resolved, TrueChecks, GraphStore.Store.Safe, Made, ProcessRows, RowsCheckTrue, Extends,
         InsertedIn;
    FirstRowMakes(pattern, rows, store, q, k);
    if i > 0 {
      RowsSplit(pattern, rows, store);
      var rest, next := rows[1..], ProcessPattern(pattern, StateFor(rows[0], store)).value.s.store;
      assert forall j | 0 <= j < |rest| :: rest[j] == rows[j + 1];
      RowsMake(pattern, rest, next, i - 1, q, k);
      assert ProcessRows(pattern, rows, store).value.0[i] == ProcessRows(pattern, rest, next).value.0[i - 1];
    }
  }
}
