/**
 * The store the update clauses write to: the tables, the sequences their ids come from, and the
 * physical writes made so far. A store is safe when no write ever left a dangling edge.
 */
module GraphStore {
  import opened Results
  import opened PropertyGraph

  datatype Write =
    | InsertVertex(id: GraphId, props: Props)
    | InsertEdge(id: GraphId, edge: Edge)
    | UpdateVertex(id: GraphId, props: Props)
    | UpdateEdge(id: GraphId, edge: Edge)
    | DeleteVertex(id: GraphId)
    | DeleteEdge(id: GraphId)

  function Apply(g: Graph, w: Write): Graph {
    match w
    case InsertVertex(id, props) => g.(vertices := g.vertices[id := props])
    case UpdateVertex(id, props) => g.(vertices := g.vertices[id := props])
    case InsertEdge(id, e) => g.(edges := g.edges[id := e])
    case UpdateEdge(id, e) => g.(edges := g.edges[id := e])
    case DeleteVertex(id) => g.(vertices := g.vertices - {id})
    case DeleteEdge(id) => g.(edges := g.edges - {id})
  }

  function Replay(g: Graph, ws: seq<Write>): Graph {
    if ws == [] then g else Apply(Replay(g, ws[..|ws| - 1]), ws[|ws| - 1])
  }

  /** The graph after the first n writes. */
  function Past(g: Graph, ws: seq<Write>, n: nat): Graph
    requires n <= |ws|
  {
    Replay(g, ws[..n])
  }

  predicate Has(g: Graph, id: GraphId) {
    id in g.vertices || id in g.edges
  }

  /** Not after any of the writes is there a dangling edge. */
  ghost predicate NeverDangling(g: Graph, ws: seq<Write>) {
    forall n | 0 <= n <= |ws| :: NoDangling(Past(g, ws, n))
  }

  predicate SameEndsAt(g: Graph, h: Graph, e: GraphId)
    requires e in g.edges && e in h.edges
  {
    g.edges[e].start == h.edges[e].start && g.edges[e].end == h.edges[e].end
  }

  /** An edge id stands for the same pair of endpoints at all times. */
  ghost predicate EndsNeverChange(g: Graph, ws: seq<Write>) {
    forall m, n, e | 0 <= m <= |ws| && 0 <= n <= |ws| && e in Past(g, ws, m).edges && e in Past(g, ws, n).edges ::
      SameEndsAt(Past(g, ws, m), Past(g, ws, n), e)
  }

  /** Whatever is inserted has an id that nothing had before, and a vertex that is updated or deleted is there. */
  ghost predicate WritesAreLawful(g: Graph, ws: seq<Write>) {
    && (forall i, n | 0 <= n <= i < |ws| && (ws[i].InsertVertex? || ws[i].InsertEdge?) :: !Has(Past(g, ws, n), ws[i].id))
    && (forall i | 0 <= i < |ws| && (ws[i].UpdateVertex? || ws[i].DeleteVertex?) :: ws[i].id in Past(g, ws, i).vertices)
  }

  /** The id was never given to any entity so far. */
  ghost predicate NeverUsed(st: Store, id: GraphId) {
    forall n | 0 <= n <= |st.writes| :: !Has(Past(st.start, st.writes, n), id)
  }

  /** The write concerns the vertex, or the edge, with this id. */
  predicate Hits(w: Write, vertex: bool, id: GraphId) {
    w.id == id && vertex == (w.InsertVertex? || w.UpdateVertex? || w.DeleteVertex?)
  }

  /** How many of the stamps, which never decrease, are below the command id. */
  function Before(stamps: seq<nat>, cid: nat): (n: nat)
    ensures n <= |stamps| && (forall i | n <= i < |stamps| :: stamps[i] >= cid) && (n > 0 ==> stamps[n - 1] < cid)
  {
    if stamps == [] || stamps[|stamps| - 1] < cid then |stamps| else Before(stamps[..|stamps| - 1], cid)
  }

  /**
   * `last` holds the last value each label's sequence has handed out. Commands are numbered; every write
   * is stamped with the id of its command, and the current command has made the writes from `finished`
   * on. A scan that reads through a command id sees the writes with a lower stamp.
   */
  datatype Store = Store(start: Graph, writes: seq<Write>, stamps: seq<nat>, g: Graph, last: map<nat, nat>, finished: nat, command: nat) {
    function LastOf(l: nat): nat {
      if l in last then last[l] else 0
    }

    /** `nextval` on the label's sequence, which does not cycle. */
    function NextId(l: nat): Result<(GraphId, Store)> {
      if LastOf(l) >= ENTRY_ID_MAX then Err(NoMoreEntries)
      else Ok((GraphId(l, LastOf(l) + 1), this.(last := last[l := LastOf(l) + 1])))
    }

    function Do(w: Write): Store {
      this.(writes := writes + [w], stamps := stamps + [command], g := Apply(g, w))
    }

    /** `CommandCounterIncrement`, which does nothing while the current command has not written. */
    function EndCommand(): Store {
      if finished == |writes| then this else this.(finished := |writes|, command := command + 1)
    }

    /** What a scan of the current command sees. */
    function SeenByCommand(): Graph {
      if finished <= |writes| then Past(start, writes, finished) else g
    }

    /** What a scan sees that reads through the command id. */
    function SeenAt(cid: nat): Graph {
      var n := Before(stamps, cid);
      if n <= |writes| then Past(start, writes, n) else g
    }

    /** A command with this id or a later one has written the tuple. */
    predicate WrittenSince(vertex: bool, id: GraphId, cid: nat) {
      exists i | 0 <= i < |writes| && i < |stamps| && stamps[i] >= cid :: Hits(writes[i], vertex, id)
    }

    /** A command with this id or a later one has deleted the vertex. */
    predicate DeletedSince(id: GraphId, cid: nat) {
      exists i | 0 <= i < |writes| && i < |stamps| && stamps[i] >= cid :: writes[i] == DeleteVertex(id)
    }

    /** The current command has already written the tuple. */
    predicate WrittenNow(vertex: bool, id: GraphId) {
      exists i | finished <= i < |writes| :: Hits(writes[i], vertex, id)
    }

    /** The stamps never decrease, and the current command's are those from `finished` on. */
    ghost predicate Stamped() {
      && |stamps| == |writes| && finished <= |writes|
      && (forall i, j | 0 <= i < j < |stamps| :: stamps[i] <= stamps[j])
      && (forall i | 0 <= i < |stamps| :: if i < finished then stamps[i] < command else stamps[i] == command)
    }

    /** The tables are what the writes made of the starting graph, and every id ever used came from its sequence. */
    ghost predicate Consistent() {
      && g == Replay(start, writes) && Stamped()
      && (forall n, id | 0 <= n <= |writes| && Has(Past(start, writes, n), id) :: id.entry <= LastOf(id.labelId))
    }

    /** The tables are consistent, and at no time was there a dangling edge, a moved edge or an id used twice. */
    ghost predicate Safe() {
      Consistent() && NeverDangling(start, writes) && EndsNeverChange(start, writes) && WritesAreLawful(start, writes)
    }
  }

  /** The current command's scans see what every earlier command has written, and what it has written itself bears its id. */
  lemma CurrentCommandIs(st: Store, vertex: bool, id: GraphId)
    requires st.Stamped()
    ensures st.SeenByCommand() == st.SeenAt(st.command)
    ensures st.WrittenNow(vertex, id) <==> exists i | 0 <= i < |st.writes| && st.stamps[i] == st.command :: Hits(st.writes[i], vertex, id)
  {
    var n := Before(st.stamps, st.command);
    assert st.finished > 0 ==> st.stamps[st.finished - 1] < st.command;
    assert st.finished < |st.writes| ==> st.stamps[st.finished] == st.command;
    assert n == st.finished;
    if i :| 0 <= i < |st.writes| && st.stamps[i] == st.command && Hits(st.writes[i], vertex, id) { assert i >= st.finished; }
  }

  lemma Now(st: Store)
    requires st.Consistent()
    ensures Past(st.start, st.writes, |st.writes|) == st.g
  {
    assert st.writes[..|st.writes|] == st.writes;
  }

  lemma SafeIsConsistent(st: Store)
    requires st.Safe()
    ensures st.Consistent()
  {}

  /** The tables are what the writes made of the starting graph. */
  ghost predicate Replays(st: Store) {
    st.g == Replay(st.start, st.writes)
  }

  /** A store that has a dangling edge is unsafe whatever is written later. */
  lemma DanglesForGood(st: Store, later: Store)
    requires Replays(st) && !NoDangling(st.g) && later.start == st.start && st.writes <= later.writes
    ensures !later.Safe() && !NeverDangling(later.start, later.writes)
  {
    assert later.writes[..|st.writes|] == st.writes;
    assert Past(later.start, later.writes, |st.writes|) == st.g;
  }

  lemma DoReplays(st: Store, w: Write)
    requires Replays(st)
    ensures Replays(st.Do(w)) && Replays(st.Do(w).EndCommand())
  {
    assert (st.writes + [w])[..|st.writes|] == st.writes;
  }

  lemma SafeIsNotDangling(st: Store)
    requires st.Safe()
    ensures NoDangling(st.g)
  {
    Now(st);
  }

  /** A write that creates nothing under a used id, deletes only a vertex that is there, and moves no edge. */
  ghost predicate Lawful(st: Store, w: Write) {
    && (w.InsertVertex? || w.InsertEdge? ==> NeverUsed(st, w.id) && w.id.entry <= st.LastOf(w.id.labelId))
    && (w.UpdateVertex? || w.DeleteVertex? ==> w.id in st.g.vertices)
    && (w.UpdateEdge? ==> w.id in st.g.edges && w.edge.start == st.g.edges[w.id].start && w.edge.end == st.g.edges[w.id].end)
  }

  lemma PastOfMore(st: Store, w: Write, n: nat)
    requires n <= |st.writes| + 1 && st.Consistent()
    ensures n <= |st.writes| ==> Past(st.start, st.writes + [w], n) == Past(st.start, st.writes, n)
    ensures n == |st.writes| + 1 ==> Past(st.start, st.writes + [w], n) == Apply(st.g, w)
  {
    var ws := st.writes + [w];
    if n <= |st.writes| {
      assert ws[..n] == st.writes[..n];
    } else {
      assert ws[..n] == ws && ws[..|ws| - 1] == st.writes;
    }
  }

  /** An edge after the write was there before with the same endpoints, or has an id never used. */
  lemma LawfulEdge(st: Store, w: Write, n: nat, e: GraphId)
    requires st.Safe() && Lawful(st, w) && n <= |st.writes|
    requires e in Apply(st.g, w).edges && e in Past(st.start, st.writes, n).edges
    ensures SameEndsAt(Past(st.start, st.writes, n), Apply(st.g, w), e)
  {
    Now(st);
    assert Has(Past(st.start, st.writes, n), e);
    assert e in st.g.edges;
  }

  /** A lawful write that leaves no dangling edge behind keeps the store safe. */
  lemma DoKeepsSafe(st: Store, w: Write)
    requires st.Safe() && NoDangling(Apply(st.g, w)) && Lawful(st, w)
    ensures st.Do(w).Safe()
  {
    hide Apply, Replay, NoDangling;
    var ws, last := st.writes + [w], |st.writes| + 1;
    assert ws[..|ws|] == ws;
    forall n | 0 <= n <= |ws| ensures NoDangling(Past(st.start, ws, n)) {
      PastOfMore(st, w, n);
    }
    forall n, id | 0 <= n <= |ws| && Has(Past(st.start, ws, n), id) ensures id.entry <= st.LastOf(id.labelId) {
      PastOfMore(st, w, n);
      if n == last { LawfulIds(st, w, id); }
    }
    forall m, n, e | 0 <= m <= |ws| && 0 <= n <= |ws| && e in Past(st.start, ws, m).edges && e in Past(st.start, ws, n).edges
      ensures SameEndsAt(Past(st.start, ws, m), Past(st.start, ws, n), e)
    {
      PastOfMore(st, w, m);
      PastOfMore(st, w, n);
      if m < last && n == last { LawfulEdge(st, w, m, e); }
      if m == last && n < last { LawfulEdge(st, w, n, e); }
    }
    forall i, n | 0 <= n <= i < |ws| && (ws[i].InsertVertex? || ws[i].InsertEdge?) ensures !Has(Past(st.start, ws, n), ws[i].id) {
      PastOfMore(st, w, n);
    }
    forall i | 0 <= i < |ws| && (ws[i].UpdateVertex? || ws[i].DeleteVertex?) ensures ws[i].id in Past(st.start, ws, i).vertices {
      PastOfMore(st, w, i);
      Now(st);
    }
    StampedMore(st, w);
    PastOfMore(st, w, last);
    assert st.Do(w).g == Past(st.start, ws, last);
  }

  lemma StampedMore(st: Store, w: Write)
    requires st.Stamped()
    ensures st.Do(w).Stamped()
  {}

  lemma LawfulIds(st: Store, w: Write, id: GraphId)
    requires st.Safe() && Lawful(st, w) && Has(Apply(st.g, w), id)
    ensures id.entry <= st.LastOf(id.labelId)
  {
    Now(st);
    assert Has(st.g, id) || id == w.id;
    assert forall k | Has(st.g, k) :: Has(Past(st.start, st.writes, |st.writes|), k);
  }

  /** Drawing an id writes nothing, and the id is one that no entity has or ever had. */
  lemma NextIdIsFresh(st: Store, l: nat)
    requires st.Safe() && st.NextId(l).Ok?
    ensures var (id, next) := st.NextId(l).value;
            && id !in st.g.vertices && id !in st.g.edges && id.labelId == l
            && next.Safe() && NeverUsed(next, id) && id.entry <= next.LastOf(l)
            && next.g == st.g && next.writes == st.writes && next.start == st.start
            && forall k :: st.LastOf(k) <= next.LastOf(k)
  {
    hide Replay;
    Now(st);
    var (id, next) := st.NextId(l).value;
    assert Has(Past(st.start, st.writes, |st.writes|), id) <==> Has(st.g, id);
  }

  lemma EndCommandKeepsSafe(st: Store)
    requires st.Safe()
    ensures st.EndCommand().Safe() && st.EndCommand().g == st.g && st.EndCommand().start == st.start
    ensures st.EndCommand().writes == st.writes && st.EndCommand().finished == |st.writes|
  {}

  predicate SameVertexAt(g: Graph, h: Graph, id: GraphId) {
    (id in g.vertices <==> id in h.vertices) && (id in g.vertices ==> g.vertices[id] == h.vertices[id])
  }

  predicate SameEdgeAt(g: Graph, h: Graph, id: GraphId) {
    (id in g.edges <==> id in h.edges) && (id in g.edges ==> g.edges[id] == h.edges[id])
  }

  /** A tuple that no write since the n-th concerns is as it was then. */
  lemma {:induction false} UnwrittenSince(st: Store, n: nat, vertex: bool, id: GraphId)
    requires st.Consistent() && n <= |st.writes|
    requires forall i | n <= i < |st.writes| :: !Hits(st.writes[i], vertex, id)
    ensures if vertex then SameVertexAt(Past(st.start, st.writes, n), st.g, id) else SameEdgeAt(Past(st.start, st.writes, n), st.g, id)
    decreases |st.writes| - n
  {
    if n == |st.writes| {
      Now(st);
    } else {
      UnwrittenSince(st, n + 1, vertex, id);
      assert st.writes[..n + 1][..n] == st.writes[..n];
    }
  }

  lemma NeverUsedBefore(st: Store, later: Store, id: GraphId)
    requires NeverUsed(later, id) && st.start == later.start && st.writes <= later.writes
    ensures NeverUsed(st, id)
  {
    forall n | 0 <= n <= |st.writes| ensures !Has(Past(st.start, st.writes, n), id) {
      assert st.writes[..n] == later.writes[..n];
      assert Past(st.start, st.writes, n) == Past(later.start, later.writes, n);
    }
  }

  lemma NeverUsedIsNotThere(st: Store, id: GraphId)
    requires st.Consistent() && NeverUsed(st, id)
    ensures !Has(st.g, id)
  {
    Now(st);
  }

  // ---------------------------------------------------------------- what is seen through a command id

  lemma BeforeSplits(st: Store, cid: nat)
    requires st.Stamped()
    ensures var n := Before(st.stamps, cid);
            n <= |st.writes| && st.SeenAt(cid) == Past(st.start, st.writes, n) &&
            forall i | 0 <= i < |st.stamps| :: st.stamps[i] < cid <==> i < n
  {}

  /** A live tuple that was not written since the command is seen as it is. */
  lemma UnwrittenIsSeen(st: Store, vertex: bool, id: GraphId, cid: nat)
    requires st.Consistent() && !st.WrittenSince(vertex, id, cid)
    ensures if vertex then SameVertexAt(st.SeenAt(cid), st.g, id) else SameEdgeAt(st.SeenAt(cid), st.g, id)
  {
    BeforeSplits(st, cid);
    UnwrittenSince(st, Before(st.stamps, cid), vertex, id);
  }

  lemma SeenIsDrawn(st: Store, cid: nat, id: GraphId)
    requires st.Consistent() && Has(st.SeenAt(cid), id)
    ensures id.entry <= st.LastOf(id.labelId)
  {
    BeforeSplits(st, cid);
  }

  lemma PastNext(g: Graph, ws: seq<Write>, n: nat)
    requires n < |ws|
    ensures Past(g, ws, n + 1) == Apply(Past(g, ws, n), ws[n])
  {
    assert ws[..n + 1][..n] == ws[..n];
  }

  /** A vertex stays until it is deleted, and then stays gone. */
  lemma {:induction false} VertexUntilDeleted(st: Store, n: nat, m: nat, id: GraphId)
    requires st.Safe() && n <= m <= |st.writes| && id in Past(st.start, st.writes, n).vertices
    ensures id in Past(st.start, st.writes, m).vertices <==> forall i | n <= i < m :: st.writes[i] != DeleteVertex(id)
    decreases m - n
  {
    hide *;
    if n < m {
      VertexUntilDeleted(st, n, m - 1, id);
      VertexAfterWrite(st, n, m - 1, id);
    }
  }

  lemma VertexAfterWrite(st: Store, n: nat, m: nat, id: GraphId)
    requires st.Safe() && n <= m < |st.writes| && id in Past(st.start, st.writes, n).vertices
    ensures id in Past(st.start, st.writes, m + 1).vertices <==>
      id in Past(st.start, st.writes, m).vertices && st.writes[m] != DeleteVertex(id)
  {
    var w := st.writes[m];
    assert Has(Past(st.start, st.writes, n), id);
    assert w.InsertVertex? ==> w.id != id;
    assert w.UpdateVertex? ==> w.id in Past(st.start, st.writes, m).vertices;
    hide Replay, Store.Safe;
    PastNext(st.start, st.writes, m);
  }

  /** A vertex that is seen is live unless it was deleted since. */
  lemma SeenUnlessDeleted(st: Store, cid: nat, id: GraphId)
    requires st.Safe() && id in st.SeenAt(cid).vertices
    ensures id in st.g.vertices <==> !st.DeletedSince(id, cid)
  {
    BeforeSplits(st, cid);
    Now(st);
    VertexUntilDeleted(st, Before(st.stamps, cid), |st.writes|, id);
  }

  /** The starting store of a run. */
  ghost predicate Initial(st: Store) {
    st.Consistent() && st.writes == [] && NoDangling(st.g)
  }

  lemma InitialIsSafe(st: Store)
    requires Initial(st)
    ensures st.Safe()
  {
    assert st.writes[..0] == [];
  }
}
