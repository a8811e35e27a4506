/**
 * The DELETE clause. Every scan of it reads through a command id of its own, so each has a result of its
 * own: the tuples it shows may be gone, or superseded by a later version, and those are passed over.
 */
module DeleteClause {
  import opened Results
  import opened PropertyGraph
  import opened GraphStore
  import opened PathWriter

  /**
   * An edge tuple that a scan shows, and whether it can be locked: it is the latest version of the edge, and not
   * one that the current command has written.
   */
  datatype Tuple = Tuple(id: GraphId, start: GraphId, end: GraphId, lockable: bool)

  /**
   * The scans for one item: whether the entity's tuple is found, whether it can then be locked, and what
   * the edge tables show, label by label, if the item is a vertex.
   */
  datatype Scan = Scan(found: bool, lockable: bool, tables: seq<seq<Tuple>>)

  predicate TouchesTuple(t: Tuple, v: GraphId) {
    v == t.start || v == t.end
  }

  /** `delete_entity`: what cannot be locked is passed over, and a deletion ends the command. */
  function DropEdge(store: Store, e: GraphId, lockable: bool): Store {
    if lockable && e in store.g.edges then store.Do(DeleteEdge(e)).EndCommand() else store
  }

  function DropVertex(store: Store, v: GraphId, lockable: bool): Store {
    if lockable && v in store.g.vertices then store.Do(DeleteVertex(v)).EndCommand() else store
  }

  /** One edge table. */
  function ScanTable(table: seq<Tuple>, v: GraphId, detach: bool, store: Store): Result<Store> {
    if table == [] then Ok(store)
    else if TouchesTuple(table[0], v) then
      if detach then ScanTable(table[1..], v, detach, DropEdge(store, table[0].id, table[0].lockable)) else Err(EdgesAttached)
    else ScanTable(table[1..], v, detach, store)
  }

  function FindConnectedEdges(tables: seq<seq<Tuple>>, v: GraphId, detach: bool, store: Store): Result<Store> {
    if tables == [] then Ok(store) else
    var next :- ScanTable(tables[0], v, detach, store);
    FindConnectedEdges(tables[1..], v, detach, next)
  }

  /** One item: the attribute that holds the entity to delete. */
  function DeleteItem(d: Datum, scan: Scan, detach: bool, store: Store): Result<Store> {
    match d
    case NullDatum => Ok(store)
    case EdgeDatum(id, _) => Ok(if scan.found then DropEdge(store, id, scan.lockable) else store)
    case VertexDatum(id, _) =>
      if !scan.found then Ok(store) else
      var next :- FindConnectedEdges(scan.tables, id, detach, store);
      Ok(DropVertex(next, id, scan.lockable))
    case _ => Err(NotAnEntity)
  }

  /** The delete items of all rows, in the order they are processed, each with its own scans. */
  function DeleteAll(ds: seq<Datum>, scans: seq<Scan>, detach: bool, store: Store): Result<Store>
    requires |scans| == |ds|
  {
    if ds == [] then Ok(store) else
    var next :- DeleteItem(ds[0], scans[0], detach, store);
    DeleteAll(ds[1..], scans[1..], detach, next)
  }

  /** The items' attribute numbers are attributes of the row. */
  predicate PositionsFit(positions: seq<nat>, row: seq<Datum>) {
    forall k | 0 <= k < |positions| :: 0 < positions[k] <= |row|
  }

  /** The entities the items of one row name. */
  function ItemsOf(row: seq<Datum>, positions: seq<nat>): (r: seq<Datum>)
    requires PositionsFit(positions, row)
    ensures |r| == |positions|
  {
    seq(|positions|, k requires 0 <= k < |positions| => row[positions[k] - 1])
  }

  function ItemsOfRows(rows: seq<seq<Datum>>, positions: seq<nat>): (r: seq<Datum>)
    requires forall i | 0 <= i < |rows| :: PositionsFit(positions, rows[i])
    ensures |r| == |rows| * |positions|
  {
    if rows == [] then [] else ItemsOf(rows[0], positions) + ItemsOfRows(rows[1..], positions)
  }

  // ---------------------------------------------------------------- what is refused

  /** Neither a vertex nor an edge, and not null either. */
  predicate NoEntity(d: Datum) {
    d.ValueDatum? || d.MapDatum? || d.TraversalDatum?
  }

  predicate TableTouches(table: seq<Tuple>, v: GraphId) {
    exists k | 0 <= k < |table| :: TouchesTuple(table[k], v)
  }

  predicate ScanTouches(tables: seq<seq<Tuple>>, v: GraphId) {
    exists t | 0 <= t < |tables| :: TableTouches(tables[t], v)
  }

  /** The item is refused by its own scans: no entity, or without DETACH a vertex that is shown with an edge. */
  predicate IsRefused(d: Datum, scan: Scan, detach: bool) {
    NoEntity(d) || (!detach && d.VertexDatum? && scan.found && ScanTouches(scan.tables, d.id))
  }

  lemma {:induction false} TableRefused(table: seq<Tuple>, v: GraphId, detach: bool, store: Store)
    ensures ScanTable(table, v, detach, store).Err? <==> !detach && TableTouches(table, v)
    ensures ScanTable(table, v, detach, store).Err? ==> ScanTable(table, v, detach, store) == Err(EdgesAttached)
  {
    if table != [] {
      TableRefused(table[1..], v, detach, store);
      TableRefused(table[1..], v, detach, DropEdge(store, table[0].id, table[0].lockable));
      assert TableTouches(table, v) <==> TouchesTuple(table[0], v) || TableTouches(table[1..], v) by {
        assert table == [table[0]] + table[1..];
        if k :| 0 <= k < |table| && TouchesTuple(table[k], v) { assert k > 0 ==> TouchesTuple(table[1..][k - 1], v); }
      }
    }
  }

  lemma {:induction false} TablesRefused(tables: seq<seq<Tuple>>, v: GraphId, detach: bool, store: Store)
    ensures FindConnectedEdges(tables, v, detach, store).Err? <==> !detach && ScanTouches(tables, v)
    ensures FindConnectedEdges(tables, v, detach, store).Err? ==> FindConnectedEdges(tables, v, detach, store) == Err(EdgesAttached)
  {
    if tables != [] {
      TableRefused(tables[0], v, detach, store);
      if ScanTable(tables[0], v, detach, store).Ok? {
        TablesRefused(tables[1..], v, detach, ScanTable(tables[0], v, detach, store).value);
      }
      hide TableTouches;
      assert ScanTouches(tables, v) <==> TableTouches(tables[0], v) || ScanTouches(tables[1..], v) by {
        if t :| 0 <= t < |tables| && TableTouches(tables[t], v) { assert t > 0 ==> TableTouches(tables[1..][t - 1], v); }
        if t :| 0 <= t < |tables[1..]| && TableTouches(tables[1..][t], v) { assert TableTouches(tables[t + 1], v); }
      }
    }
  }

  lemma ItemRefused(d: Datum, scan: Scan, detach: bool, store: Store)
    ensures DeleteItem(d, scan, detach, store).Err? <==> IsRefused(d, scan, detach)
    ensures DeleteItem(d, scan, detach, store).Err? ==>
      DeleteItem(d, scan, detach, store) == Err(if NoEntity(d) then NotAnEntity else EdgesAttached)
  {
    if d.VertexDatum? { TablesRefused(scan.tables, d.id, detach, store); }
  }

  /** The clause is accepted exactly when no item is refused by its own scans. */
  lemma {:induction false} DeleteAccepted(ds: seq<Datum>, scans: seq<Scan>, detach: bool, store: Store)
    requires |scans| == |ds|
    ensures DeleteAll(ds, scans, detach, store).Ok? <==> forall k | 0 <= k < |ds| :: !IsRefused(ds[k], scans[k], detach)
  {
    hide IsRefused, DeleteItem;
    if ds != [] {
      ItemRefused(ds[0], scans[0], detach, store);
      if DeleteItem(ds[0], scans[0], detach, store).Ok? {
        DeleteAccepted(ds[1..], scans[1..], detach, DeleteItem(ds[0], scans[0], detach, store).value);
        assert forall k | 0 < k < |ds| :: ds[k] == ds[1..][k - 1] && scans[k] == scans[1..][k - 1];
        assert forall k | 0 <= k < |ds[1..]| :: ds[1..][k] == ds[k + 1] && scans[1..][k] == scans[k + 1];
      }
    }
  }

  // ---------------------------------------------------------------- what is deleted

  ghost function NamedVertices(ds: seq<Datum>): set<GraphId> {
    set k | 0 <= k < |ds| && ds[k].VertexDatum? :: ds[k].id
  }

  ghost function NamedEdges(ds: seq<Datum>): set<GraphId> {
    set k | 0 <= k < |ds| && ds[k].EdgeDatum? :: ds[k].id
  }

  /** The graph without the vertices, without the edges, and without the edges that touch the vertices. */
  ghost function Without(g: Graph, vs: set<GraphId>, es: set<GraphId>): Graph {
    Graph(g.vertices - vs,
          map e | e in g.edges && e !in es && g.edges[e].start !in vs && g.edges[e].end !in vs :: g.edges[e])
  }

  /** Removing twice is removing the union: order and repetition do not matter. */
  lemma WithoutTwice(g: Graph, vs: set<GraphId>, es: set<GraphId>, ws: set<GraphId>, fs: set<GraphId>)
    ensures Without(Without(g, vs, es), ws, fs) == Without(g, vs + ws, es + fs)
  {}

  lemma WithoutEdgesTwice(g: Graph, es: set<GraphId>, fs: set<GraphId>)
    ensures Without(Without(g, {}, es), {}, fs) == Without(g, {}, es + fs)
  {}

  lemma WithoutNothing(g: Graph)
    ensures Without(g, {}, {}) == g
  {}

  /** The edges at the vertex that a table shows and that can be locked. */
  ghost function LockableIn(table: seq<Tuple>, v: GraphId): set<GraphId> {
    set k | 0 <= k < |table| && table[k].lockable && TouchesTuple(table[k], v) :: table[k].id
  }

  ghost function LockableAt(tables: seq<seq<Tuple>>, v: GraphId): set<GraphId> {
    set t, k | 0 <= t < |tables| && 0 <= k < |tables[t]| && tables[t][k].lockable && TouchesTuple(tables[t][k], v) :: tables[t][k].id
  }

  lemma LockableInFirst(table: seq<Tuple>, v: GraphId)
    requires table != []
    ensures var rest := LockableIn(table[1..], v);
            LockableIn(table, v) == if table[0].lockable && TouchesTuple(table[0], v) then {table[0].id} + rest else rest
  {
    assert forall k | 0 < k < |table| :: table[k] == table[1..][k - 1];
    assert forall k | 0 <= k < |table[1..]| :: table[1..][k] == table[k + 1];
  }

  lemma LockableAtFirst(tables: seq<seq<Tuple>>, v: GraphId)
    requires tables != []
    ensures LockableAt(tables, v) == LockableIn(tables[0], v) + LockableAt(tables[1..], v)
  {
    var rest := tables[1..];
    assert forall t | 0 < t < |tables| :: tables[t] == rest[t - 1];
    assert forall t | 0 <= t < |rest| :: rest[t] == tables[t + 1];
  }

  lemma DropEdgeDrops(store: Store, e: GraphId, lockable: bool)
    ensures DropEdge(store, e, lockable).g == Without(store.g, {}, if lockable then {e} else {})
    ensures DropEdge(store, e, lockable).start == store.start
  {
    WithoutNothing(store.g);
  }

  lemma {:induction false} ScanTableDrops(table: seq<Tuple>, v: GraphId, detach: bool, store: Store)
    requires ScanTable(table, v, detach, store).Ok?
    ensures ScanTable(table, v, detach, store).value.g == Without(store.g, {}, LockableIn(table, v))
    ensures ScanTable(table, v, detach, store).value.start == store.start
  {
    hide Without, DropEdge;
    if table == [] {
      assert LockableIn(table, v) == {};
      WithoutNothing(store.g);
    } else {
      LockableInFirst(table, v);
      hide LockableIn;
      if TouchesTuple(table[0], v) {
        var t := table[0];
        DropEdgeDrops(store, t.id, t.lockable);
        ScanTableDrops(table[1..], v, detach, DropEdge(store, t.id, t.lockable));
        WithoutEdgesTwice(store.g, if t.lockable then {t.id} else {}, LockableIn(table[1..], v));
        assert {} + LockableIn(table[1..], v) == LockableIn(table[1..], v);
      } else {
        ScanTableDrops(table[1..], v, detach, store);
      }
    }
  }

  /** The scan of all edge tables removes exactly the edges at the vertex that it shows and that can be locked. */
  lemma {:induction false} FindConnectedEdgesDrops(tables: seq<seq<Tuple>>, v: GraphId, detach: bool, store: Store)
    requires FindConnectedEdges(tables, v, detach, store).Ok?
    ensures FindConnectedEdges(tables, v, detach, store).value.g == Without(store.g, {}, LockableAt(tables, v))
    ensures FindConnectedEdges(tables, v, detach, store).value.start == store.start
  {
    hide Without, LockableIn, ScanTable;
    if tables == [] {
      assert LockableAt(tables, v) == {};
      WithoutNothing(store.g);
    } else {
      ScanTableDrops(tables[0], v, detach, store);
      var next := ScanTable(tables[0], v, detach, store).value;
      FindConnectedEdgesDrops(tables[1..], v, detach, next);
      LockableAtFirst(tables, v);
      WithoutEdgesTwice(store.g, LockableIn(tables[0], v), LockableAt(tables[1..], v));
    }
  }

  /** The vertex goes, and with it all its live edges must be shown and locked. */
  ghost predicate EdgesGo(d: Datum, scan: Scan, g: Graph) {
    d.VertexDatum? && d.id in g.vertices && scan.found && scan.lockable ==>
      forall e | e in g.edges && Touches(g.edges[e], d.id) :: e in LockableAt(scan.tables, d.id)
  }

  /**
   * Deleting a vertex leaves no dangling edge if and only if its edge scan shows every live edge at it, and
   * all of them can be locked.
   */
  lemma VertexDeletionDangles(id: GraphId, props: Props, scan: Scan, detach: bool, store: Store)
    requires NoDangling(store.g) && id in store.g.vertices && scan.found && scan.lockable
    requires DeleteItem(VertexDatum(id, props), scan, detach, store).Ok?
    ensures NoDangling(DeleteItem(VertexDatum(id, props), scan, detach, store).value.g) <==> EdgesGo(VertexDatum(id, props), scan, store.g)
  {
    hide LockableAt;
    FindConnectedEdgesDrops(scan.tables, id, detach, store);
    var h := DeleteItem(VertexDatum(id, props), scan, detach, store).value.g;
    assert h.vertices == store.g.vertices - {id} && h.edges == Without(store.g, {}, LockableAt(scan.tables, id)).edges;
    assert forall e :: e in h.edges <==> e in store.g.edges && e !in LockableAt(scan.tables, id);
    assert forall e | e in h.edges :: h.edges[e] == store.g.edges[e];
  }

  // ---------------------------------------------------------------- safety

  lemma DropEdgeKeepsSafe(store: Store, e: GraphId, lockable: bool)
    requires store.Safe()
    ensures DropEdge(store, e, lockable).Safe()
  {
    hide Store.Safe, NeverUsed;
    SafeIsNotDangling(store);
    if lockable && e in store.g.edges {
      DoKeepsSafe(store, DeleteEdge(e));
      EndCommandKeepsSafe(store.Do(DeleteEdge(e)));
    }
  }

  lemma DropVertexKeepsSafe(store: Store, v: GraphId, lockable: bool)
    requires store.Safe() && (lockable ==> forall e | e in store.g.edges :: !Touches(store.g.edges[e], v))
    ensures DropVertex(store, v, lockable).Safe() && DropVertex(store, v, lockable).start == store.start
    ensures DropVertex(store, v, lockable).g == Without(store.g, if lockable then {v} else {}, {})
  {
    hide Store.Safe, NeverUsed;
    SafeIsNotDangling(store);
    WithoutNothing(store.g);
    if lockable && v in store.g.vertices {
      DoKeepsSafe(store, DeleteVertex(v));
      EndCommandKeepsSafe(store.Do(DeleteVertex(v)));
    } else if lockable {
      assert Without(store.g, {v}, {}) == store.g;
    }
  }

  lemma {:induction false} ScanTableKeepsSafe(table: seq<Tuple>, v: GraphId, detach: bool, store: Store)
    requires store.Safe() && ScanTable(table, v, detach, store).Ok?
    ensures ScanTable(table, v, detach, store).value.Safe()
  {
    hide Store.Safe, DropEdge;
    if table != [] {
      if TouchesTuple(table[0], v) {
        DropEdgeKeepsSafe(store, table[0].id, table[0].lockable);
        ScanTableKeepsSafe(table[1..], v, detach, DropEdge(store, table[0].id, table[0].lockable));
      } else {
        ScanTableKeepsSafe(table[1..], v, detach, store);
      }
    }
  }

  lemma {:induction false} FindConnectedEdgesKeepsSafe(tables: seq<seq<Tuple>>, v: GraphId, detach: bool, store: Store)
    requires store.Safe() && FindConnectedEdges(tables, v, detach, store).Ok?
    ensures FindConnectedEdges(tables, v, detach, store).value.Safe()
  {
    hide Store.Safe, ScanTable;
    if tables != [] {
      ScanTableKeepsSafe(tables[0], v, detach, store);
      FindConnectedEdgesKeepsSafe(tables[1..], v, detach, ScanTable(tables[0], v, detach, store).value);
    }
  }

  // ---------------------------------------------------------------- exactly when a clause dangles

  lemma {:induction false} ScanTableGrows(table: seq<Tuple>, v: GraphId, detach: bool, store: Store)
    requires ScanTable(table, v, detach, store).Ok?
    ensures var next := ScanTable(table, v, detach, store).value;
            next.start == store.start && store.writes <= next.writes && (Replays(store) ==> Replays(next))
  {
    hide Replay;
    if table != [] {
      var here := if TouchesTuple(table[0], v) then DropEdge(store, table[0].id, table[0].lockable) else store;
      if Replays(store) { DoReplays(store, DeleteEdge(table[0].id)); }
      ScanTableGrows(table[1..], v, detach, here);
    }
  }

  lemma {:induction false} FindConnectedEdgesGrows(tables: seq<seq<Tuple>>, v: GraphId, detach: bool, store: Store)
    requires FindConnectedEdges(tables, v, detach, store).Ok?
    ensures var next := FindConnectedEdges(tables, v, detach, store).value;
            next.start == store.start && store.writes <= next.writes && (Replays(store) ==> Replays(next))
  {
    hide Replay, ScanTable;
    if tables != [] {
      ScanTableGrows(tables[0], v, detach, store);
      FindConnectedEdgesGrows(tables[1..], v, detach, ScanTable(tables[0], v, detach, store).value);
    }
  }

  lemma DeleteItemGrows(d: Datum, scan: Scan, detach: bool, store: Store)
    requires DeleteItem(d, scan, detach, store).Ok?
    ensures var next := DeleteItem(d, scan, detach, store).value;
            next.start == store.start && store.writes <= next.writes && (Replays(store) ==> Replays(next))
  {
    hide Replay, FindConnectedEdges;
    match d
    case EdgeDatum(id, _) => if Replays(store) { DoReplays(store, DeleteEdge(id)); }
    case VertexDatum(id, _) =>
      if scan.found {
        FindConnectedEdgesGrows(scan.tables, id, detach, store);
        if Replays(store) { DoReplays(FindConnectedEdges(scan.tables, id, detach, store).value, DeleteVertex(id)); }
      }
    case _ =>
  }

  lemma {:induction false} DeleteAllGrows(ds: seq<Datum>, scans: seq<Scan>, detach: bool, store: Store)
    requires |scans| == |ds| && DeleteAll(ds, scans, detach, store).Ok?
    ensures var next := DeleteAll(ds, scans, detach, store).value;
            next.start == store.start && store.writes <= next.writes && (Replays(store) ==> Replays(next))
  {
    hide Replay, DeleteItem;
    if ds != [] {
      DeleteItemGrows(ds[0], scans[0], detach, store);
      DeleteAllGrows(ds[1..], scans[1..], detach, DeleteItem(ds[0], scans[0], detach, store).value);
    }
  }

  /** One item, whatever its scans show: the store stays safe exactly when the edges go with their vertex. */
  lemma DeleteItemSafeExactly(d: Datum, scan: Scan, detach: bool, store: Store)
    requires store.Safe() && DeleteItem(d, scan, detach, store).Ok?
    ensures DeleteItem(d, scan, detach, store).value.Safe() <==> EdgesGo(d, scan, store.g)
    ensures !EdgesGo(d, scan, store.g) ==> !NoDangling(DeleteItem(d, scan, detach, store).value.g)
  {
    SafeIsNotDangling(store);
    hide Store.Safe, FindConnectedEdges, DropEdge, EdgesGo;
    match d
    case EdgeDatum(id, _) =>
      DropEdgeKeepsSafe(store, id, scan.lockable);
      NoVertexGoes(d, scan, store.g);
    case VertexDatum(id, props) =>
      if scan.found && scan.lockable && id in store.g.vertices {
        VertexDeletionDangles(id, props, scan, detach, store);
        VertexSafeIfEdgesGo(id, props, scan, detach, store);
        var next := DeleteItem(d, scan, detach, store).value;
        if next.Safe() { SafeIsNotDangling(next); }
      } else {
        NoVertexGoes(d, scan, store.g);
        VertexStays(id, props, scan, detach, store);
      }
    case _ => NoVertexGoes(d, scan, store.g);
  }

  lemma NoVertexGoes(d: Datum, scan: Scan, g: Graph)
    requires !(d.VertexDatum? && scan.found && scan.lockable && d.id in g.vertices)
    ensures EdgesGo(d, scan, g)
  {}

  lemma VertexSafeIfEdgesGo(id: GraphId, props: Props, scan: Scan, detach: bool, store: Store)
    requires store.Safe() && DeleteItem(VertexDatum(id, props), scan, detach, store).Ok? && scan.found && id in store.g.vertices
    ensures scan.lockable && EdgesGo(VertexDatum(id, props), scan, store.g) ==> DeleteItem(VertexDatum(id, props), scan, detach, store).value.Safe()
  {
    hide Store.Safe, FindConnectedEdges, DropVertex, LockableAt;
    FindConnectedEdgesKeepsSafe(scan.tables, id, detach, store);
    FindConnectedEdgesDrops(scan.tables, id, detach, store);
    var next := FindConnectedEdges(scan.tables, id, detach, store).value;
    if scan.lockable && EdgesGo(VertexDatum(id, props), scan, store.g) {
      DropVertexKeepsSafe(next, id, scan.lockable);
    }
  }

  lemma VertexStays(id: GraphId, props: Props, scan: Scan, detach: bool, store: Store)
    requires store.Safe() && DeleteItem(VertexDatum(id, props), scan, detach, store).Ok?
    requires !(scan.found && scan.lockable && id in store.g.vertices)
    ensures DeleteItem(VertexDatum(id, props), scan, detach, store).value.Safe()
  {
    hide Store.Safe, FindConnectedEdges;
    if scan.found {
      FindConnectedEdgesKeepsSafe(scan.tables, id, detach, store);
      FindConnectedEdgesDrops(scan.tables, id, detach, store);
    }
  }

  /** The edges go with every vertex, when its turn comes. */
  ghost predicate AllEdgesGo(ds: seq<Datum>, scans: seq<Scan>, detach: bool, store: Store)
    requires |scans| == |ds|
  {
    ds == [] ||
    (EdgesGo(ds[0], scans[0], store.g)
     && (DeleteItem(ds[0], scans[0], detach, store).Ok? ==>
           AllEdgesGo(ds[1..], scans[1..], detach, DeleteItem(ds[0], scans[0], detach, store).value)))
  }

  /** A DELETE, whatever its scans show: no write of it leaves a dangling edge exactly when the edges go with every vertex. */
  lemma {:induction false} DeleteSafeExactly(ds: seq<Datum>, scans: seq<Scan>, detach: bool, store: Store)
    requires |scans| == |ds| && store.Safe() && DeleteAll(ds, scans, detach, store).Ok?
    ensures var done := DeleteAll(ds, scans, detach, store).value;
            && (done.Safe() <==> AllEdgesGo(ds, scans, detach, store)) && (!done.Safe() ==> !NeverDangling(done.start, done.writes))
  {
    hide Store.Safe, DeleteItem, EdgesGo, Replay, NeverDangling;
    if ds != [] {
      DeleteItemSafeExactly(ds[0], scans[0], detach, store);
      var next := DeleteItem(ds[0], scans[0], detach, store).value;
      if next.Safe() {
        DeleteSafeExactly(ds[1..], scans[1..], detach, next);
      } else {
        SafeReplays(store);
        DeleteItemGrows(ds[0], scans[0], detach, store);
        DeleteAllGrows(ds[1..], scans[1..], detach, next);
        DanglesForGood(next, DeleteAll(ds, scans, detach, store).value);
      }
    }
  }

  lemma SafeReplays(store: Store)
    requires store.Safe()
    ensures Replays(store)
  {}

  // ---------------------------------------------------------------- honest scans

  /** What is live at its moment a scan shows, and it can be locked; and no edge is shown at ends it does not have. */
  ghost predicate Honest(scan: Scan, d: Datum, g: Graph) {
    && (d.VertexDatum? && d.id in g.vertices ==> scan.found && scan.lockable)
    && (d.EdgeDatum? && d.id in g.edges ==> scan.found && scan.lockable)
    && (d.VertexDatum? ==>
          (forall e | e in g.edges && Touches(g.edges[e], d.id) :: e in LockableAt(scan.tables, d.id))
          && (scan.found ==> forall e | e in g.edges && e in LockableAt(scan.tables, d.id) :: Touches(g.edges[e], d.id)))
  }

  ghost predicate HonestAll(ds: seq<Datum>, scans: seq<Scan>, detach: bool, store: Store)
    requires |scans| == |ds|
  {
    ds == [] ||
    (Honest(scans[0], ds[0], store.g)
     && (DeleteItem(ds[0], scans[0], detach, store).Ok? ==>
           HonestAll(ds[1..], scans[1..], detach, DeleteItem(ds[0], scans[0], detach, store).value)))
  }

  /** An honest scan finds the edges at the vertex, no more and no fewer. */
  lemma HonestFinds(scan: Scan, id: GraphId, props: Props, g: Graph)
    requires Honest(scan, VertexDatum(id, props), g) && scan.found
    ensures var h := Without(g, {}, LockableAt(scan.tables, id));
            (forall e | e in h.edges :: !Touches(h.edges[e], id)) && Without(h, {id}, {}) == Without(g, {id}, {})
  {
    hide LockableAt;
  }

  lemma NotThere(g: Graph, id: GraphId)
    ensures NoDangling(g) && id !in g.vertices ==> Without(g, {id}, {}) == g
    ensures id !in g.edges ==> Without(g, {}, {id}) == g
  {}

  /** One item removes what it names and, with a vertex, all its edges. */
  lemma DeleteItemRemoves(d: Datum, scan: Scan, detach: bool, store: Store)
    requires store.Safe() && Honest(scan, d, store.g) && DeleteItem(d, scan, detach, store).Ok?
    ensures var next := DeleteItem(d, scan, detach, store).value;
            && next.Safe() && next.start == store.start
            && next.g == Without(store.g, NamedVertices([d]), NamedEdges([d]))
  {
    SafeIsNotDangling(store);
    hide Store.Safe, Without, DropEdge, DropVertex, FindConnectedEdges, LockableAt;
    assert [d][0] == d;
    match d
    case EdgeDatum(id, _) =>
      assert NamedVertices([d]) == {} && NamedEdges([d]) == {id};
      DropEdgeDrops(store, id, scan.lockable);
      DropEdgeKeepsSafe(store, id, scan.lockable);
      NotThere(store.g, id);
      WithoutNothing(store.g);
    case VertexDatum(id, props) =>
      assert NamedVertices([d]) == {id} && NamedEdges([d]) == {};
      NotThere(store.g, id);
      if scan.found { DeleteVertexRemoves(id, props, scan, detach, store); }
    case NullDatum =>
      assert NamedVertices([d]) == {} && NamedEdges([d]) == {};
      WithoutNothing(store.g);
    case _ =>
  }

  lemma DeleteVertexRemoves(id: GraphId, props: Props, scan: Scan, detach: bool, store: Store)
    requires store.Safe() && Honest(scan, VertexDatum(id, props), store.g) && scan.found
    requires DeleteItem(VertexDatum(id, props), scan, detach, store).Ok?
    ensures var next := DeleteItem(VertexDatum(id, props), scan, detach, store).value;
            next.Safe() && next.start == store.start && next.g == Without(store.g, {id}, {})
  {
    SafeIsNotDangling(store);
    HonestFinds(scan, id, props, store.g);
    hide Store.Safe, LockableAt, DropVertex, FindConnectedEdges;
    FindConnectedEdgesDrops(scan.tables, id, detach, store);
    FindConnectedEdgesKeepsSafe(scan.tables, id, detach, store);
    var next := FindConnectedEdges(scan.tables, id, detach, store).value;
    DropVertexKeepsSafe(next, id, scan.lockable);
    hide Without;
    WithoutNothing(next.g);
    if id !in store.g.vertices { NoEdgesThere(store.g, LockableAt(scan.tables, id), id); }
  }

  lemma NoEdgesThere(g: Graph, es: set<GraphId>, id: GraphId)
    requires NoDangling(g) && id !in g.vertices
    requires forall e | e in g.edges && e in es :: Touches(g.edges[e], id)
    ensures Without(g, {}, es) == g && Without(g, {id}, {}) == g
  {}

  /**
   * DELETE over any rows and items, each with its own honest scans: the result is the original graph
   * minus the named entities and all edges at named vertices. It depends on the set of names only, so
   * neither the order of rows and items nor repetitions matter, and no write of it ever leaves a
   * dangling edge.
   */
  lemma {:induction false} DeleteRemovesNamed(ds: seq<Datum>, scans: seq<Scan>, detach: bool, store: Store)
    requires |scans| == |ds| && store.Safe() && HonestAll(ds, scans, detach, store) && DeleteAll(ds, scans, detach, store).Ok?
    ensures var done := DeleteAll(ds, scans, detach, store).value;
            && done.Safe() && done.start == store.start
            && done.g == Without(store.g, NamedVertices(ds), NamedEdges(ds))
  {
    hide Store.Safe, Without, DeleteItem, Honest, NamedVertices, NamedEdges;
    if ds == [] {
      NothingNamed(store.g, ds);
    } else {
      DeleteItemRemoves(ds[0], scans[0], detach, store);
      var next := DeleteItem(ds[0], scans[0], detach, store).value;
      DeleteRemovesNamed(ds[1..], scans[1..], detach, next);
      NamesSplit(ds);
      WithoutTwice(store.g, NamedVertices([ds[0]]), NamedEdges([ds[0]]), NamedVertices(ds[1..]), NamedEdges(ds[1..]));
    }
  }

  lemma NothingNamed(g: Graph, ds: seq<Datum>)
    requires forall d | d in ds :: !d.VertexDatum? && !d.EdgeDatum?
    ensures Without(g, NamedVertices(ds), NamedEdges(ds)) == g
  {
    assert NamedVertices(ds) == {} && NamedEdges(ds) == {};
  }

  lemma NamesSplit(ds: seq<Datum>)
    requires ds != []
    ensures NamedVertices(ds) == NamedVertices([ds[0]]) + NamedVertices(ds[1..])
    ensures NamedEdges(ds) == NamedEdges([ds[0]]) + NamedEdges(ds[1..])
  {
    var a, b := [ds[0]], ds[1..];
    assert a[0] == ds[0] && forall k | 0 <= k < |b| :: b[k] == ds[k + 1];
    assert forall k | 0 < k < |ds| :: ds[k] == b[k - 1];
  }

  /**
   * With DETACH, two clauses that name the same entities, in whatever order and however often, leave the
   * same graph.
   */
  lemma DeleteOrderIrrelevant(ds: seq<Datum>, scans: seq<Scan>, es: seq<Datum>, others: seq<Scan>, store: Store)
    requires |scans| == |ds| && |others| == |es| && store.Safe()
    requires HonestAll(ds, scans, true, store) && HonestAll(es, others, true, store)
    requires NamedVertices(ds) == NamedVertices(es) && NamedEdges(ds) == NamedEdges(es)
    requires forall d | d in ds || d in es :: !NoEntity(d)
    ensures DeleteAll(ds, scans, true, store).Ok? && DeleteAll(es, others, true, store).Ok?
    ensures DeleteAll(ds, scans, true, store).value.g == DeleteAll(es, others, true, store).value.g
  {
    hide Store.Safe, HonestAll, DeleteAll, NamedVertices, NamedEdges, Without;
    DeleteAccepted(ds, scans, true, store);
    DeleteAccepted(es, others, true, store);
    DeleteRemovesNamed(ds, scans, true, store);
    DeleteRemovesNamed(es, others, true, store);
  }

  // ---------------------------------------------------------------- the executor's loops

  lemma {:induction false} DeleteInTwo(a: seq<Datum>, x: seq<Scan>, b: seq<Datum>, y: seq<Scan>, detach: bool, store: Store)
    requires |x| == |a| && |y| == |b|
    ensures DeleteAll(a + b, x + y, detach, store) ==
      match DeleteAll(a, x, detach, store)
      case Ok(next) => DeleteAll(b, y, detach, next)
      case Err(e) => Err(e)
  {
    hide DeleteItem;
    if a == [] {
      assert a + b == b && x + y == y;
    } else {
      assert (a + b)[0] == a[0] && (a + b)[1..] == a[1..] + b && (x + y)[0] == x[0] && (x + y)[1..] == x[1..] + y;
      if DeleteItem(a[0], x[0], detach, store).Ok? {
        DeleteInTwo(a[1..], x[1..], b, y, detach, DeleteItem(a[0], x[0], detach, store).value);
      }
    }
  }

  /** The scans of all rows, row by row. */
  function Flatten(scans: seq<seq<Scan>>, width: nat): (r: seq<Scan>)
    requires forall i | 0 <= i < |scans| :: |scans[i]| == width
    ensures |r| == |scans| * width
  {
    if scans == [] then [] else scans[0] + Flatten(scans[1..], width)
  }

  class DeleteExecutor {
    const detach: bool
    var store: Store

    constructor (detach: bool, store: Store)
      ensures this.detach == detach && this.store == store
    {
      this.detach, this.store := detach, store;
    }

    method ConnectedEdges(v: GraphId, tables: seq<seq<Tuple>>) returns (r: Result<()>)
      modifies this
      ensures match FindConnectedEdges(tables, v, detach, old(store))
              case Ok(next) => r.Ok? && store == next
              case Err(e) => r == Err(e)
    {
      assert tables[0..] == tables;
      for t := 0 to |tables|
        invariant FindConnectedEdges(tables, v, detach, old(store)) == FindConnectedEdges(tables[t..], v, detach, store)
      {
        var table := tables[t];
        assert tables[t..][0] == table && tables[t..][1..] == tables[t + 1..];
        ghost var before := store;
        assert table[0..] == table;
        for k := 0 to |table|
          invariant ScanTable(table, v, detach, before) == ScanTable(table[k..], v, detach, store)
        {
          assert table[k..][0] == table[k] && table[k..][1..] == table[k + 1..];
          if TouchesTuple(table[k], v) {
            if !detach { return Err(EdgesAttached); }
            store := DropEdge(store, table[k].id, table[k].lockable);
          }
        }
      }
      r := Ok(());
    }

    /** `scans` has the results of the scans for each item. */
    method ProcessDeleteList(row: seq<Datum>, positions: seq<nat>, scans: seq<Scan>) returns (r: Result<()>)
      requires PositionsFit(positions, row) && |scans| == |positions|
      modifies this
      ensures match DeleteAll(ItemsOf(row, positions), scans, detach, old(store))
              case Ok(next) => r.Ok? && store == next
              case Err(e) => r == Err(e)
    {
      ghost var ds := ItemsOf(row, positions);
      assert ds[0..] == ds && scans[0..] == scans;
      for k := 0 to |positions|
        invariant DeleteAll(ds, scans, detach, old(store)) == DeleteAll(ds[k..], scans[k..], detach, store)
      {
        var d := row[positions[k] - 1];
        assert ds[k..][0] == d && ds[k..][1..] == ds[k + 1..] && scans[k..][0] == scans[k] && scans[k..][1..] == scans[k + 1..];
        if d.NullDatum? {
          continue;
        } else if d.EdgeDatum? {
          if !scans[k].found { continue; }
          store := DropEdge(store, d.id, scans[k].lockable);
        } else if d.VertexDatum? {
          if !scans[k].found { continue; }
          var _ :- ConnectedEdges(d.id, scans[k].tables);
          store := DropVertex(store, d.id, scans[k].lockable);
        } else {
          return Err(NotAnEntity);
        }
      }
      r := Ok(());
    }

    /** A terminal DELETE: all rows in one call. */
    method ExecTerminal(rows: seq<seq<Datum>>, positions: seq<nat>, scans: seq<seq<Scan>>) returns (r: Result<()>)
      requires forall i | 0 <= i < |rows| :: PositionsFit(positions, rows[i])
      requires |scans| == |rows| && forall i | 0 <= i < |scans| :: |scans[i]| == |positions|
      modifies this
      ensures match DeleteAll(ItemsOfRows(rows, positions), Flatten(scans, |positions|), detach, old(store))
              case Ok(next) => r.Ok? && store == next
              case Err(e) => r == Err(e)
    {
      hide DeleteItem;
      assert rows[0..] == rows && scans[0..] == scans;
      for n := 0 to |rows|
        invariant DeleteAll(ItemsOfRows(rows, positions), Flatten(scans, |positions|), detach, old(store)) ==
                  DeleteAll(ItemsOfRows(rows[n..], positions), Flatten(scans[n..], |positions|), detach, store)
      {
        assert rows[n..][0] == rows[n] && rows[n..][1..] == rows[n + 1..];
        assert scans[n..][0] == scans[n] && scans[n..][1..] == scans[n + 1..];
        assert PositionsFit(positions, rows[n]);
        DeleteInTwo(ItemsOf(rows[n], positions), scans[n], ItemsOfRows(rows[n + 1..], positions),
                    Flatten(scans[n + 1..], |positions|), detach, store);
        var _ :- ProcessDeleteList(rows[n], positions, scans[n]);
      }
      r := Ok(());
    }
  }
}
