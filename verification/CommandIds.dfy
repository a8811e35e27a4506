/**
 * What the scans of a DELETE show, by command ids. The entity is looked up through the command id `cid`, its
 * edges through the next one. A tuple can be locked if nothing has been written over it since, and if the
 * current command has not written it; every deletion ends a command.
 */
module CommandIds {
  import opened Results
  import opened PropertyGraph
  import opened GraphStore
  import opened PathWriter
  import opened DeleteClause

  predicate EdgeLocks(store: Store, e: GraphId, cid: nat) {
    e in store.g.edges && !store.WrittenSince(false, e, cid) && !store.WrittenNow(false, e)
  }

  predicate VertexLocks(store: Store, v: GraphId, cid: nat) {
    v in store.g.vertices && !store.WrittenSince(true, v, cid) && !store.WrittenNow(true, v)
  }

  /** The tables one after another. */
  function Concat(tables: seq<seq<Tuple>>): seq<Tuple> {
    if tables == [] then [] else tables[0] + Concat(tables[1..])
  }

  /** The tuples are the edges of the graph, each once. */
  ghost predicate ListsEdges(table: seq<Tuple>, h: Graph) {
    && (forall e | e in h.edges :: exists k :: 0 <= k < |table| && table[k].id == e)
    && (forall j, k | 0 <= j < k < |table| :: table[j].id != table[k].id)
    && (forall k | 0 <= k < |table| ::
          && table[k].id in h.edges
          && table[k].start == h.edges[table[k].id].start && table[k].end == h.edges[table[k].id].end)
  }

  /** Whether each tuple at the vertex can be locked when its turn comes. */
  ghost predicate LocksRead(table: seq<Tuple>, v: GraphId, detach: bool, store: Store, cid: nat) {
    table == [] ||
    (if TouchesTuple(table[0], v) then
       (table[0].lockable <==> EdgeLocks(store, table[0].id, cid))
       && (detach ==> LocksRead(table[1..], v, detach, DropEdge(store, table[0].id, table[0].lockable), cid))
     else LocksRead(table[1..], v, detach, store, cid))
  }

  /** The scans are those through the command id. */
  ghost predicate ReadAt(scan: Scan, d: Datum, detach: bool, store: Store, cid: nat) {
    match d
    case EdgeDatum(id, _) => (scan.found <==> id in store.SeenAt(cid).edges) && (scan.lockable <==> EdgeLocks(store, id, cid))
    case VertexDatum(id, _) =>
      && (scan.found <==> id in store.SeenAt(cid).vertices)
      && (scan.found ==> ListsEdges(Concat(scan.tables), store.SeenAt(cid + 1)) && LocksRead(Concat(scan.tables), id, detach, store, cid + 1))
      && (FindConnectedEdges(scan.tables, id, detach, store).Ok? ==>
            (scan.lockable <==> VertexLocks(FindConnectedEdges(scan.tables, id, detach, store).value, id, cid)))
    case _ => true
  }

  /** All scans of the clause, each when its turn comes. */
  ghost predicate AllReadAt(ds: seq<Datum>, scans: seq<Scan>, detach: bool, store: Store, cid: nat)
    requires |scans| == |ds|
  {
    ds == [] ||
    (ReadAt(scans[0], ds[0], detach, store, cid)
     && (DeleteItem(ds[0], scans[0], detach, store).Ok? ==>
           AllReadAt(ds[1..], scans[1..], detach, DeleteItem(ds[0], scans[0], detach, store).value, cid)))
  }

  // ---------------------------------------------------------------- the tables as one

  lemma {:induction false} ScanInTwo(a: seq<Tuple>, b: seq<Tuple>, v: GraphId, detach: bool, store: Store)
    ensures ScanTable(a + b, v, detach, store) ==
      match ScanTable(a, v, detach, store)
      case Ok(next) => ScanTable(b, v, detach, next)
      case Err(e) => Err(e)
  {
    if a == [] {
      assert a + b == b;
    } else {
      assert (a + b)[0] == a[0] && (a + b)[1..] == a[1..] + b;
      ScanInTwo(a[1..], b, v, detach, if TouchesTuple(a[0], v) then DropEdge(store, a[0].id, a[0].lockable) else store);
    }
  }

  lemma {:induction false} TablesAsOne(tables: seq<seq<Tuple>>, v: GraphId, detach: bool, store: Store)
    ensures FindConnectedEdges(tables, v, detach, store) == ScanTable(Concat(tables), v, detach, store)
  {
    if tables != [] {
      ScanInTwo(tables[0], Concat(tables[1..]), v, detach, store);
      if ScanTable(tables[0], v, detach, store).Ok? {
        TablesAsOne(tables[1..], v, detach, ScanTable(tables[0], v, detach, store).value);
      }
    }
  }

  lemma {:induction false} LockableAsOne(tables: seq<seq<Tuple>>, v: GraphId)
    ensures LockableAt(tables, v) == LockableIn(Concat(tables), v)
  {
    if tables == [] {
      assert LockableAt(tables, v) == {} && LockableIn(Concat(tables), v) == {};
    } else {
      LockableAsOne(tables[1..], v);
      LockableAtFirst(tables, v);
      var a, b := tables[0], Concat(tables[1..]);
      assert forall k | 0 <= k < |a| :: (a + b)[k] == a[k];
      assert forall k | 0 <= k < |b| :: (a + b)[|a| + k] == b[k];
      assert LockableIn(a + b, v) == LockableIn(a, v) + LockableIn(b, v);
    }
  }

  // ---------------------------------------------------------------- which edges an edge scan can lock

  /** Nothing has been written by the current command. */
  predicate Idle(store: Store) {
    store.finished == |store.writes|
  }

  /** The edge is live and has not been written since the command. */
  predicate Settled(store: Store, e: GraphId, cid: nat) {
    e in store.g.edges && !store.WrittenSince(false, e, cid)
  }

  /** The tuple is behind, or is itself, a tuple at the vertex that can be locked at once. */
  ghost predicate Unblocked(table: seq<Tuple>, v: GraphId, store: Store, cid: nat, j: int) {
    exists i :: 0 <= i <= j && i < |table| && TouchesTuple(table[i], v) && EdgeLocks(store, table[i].id, cid)
  }

  /** The tuple at the vertex that is locked and deleted. */
  ghost predicate Goes(table: seq<Tuple>, v: GraphId, store: Store, cid: nat, j: int) {
    0 <= j < |table| && TouchesTuple(table[j], v) && Settled(store, table[j].id, cid) && Unblocked(table, v, store, cid, j)
  }

  lemma DropIsIdle(store: Store, e: GraphId, cid: nat)
    requires store.Stamped() && e in store.g.edges
    ensures var next := DropEdge(store, e, true);
            && next.Stamped() && Idle(next) && next.g.edges == store.g.edges - {e} && next.g.vertices == store.g.vertices
            && (forall f | f != e :: next.WrittenSince(false, f, cid) <==> store.WrittenSince(false, f, cid))
            && (forall v :: next.WrittenSince(true, v, cid) <==> store.WrittenSince(true, v, cid))
            && (forall f | f != e :: Settled(next, f, cid) <==> Settled(store, f, cid))
  {
    var made := store.Do(DeleteEdge(e));
    StampedMore(store, DeleteEdge(e));
    assert forall i | 0 <= i < |store.writes| :: made.writes[i] == store.writes[i] && made.stamps[i] == store.stamps[i];
    assert made.writes[|store.writes|] == DeleteEdge(e);
  }

  lemma IdleLocks(store: Store, e: GraphId, cid: nat)
    requires Idle(store)
    ensures EdgeLocks(store, e, cid) <==> Settled(store, e, cid)
    ensures forall v :: !store.WrittenNow(true, v)
  {}

  lemma GoesBehind(table: seq<Tuple>, v: GraphId, store: Store, cid: nat, j: int)
    requires table != [] && j > 0 && !(TouchesTuple(table[0], v) && EdgeLocks(store, table[0].id, cid))
    ensures Goes(table, v, store, cid, j) <==> Goes(table[1..], v, store, cid, j - 1)
  {
    hide EdgeLocks, Settled;
    if Unblocked(table, v, store, cid, j) {
      var i :| 0 <= i <= j && i < |table| && TouchesTuple(table[i], v) && EdgeLocks(store, table[i].id, cid);
      assert table[1..][i - 1] == table[i];
    }
    if Unblocked(table[1..], v, store, cid, j - 1) {
      var i :| 0 <= i <= j - 1 && i < |table[1..]| && TouchesTuple(table[1..][i], v) && EdgeLocks(store, table[1..][i].id, cid);
      assert table[i + 1] == table[1..][i];
    }
  }

  /** A tuple is locked exactly if it goes: nothing wrote it since, and it or a tuple before it could be locked at once. */
  lemma {:induction false} LocksAre(table: seq<Tuple>, v: GraphId, store: Store, cid: nat, j: nat)
    requires store.Stamped() && LocksRead(table, v, true, store, cid) && j < |table| && TouchesTuple(table[j], v)
    requires forall i, k | 0 <= i < k < |table| :: table[i].id != table[k].id
    ensures table[j].lockable <==> Goes(table, v, store, cid, j)
  {
    hide EdgeLocks, Settled, DropEdge;
    var rest := table[1..];
    assert forall k | 0 <= k < |rest| :: rest[k] == table[k + 1];
    if TouchesTuple(table[0], v) && EdgeLocks(store, table[0].id, cid) {
      LocksAreSettled(table, store, cid);
      assert Unblocked(table, v, store, cid, j);
      if j > 0 {
        var next := DropEdge(store, table[0].id, true);
        DropIsIdle(store, table[0].id, cid);
        LocksAre(rest, v, next, cid, j - 1);
        IdleLocks(next, table[j].id, cid);
        assert rest[j - 1] == table[j];
        if Settled(next, table[j].id, cid) { assert Unblocked(rest, v, next, cid, j - 1); }
      }
    } else {
      if TouchesTuple(table[0], v) { NoDrop(store, table[0].id); }
      if j > 0 {
        GoesBehind(table, v, store, cid, j);
        LocksAre(rest, v, store, cid, j - 1);
      } else {
        assert !Unblocked(table, v, store, cid, 0);
      }
    }
  }

  lemma NoDrop(store: Store, e: GraphId)
    ensures DropEdge(store, e, false) == store
  {}

  lemma LocksAreSettled(table: seq<Tuple>, store: Store, cid: nat)
    requires table != [] && EdgeLocks(store, table[0].id, cid)
    ensures Settled(store, table[0].id, cid) && table[0].id in store.g.edges
  {}

  // ---------------------------------------------------------------- exactly when an item leaves an edge behind

  /** Some edge at the vertex can be locked at once. */
  ghost predicate AnyLocks(table: seq<Tuple>, v: GraphId, store: Store, cid: nat) {
    exists i :: 0 <= i < |table| && TouchesTuple(table[i], v) && EdgeLocks(store, table[i].id, cid)
  }

  /** The vertex is deleted: a write of the current command keeps it only if no edge goes first. */
  ghost predicate VertexGoes(v: GraphId, tables: seq<seq<Tuple>>, store: Store, cid: nat) {
    && v in store.g.vertices && !store.WrittenSince(true, v, cid)
    && (!store.WrittenNow(true, v) || AnyLocks(Concat(tables), v, store, cid + 1))
  }

  /** The edge is deleted before the vertex. */
  ghost predicate EdgeGoes(e: GraphId, v: GraphId, tables: seq<seq<Tuple>>, store: Store, cid: nat) {
    exists j :: Goes(Concat(tables), v, store, cid + 1, j) && Concat(tables)[j].id == e
  }

  /** With the vertex go all its edges. */
  ghost predicate SettledItem(d: Datum, scan: Scan, store: Store, cid: nat) {
    d.VertexDatum? && VertexGoes(d.id, scan.tables, store, cid) ==>
      forall e | e in store.g.edges && Touches(store.g.edges[e], d.id) :: EdgeGoes(e, d.id, scan.tables, store, cid)
  }

  lemma AnyLocksFirst(table: seq<Tuple>, v: GraphId, store: Store, cid: nat)
    requires table != []
    ensures AnyLocks(table, v, store, cid) <==>
      (TouchesTuple(table[0], v) && EdgeLocks(store, table[0].id, cid)) || AnyLocks(table[1..], v, store, cid)
  {
    hide EdgeLocks;
    var rest := table[1..];
    if i :| 0 <= i < |table| && TouchesTuple(table[i], v) && EdgeLocks(store, table[i].id, cid) {
      if i > 0 { assert rest[i - 1] == table[i]; }
    }
    if i :| 0 <= i < |rest| && TouchesTuple(rest[i], v) && EdgeLocks(store, rest[i].id, cid) {
      assert table[i + 1] == rest[i];
    }
  }

  ghost predicate SameVertexWrites(a: Store, b: Store) {
    b.g.vertices == a.g.vertices && forall v, c :: b.WrittenSince(true, v, c) <==> a.WrittenSince(true, v, c)
  }

  lemma DropKeepsVertices(store: Store, e: GraphId)
    requires store.Stamped() && e in store.g.edges
    ensures SameVertexWrites(store, DropEdge(store, e, true)) && Idle(DropEdge(store, e, true)) && DropEdge(store, e, true).Stamped()
  {
    forall v, c ensures DropEdge(store, e, true).WrittenSince(true, v, c) <==> store.WrittenSince(true, v, c) { DropIsIdle(store, e, c); }
    DropIsIdle(store, e, 0);
    hide DropEdge;
  }

  lemma SameVertexWritesTransitive(a: Store, b: Store, c: Store)
    requires SameVertexWrites(a, b) && SameVertexWrites(b, c)
    ensures SameVertexWrites(a, c)
  {}

  /** After its edge scan an item is in a new command if an edge was deleted, and where it was otherwise. */
  lemma {:induction false} ScanEnds(table: seq<Tuple>, v: GraphId, detach: bool, store: Store, cid: nat)
    requires store.Stamped() && LocksRead(table, v, detach, store, cid) && ScanTable(table, v, detach, store).Ok?
    ensures var next := ScanTable(table, v, detach, store).value;
            && SameVertexWrites(store, next) && (Idle(store) ==> Idle(next))
            && if detach && AnyLocks(table, v, store, cid) then Idle(next) else next == store
  {
    hide EdgeLocks, DropEdge, AnyLocks, SameVertexWrites;
    if table != [] {
      AnyLocksFirst(table, v, store, cid);
      var t := table[0];
      if TouchesTuple(t, v) && t.lockable {
        LocksAreSettled(table, store, cid);
        DropKeepsVertices(store, t.id);
        var next := DropEdge(store, t.id, true);
        ScanEnds(table[1..], v, detach, next, cid);
        SameVertexWritesTransitive(store, next, ScanTable(table[1..], v, detach, next).value);
      } else {
        NoDrop(store, t.id);
        ScanEnds(table[1..], v, detach, store, cid);
      }
    } else {
      assert !AnyLocks(table, v, store, cid) by { NoneLock(v, store, cid); }
      SameWritesAsItself(store);
    }
  }

  lemma NoneLock(v: GraphId, store: Store, cid: nat)
    ensures !AnyLocks([], v, store, cid)
  {}

  lemma SameWritesAsItself(store: Store)
    ensures SameVertexWrites(store, store)
  {}

  /** Which vertex items delete their vertex, by command ids. */
  lemma VertexGoesExactly(id: GraphId, props: Props, scan: Scan, detach: bool, store: Store, cid: nat)
    requires store.Safe() && ReadAt(scan, VertexDatum(id, props), detach, store, cid)
    requires DeleteItem(VertexDatum(id, props), scan, detach, store).Ok?
    ensures id in store.g.vertices && scan.found && scan.lockable <==> VertexGoes(id, scan.tables, store, cid)
  {
    hide ListsEdges, LocksRead, Store.Safe, Replay, EdgeLocks, AnyLocks;
    SafeIsConsistent(store);
    ConsistentIsStamped(store);
    if !store.WrittenSince(true, id, cid) { UnwrittenIsSeen(store, true, id, cid); }
    if scan.found {
      var table := Concat(scan.tables);
      TablesAsOne(scan.tables, id, detach, store);
      ScanEnds(table, id, detach, store, cid + 1);
      if !detach { NoneTouches(table, id, store, cid + 1); }
      var next := ScanTable(table, id, detach, store).value;
      if Idle(next) { IdleLocks(next, id, cid); }
    }
  }

  lemma ConsistentIsStamped(store: Store)
    requires store.Consistent()
    ensures store.Stamped()
  {}

  lemma NoneTouches(table: seq<Tuple>, v: GraphId, store: Store, cid: nat)
    requires ScanTable(table, v, false, store).Ok?
    ensures !TableTouches(table, v) && !AnyLocks(table, v, store, cid)
  {
    TableRefused(table, v, false, store);
    hide EdgeLocks;
  }

  /** Which edges an item deletes, by command ids. */
  lemma EdgeGoesExactly(id: GraphId, props: Props, scan: Scan, detach: bool, store: Store, cid: nat, e: GraphId)
    requires store.Safe() && ReadAt(scan, VertexDatum(id, props), detach, store, cid) && scan.found
    requires DeleteItem(VertexDatum(id, props), scan, detach, store).Ok?
    ensures e in LockableAt(scan.tables, id) <==> EdgeGoes(e, id, scan.tables, store, cid)
  {
    hide LockableAt, Store.Safe, EdgeLocks, Replay;
    SafeIsConsistent(store);
    ConsistentIsStamped(store);
    var table := Concat(scan.tables);
    LockableAsOne(scan.tables, id);
    TablesAsOne(scan.tables, id, detach, store);
    if detach {
      forall j: nat | j < |table| && TouchesTuple(table[j], id) ensures table[j].lockable <==> Goes(table, id, store, cid + 1, j) {
        LocksAre(table, id, store, cid + 1, j);
      }
    } else {
      NoneTouches(table, id, store, cid + 1);
    }
    hide Goes, ListsEdges, LocksRead;
    if e in LockableIn(table, id) {
      var j :| 0 <= j < |table| && table[j].lockable && TouchesTuple(table[j], id) && table[j].id == e;
      assert Goes(table, id, store, cid + 1, j);
    }
    if EdgeGoes(e, id, scan.tables, store, cid) {
      var j :| Goes(table, id, store, cid + 1, j) && table[j].id == e;
      GoesTouches(table, id, store, cid + 1, j);
    }
  }

  lemma GoesTouches(table: seq<Tuple>, v: GraphId, store: Store, cid: nat, j: int)
    requires Goes(table, v, store, cid, j)
    ensures 0 <= j < |table| && TouchesTuple(table[j], v)
  {}

  lemma ItemSettles(d: Datum, scan: Scan, detach: bool, store: Store, cid: nat)
    requires store.Safe() && ReadAt(scan, d, detach, store, cid) && DeleteItem(d, scan, detach, store).Ok?
    ensures EdgesGo(d, scan, store.g) <==> SettledItem(d, scan, store, cid)
  {
    hide Store.Safe, ReadAt, DeleteItem, VertexGoes, EdgeGoes, LockableAt;
    if d.VertexDatum? {
      VertexGoesExactly(d.id, d.props, scan, detach, store, cid);
      if scan.found {
        forall e ensures e in LockableAt(scan.tables, d.id) <==> EdgeGoes(e, d.id, scan.tables, store, cid) {
          EdgeGoesExactly(d.id, d.props, scan, detach, store, cid, e);
        }
      }
    }
  }

  /** Every item is settled when its turn comes. */
  ghost predicate AllSettled(ds: seq<Datum>, scans: seq<Scan>, detach: bool, store: Store, cid: nat)
    requires |scans| == |ds|
  {
    ds == [] ||
    (SettledItem(ds[0], scans[0], store, cid)
     && (DeleteItem(ds[0], scans[0], detach, store).Ok? ==>
           AllSettled(ds[1..], scans[1..], detach, DeleteItem(ds[0], scans[0], detach, store).value, cid)))
  }

  lemma {:induction false} AllSettle(ds: seq<Datum>, scans: seq<Scan>, detach: bool, store: Store, cid: nat)
    requires |scans| == |ds| && store.Safe() && AllReadAt(ds, scans, detach, store, cid) && DeleteAll(ds, scans, detach, store).Ok?
    ensures AllEdgesGo(ds, scans, detach, store) <==> AllSettled(ds, scans, detach, store, cid)
  {
    hide Store.Safe, ReadAt, DeleteItem, EdgesGo, SettledItem;
    if ds != [] {
      ItemSettles(ds[0], scans[0], detach, store, cid);
      DeleteItemSafeExactly(ds[0], scans[0], detach, store);
      var next := DeleteItem(ds[0], scans[0], detach, store).value;
      if next.Safe() { AllSettle(ds[1..], scans[1..], detach, next, cid); }
    }
  }

  /**
   * A DELETE through command ids, over whatever was written before: no write of it leaves a dangling edge
   * exactly when with every vertex go all its edges. An edge stays if it was written by the edge scan's
   * command or a later one, or by the current command with no edge before it that can be locked.
   */
  lemma DeleteSafeAt(ds: seq<Datum>, scans: seq<Scan>, detach: bool, store: Store, cid: nat)
    requires |scans| == |ds| && store.Safe() && AllReadAt(ds, scans, detach, store, cid) && DeleteAll(ds, scans, detach, store).Ok?
    ensures var done := DeleteAll(ds, scans, detach, store).value;
            && (done.Safe() <==> AllSettled(ds, scans, detach, store, cid)) && (!done.Safe() ==> !NeverDangling(done.start, done.writes))
  {
    hide Store.Safe, AllReadAt, DeleteAll, AllEdgesGo, AllSettled;
    AllSettle(ds, scans, detach, store, cid);
    DeleteSafeExactly(ds, scans, detach, store);
  }

  /** An edge that has not been written since is shown, at the ends it has. */
  lemma SettledIsListed(id: GraphId, props: Props, scan: Scan, detach: bool, store: Store, cid: nat, e: GraphId) returns (j: nat)
    requires store.Safe() && ReadAt(scan, VertexDatum(id, props), detach, store, cid) && scan.found
    requires Settled(store, e, cid + 1) && Touches(store.g.edges[e], id)
    ensures j < |Concat(scan.tables)| && Concat(scan.tables)[j].id == e && TouchesTuple(Concat(scan.tables)[j], id)
  {
    hide Store.Safe, LocksRead, Replay;
    SafeIsConsistent(store);
    UnwrittenIsSeen(store, false, e, cid + 1);
    j :| 0 <= j < |Concat(scan.tables)| && Concat(scan.tables)[j].id == e;
  }

  /** Under DETACH, from the start of a command: a vertex takes its edges with it exactly when none of them was written since the edge scan's command. */
  lemma IdleItemSettles(id: GraphId, props: Props, scan: Scan, store: Store, cid: nat)
    requires store.Safe() && ReadAt(scan, VertexDatum(id, props), true, store, cid) && Idle(store)
    requires id in store.g.vertices && !store.WrittenSince(true, id, cid)
    ensures SettledItem(VertexDatum(id, props), scan, store, cid) <==>
      forall e | e in store.g.edges && Touches(store.g.edges[e], id) :: !store.WrittenSince(false, e, cid + 1)
  {
    IdleLocks(store, id, cid);
    assert VertexGoes(id, scan.tables, store, cid);
    SafeIsConsistent(store);
    UnwrittenIsSeen(store, true, id, cid);
    hide Store.Safe, ReadAt, VertexGoes, Replay, Store.Consistent;
    var table := Concat(scan.tables);
    forall e | e in store.g.edges && Touches(store.g.edges[e], id)
      ensures EdgeGoes(e, id, scan.tables, store, cid) <==> !store.WrittenSince(false, e, cid + 1)
    {
      IdleLocks(store, e, cid + 1);
      if Settled(store, e, cid + 1) {
        var j := SettledIsListed(id, props, scan, true, store, cid, e);
        assert Unblocked(table, id, store, cid + 1, j);
        assert Goes(table, id, store, cid + 1, j);
      }
    }
  }
}
