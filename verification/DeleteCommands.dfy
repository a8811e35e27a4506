/**
 * A DELETE that stands alone. Each deletion is a command of its own, while all entity scans read through one
 * command id and all edge scans through the next: a scan shows what the store held after a fixed number
 * of deletions, or holds now if there have been fewer.
 */
module DeleteCommands {
  import opened Results
  import opened PropertyGraph
  import opened GraphStore
  import opened PathWriter
  import opened DeleteClause
  import opened CommandIds

  /** What is left after the first n writes, or after all of them. */
  function View(store: Store, n: nat): Graph {
    Past(store.start, store.writes, if n <= |store.writes| then n else |store.writes|)
  }

  predicate IsDelete(w: Write) {
    w.DeleteVertex? || w.DeleteEdge?
  }

  /** Since the n-th write there have been deletions only, each a command of its own; the first has the command id `first`. */
  ghost predicate Deleting(store: Store, n: nat, first: nat) {
    && n <= |store.writes| == |store.stamps| && Idle(store) && store.command == first + |store.writes| - n
    && (forall i | 0 <= i < n :: store.stamps[i] < first)
    && (forall i | n <= i < |store.writes| :: IsDelete(store.writes[i]) && store.stamps[i] == first + i - n)
  }

  lemma IdleIsDeleting(store: Store)
    requires store.Stamped() && Idle(store)
    ensures Deleting(store, |store.writes|, store.command)
  {}

  // ---------------------------------------------------------------- a DELETE keeps on deleting

  lemma DropDeleting(store: Store, w: Write, n: nat, first: nat)
    requires Deleting(store, n, first) && IsDelete(w)
    ensures Deleting(store.Do(w).EndCommand(), n, first)
  {}

  lemma {:induction false} ScanTableDeleting(table: seq<Tuple>, v: GraphId, detach: bool, store: Store, n: nat, first: nat)
    requires Deleting(store, n, first) && ScanTable(table, v, detach, store).Ok?
    ensures Deleting(ScanTable(table, v, detach, store).value, n, first)
  {
    hide Deleting;
    if table != [] {
      DropDeleting(store, DeleteEdge(table[0].id), n, first);
      ScanTableDeleting(table[1..], v, detach, if TouchesTuple(table[0], v) then DropEdge(store, table[0].id, table[0].lockable) else store, n, first);
    }
  }

  lemma ItemDeleting(d: Datum, scan: Scan, detach: bool, store: Store, n: nat, first: nat)
    requires Deleting(store, n, first) && DeleteItem(d, scan, detach, store).Ok?
    ensures Deleting(DeleteItem(d, scan, detach, store).value, n, first)
  {
    hide Deleting, ScanTable, FindConnectedEdges;
    match d
    case EdgeDatum(id, _) => DropDeleting(store, DeleteEdge(id), n, first);
    case VertexDatum(id, _) =>
      if scan.found {
        TablesAsOne(scan.tables, id, detach, store);
        ScanTableDeleting(Concat(scan.tables), id, detach, store, n, first);
        DropDeleting(FindConnectedEdges(scan.tables, id, detach, store).value, DeleteVertex(id), n, first);
      }
    case _ =>
  }

  lemma {:induction false} DeleteAllDeleting(ds: seq<Datum>, scans: seq<Scan>, detach: bool, store: Store, n: nat, first: nat)
    requires |scans| == |ds| && Deleting(store, n, first) && DeleteAll(ds, scans, detach, store).Ok?
    ensures Deleting(DeleteAll(ds, scans, detach, store).value, n, first)
  {
    hide Deleting, DeleteItem;
    if ds != [] {
      ItemDeleting(ds[0], scans[0], detach, store, n, first);
      DeleteAllDeleting(ds[1..], scans[1..], detach, DeleteItem(ds[0], scans[0], detach, store).value, n, first);
    }
  }

  lemma NotBefore(store: Store, n: nat, first: nat, lead: nat, i: nat)
    requires Deleting(store, n, first) && i < |store.writes|
    ensures store.stamps[i] < first + lead <==> i < n + lead
  {}

  /** A scan sees the deletions of the commands before its own. */
  lemma DeletingSees(store: Store, n: nat, first: nat, lead: nat)
    requires Deleting(store, n, first) && store.Stamped()
    ensures store.SeenAt(first + lead) == View(store, n + lead)
  {
    BeforeSplits(store, first + lead);
    var k := Before(store.stamps, first + lead);
    hide Replay;
    var m: nat := if n + lead <= |store.writes| then n + lead else |store.writes|;
    if k < |store.writes| { NotBefore(store, n, first, lead, k); }
    if m < |store.writes| { NotBefore(store, n, first, lead, m); }
  }

  // ---------------------------------------------------------------- its scans are honest

  ghost predicate Shrinks(g: Graph, h: Graph) {
    && (forall v | v in h.vertices :: v in g.vertices)
    && (forall e | e in h.edges :: e in g.edges && h.edges[e] == g.edges[e])
  }

  lemma {:induction false} PastShrinks(store: Store, n: nat, m: nat)
    requires store.Consistent() && n <= m <= |store.writes| && forall i | n <= i < |store.writes| :: IsDelete(store.writes[i])
    ensures Shrinks(Past(store.start, store.writes, m), store.g)
    decreases |store.writes| - m
  {
    if m == |store.writes| {
      Now(store);
    } else {
      PastShrinks(store, n, m + 1);
      PastNext(store.start, store.writes, m);
    }
  }

  /** What is still live has not been written since the first deletion. */
  lemma LiveIsUnwritten(store: Store, n: nat, first: nat, vertex: bool, id: GraphId, cid: nat)
    requires store.Consistent() && Deleting(store, n, first) && cid >= first
    requires if vertex then id in store.g.vertices else id in store.g.edges
    ensures !store.WrittenSince(vertex, id, cid)
  {
    forall i | 0 <= i < |store.writes| && store.stamps[i] >= cid ensures !Hits(store.writes[i], vertex, id) {
      PastShrinks(store, n, i + 1);
      PastNext(store.start, store.writes, i);
    }
  }

  /** An edge is locked with its vertex exactly if it touches it. */
  lemma LoneEdgeGoes(id: GraphId, props: Props, scan: Scan, detach: bool, store: Store, n: nat, first: nat, cid: nat, e: GraphId)
    requires store.Safe() && Deleting(store, n, first) && cid >= first && scan.found && e in store.g.edges
    requires ReadAt(scan, VertexDatum(id, props), detach, store, cid) && DeleteItem(VertexDatum(id, props), scan, detach, store).Ok?
    ensures e in LockableAt(scan.tables, id) <==> Touches(store.g.edges[e], id)
  {
    SafeIsConsistent(store);
    LiveIsUnwritten(store, n, first, false, e, cid + 1);
    UnwrittenIsSeen(store, false, e, cid + 1);
    EdgeGoesExactly(id, props, scan, detach, store, cid, e);
    IdleLocks(store, e, cid + 1);
    hide Store.Safe, Store.Consistent, LockableAt, LocksRead, DeleteItem, Replay, EdgeLocks;
    var table := Concat(scan.tables);
    if Touches(store.g.edges[e], id) {
      var j := SettledIsListed(id, props, scan, detach, store, cid, e);
      assert Unblocked(table, id, store, cid + 1, j);
      assert Goes(table, id, store, cid + 1, j);
    }
  }

  /** The vertex item of a DELETE that stands alone finds and locks what is live. */
  lemma LoneVertexIsHonest(id: GraphId, props: Props, scan: Scan, detach: bool, store: Store, n: nat, first: nat, cid: nat)
    requires store.Safe() && Deleting(store, n, first) && cid >= first
    requires ReadAt(scan, VertexDatum(id, props), detach, store, cid) && DeleteItem(VertexDatum(id, props), scan, detach, store).Ok?
    ensures Honest(scan, VertexDatum(id, props), store.g)
  {
    SafeIsConsistent(store);
    SafeIsNotDangling(store);
    if id in store.g.vertices {
      LiveIsUnwritten(store, n, first, true, id, cid);
      IdleLocks(store, id, cid);
      assert VertexGoes(id, scan.tables, store, cid);
      VertexGoesExactly(id, props, scan, detach, store, cid);
    }
    hide Store.Safe, Store.Consistent, ReadAt, DeleteItem, LockableAt, Deleting;
    if scan.found {
      forall e | e in store.g.edges ensures Touches(store.g.edges[e], id) <==> e in LockableAt(scan.tables, id) {
        LoneEdgeGoes(id, props, scan, detach, store, n, first, cid, e);
      }
    }
  }

  lemma LoneItemIsHonest(d: Datum, scan: Scan, detach: bool, store: Store, n: nat, first: nat, cid: nat)
    requires store.Safe() && Deleting(store, n, first) && cid >= first && ReadAt(scan, d, detach, store, cid)
    requires DeleteItem(d, scan, detach, store).Ok?
    ensures Honest(scan, d, store.g)
  {
    SafeIsConsistent(store);
    match d
    case VertexDatum(id, props) => LoneVertexIsHonest(id, props, scan, detach, store, n, first, cid);
    case EdgeDatum(id, _) =>
      if id in store.g.edges {
        LiveIsUnwritten(store, n, first, false, id, cid);
        UnwrittenIsSeen(store, false, id, cid);
        IdleLocks(store, id, cid);
      }
    case _ =>
  }

  /** The scans of a DELETE that stands alone are honest, so all that holds of honest scans holds of it. */
  lemma {:induction false} LoneReadsAreHonest(ds: seq<Datum>, scans: seq<Scan>, detach: bool, store: Store, n: nat, first: nat, cid: nat)
    requires |scans| == |ds| && store.Safe() && Deleting(store, n, first) && cid >= first
    requires AllReadAt(ds, scans, detach, store, cid) && DeleteAll(ds, scans, detach, store).Ok?
    ensures HonestAll(ds, scans, detach, store)
  {
    hide Deleting, DeleteItem, Honest, ReadAt, Store.Safe;
    if ds != [] {
      LoneItemIsHonest(ds[0], scans[0], detach, store, n, first, cid);
      DeleteItemRemoves(ds[0], scans[0], detach, store);
      ItemDeleting(ds[0], scans[0], detach, store, n, first);
      LoneReadsAreHonest(ds[1..], scans[1..], detach, DeleteItem(ds[0], scans[0], detach, store).value, n, first, cid);
    }
  }

  // ---------------------------------------------------------------- edges first, then their vertex

  /** The store after the edges have been deleted one by one. */
  function Dropped(store: Store, es: seq<GraphId>): Store {
    if es == [] then store else DropEdge(Dropped(store, es[..|es| - 1]), es[|es| - 1], true)
  }

  /** Different live edges. */
  ghost predicate LiveEdges(store: Store, es: seq<GraphId>) {
    && (forall k | 0 <= k < |es| :: es[k] in store.g.edges)
    && (forall j, k | 0 <= j < k < |es| :: es[j] != es[k])
  }

  lemma DropLive(store: Store, e: GraphId)
    requires e in store.g.edges
    ensures var next := DropEdge(store, e, true);
            && next == store.Do(DeleteEdge(e)).EndCommand() && next.start == store.start && next.writes == store.writes + [DeleteEdge(e)]
            && next.g.vertices == store.g.vertices && next.g.edges == store.g.edges - {e}
  {}

  lemma {:induction false} DroppedIs(store: Store, es: seq<GraphId>)
    requires store.Safe() && Idle(store) && LiveEdges(store, es)
    ensures var next := Dropped(store, es);
            && next.Safe() && next.start == store.start && |next.writes| == |store.writes| + |es| && store.writes <= next.writes
            && Deleting(next, |store.writes|, store.command)
            && next.g.vertices == store.g.vertices
            && (forall e :: e in next.g.edges <==> e in store.g.edges && e !in es)
            && (forall e | e in next.g.edges :: next.g.edges[e] == store.g.edges[e])
  {
    SafeIsConsistent(store);
    IdleIsDeleting(store);
    hide Store.Safe, DropEdge, Deleting;
    if es != [] {
      var before, e := es[..|es| - 1], es[|es| - 1];
      assert es == before + [e];
      DroppedIs(store, before);
      DropLive(Dropped(store, before), e);
      DropDeleting(Dropped(store, before), DeleteEdge(e), |store.writes|, store.command);
      DropEdgeKeepsSafe(Dropped(store, before), e, true);
    }
  }

  /** The log only grows, by one write for each edge. */
  lemma DroppedGrows(store: Store, es: seq<GraphId>)
    requires store.Safe() && Idle(store) && LiveEdges(store, es)
    ensures var next := Dropped(store, es);
            && next.Safe() && next.start == store.start && |next.writes| == |store.writes| + |es| && store.writes <= next.writes
  {
    hide *;
    DroppedIs(store, es);
  }

  lemma LivePrefix(store: Store, es: seq<GraphId>)
    requires LiveEdges(store, es) && es != []
    ensures LiveEdges(store, es[..|es| - 1])
  {}

  lemma {:induction false} DroppedPrefix(store: Store, es: seq<GraphId>, m: nat)
    requires store.Safe() && Idle(store) && LiveEdges(store, es) && m <= |es|
    ensures View(Dropped(store, es), |store.writes| + m) == Dropped(store, es[..m]).g
  {
    hide *;
    DroppedGrows(store, es);
    if m == |es| {
      assert es[..m] == es;
      SafeNow(Dropped(store, es));
    } else {
      var before := es[..|es| - 1];
      assert before[..m] == es[..m];
      LivePrefix(store, es);
      DroppedPrefix(store, before, m);
      DroppedGrows(store, before);
      DroppedLast(store, es);
      ViewBefore(Dropped(store, before), Dropped(store, es), |store.writes| + m);
    }
  }

  lemma DroppedLast(store: Store, es: seq<GraphId>)
    requires es != []
    ensures Dropped(store, es) == DropEdge(Dropped(store, es[..|es| - 1]), es[|es| - 1], true)
    ensures Dropped(store, es[..|es| - 1]).writes <= Dropped(store, es).writes
  {}

  /** A later write does not change what was left before it. */
  lemma ViewBefore(a: Store, b: Store, n: nat)
    requires a.start == b.start && a.writes <= b.writes && n <= |a.writes|
    ensures View(a, n) == View(b, n)
  {
    assert b.writes[..n] == a.writes[..n];
  }

  lemma SafeNow(store: Store)
    requires store.Safe()
    ensures View(store, |store.writes|) == store.g
  {
    Now(store);
  }

  lemma DroppedNone(store: Store)
    ensures Dropped(store, []) == store
  {}

  function EdgeData(g: Graph, es: seq<GraphId>): (r: seq<Datum>)
    requires forall k | 0 <= k < |es| :: es[k] in g.edges
    ensures |r| == |es|
  {
    seq(|es|, k requires 0 <= k < |es| => EdgeDatum(es[k], g.edges[es[k]]))
  }

  /** The items from the j-th on: edges, and at last the vertex. */
  function ItemsFrom(store: Store, es: seq<GraphId>, j: nat, v: Datum): (r: seq<Datum>)
    requires LiveEdges(store, es) && j <= |es|
    ensures |r| == |es| - j + 1
  {
    EdgeData(store.g, es[j..]) + [v]
  }

  /** The edge scan finds an edge at the vertex exactly if it shows one. */
  lemma ListedTouches(tables: seq<seq<Tuple>>, h: Graph, v: GraphId, store: Store)
    requires ListsEdges(Concat(tables), h)
    ensures ScanTouches(tables, v) <==> exists e :: e in h.edges && Touches(h.edges[e], v)
  {
    var table := Concat(tables);
    TablesRefused(tables, v, false, store);
    TablesAsOne(tables, v, false, store);
    TableRefused(table, v, false, store);
    if e :| e in h.edges && Touches(h.edges[e], v) {
      var k :| 0 <= k < |table| && table[k].id == e;
      assert TouchesTuple(table[k], v);
    }
  }

  /** An edge item that is still live is found and dropped. */
  lemma EdgeItemDrops(store: Store, es: seq<GraphId>, j: nat, scan: Scan, d: Datum, cid: nat)
    requires store.Safe() && Idle(store) && LiveEdges(store, es) && j < |es| && cid >= store.command
    requires d == EdgeDatum(es[j], store.g.edges[es[j]]) && ReadAt(scan, d, false, Dropped(store, es[..j]), cid)
    ensures DeleteItem(d, scan, false, Dropped(store, es[..j])) == Ok(Dropped(store, es[..j + 1]))
  {
    var now := Dropped(store, es[..j]);
    assert LiveEdges(store, es[..j]);
    DroppedIs(store, es[..j]);
    SafeIsConsistent(now);
    assert es[j] in now.g.edges;
    LiveIsUnwritten(now, |store.writes|, store.command, false, es[j], cid);
    UnwrittenIsSeen(now, false, es[j], cid);
    assert now.finished == |now.writes|;
    IdleLocks(now, es[j], cid);
    assert es[..j + 1][..j] == es[..j] && es[..j + 1][j] == es[j];
  }

  lemma {:induction false} EdgesThenVertexFrom(store: Store, es: seq<GraphId>, j: nat, v: Datum, scans: seq<Scan>, cid: nat)
    requires store.Safe() && Idle(store) && LiveEdges(store, es) && j <= |es| && cid >= store.command
    requires v.VertexDatum? && v.id in store.g.vertices && |scans| == |es| - j + 1
    requires AllReadAt(ItemsFrom(store, es, j, v), scans, false, Dropped(store, es[..j]), cid)
    ensures DeleteAll(ItemsFrom(store, es, j, v), scans, false, Dropped(store, es[..j])).Ok? <==>
      var h := Dropped(store, es).SeenAt(cid + 1);
      !exists e :: e in h.edges && Touches(h.edges[e], v.id)
    decreases |es| - j
  {
    hide Store.Safe, Dropped, DeleteItem, IsRefused, ReadAt;
    var ds := ItemsFrom(store, es, j, v);
    var now := Dropped(store, es[..j]);
    if j < |es| {
      assert ds[0] == EdgeDatum(es[j], store.g.edges[es[j]]);
      assert ds[1..] == ItemsFrom(store, es, j + 1, v);
      EdgeItemDrops(store, es, j, scans[0], ds[0], cid);
      EdgesThenVertexFrom(store, es, j + 1, v, scans[1..], cid);
    } else {
      assert es[..j] == es && ds == [v];
      VertexItemRefused(store, es, v, scans[0], cid);
      ItemRefused(v, scans[0], false, now);
      assert ds[1..] == [];
    }
  }

  lemma VertexItemRefused(store: Store, es: seq<GraphId>, v: Datum, scan: Scan, cid: nat)
    requires store.Safe() && Idle(store) && LiveEdges(store, es) && cid >= store.command && v.VertexDatum? && v.id in store.g.vertices
    requires ReadAt(scan, v, false, Dropped(store, es), cid)
    ensures IsRefused(v, scan, false) <==>
      var h := Dropped(store, es).SeenAt(cid + 1);
      exists e :: e in h.edges && Touches(h.edges[e], v.id)
  {
    hide Store.Safe, ScanTouches, Replay;
    var now := Dropped(store, es);
    DroppedIs(store, es);
    SafeIsConsistent(now);
    LiveIsUnwritten(now, |store.writes|, store.command, true, v.id, cid);
    UnwrittenIsSeen(now, true, v.id, cid);
    ListedTouches(scan.tables, now.SeenAt(cid + 1), v.id, now);
  }

  /**
   * `DELETE e1, ..., en, v` without DETACH, from the start of a command, its vertex looked up through the
   * command id `cid`: it is accepted exactly when every edge at v is among the first of the list, as
   * many as the edge scan's command id is ahead. An edge that a later deletion has removed is still
   * shown, and makes the clause refuse.
   */
  lemma EdgesThenVertexExactly(store: Store, es: seq<GraphId>, v: Datum, scans: seq<Scan>, cid: nat)
    requires store.Safe() && Idle(store) && LiveEdges(store, es) && cid >= store.command
    requires v.VertexDatum? && v.id in store.g.vertices && |scans| == |es| + 1
    requires AllReadAt(EdgeData(store.g, es) + [v], scans, false, store, cid)
    ensures var lead := cid + 1 - store.command;
            DeleteAll(EdgeData(store.g, es) + [v], scans, false, store).Ok? <==>
              forall e | e in store.g.edges && Touches(store.g.edges[e], v.id) :: e in es[..if lead <= |es| then lead else |es|]
  {
    hide Store.Safe, DeleteAll, AllReadAt, Replay, Dropped, Deleting;
    var lead := cid + 1 - store.command;
    var k := if lead <= |es| then lead else |es|;
    assert es[0..] == es && es[..0] == [];
    DroppedNone(store);
    EdgesThenVertexFrom(store, es, 0, v, scans, cid);
    DroppedIs(store, es);
    SafeIsConsistent(Dropped(store, es));
    ConsistentIsStamped(Dropped(store, es));
    DeletingSees(Dropped(store, es), |store.writes|, store.command, lead);
    assert View(Dropped(store, es), |store.writes| + lead) == View(Dropped(store, es), |store.writes| + k);
    DroppedPrefix(store, es, k);
    DroppedIs(store, es[..k]);
    var h := Dropped(store, es[..k]).g;
    assert forall e | e in h.edges :: h.edges[e] == store.g.edges[e];
    assert forall e | e in store.g.edges && e !in es[..k] :: e in h.edges;
  }

  /** With e the only edge at v: `DELETE e, v` is accepted and `DELETE v, e` refused. */
  lemma OrderMatters(store: Store, e: GraphId, v: Datum, scans: seq<Scan>, others: seq<Scan>, cid: nat)
    requires store.Safe() && Idle(store) && e in store.g.edges && v.VertexDatum? && v.id in store.g.vertices && Touches(store.g.edges[e], v.id)
    requires forall f | f in store.g.edges && Touches(store.g.edges[f], v.id) :: f == e
    requires cid >= store.command && |scans| == |others| == 2
    requires AllReadAt(EdgeData(store.g, [e]) + [v], scans, false, store, cid)
    requires AllReadAt([v] + EdgeData(store.g, [e]), others, false, store, cid)
    ensures DeleteAll(EdgeData(store.g, [e]) + [v], scans, false, store).Ok?
    ensures DeleteAll([v] + EdgeData(store.g, [e]), others, false, store).Err?
  {
    hide Store.Safe, ScanTouches, ReadAt, Replay, Apply, Store.Consistent;
    EdgesThenVertexExactly(store, [e], v, scans, cid);
    assert [e][..1] == [e];
    var ds := [v] + EdgeData(store.g, [e]);
    assert ds[0] == v;
    DroppedNone(store);
    VertexItemRefused(store, [], v, others[0], cid);
    SafeIsConsistent(store);
    LiveEdgeIsShown(store, e, cid + 1);
    ItemRefused(v, others[0], false, store);
  }

  lemma LiveEdgeIsShown(store: Store, e: GraphId, cid: nat)
    requires store.Consistent() && Idle(store) && cid >= store.command && e in store.g.edges
    ensures SameEdgeAt(store.SeenAt(cid), store.g, e)
  {
    IdleIsDeleting(store);
    LiveIsUnwritten(store, |store.writes|, store.command, false, e, cid);
    UnwrittenIsSeen(store, false, e, cid);
  }

  /** How far a DELETE that stands alone looks up its entities ahead of its first deletion. */
  const LONE_LEAD: nat := 1

  /** So a vertex is refused after three of its edges, though all three are gone. */
  lemma ThirdEdgeStillShown(store: Store, es: seq<GraphId>, v: Datum, scans: seq<Scan>)
    requires store.Safe() && Idle(store) && LiveEdges(store, es) && |es| == 3 && |scans| == 4
    requires v.VertexDatum? && v.id in store.g.vertices && Touches(store.g.edges[es[2]], v.id)
    requires AllReadAt(EdgeData(store.g, es) + [v], scans, false, store, store.command + LONE_LEAD)
    ensures DeleteAll(EdgeData(store.g, es) + [v], scans, false, store).Err?
  {
    EdgesThenVertexExactly(store, es, v, scans, store.command + LONE_LEAD);
    assert es[2] !in es[..2];
  }
}
