/**
 * Clauses that pull their rows from each other, and the command ids they read through. At a query's first
 * command id S, the clause next to the MATCH looks things up through S + 1, the clause above it through
 * S + 2, and the edge scan of a DELETE through one more.
 */
module Pipelines {
  import opened Results
  import opened PropertyGraph
  import opened MatchPattern
  import opened GraphStore
  import opened PathWriter
  import opened PathWritten
  import opened PathChecks
  import opened CreateClause
  import opened CreateTheorems
  import opened DeleteClause
  import opened CommandIds
  import opened DeleteCommands
  import opened SetClause
  import opened SetTheorems
  import opened Runs

  const FIRST_CLAUSE: nat := 1
  const SECOND_CLAUSE: nat := 2

  // ---------------------------------------------------------------- CREATE above DETACH DELETE

  /** A check finds a vertex that a DELETE has deleted exactly if as many deletions as its lead came before. */
  lemma CheckAfterDelete(done: Store, n: nat, first: nat, i: nat, v: GraphId, lead: nat)
    requires done.Safe() && Deleting(done, n, first) && n <= i < |done.writes| && done.writes[i] == DeleteVertex(v)
    requires v in Past(done.start, done.writes, n).vertices
    ensures v !in done.g.vertices && (v in FoundAt(done, first + lead) <==> i - n >= lead)
  {
    SafeIsConsistent(done);
    ConsistentIsStamped(done);
    DeletingSees(done, n, first, lead);
    Now(done);
    var m := if n + lead <= |done.writes| then n + lead else |done.writes|;
    VertexUntilDeleted(done, n, |done.writes|, v);
    VertexUntilDeleted(done, n, m, v);
    assert WritesAreLawful(done.start, done.writes);
    assert v in Past(done.start, done.writes, i).vertices;
    VertexUntilDeleted(done, n, i, v);
    hide Store.Safe, Replay, Deleting, WritesAreLawful;
  }

  lemma PastIsThen(store: Store, later: Store)
    requires store.Consistent() && later.start == store.start && store.writes <= later.writes
    ensures Past(later.start, later.writes, |store.writes|) == store.g
  {
    Now(store);
    assert later.writes[..|store.writes|] == store.writes[..|store.writes|];
  }

  /** The same for a DELETE from the start of a command. */
  lemma CheckAfterClause(ds: seq<Datum>, scans: seq<Scan>, store: Store, done: Store, i: nat, v: GraphId, lead: nat)
    requires store.Safe() && Idle(store) && |scans| == |ds| && DeleteAll(ds, scans, true, store) == Ok(done) && done.Safe()
    requires |store.writes| <= i < |done.writes| && done.writes[i] == DeleteVertex(v) && v in store.g.vertices
    ensures v !in done.g.vertices && v.entry <= done.LastOf(v.labelId)
    ensures v in FoundAt(done, store.command + lead) <==> i - |store.writes| >= lead
  {
    hide *;
    var n := |store.writes|;
    SafeIsConsistent(store);
    SafeIsConsistent(done);
    ConsistentIsStamped(store);
    IdleIsDeleting(store);
    DeleteAllDeleting(ds, scans, true, store, n, store.command);
    DeleteAllGrows(ds, scans, true, store);
    PastIsThen(store, done);
    CheckAfterDelete(done, n, store.command, i, v, lead);
    WasDrawn(done, n, v);
  }

  lemma MentionRefused(c: Clause, nodes: seq<Target>, s: State)
    requires WellShaped(nodes) && AllFit(nodes, |s.slot|) && nodes[0].Checked()
    requires s.slot[nodes[0].pos - 1].VertexDatum? && s.slot[nodes[0].pos - 1].id !in s.seen
    ensures WriteVertex(c, nodes, 0, s) == Err(VertexWasDeleted)
  {}

  /**
   * `... DETACH DELETE ... CREATE (v)-[...]-...`: v is deleted by the i-th write of the history, and its
   * existence is checked at S + 2. With fewer than two deletions before its own the CREATE is refused; with two
   * or more it gives an edge to a vertex that is gone.
   */
  lemma CreateAfterDetachDelete(ds: seq<Datum>, scans: seq<Scan>, store: Store, done: Store, i: nat, v: GraphId, nodes: seq<Target>, s: State)
    requires store.Safe() && Idle(store) && |scans| == |ds| && DeleteAll(ds, scans, true, store) == Ok(done) && done.Safe()
    requires |store.writes| <= i < |done.writes| && done.writes[i] == DeleteVertex(v) && v in store.g.vertices
    requires WellShaped(nodes) && AllFit(nodes, |s.slot|) && |nodes| > 1 && nodes[0].Checked()
    requires forall j | 0 <= j < |nodes| && nodes[j].Declares() :: nodes[j].pos != nodes[0].pos
    requires s.store == done && s.seen == FoundAt(done, store.command + SECOND_CLAUSE)
    requires s.slot[nodes[0].pos - 1].VertexDatum? && s.slot[nodes[0].pos - 1].id == v
    ensures i - |store.writes| < SECOND_CLAUSE ==> WriteVertex(Create, nodes, 0, s) == Err(VertexWasDeleted)
    ensures i - |store.writes| >= SECOND_CLAUSE && WriteVertex(Create, nodes, 0, s).Ok? ==>
      !NoDangling(WriteVertex(Create, nodes, 0, s).value.s.store.g)
  {
    hide Store.Safe, WriteVertex, WriteEdge, Replay, DeleteAll, FoundAt, Idle, NoDangling;
    CheckAfterClause(ds, scans, store, done, i, v, SECOND_CLAUSE);
    if v !in s.seen {
      MentionRefused(Create, nodes, s);
    } else if WriteVertex(Create, nodes, 0, s).Ok? {
      SafeIsConsistent(done);
      ConsistentIsDrawn(done);
      assert HoldsGone(s, nodes[0].pos);
      RunDangles(Create, nodes, 0, s, 0);
    }
  }

  lemma WasDrawn(st: Store, n: nat, v: GraphId)
    requires st.Consistent() && n <= |st.writes| && v in Past(st.start, st.writes, n).vertices
    ensures v.entry <= st.LastOf(v.labelId)
  {
    assert Has(Past(st.start, st.writes, n), v);
  }

  // ---------------------------------------------------------------- DETACH DELETE above SET

  lemma {:induction false} TimesWrittenHits(ws: seq<Write>, d: Datum) returns (i: nat)
    requires IsEntity(d) && TimesWritten(ws, d) > 0
    ensures i < |ws| && Hits(ws[i], d.VertexDatum?, d.id)
  {
    var n := |ws| - 1;
    if (if d.VertexDatum? then ws[n].UpdateVertex? else ws[n].UpdateEdge?) && ws[n].id == d.id {
      i := n;
    } else {
      i := TimesWrittenHits(ws[..n], d);
    }
  }

  /** The later writes have the command's stamp. */
  ghost predicate SameCommand(store: Store, made: Store) {
    && |store.stamps| == |store.writes| && |made.stamps| == |made.writes| && store.writes <= made.writes && store.stamps <= made.stamps
    && forall i | |store.writes| <= i < |made.writes| :: made.stamps[i] == store.command
  }

  lemma SetIsOneCommand(items: seq<SetItem>, row: seq<Datum>, store: Store, outputCid: nat)
    requires ItemsFit(items, row) && store.Safe() && RowShows(row, store.g) && SetRow(items, row, store, outputCid).Ok?
    ensures SameCommand(store, SetRow(items, row, store, outputCid).value.1)
  {
    hide Replay, FoldTo, KnowsWritten, NeverDangling, EndsNeverChange, WritesAreLawful;
    AfterIs(items, |items|, row, store, outputCid);
    AfterIsSafe(items, |items|, row, store, outputCid);
  }

  /** A write of the later command counts as one since a command id exactly if that is not later. */
  lemma SinceOneCommand(store: Store, made: Store, f: GraphId, cid: nat)
    requires SameCommand(store, made)
    ensures store.command < cid ==> (made.WrittenSince(false, f, cid) <==> store.WrittenSince(false, f, cid))
    ensures store.command >= cid && (exists i :: |store.writes| <= i < |made.writes| && Hits(made.writes[i], false, f)) ==>
      made.WrittenSince(false, f, cid)
  {
    assert forall i | 0 <= i < |store.writes| :: made.writes[i] == store.writes[i] && made.stamps[i] == store.stamps[i];
  }

  /**
   * `... SET ... DETACH DELETE v`, where the SET has written an edge at v in its row, and neither v nor another of its
   * edges is too new: the edge stays behind, dangling, if and only if the SET's command is later than the
   * command id through which v was looked up.
   */
  lemma DetachDeleteAfterSet(items: seq<SetItem>, row: seq<Datum>, store: Store, outputCid: nat, next: Store,
      id: GraphId, props: Props, scan: Scan, cid: nat, k: int, e: Datum)
    requires ItemsFit(items, row) && store.Safe() && RowShows(row, store.g) && SetRow(items, row, store, outputCid).Ok?
    requires next == SetRow(items, row, store, outputCid).value.1.EndCommand()
    requires e.EdgeDatum? && WritesTuple(items, k, |items|, row, store, e) && e.id in store.g.edges && Touches(store.g.edges[e.id], id)
    requires id in store.g.vertices && !next.WrittenSince(true, id, cid)
    requires forall f | f in store.g.edges && Touches(store.g.edges[f], id) :: !store.WrittenSince(false, f, cid + 1)
    requires ReadAt(scan, VertexDatum(id, props), true, next, cid)
    ensures DeleteItem(VertexDatum(id, props), scan, true, next).Ok?
    ensures NoDangling(DeleteItem(VertexDatum(id, props), scan, true, next).value.g) <==> store.command <= cid
  {
    var d, made := VertexDatum(id, props), SetRow(items, row, store, outputCid).value.1;
    ItemRefused(d, scan, true, next);
    SetWroteEdge(items, row, store, outputCid, k, e);
    EndCommandKeepsSafe(made);
    hide Store.Safe, SetRow, ReadAt, DeleteItem, WritesTuple, Replay, SameCommand, RowShows, ItemsFit, SettledItem, EdgesGo;
    SinceOneCommand(store, made, e.id, cid + 1);
    forall f | f in store.g.edges && Touches(store.g.edges[f], id) ensures store.command <= cid ==> !next.WrittenSince(false, f, cid + 1) {
      SinceOneCommand(store, made, f, cid + 1);
    }
    assert Idle(next) && id in next.g.vertices;
    IdleItemSettles(id, props, scan, next, cid);
    ItemSettles(d, scan, true, next, cid);
    DeleteItemSafeExactly(d, scan, true, next);
    if DeleteItem(d, scan, true, next).value.Safe() { SafeIsNotDangling(DeleteItem(d, scan, true, next).value); }
  }

  /** A SET that writes an edge does so under its command, and moves nothing. */
  lemma SetWroteEdge(items: seq<SetItem>, row: seq<Datum>, store: Store, outputCid: nat, k: int, e: Datum)
    requires ItemsFit(items, row) && store.Safe() && RowShows(row, store.g) && SetRow(items, row, store, outputCid).Ok?
    requires e.EdgeDatum? && WritesTuple(items, k, |items|, row, store, e)
    ensures var made := SetRow(items, row, store, outputCid).value.1;
            && made.Safe() && SameEnds(store.g, made.g) && SameCommand(store, made)
            && exists i :: |store.writes| <= i < |made.writes| && Hits(made.writes[i], false, e.id)
  {
    hide Store.Safe, SetRow, WritesTuple, Replay, SameCommand, HoldsFoldOf, FoldTo, SameEnds, Hits;
    SetRowIs(items, row, store, outputCid);
    SetIsOneCommand(items, row, store, outputCid);
    var made := SetRow(items, row, store, outputCid).value.1;
    var i := TimesWrittenHits(WritesSince(store, made), e);
    assert Hits(made.writes[|store.writes| + i], false, e.id);
  }

  // ---------------------------------------------------------------- DETACH DELETE above CREATE

  /**
   * `... CREATE (v)-[...]-... DETACH DELETE v`, where v had no edge before: CREATE does not end its command, so
   * that the new edges cannot be locked, and v goes without them.
   */
  lemma DetachDeleteAfterCreate(id: GraphId, props: Props, scan: Scan, store: Store, cid: nat)
    requires store.Safe() && ReadAt(scan, VertexDatum(id, props), true, store, cid)
    requires id in store.g.vertices && !store.WrittenSince(true, id, cid) && !store.WrittenNow(true, id)
    requires forall e | e in store.g.edges && Touches(store.g.edges[e], id) :: store.WrittenNow(false, e)
    ensures DeleteItem(VertexDatum(id, props), scan, true, store).Ok?
    ensures NoDangling(DeleteItem(VertexDatum(id, props), scan, true, store).value.g) <==>
      !exists e :: e in store.g.edges && Touches(store.g.edges[e], id)
  {
    var d := VertexDatum(id, props);
    ItemRefused(d, scan, true, store);
    NothingLocks(id, props, scan, store, cid);
    assert VertexGoes(id, scan.tables, store, cid);
    hide Store.Safe, ReadAt, DeleteItem, VertexGoes, Replay, AnyLocks, Goes;
    ItemSettles(d, scan, true, store, cid);
    DeleteItemSafeExactly(d, scan, true, store);
    if DeleteItem(d, scan, true, store).value.Safe() { SafeIsNotDangling(DeleteItem(d, scan, true, store).value); }
    forall e ensures !EdgeGoes(e, id, scan.tables, store, cid) {
      NoEdgeGoes(e, id, scan.tables, store, cid);
    }
  }

  lemma NoEdgeGoes(e: GraphId, v: GraphId, tables: seq<seq<Tuple>>, store: Store, cid: nat)
    requires !AnyLocks(Concat(tables), v, store, cid + 1)
    ensures !EdgeGoes(e, v, tables, store, cid)
  {}

  lemma NothingLocks(id: GraphId, props: Props, scan: Scan, store: Store, cid: nat)
    requires store.Safe() && ReadAt(scan, VertexDatum(id, props), true, store, cid)
    requires id in store.g.vertices && !store.WrittenSince(true, id, cid)
    requires forall e | e in store.g.edges && Touches(store.g.edges[e], id) :: store.WrittenNow(false, e)
    ensures !AnyLocks(Concat(scan.tables), id, store, cid + 1)
  {
    SafeIsConsistent(store);
    UnwrittenIsSeen(store, true, id, cid);
    hide Store.Safe, Store.Consistent, LocksRead, Replay;
    var table := Concat(scan.tables);
    forall i | 0 <= i < |table| && TouchesTuple(table[i], id) ensures !EdgeLocks(store, table[i].id, cid + 1) {
      if EdgeLocks(store, table[i].id, cid + 1) { UnwrittenIsSeen(store, false, table[i].id, cid + 1); }
    }
  }
}
