/** Main results about SET: what is accepted, what is stored, how often it is written, and what stays as it was. */
module SetTheorems {
  import opened Results
  import opened PropertyGraph
  import opened GraphStore
  import opened PathWriter
  import opened SetClause

  /** The edges in the row have the endpoints they have in the store. */
  ghost predicate RowShows(row: Row, g: Graph) {
    forall i | 0 <= i < |row| && row[i].EdgeDatum? && row[i].id in g.edges ::
      row[i].edge.start == g.edges[row[i].id].start && row[i].edge.end == g.edges[row[i].id].end
  }

  function Stored(g: Graph, d: Datum): Option<Props>
    requires IsEntity(d)
  {
    if !Live(d, g) then None
    else if d.VertexDatum? then Some(g.vertices[d.id]) else Some(g.edges[d.id].props)
  }

  /** How often the entity's tuple is written. */
  function TimesWritten(ws: seq<Write>, d: Datum): nat
    requires IsEntity(d)
  {
    if ws == [] then 0
    else
      var w := ws[|ws| - 1];
      TimesWritten(ws[..|ws| - 1], d) +
      if (if d.VertexDatum? then w.UpdateVertex? else w.UpdateEdge?) && w.id == d.id then 1 else 0
  }

  /** The writes that made `next` out of `store`. */
  function WritesSince(store: Store, next: Store): seq<Write> {
    if |store.writes| <= |next.writes| then next.writes[|store.writes|..] else []
  }

  lemma TimesWrittenMore(ws: seq<Write>, e: Datum, d: Datum)
    requires IsEntity(d) && IsEntity(e)
    ensures TimesWritten(ws + [WriteOf(e)], d) == TimesWritten(ws, d) + if SameTuple(d, e) then 1 else 0
  {
    assert (ws + [WriteOf(e)])[..|ws|] == ws;
  }

  lemma {:induction false} TimesWrittenAppend(a: seq<Write>, b: seq<Write>, d: Datum)
    requires IsEntity(d)
    ensures TimesWritten(a + b, d) == TimesWritten(a, d) + TimesWritten(b, d)
  {
    if b == [] {
      assert a + b == a;
    } else {
      TimesWrittenAppend(a, b[..|b| - 1], d);
      assert (a + b)[..|a + b| - 1] == a + b[..|b| - 1];
    }
  }

  lemma NeverWritten(d: Datum)
    requires IsEntity(d)
    ensures TimesWritten([], d) == 0
  {}

  lemma StoredAfterWrite(g: Graph, e: Datum, d: Datum)
    requires IsEntity(d) && IsEntity(e) && Live(e, g)
    ensures Stored(Apply(g, WriteOf(e)), d) == if SameTuple(d, e) then Some(PropsOf(e)) else Stored(g, d)
  {}

  lemma {:induction false} FoldStops(items: seq<SetItem>, n: nat, p: nat, row: Row)
    requires ItemsFit(items, row) && 0 < p <= |row| && Targeted(items, p) && LastIndex(items, p) < n <= |items|
    ensures FoldTo(items, n, p, row) == FoldTo(items, |items|, p, row)
    decreases |items| - n
  {
    if n < |items| {
      FoldStops(items, n + 1, p, row);
    }
  }

  // ---------------------------------------------------------------- the writes of one row

  /** What the command finds and has not written is live. */
  lemma FoundIsLive(d: Datum, store: Store)
    requires IsEntity(d) && store.Consistent() && Found(d, store) && !Written(d, store)
    ensures Live(d, store.g)
  {
    UnwrittenSince(store, store.finished, d.VertexDatum?, d.id);
  }

  lemma {:induction false} WritesKeepKeys(items: seq<SetItem>, n: nat, row: Row, store: Store)
    requires n <= |items| && ItemsFit(items, row) && store.Consistent()
    ensures SameKeys(store.g, Replay(store.g, Writes(items, n, row, store)))
  {
    hide Replay, Apply, FoldTo, LastIndex, Nulls, Attempted, Found, Written, Store.Consistent;
    if n == 0 {
      ReplayNone(store.g);
    } else {
      WritesKeepKeys(items, n - 1, row, store);
      if WritesAt(items, n - 1, row, store) {
        WriteIsLive(items, n - 1, row, store);
      } else {
        assert Writes(items, n, row, store) == Writes(items, n - 1, row, store);
      }
    }
  }

  /** The tuple that item k writes is there, and the write keeps the tables' keys. */
  lemma WriteIsLive(items: seq<SetItem>, k: nat, row: Row, store: Store)
    requires k < |items| && ItemsFit(items, row) && store.Consistent() && WritesAt(items, k, row, store)
    requires SameKeys(store.g, Replay(store.g, Writes(items, k, row, store)))
    ensures var g, e := Replay(store.g, Writes(items, k, row, store)), HeldAt(items, k, row);
            && IsEntity(e) && Live(e, g) && SameTuple(EntityAt(items, k, row), e)
            && Writes(items, k + 1, row, store) == Writes(items, k, row, store) + [WriteOf(e)]
            && Replay(store.g, Writes(items, k + 1, row, store)) == Apply(g, WriteOf(e))
            && SameKeys(store.g, Apply(g, WriteOf(e)))
  {
    hide Replay, Apply, FoldTo, LastIndex, Nulls, Attempted, Found, Written, Store.Consistent;
    var e := HeldAt(items, k, row);
    FoundIsLive(EntityAt(items, k, row), store);
    var g := Replay(store.g, Writes(items, k, row, store));
    assert Live(e, g);
    ReplayMore(store.g, Writes(items, k, row, store), WriteOf(e));
    WriteKeepsKeys(g, e);
  }

  /** Item k, one of the first n, has written the tuple of `d`. */
  predicate WritesTuple(items: seq<SetItem>, k: int, n: nat, row: Row, store: Store, d: Datum)
    requires n <= |items| && ItemsFit(items, row) && IsEntity(d)
  {
    0 <= k < n && WritesAt(items, k, row, store) && SameTuple(EntityAt(items, k, row), d)
  }

  /** A second item that looks for the tuple never writes. */
  lemma LaterDoesNotWrite(items: seq<SetItem>, j: nat, k: nat, row: Row, store: Store)
    requires j < k < |items| && ItemsFit(items, row) && Attempts(items, j, row)
    requires IsEntity(EntityAt(items, k, row)) && SameTuple(EntityAt(items, j, row), EntityAt(items, k, row))
    ensures !WritesAt(items, k, row, store)
  {
    hide Attempts, Found, Written;
    assert Attempted(items, k, row, EntityAt(items, k, row));
  }

  lemma WritesTupleOnce(items: seq<SetItem>, j: int, k: int, n: nat, row: Row, store: Store, d: Datum)
    requires n <= |items| && ItemsFit(items, row) && IsEntity(d)
    requires WritesTuple(items, j, n, row, store, d) && WritesTuple(items, k, n, row, store, d)
    ensures j == k
  {
    hide Found, Written, Attempted;
    if j < k { LaterDoesNotWrite(items, j, k, row, store); }
    if k < j { LaterDoesNotWrite(items, k, j, row, store); }
  }

  /**
   * Any tuple: the item that writes it, if there is one, is the only one, and leaves the fold of the items
   * so far; otherwise the tuple is not written and stays as it was.
   */
  lemma {:induction false} TupleStored(items: seq<SetItem>, n: nat, row: Row, store: Store, d: Datum)
    requires n <= |items| && ItemsFit(items, row) && store.Consistent() && IsEntity(d)
    ensures var ws := Writes(items, n, row, store);
            && (forall k | WritesTuple(items, k, n, row, store, d) ::
                  Stored(Replay(store.g, ws), d) == Some(PropsOf(HeldAt(items, k, row))) && TimesWritten(ws, d) == 1)
            && ((forall k :: !WritesTuple(items, k, n, row, store, d)) ==>
                  Stored(Replay(store.g, ws), d) == Stored(store.g, d) && TimesWritten(ws, d) == 0)
  {
    hide Replay, Apply, FoldTo, HeldAt, LastIndex, Nulls, TimesWritten, Stored, Attempted, Attempts, Found, Written, Store.Consistent, Writes;
    if n == 0 {
      NoWritesYet(items, row, store, d);
    } else {
      var m := n - 1;
      TupleStored(items, m, row, store, d);
      WritesKeepKeys(items, m, row, store);
      assert forall k :: WritesTuple(items, k, n, row, store, d) <==>
        WritesTuple(items, k, m, row, store, d) || (k == m && WritesTuple(items, m, n, row, store, d));
      if WritesAt(items, m, row, store) {
        WriteIsLive(items, m, row, store);
        var e := HeldAt(items, m, row);
        StoredAfterWrite(Replay(store.g, Writes(items, m, row, store)), e, d);
        TimesWrittenMore(Writes(items, m, row, store), e, d);
        if SameTuple(e, d) {
          assert WritesTuple(items, m, n, row, store, d);
          forall k ensures !WritesTuple(items, k, m, row, store, d) {
            if WritesTuple(items, k, m, row, store, d) { WritesTupleOnce(items, k, m, n, row, store, d); }
          }
        }
      } else {
        SameWrites(items, m, row, store);
      }
    }
  }

  lemma SameWrites(items: seq<SetItem>, k: nat, row: Row, store: Store)
    requires k < |items| && ItemsFit(items, row) && !WritesAt(items, k, row, store)
    ensures Writes(items, k + 1, row, store) == Writes(items, k, row, store)
  {
    assert Writes(items, k, row, store) + [] == Writes(items, k, row, store);
  }

  lemma NoWritesYet(items: seq<SetItem>, row: Row, store: Store, d: Datum)
    requires ItemsFit(items, row) && IsEntity(d)
    ensures var ws := Writes(items, 0, row, store);
            ws == [] && Replay(store.g, ws) == store.g && TimesWritten(ws, d) == 0
  {}

  // ---------------------------------------------------------------- safety

  ghost predicate SameEnds(g: Graph, h: Graph) {
    SameKeys(g, h) && forall e | e in g.edges :: h.edges[e].start == g.edges[e].start && h.edges[e].end == g.edges[e].end
  }

  lemma SameEndsKeepDangling(g: Graph, h: Graph)
    requires SameEnds(g, h)
    ensures NoDangling(g) <==> NoDangling(h)
    ensures forall row :: RowShows(row, g) ==> RowShows(row, h)
  {
    assert forall e :: e in g.edges <==> e in h.edges;
    assert forall v :: v in g.vertices <==> v in h.vertices;
  }

  lemma SameEndsTransitive(g: Graph, h: Graph, i: Graph)
    requires SameEnds(g, h) && SameEnds(h, i)
    ensures SameEnds(g, i)
  {
    assert forall e :: e in g.edges <==> e in h.edges;
  }

  lemma SameEndsReflexive(g: Graph)
    ensures SameEnds(g, g)
  {}

  /** Writing an entity of the row moves no edge and leaves the store safe. */
  lemma RewriteIsSafe(store: Store, d: Datum, outputCid: nat)
    requires store.Safe() && IsEntity(d) && Rewrite(store, d, outputCid).Ok?
    requires d.EdgeDatum? && d.id in store.g.edges ==>
      d.edge.start == store.g.edges[d.id].start && d.edge.end == store.g.edges[d.id].end
    ensures var next := Rewrite(store, d, outputCid).value;
            next.Safe() && SameEnds(store.g, next.g) && next.start == store.start
  {
    if Found(d, store) && !Written(d, store) {
      SafeIsNotDangling(store);
      FoundIsLive(d, store);
      SameEndsKeepDangling(store.g, Apply(store.g, WriteOf(d)));
      hide Found, Written, Replay, NeverUsed;
      DoKeepsSafe(store, WriteOf(d));
    }
  }

  lemma OneItemIsSafe(items: seq<SetItem>, k: nat, row: Row, s: Progress, outputCid: nat)
    requires k < |items| && ItemFits(items[k], s.slot) && OneItem(items, k, s, outputCid).Ok?
    requires SamePlain(row, s.slot) && RowShows(row, s.store.g) && s.store.Safe()
    ensures var t := OneItem(items, k, s, outputCid).value;
            t.store.Safe() && SameEnds(s.store.g, t.store.g) && t.store.start == s.store.start
  {
    hide Store.Safe, LastIndex, Rewrite, Alter;
    var i := items[k].entityPos - 1;
    var d := s.slot[i];
    if IsEntity(d) {
      assert SameEntity(row[i], d);
      var e := WithProps(d, Alter(PropsOf(d), items[k], s.slot));
      if Rewrite(s.store, e, outputCid).Ok? { RewriteIsSafe(s.store, e, outputCid); }
    }
  }

  lemma AfterNone(items: seq<SetItem>, row: Row, store: Store, outputCid: nat)
    requires ItemsFit(items, row)
    ensures After(items, 0, row, store, outputCid) == Ok(Progress(0, row, store))
  {}

  /** One row keeps the store safe, at every write, and moves no edge. */
  lemma {:induction false} AfterIsSafe(items: seq<SetItem>, n: nat, row: Row, store: Store, outputCid: nat)
    requires n <= |items| && ItemsFit(items, row) && store.Safe() && RowShows(row, store.g)
    requires After(items, n, row, store, outputCid).Ok?
    ensures var s := After(items, n, row, store, outputCid).value;
            s.store.Safe() && SameEnds(store.g, s.store.g) && s.store.start == store.start
  {
    hide *;
    if n == 0 {
      AfterNone(items, row, store, outputCid);
      SameEndsReflexive(store.g);
    } else {
      AfterPrefix(items, n - 1, row, store, outputCid);
      AfterNext(items, n - 1, row, store, outputCid);
      AfterIsSafe(items, n - 1, row, store, outputCid);
      var past := After(items, n - 1, row, store, outputCid).value;
      SameEndsKeepDangling(store.g, past.store.g);
      OneItemIsSafe(items, n - 1, row, past, outputCid);
      SameEndsTransitive(store.g, past.store.g, OneItem(items, n - 1, past, outputCid).value.store.g);
    }
  }

  // ---------------------------------------------------------------- one row

  /** A target: an attribute with an entity that some item changes, whose tuple the command's scans find. */
  ghost predicate LiveTarget(items: seq<SetItem>, p: nat, row: Row, store: Store) {
    IsTarget(items, p, row) && Found(row[p - 1], store)
  }

  /** No item with a null entity comes before the target's last item. */
  ghost predicate ReachedTarget(items: seq<SetItem>, p: nat, row: Row)
    requires ItemsFit(items, row) && Targeted(items, p)
  {
    forall k | 0 <= k < LastIndex(items, p) :: !row[items[k].entityPos - 1].NullDatum?
  }

  lemma TargetAttempts(items: seq<SetItem>, p: nat, row: Row)
    requires ItemsFit(items, row) && IsTarget(items, p, row)
    ensures var k := LastIndex(items, p);
            && k < |items| && EntityAt(items, k, row) == row[p - 1] && items[k].entityPos == p
            && (Attempts(items, k, row) <==> ReachedTarget(items, p, row))
  {
    hide FoldTo;
    var k := LastIndex(items, p);
    assert Nulls(items, k, row) == 0 <==> ReachedTarget(items, p, row);
  }

  /** An item that looks for its tuple is the last one of a reached target. */
  lemma AttemptIsTarget(items: seq<SetItem>, k: nat, row: Row)
    requires k < |items| && ItemsFit(items, row) && Attempts(items, k, row)
    ensures var p := items[k].entityPos;
            && IsTarget(items, p, row) && LastIndex(items, p) == k && EntityAt(items, k, row) == row[p - 1]
            && ReachedTarget(items, p, row)
  {
    assert ItemFits(items[k], row);
    assert Targeted(items, items[k].entityPos);
    TargetAttempts(items, items[k].entityPos, row);
  }

  /** The target's tuple has been written by this command, or another reached target is the same tuple. */
  ghost predicate Clashes(items: seq<SetItem>, p: nat, row: Row, store: Store)
    requires ItemsFit(items, row) && IsTarget(items, p, row)
  {
    || Written(row[p - 1], store)
    || exists q :: q != p && IsTarget(items, q, row) && ReachedTarget(items, q, row) && SameTuple(row[q - 1], row[p - 1])
  }

  lemma ConflictClashes(items: seq<SetItem>, k: nat, row: Row, store: Store)
    requires k < |items| && ItemsFit(items, row) && Conflicts(items, k, row, store)
    ensures var p := items[k].entityPos;
            LiveTarget(items, p, row, store) && ReachedTarget(items, p, row) && Clashes(items, p, row, store)
  {
    hide LastIndex, Nulls, Found, Written, ReachedTarget;
    AttemptIsTarget(items, k, row);
    var p, d := items[k].entityPos, EntityAt(items, k, row);
    if !Written(d, store) {
      var j :| 0 <= j < k && Attempts(items, j, row) && SameTuple(EntityAt(items, j, row), d);
      AttemptIsTarget(items, j, row);
      assert items[j].entityPos != p;
    }
  }

  /** A reached target that clashes leads to a conflict, at its own last item or at the other's. */
  lemma ClashConflicts(items: seq<SetItem>, p: nat, row: Row, store: Store) returns (k: nat)
    requires ItemsFit(items, row) && LiveTarget(items, p, row, store) && ReachedTarget(items, p, row) && Clashes(items, p, row, store)
    ensures k < |items| && Conflicts(items, k, row, store)
  {
    hide LastIndex, Nulls, Attempts, ReachedTarget, Found, Written;
    TargetAttempts(items, p, row);
    k := LastIndex(items, p);
    if !Written(row[p - 1], store) {
      var q :| q != p && IsTarget(items, q, row) && ReachedTarget(items, q, row) && SameTuple(row[q - 1], row[p - 1]);
      TargetAttempts(items, q, row);
      var l := LastIndex(items, q);
      assert k != l;
      SamePlace(row[q - 1], row[p - 1], store);
      if l < k {
        assert Attempted(items, k, row, EntityAt(items, k, row));
      } else {
        assert Attempted(items, l, row, EntityAt(items, l, row));
        k := l;
      }
    }
  }

  /**
   * A row is accepted exactly when each item is for a null, a vertex or an edge, and, unless the command
   * id is the output command id, no reached live target has been written by this command before or
   * shares its tuple with another reached target.
   */
  lemma RowAcceptedExactly(items: seq<SetItem>, row: Row, store: Store, outputCid: nat)
    requires ItemsFit(items, row) && store.finished <= |store.writes|
    ensures SetRow(items, row, store, outputCid).Ok? <==>
      && (forall k | 0 <= k < |items| :: !Refused(items, k, row))
      && (store.command == outputCid ||
          forall p | LiveTarget(items, p, row, store) && ReachedTarget(items, p, row) :: !Clashes(items, p, row, store))
  {
    hide LastIndex, Nulls, Attempts, ReachedTarget, Found, Written, Clashes, Conflicts, Refused, After;
    AfterAccepted(items, |items|, row, store, outputCid);
    assert SetRow(items, row, store, outputCid).Ok? <==> NoneFails(items, |items|, row, store, outputCid);
    if NoneFails(items, |items|, row, store, outputCid) {
      forall k | 0 <= k < |items| ensures !Refused(items, k, row) {
        assert !Fails(items, k, row, store, outputCid);
      }
      forall p | LiveTarget(items, p, row, store) && ReachedTarget(items, p, row)
        ensures store.command == outputCid || !Clashes(items, p, row, store)
      {
        if Clashes(items, p, row, store) {
          var k := ClashConflicts(items, p, row, store);
          assert !Fails(items, k, row, store, outputCid);
        }
      }
    }
    forall k | 0 <= k < |items| && Fails(items, k, row, store, outputCid)
      ensures Refused(items, k, row) || (store.command != outputCid &&
        exists p :: LiveTarget(items, p, row, store) && ReachedTarget(items, p, row) && Clashes(items, p, row, store))
    {
      if Conflicts(items, k, row, store) { ConflictClashes(items, k, row, store); }
    }
  }

  /** The stored properties are the ordered fold of all items of item k's attribute. */
  ghost predicate HoldsFoldOf(items: seq<SetItem>, k: int, row: Row, g: Graph, d: Datum)
    requires ItemsFit(items, row) && IsEntity(d)
  {
    && 0 <= k < |items| && 0 < items[k].entityPos <= |row|
    && var e := FoldTo(items, |items|, items[k].entityPos, row);
    IsEntity(e) && Stored(g, d) == Some(PropsOf(e))
  }

  /** The stored properties are those that the row shows of item k's attribute, changed key by key as its last items say. */
  ghost predicate HoldsLastItems(items: seq<SetItem>, k: int, row: Row, g: Graph, d: Datum)
    requires ItemsFit(items, row) && IsEntity(d)
  {
    && 0 <= k < |items| && 0 < items[k].entityPos <= |row|
    && var p := items[k].entityPos;
    && IsEntity(row[p - 1]) && SameTuple(row[p - 1], d)
    && Stored(g, d).Some? && LastItemWins(items, |items|, p, row, PropsOf(row[p - 1]), Stored(g, d).value)
  }

  /** The row that is passed on shows every entity so changed, and everything else as it came. */
  ghost predicate ShowsLastItems(items: seq<SetItem>, row: Row, slot: Row)
    requires ItemsFit(items, row)
  {
    && |slot| == |row|
    && forall i | 0 <= i < |row| ::
         if IsEntity(row[i]) then
           SameEntity(row[i], slot[i]) && LastItemWins(items, |items|, i + 1, row, PropsOf(row[i]), PropsOf(slot[i]))
         else slot[i] == row[i]
  }

  lemma FoldsAreLastItems(items: seq<SetItem>, row: Row, slot: Row)
    requires ItemsFit(items, row) && |slot| == |row| && forall i | 0 <= i < |row| :: slot[i] == FoldTo(items, |items|, i + 1, row)
    ensures ShowsLastItems(items, row, slot)
  {
    hide LastItemWins;
    forall i | 0 <= i < |row| && IsEntity(row[i]) ensures LastItemWins(items, |items|, i + 1, row, PropsOf(row[i]), PropsOf(slot[i])) {
      FoldIsLastItem(items, |items|, i + 1, row);
    }
  }

  lemma StoredIsLastItems(items: seq<SetItem>, k: int, row: Row, store: Store, g: Graph, d: Datum)
    requires ItemsFit(items, row) && IsEntity(d) && WritesTuple(items, k, |items|, row, store, d) && HoldsFoldOf(items, k, row, g, d)
    ensures HoldsLastItems(items, k, row, g, d)
  {
    hide LastItemWins, FoldTo;
    AttemptIsTarget(items, k, row);
    FoldIsLastItem(items, |items|, items[k].entityPos, row);
  }

  /**
   * One row, whatever it holds. The tuple of an item that writes is written once and holds the ordered fold
   * of all items of that attribute, so that for each key the last item decides and other keys stay as the row
   * had them; no other tuple is written or changed; no entity appears, vanishes or moves; and the row that
   * is passed on shows the same.
   */
  lemma SetRowIs(items: seq<SetItem>, row: Row, store: Store, outputCid: nat)
    requires ItemsFit(items, row) && RowShows(row, store.g) && store.Safe()
    requires SetRow(items, row, store, outputCid).Ok?
    ensures var (slot, next) := SetRow(items, row, store, outputCid).value;
            && next.Safe() && next.start == store.start && SameEnds(store.g, next.g) && store.writes <= next.writes
            && (forall k, d | IsEntity(d) && WritesTuple(items, k, |items|, row, store, d) ::
                  && HoldsLastItems(items, k, row, next.g, d) && HoldsFoldOf(items, k, row, next.g, d)
                  && TimesWritten(WritesSince(store, next), d) == 1)
            && (forall d | IsEntity(d) && (forall k :: !WritesTuple(items, k, |items|, row, store, d)) ::
                  Stored(next.g, d) == Stored(store.g, d) && TimesWritten(WritesSince(store, next), d) == 0)
            && ShowsLastItems(items, row, slot) && forall i | 0 <= i < |row| :: slot[i] == FoldTo(items, |items|, i + 1, row)
  {
    var n := |items|;
    var (slot, next) := SetRow(items, row, store, outputCid).value;
    SetRowWrites(items, row, store, outputCid);
    hide Replay, FoldTo, HeldAt, Stored, TimesWritten, Writes, SetRow, SameEnds, Store.Safe, Store.Consistent, WritesAt, LastItemWins, HoldsLastItems,
         ShowsLastItems;
    FoldsAreLastItems(items, row, slot);
    var ws := Writes(items, n, row, store);
    forall k, d | IsEntity(d) && WritesTuple(items, k, n, row, store, d)
      ensures HoldsLastItems(items, k, row, next.g, d) && HoldsFoldOf(items, k, row, next.g, d) && TimesWritten(ws, d) == 1
    {
      TupleStored(items, n, row, store, d);
      WriterHolds(items, k, row, store, d);
      StoredIsLastItems(items, k, row, store, next.g, d);
    }
    forall d | IsEntity(d) && (forall k :: !WritesTuple(items, k, n, row, store, d))
      ensures Stored(next.g, d) == Stored(store.g, d) && TimesWritten(ws, d) == 0
    {
      TupleStored(items, n, row, store, d);
    }
  }

  lemma SetRowWrites(items: seq<SetItem>, row: Row, store: Store, outputCid: nat)
    requires ItemsFit(items, row) && RowShows(row, store.g) && store.Safe()
    requires SetRow(items, row, store, outputCid).Ok?
    ensures var (slot, next) := SetRow(items, row, store, outputCid).value;
            var ws := Writes(items, |items|, row, store);
            && store.Consistent()
            && next.Safe() && next.start == store.start && SameEnds(store.g, next.g) && store.writes <= next.writes
            && WritesSince(store, next) == ws && next.g == Replay(store.g, ws)
            && |slot| == |row| && forall i | 0 <= i < |row| :: slot[i] == FoldTo(items, |items|, i + 1, row)
  {
    hide Replay, FoldTo, SameEnds, KnowsWritten;
    AfterIs(items, |items|, row, store, outputCid);
    AfterIsSafe(items, |items|, row, store, outputCid);
    var ws := Writes(items, |items|, row, store);
    assert (store.writes + ws)[|store.writes|..] == ws;
  }

  /** The item that writes a tuple is the last one of its attribute, and holds the fold of all of them. */
  lemma WriterHolds(items: seq<SetItem>, k: int, row: Row, store: Store, d: Datum)
    requires ItemsFit(items, row) && IsEntity(d) && WritesTuple(items, k, |items|, row, store, d)
    ensures 0 <= k < |items| && 0 < items[k].entityPos <= |row|
    ensures IsEntity(HeldAt(items, k, row)) && HeldAt(items, k, row) == FoldTo(items, |items|, items[k].entityPos, row)
  {
    AttemptIsTarget(items, k, row);
    HeldIsFold(items, k, row);
  }

  /** At its last item a target holds the fold of all its items. */
  lemma HeldIsFold(items: seq<SetItem>, k: nat, row: Row)
    requires k < |items| && ItemsFit(items, row) && Attempts(items, k, row)
    ensures HeldAt(items, k, row) == FoldTo(items, |items|, items[k].entityPos, row)
  {
    hide Nulls;
    assert ItemFits(items[k], row);
    assert Targeted(items, items[k].entityPos);
    FoldStops(items, k + 1, items[k].entityPos, row);
  }

  /**
   * Every live target gets its own fold stored, at its last item, if and only if no item with a null
   * entity precedes the last item of one, none has been written by this command before, and no two
   * are the same tuple.
   */
  lemma EachWrittenOnceExactly(items: seq<SetItem>, row: Row, store: Store)
    requires ItemsFit(items, row)
    ensures (forall p | LiveTarget(items, p, row, store) :: WritesAt(items, LastIndex(items, p), row, store)) <==>
      && (forall p | LiveTarget(items, p, row, store) :: ReachedTarget(items, p, row) && !Written(row[p - 1], store))
      && (forall p, q | LiveTarget(items, p, row, store) && LiveTarget(items, q, row, store) && p != q ::
            !SameTuple(row[p - 1], row[q - 1]))
  {
    hide Nulls, Attempts, Found, Written;
    forall p | IsTarget(items, p, row)
      ensures LastIndex(items, p) < |items| && EntityAt(items, LastIndex(items, p), row) == row[p - 1]
      ensures Attempts(items, LastIndex(items, p), row) <==> ReachedTarget(items, p, row)
    {
      TargetAttempts(items, p, row);
    }
    if forall p | LiveTarget(items, p, row, store) :: WritesAt(items, LastIndex(items, p), row, store) {
      forall p, q | LiveTarget(items, p, row, store) && LiveTarget(items, q, row, store) && p != q
        ensures !SameTuple(row[p - 1], row[q - 1])
      {
        TwoTargets(items, p, q, row, store);
        TwoTargets(items, q, p, row, store);
      }
    }
    if && (forall p | LiveTarget(items, p, row, store) :: ReachedTarget(items, p, row) && !Written(row[p - 1], store))
       && (forall p, q | LiveTarget(items, p, row, store) && LiveTarget(items, q, row, store) && p != q ::
             !SameTuple(row[p - 1], row[q - 1]))
    {
      forall p | LiveTarget(items, p, row, store) ensures WritesAt(items, LastIndex(items, p), row, store) {
        OnlyTarget(items, p, row, store);
      }
    }
  }

  /** Of two targets with one tuple, the one with the later last item does not write. */
  lemma TwoTargets(items: seq<SetItem>, p: nat, q: nat, row: Row, store: Store)
    requires ItemsFit(items, row) && IsTarget(items, p, row) && IsTarget(items, q, row)
    requires LastIndex(items, p) < LastIndex(items, q) && SameTuple(row[p - 1], row[q - 1]) ==> Attempts(items, LastIndex(items, p), row)
    ensures LastIndex(items, p) < LastIndex(items, q) && SameTuple(row[p - 1], row[q - 1]) ==>
      !WritesAt(items, LastIndex(items, q), row, store)
    ensures p != q ==> LastIndex(items, p) != LastIndex(items, q)
  {
    TargetAttempts(items, p, row);
    TargetAttempts(items, q, row);
    if LastIndex(items, p) < LastIndex(items, q) && SameTuple(row[p - 1], row[q - 1]) {
      LaterDoesNotWrite(items, LastIndex(items, p), LastIndex(items, q), row, store);
    }
  }

  lemma OnlyTarget(items: seq<SetItem>, p: nat, row: Row, store: Store)
    requires ItemsFit(items, row) && LiveTarget(items, p, row, store) && ReachedTarget(items, p, row) && !Written(row[p - 1], store)
    requires forall q | LiveTarget(items, q, row, store) && q != p :: !SameTuple(row[p - 1], row[q - 1])
    ensures WritesAt(items, LastIndex(items, p), row, store)
  {
    hide Nulls, Written, Found, LastIndex, ReachedTarget;
    TargetAttempts(items, p, row);
    var k := LastIndex(items, p);
    forall j | 0 <= j < k && Attempts(items, j, row) ensures !SameTuple(EntityAt(items, j, row), row[p - 1]) {
      AttemptIsTarget(items, j, row);
      var q := items[j].entityPos;
      assert q != p;
      SamePlace(row[q - 1], row[p - 1], store);
      assert SameTuple(row[q - 1], row[p - 1]) ==> LiveTarget(items, q, row, store);
    }
  }

  /** When two reached live targets are the same tuple, the later one's items never reach the table. */
  lemma SharedTuple(items: seq<SetItem>, p: nat, q: nat, row: Row, store: Store, outputCid: nat)
    requires ItemsFit(items, row) && store.finished <= |store.writes| && p != q
    requires LiveTarget(items, p, row, store) && LiveTarget(items, q, row, store) && SameTuple(row[p - 1], row[q - 1])
    requires ReachedTarget(items, p, row) && ReachedTarget(items, q, row) && LastIndex(items, p) <= LastIndex(items, q)
    ensures store.command != outputCid ==> SetRow(items, row, store, outputCid).Err?
    ensures !WritesAt(items, LastIndex(items, q), row, store)
  {
    RowAcceptedExactly(items, row, store, outputCid);
    assert Clashes(items, p, row, store);
    TargetAttempts(items, p, row);
    TwoTargets(items, p, q, row, store);
  }

  /**
   * In `SET n.k = 1, m.k = 1` with n null, m is not written: n's item does not advance the loop index,
   * so m's last item is never recognised as such. The row shows the new value all the same.
   */
  lemma NullEntityHidesUpdate(id: GraphId, props: Props, store: Store, key: string, outputCid: nat)
    requires store.Safe() && id in store.g.vertices && store.g.vertices[id] == props
    ensures var row := [NullDatum, VertexDatum(id, props), ValueDatum(Num(1))];
            var items := [SetItem(1, 3, key, false), SetItem(2, 3, key, false)];
            && ItemsFit(items, row) && SetRow(items, row, store, outputCid).Ok?
            && SetRow(items, row, store, outputCid).value == (row[1 := VertexDatum(id, props[key := Num(1)])], store)
  {
    var row := [NullDatum, VertexDatum(id, props), ValueDatum(Num(1))];
    var items := [SetItem(1, 3, key, false), SetItem(2, 3, key, false)];
    assert After(items, 0, row, store, outputCid) == Ok(Progress(0, row, store));
    assert After(items, 1, row, store, outputCid) == Ok(Progress(0, row, store));
    assert items[0].entityPos == 1 && items[1].entityPos == 2;
    assert LastIndex(items, 2) == 1;
  }

  // ---------------------------------------------------------------- all rows of a terminal clause

  ghost predicate RowsFit(items: seq<SetItem>, rows: seq<Row>) {
    forall i | 0 <= i < |rows| :: ItemsFit(items, rows[i])
  }

  ghost predicate RowsShow(rows: seq<Row>, g: Graph) {
    forall i | 0 <= i < |rows| :: RowShows(rows[i], g)
  }

  /** The rows behind the first one, after it. */
  lemma RestOfRows(items: seq<SetItem>, rows: seq<Row>, g: Graph, h: Graph)
    requires rows != [] && RowsFit(items, rows) && RowsShow(rows, g) && SameEnds(g, h)
    ensures ItemsFit(items, rows[0]) && RowShows(rows[0], g) && RowsFit(items, rows[1..]) && RowsShow(rows[1..], h)
  {
    hide SameEnds, RowShows;
    SameEndsKeepDangling(g, h);
  }

  /** A terminal SET handles all rows of the previous clause in one command. */
  function SetRows(items: seq<SetItem>, rows: seq<Row>, store: Store, outputCid: nat): Result<Store>
    requires RowsFit(items, rows)
  {
    if rows == [] then Ok(store) else
    var first :- SetRow(items, rows[0], store, outputCid);
    SetRows(items, rows[1..], first.1, outputCid)
  }

  /** Over all rows no entity appears or vanishes, no edge moves, and no write leaves a dangling edge. */
  lemma {:induction false} SetRowsAreSafe(items: seq<SetItem>, rows: seq<Row>, store: Store, outputCid: nat)
    requires RowsFit(items, rows) && SetRows(items, rows, store, outputCid).Ok?
    requires store.Safe() && RowsShow(rows, store.g)
    ensures var done := SetRows(items, rows, store, outputCid).value;
            done.Safe() && done.start == store.start && SameEnds(store.g, done.g)
  {
    if rows == [] {
      SameEndsReflexive(store.g);
    } else {
      hide Store.Safe, SameEnds, After;
      AfterIsSafe(items, |items|, rows[0], store, outputCid);
      var next := SetRow(items, rows[0], store, outputCid).value.1;
      RestOfRows(items, rows, store.g, next.g);
      SetRowsAreSafe(items, rows[1..], next, outputCid);
      SameEndsTransitive(store.g, next.g, SetRows(items, rows, store, outputCid).value.g);
    }
  }

  /** An earlier row has looked for the tuple. */
  predicate AttemptedInRows(items: seq<SetItem>, rows: seq<Row>, m: nat, d: Datum)
    requires RowsFit(items, rows) && m <= |rows| && IsEntity(d)
  {
    exists j | 0 <= j < m :: Attempted(items, |items|, rows[j], d)
  }

  /** Item k of row i finds a tuple that this command has written, in whichever row. */
  predicate ConflictsInRows(items: seq<SetItem>, rows: seq<Row>, i: nat, k: nat, store: Store)
    requires RowsFit(items, rows) && i < |rows| && k < |items|
  {
    var d := EntityAt(items, k, rows[i]);
    Attempts(items, k, rows[i]) && Found(d, store)
    && (Written(d, store) || AttemptedInRows(items, rows, i, d) || Attempted(items, k, rows[i], d))
  }

  ghost predicate RowFails(items: seq<SetItem>, rows: seq<Row>, i: int, k: int, store: Store, outputCid: nat)
    requires RowsFit(items, rows)
  {
    && 0 <= i < |rows| && 0 <= k < |items|
    && (Refused(items, k, rows[i]) || (ConflictsInRows(items, rows, i, k, store) && store.command != outputCid))
  }

  /** After the first row: what later rows find is the same, what has been written is more. */
  lemma AfterFirstRow(items: seq<SetItem>, row: Row, store: Store, outputCid: nat)
    requires ItemsFit(items, row) && store.finished <= |store.writes| && SetRow(items, row, store, outputCid).Ok?
    ensures var next := SetRow(items, row, store, outputCid).value.1;
            && next.finished <= |next.writes| && next.command == store.command
            && (forall d | IsEntity(d) :: Found(d, next) == Found(d, store))
            && (forall d | IsEntity(d) ::
                  Written(d, next) <==> Written(d, store) || (Found(d, store) && Attempted(items, |items|, row, d)))
  {
    AfterIs(items, |items|, row, store, outputCid);
    FoundStill(items, |items|, row, store, SetRow(items, row, store, outputCid).value.1);
  }

  lemma AttemptedInRest(items: seq<SetItem>, rows: seq<Row>, m: nat, d: Datum)
    requires RowsFit(items, rows) && 0 < m <= |rows| && IsEntity(d)
    ensures AttemptedInRows(items, rows, m, d) <==>
      Attempted(items, |items|, rows[0], d) || AttemptedInRows(items, rows[1..], m - 1, d)
  {
    hide Attempted;
    var rest := rows[1..];
    assert forall j | 0 <= j < m - 1 :: rest[j] == rows[j + 1];
    if j :| 0 <= j < m && Attempted(items, |items|, rows[j], d) {
      if j > 0 { assert Attempted(items, |items|, rest[j - 1], d); }
    }
    if j :| 0 <= j < m - 1 && Attempted(items, |items|, rest[j], d) {
      assert Attempted(items, |items|, rows[j + 1], d);
    }
  }

  lemma RestFailsAlike(items: seq<SetItem>, rows: seq<Row>, i: nat, k: nat, store: Store, outputCid: nat)
    requires RowsFit(items, rows) && 0 < i < |rows| && k < |items| && store.finished <= |store.writes|
    requires SetRow(items, rows[0], store, outputCid).Ok?
    ensures RowFails(items, rows[1..], i - 1, k, SetRow(items, rows[0], store, outputCid).value.1, outputCid) <==>
      RowFails(items, rows, i, k, store, outputCid)
  {
    hide LastIndex, Nulls, Found, Written, Attempted, AttemptedInRows, SetRow;
    AfterFirstRow(items, rows[0], store, outputCid);
    assert rows[1..][i - 1] == rows[i];
    var d := EntityAt(items, k, rows[i]);
    if IsEntity(d) { AttemptedInRest(items, rows, i, d); }
  }

  lemma FirstRowFailsAlike(items: seq<SetItem>, rows: seq<Row>, k: nat, store: Store, outputCid: nat)
    requires RowsFit(items, rows) && rows != [] && k < |items|
    ensures RowFails(items, rows, 0, k, store, outputCid) <==> Fails(items, k, rows[0], store, outputCid)
  {
    hide LastIndex, Nulls, Found, Written, Attempted;
  }

  /** The rows are accepted exactly when no item of any row fails, counting the tuples of earlier rows as written. */
  lemma {:induction false} RowsAcceptedExactly(items: seq<SetItem>, rows: seq<Row>, store: Store, outputCid: nat)
    requires RowsFit(items, rows) && store.finished <= |store.writes|
    ensures SetRows(items, rows, store, outputCid).Ok? <==> forall i, k :: !RowFails(items, rows, i, k, store, outputCid)
  {
    hide Fails, SetRow, After;
    if rows != [] {
      FirstRowAccepted(items, rows, store, outputCid);
      if SetRow(items, rows[0], store, outputCid).Ok? {
        var next := SetRow(items, rows[0], store, outputCid).value.1;
        AfterFirstRow(items, rows[0], store, outputCid);
        RowsAcceptedExactly(items, rows[1..], next, outputCid);
        hide RowFails, SetRows;
        RowFailsInRange(items, rows, store, outputCid);
        RowFailsInRange(items, rows[1..], next, outputCid);
        forall i, k | RowFails(items, rows[1..], i, k, next, outputCid)
          ensures RowFails(items, rows, i + 1, k, store, outputCid)
        {
          RestFailsAlike(items, rows, i + 1, k, store, outputCid);
        }
        forall i, k | RowFails(items, rows, i, k, store, outputCid) && i > 0
          ensures RowFails(items, rows[1..], i - 1, k, next, outputCid)
        {
          RestFailsAlike(items, rows, i, k, store, outputCid);
        }
        OneStep(items, rows, store, next, outputCid);
      }
    }
  }

  lemma OneStep(items: seq<SetItem>, rows: seq<Row>, store: Store, next: Store, outputCid: nat)
    requires RowsFit(items, rows) && rows != []
    requires SetRow(items, rows[0], store, outputCid).Ok? && next == SetRow(items, rows[0], store, outputCid).value.1
    ensures SetRows(items, rows, store, outputCid) == SetRows(items, rows[1..], next, outputCid)
  {
    hide SetRow;
  }

  lemma RowFailsInRange(items: seq<SetItem>, rows: seq<Row>, store: Store, outputCid: nat)
    requires RowsFit(items, rows)
    ensures forall i, k | RowFails(items, rows, i, k, store, outputCid) :: 0 <= i < |rows| && 0 <= k < |items|
  {}

  lemma FirstRowAccepted(items: seq<SetItem>, rows: seq<Row>, store: Store, outputCid: nat)
    requires RowsFit(items, rows) && rows != [] && store.finished <= |store.writes|
    ensures SetRow(items, rows[0], store, outputCid).Ok? <==> forall k :: !RowFails(items, rows, 0, k, store, outputCid)
    ensures SetRow(items, rows[0], store, outputCid).Err? ==> SetRows(items, rows, store, outputCid).Err?
  {
    hide Fails, After;
    AfterAccepted(items, |items|, rows[0], store, outputCid);
    forall k | 0 <= k < |items|
      ensures RowFails(items, rows, 0, k, store, outputCid) <==> Fails(items, k, rows[0], store, outputCid)
    {
      FirstRowFailsAlike(items, rows, k, store, outputCid);
    }
  }

  /**
   * Over all rows of one command a tuple is written at most once, not at all if the command had written
   * it before, and keeps what that one write has stored.
   */
  lemma {:induction false} RowsWriteOnce(items: seq<SetItem>, rows: seq<Row>, store: Store, outputCid: nat, d: Datum)
    requires RowsFit(items, rows) && SetRows(items, rows, store, outputCid).Ok? && IsEntity(d)
    requires store.Safe() && RowsShow(rows, store.g)
    ensures var done := SetRows(items, rows, store, outputCid).value;
            var times := TimesWritten(WritesSince(store, done), d);
            && store.writes <= done.writes && times <= 1
            && (Written(d, store) ==> times == 0)
            && (times == 0 ==> Stored(done.g, d) == Stored(store.g, d))
  {
    if rows == [] {
      NeverWritten(d);
      assert WritesSince(store, store) == [];
    } else {
      var next := SetRow(items, rows[0], store, outputCid).value.1;
      OneStep(items, rows, store, next, outputCid);
      RowWritesOnce(items, rows[0], store, outputCid, d);
      hide *;
      RestOfRows(items, rows, store.g, next.g);
      RowsWriteOnce(items, rows[1..], next, outputCid, d);
      SplitWrites(store, next, SetRows(items, rows, store, outputCid).value, d);
    }
  }

  /** The tuple of `d` holds what the items make of some row, all of whose attribute's last items count. */
  ghost predicate HoldsSomeRow(items: seq<SetItem>, rows: seq<Row>, g: Graph, d: Datum)
    requires RowsFit(items, rows) && IsEntity(d)
  {
    exists i, k :: 0 <= i < |rows| && HoldsLastItems(items, k, rows[i], g, d)
  }

  lemma HoldsRestRow(items: seq<SetItem>, rows: seq<Row>, g: Graph, d: Datum)
    requires rows != [] && RowsFit(items, rows) && RowsFit(items, rows[1..]) && IsEntity(d) && HoldsSomeRow(items, rows[1..], g, d)
    ensures HoldsSomeRow(items, rows, g, d)
  {
    hide HoldsLastItems;
    var i, k :| 0 <= i < |rows[1..]| && HoldsLastItems(items, k, rows[1..][i], g, d);
    assert rows[1..][i] == rows[i + 1];
  }

  lemma HoldsStill(items: seq<SetItem>, k: int, row: Row, g: Graph, h: Graph, d: Datum)
    requires ItemsFit(items, row) && IsEntity(d) && HoldsLastItems(items, k, row, g, d) && Stored(h, d) == Stored(g, d)
    ensures HoldsLastItems(items, k, row, h, d)
  {
    hide LastItemWins;
  }

  /** What the one write of a tuple stores, over all rows: the last items of the row that wrote it. */
  lemma {:induction false} RowsStoreLastItems(items: seq<SetItem>, rows: seq<Row>, store: Store, outputCid: nat, d: Datum)
    requires RowsFit(items, rows) && SetRows(items, rows, store, outputCid).Ok? && IsEntity(d)
    requires store.Safe() && RowsShow(rows, store.g)
    ensures var done := SetRows(items, rows, store, outputCid).value;
            TimesWritten(WritesSince(store, done), d) > 0 ==> HoldsSomeRow(items, rows, done.g, d)
  {
    if rows == [] {
      NeverWritten(d);
      assert WritesSince(store, store) == [];
    } else {
      var (slot, next) := SetRow(items, rows[0], store, outputCid).value;
      OneStep(items, rows, store, next, outputCid);
      hide SetRow, SetRows, RowsFit, RowShows, RowsShow, Store.Safe, SameEnds, Written, TimesWritten, WritesSince, HoldsSomeRow, HoldsLastItems, Stored;
      RestOfRows(items, rows, store.g, store.g) by { SameEndsReflexive(store.g); }
      RowWritesOnce(items, rows[0], store, outputCid, d);
      RestOfRows(items, rows, store.g, next.g);
      RowsWriteOnce(items, rows[1..], next, outputCid, d);
      var done := SetRows(items, rows, store, outputCid).value;
      SplitWrites(store, next, done, d);
      if TimesWritten(WritesSince(next, done), d) > 0 {
        RowsStoreLastItems(items, rows[1..], next, outputCid, d);
        HoldsRestRow(items, rows, done.g, d);
      } else if TimesWritten(WritesSince(store, next), d) > 0 {
        FirstRowStores(items, rows, store, outputCid, d, done.g);
      }
    }
  }

  lemma FirstRowStores(items: seq<SetItem>, rows: seq<Row>, store: Store, outputCid: nat, d: Datum, g: Graph)
    requires rows != [] && RowsFit(items, rows) && ItemsFit(items, rows[0]) && RowShows(rows[0], store.g) && store.Safe() && IsEntity(d)
    requires SetRow(items, rows[0], store, outputCid).Ok?
    requires var next := SetRow(items, rows[0], store, outputCid).value.1;
             TimesWritten(WritesSince(store, next), d) > 0 && Stored(g, d) == Stored(next.g, d)
    ensures HoldsSomeRow(items, rows, g, d)
  {
    hide SetRow, RowsFit, ItemsFit, RowShows, Store.Safe, SameEnds, TimesWritten, WritesSince, HoldsLastItems, HoldsFoldOf, Stored, WritesTuple, WritesAt,
         FoldTo, ShowsLastItems;
    SetRowIs(items, rows[0], store, outputCid);
    var next := SetRow(items, rows[0], store, outputCid).value.1;
    var k :| WritesTuple(items, k, |items|, rows[0], store, d);
    HoldsStill(items, k, rows[0], next.g, g, d);
  }

  lemma SplitWrites(store: Store, next: Store, done: Store, d: Datum)
    requires store.writes <= next.writes <= done.writes && IsEntity(d)
    ensures TimesWritten(WritesSince(store, done), d) == TimesWritten(WritesSince(store, next), d) + TimesWritten(WritesSince(next, done), d)
  {
    TimesWrittenAppend(WritesSince(store, next), WritesSince(next, done), d);
    assert WritesSince(store, done) == WritesSince(store, next) + WritesSince(next, done);
  }

  /** The same for one row; what it has written counts as written. */
  lemma RowWritesOnce(items: seq<SetItem>, row: Row, store: Store, outputCid: nat, d: Datum)
    requires ItemsFit(items, row) && RowShows(row, store.g) && store.Safe() && IsEntity(d)
    requires SetRow(items, row, store, outputCid).Ok?
    ensures var next := SetRow(items, row, store, outputCid).value.1;
            var times := TimesWritten(WritesSince(store, next), d);
            && store.writes <= next.writes && next.Safe() && SameEnds(store.g, next.g)
            && times <= 1 && (Written(d, store) ==> times == 0) && (Written(d, store) || times == 1 ==> Written(d, next))
            && (times == 0 ==> Stored(next.g, d) == Stored(store.g, d))
  {
    SetRowWrites(items, row, store, outputCid);
    AfterFirstRow(items, row, store, outputCid);
    TupleStored(items, |items|, row, store, d);
    hide *;
    if k :| WritesTuple(items, k, |items|, row, store, d) {
      WriterWrites(items, k, row, store, d);
    }
  }

  /** The tuple that an item writes had not been written, and counts as written afterwards. */
  lemma WriterWrites(items: seq<SetItem>, k: int, row: Row, store: Store, d: Datum)
    requires ItemsFit(items, row) && IsEntity(d) && WritesTuple(items, k, |items|, row, store, d)
    ensures !Written(d, store) && Found(d, store) && Attempted(items, |items|, row, d)
  {
    SamePlace(EntityAt(items, k, row), d, store);
  }

  // ---------------------------------------------------------------- the executor's loops

  lemma OneTurn(items: seq<SetItem>, k: nat, row: Row, store: Store, s: Progress, outputCid: nat)
    requires k < |items| && ItemsFit(items, row) && After(items, k, row, store, outputCid) == Ok(s)
    ensures ItemsFit(items, s.slot) && After(items, k + 1, row, store, outputCid) == OneItem(items, k, s, outputCid)
    ensures OneItem(items, k, s, outputCid).Err? ==>
      SetRow(items, row, store, outputCid) == Err(OneItem(items, k, s, outputCid).error)
  {
    AfterNext(items, k, row, store, outputCid);
    if OneItem(items, k, s, outputCid).Err? { FailsForGood(items, k + 1, row, store, outputCid); }
  }

  lemma RowIsAfter(items: seq<SetItem>, row: Row, store: Store, outputCid: nat)
    requires ItemsFit(items, row)
    ensures After(items, 0, row, store, outputCid) == Ok(Progress(0, row, store))
    ensures After(items, |items|, row, store, outputCid).Ok? ==>
      var s := After(items, |items|, row, store, outputCid).value; SetRow(items, row, store, outputCid) == Ok((s.slot, s.store))
  {}

  lemma {:induction false} FailsForGood(items: seq<SetItem>, n: nat, row: Row, store: Store, outputCid: nat)
    requires n <= |items| && ItemsFit(items, row) && After(items, n, row, store, outputCid).Err?
    ensures SetRow(items, row, store, outputCid) == Err(After(items, n, row, store, outputCid).error)
    decreases |items| - n
  {
    hide OneItem;
    if n < |items| {
      AfterPrefix(items, n, row, store, outputCid);
      FailsForGood(items, n + 1, row, store, outputCid);
    }
  }

  class SetExecutor {
    const outputCid: nat
    var store: Store
    var slot: Row

    constructor (store: Store, outputCid: nat)
      ensures this.store == store && this.outputCid == outputCid
    {
      this.store, this.outputCid, slot := store, outputCid, [];
    }

    /** The first loop leaves the index of each attribute's last item in an array. */
    method LastIndices(items: seq<SetItem>) returns (luindex: array<nat>)
      requires ItemsFit(items, slot)
      ensures fresh(luindex) && luindex.Length == |slot|
      ensures forall i | 0 <= i < |slot| :: luindex[i] == LastIndex(items, i + 1)
    {
      luindex := new nat[|slot|](_ => 0);
      for lidx := 0 to |items|
        invariant forall i | 0 <= i < |slot| :: luindex[i] == LastIndex(items[..lidx], i + 1)
      {
        assert items[..lidx + 1][..lidx] == items[..lidx];
        assert ItemFits(items[lidx], slot);
        luindex[items[lidx].entityPos - 1] := lidx;
      }
      assert items[..|items|] == items;
    }

    /** The body of the second loop; gives the next loop index. */
    method ProcessItem(items: seq<SetItem>, k: nat, luindex: array<nat>, lidx: nat) returns (r: Result<nat>)
      requires k < |items| && ItemFits(items[k], slot) && luindex.Length == |slot|
      requires luindex[items[k].entityPos - 1] == LastIndex(items, items[k].entityPos)
      modifies this
      ensures match OneItem(items, k, Progress(lidx, old(slot), old(store)), outputCid)
              case Ok(s) => r == Ok(s.lidx) && slot == s.slot && store == s.store
              case Err(e) => r == Err(e)
    {
      hide Alter, Rewrite, LastIndex;
      var item := items[k];
      var d := slot[item.entityPos - 1];
      if d.NullDatum? { return Ok(lidx); }
      if !IsEntity(d) { return Err(NotAnEntity); }
      var e := WithProps(d, Alter(PropsOf(d), item, slot));
      slot := slot[item.entityPos - 1 := e];
      if luindex[item.entityPos - 1] == lidx {
        store :- UpdateEntityTuple(e);
      }
      r := Ok(lidx + 1);
    }

    /** The scan for the tuple, and its update. */
    method UpdateEntityTuple(e: Datum) returns (r: Result<Store>)
      requires IsEntity(e)
      ensures r == Rewrite(store, e, outputCid)
    {
      if !Found(e, store) { return Ok(store); }
      if Written(e, store) {
        return if store.command != outputCid then Err(AlreadyModified) else Ok(store);
      }
      return Ok(store.Do(WriteOf(e)));
    }

    method ProcessUpdateList(items: seq<SetItem>) returns (r: Result<()>)
      requires ItemsFit(items, slot)
      modifies this
      ensures match SetRow(items, old(slot), old(store), outputCid)
              case Ok((row, next)) => r.Ok? && slot == row && store == next
              case Err(e) => r == Err(e)
    {
      hide After, OneItem, LastIndex, SetRow, SamePlain, ItemsFit;
      RowIsAfter(items, slot, store, outputCid);
      var luindex := LastIndices(items);
      var lidx := 0;
      ghost var row := slot;
      for k := 0 to |items|
        invariant |slot| == |row| && After(items, k, row, old(store), outputCid) == Ok(Progress(lidx, slot, store))
        invariant forall i | 0 <= i < |row| :: luindex[i] == LastIndex(items, i + 1)
      {
        OneTurn(items, k, row, old(store), Progress(lidx, slot, store), outputCid);
        lidx :- ProcessItem(items, k, luindex, lidx);
      }
      r := Ok(());
    }

    /** One row of a clause that emits rows: each row is a command of its own. */
    method ExecRow(items: seq<SetItem>, row: Row) returns (r: Result<Row>)
      requires ItemsFit(items, row)
      modifies this
      ensures match SetRow(items, row, old(store), outputCid)
              case Ok((out, next)) => r == Ok(out) && store == next.EndCommand()
              case Err(e) => r == Err(e)
    {
      slot := row;
      var _ :- ProcessUpdateList(items);
      store := store.EndCommand();
      r := Ok(slot);
    }

    /** A terminal SET handles all rows in one call, as one command. */
    method ProcessAllTuples(items: seq<SetItem>, rows: seq<Row>) returns (r: Result<()>)
      requires RowsFit(items, rows)
      modifies this
      ensures match SetRows(items, rows, old(store), outputCid)
              case Ok(next) => r.Ok? && store == next.EndCommand()
              case Err(e) => r == Err(e)
    {
      assert rows[0..] == rows;
      for n := 0 to |rows|
        invariant SetRows(items, rows, old(store), outputCid) == SetRows(items, rows[n..], store, outputCid)
      {
        assert rows[n..][0] == rows[n] && rows[n..][1..] == rows[n + 1..];
        slot := rows[n];
        var _ :- ProcessUpdateList(items);
      }
      store := store.EndCommand();
      r := Ok(());
    }
  }
}
