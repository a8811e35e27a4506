/**
 * The SET and REMOVE clauses. All items of a row are applied to the copies of the entities in the
 * row; a copy is written to its table at its last item. A tuple that the current command has written
 * already is not written again: that is an error, unless its command id happens to be the output
 * command id of the executor state, when nothing is done.
 */
module SetClause {
  import opened Results
  import opened PropertyGraph
  import opened GraphStore
  import opened PathWriter

  type Row = seq<Datum>

  datatype SetItem = SetItem(entityPos: nat, propPos: nat, key: string, remove: bool)

  /** The attributes of an item exist, and the one it assigns from holds a plain value. */
  predicate ItemFits(item: SetItem, row: Row) {
    && 0 < item.entityPos <= |row|
    && (!item.remove ==> 0 < item.propPos <= |row|
                         && (row[item.propPos - 1].NullDatum? || row[item.propPos - 1].ValueDatum? || row[item.propPos - 1].MapDatum?))
  }

  ghost predicate ItemsFit(items: seq<SetItem>, row: Row) {
    forall k | 0 <= k < |items| :: ItemFits(items[k], row)
  }

  predicate IsEntity(d: Datum) {
    d.VertexDatum? || d.EdgeDatum?
  }

  function PropsOf(d: Datum): Props
    requires IsEntity(d)
  {
    if d.VertexDatum? then d.props else d.edge.props
  }

  function WithProps(d: Datum, props: Props): (r: Datum)
    requires IsEntity(d)
    ensures SameEntity(d, r) && PropsOf(r) == props
  {
    if d.VertexDatum? then VertexDatum(d.id, props) else EdgeDatum(d.id, d.edge.(props := props))
  }

  /** The same vertex, or the same edge with the same endpoints. */
  predicate SameEntity(d: Datum, e: Datum) {
    || (d.VertexDatum? && e.VertexDatum? && d.id == e.id)
    || (d.EdgeDatum? && e.EdgeDatum? && d.id == e.id && d.edge.start == e.edge.start && d.edge.end == e.edge.end)
  }

  /** One assignment: a removed key, or one assigned null, is gone; the others keep their values. */
  function Alter(props: Props, item: SetItem, row: Row): (r: Props)
    requires ItemFits(item, row)
    ensures forall k | k != item.key :: (k in r <==> k in props) && (k in r ==> r[k] == props[k])
    ensures item.key in r <==> !item.remove && !row[item.propPos - 1].NullDatum?
  {
    if item.remove || row[item.propPos - 1].NullDatum? then props - {item.key}
    else
      var d := row[item.propPos - 1];
      props[item.key := if d.ValueDatum? then d.value else Nested(d.props)]
  }

  predicate Live(d: Datum, g: Graph)
    requires IsEntity(d)
  {
    if d.VertexDatum? then d.id in g.vertices else d.id in g.edges
  }

  function WriteOf(d: Datum): Write
    requires IsEntity(d)
  {
    if d.VertexDatum? then UpdateVertex(d.id, d.props) else UpdateEdge(d.id, d.edge)
  }

  /** The two data stand for the same row of the same table. */
  predicate SameTuple(d: Datum, e: Datum)
    requires IsEntity(d) && IsEntity(e)
  {
    d.VertexDatum? == e.VertexDatum? && d.id == e.id
  }

  /** A scan of the current command finds the entity's tuple. */
  predicate Found(d: Datum, store: Store)
    requires IsEntity(d)
  {
    Live(d, store.SeenByCommand())
  }

  predicate Written(d: Datum, store: Store)
    requires IsEntity(d)
  {
    store.WrittenNow(d.VertexDatum?, d.id)
  }

  /** `update_entity_tuple` on the tuple that the scan finds, if it finds one. */
  function Rewrite(store: Store, d: Datum, outputCid: nat): Result<Store>
    requires IsEntity(d)
  {
    if !Found(d, store) then Ok(store)
    else if !Written(d, store) then Ok(store.Do(WriteOf(d)))
    else if store.command == outputCid then Ok(store) else Err(AlreadyModified)
  }

  /** The index of the last item for an attribute; 0 if there is none, as in a zeroed array. */
  function LastIndex(items: seq<SetItem>, p: nat): (r: nat)
    ensures (exists k :: 0 <= k < |items| && items[k].entityPos == p) ==>
              r < |items| && items[r].entityPos == p && forall k | r < k < |items| :: items[k].entityPos != p
  {
    if items == [] then 0
    else if items[|items| - 1].entityPos == p then |items| - 1
    else
      var r := LastIndex(items[..|items| - 1], p);
      assert forall k | 0 <= k < |items| - 1 :: items[k] == items[..|items| - 1][k];
      r
  }

  /** The executor within one row: the loop index, the row and the store. */
  datatype Progress = Progress(lidx: nat, slot: Row, store: Store)

  /** One turn of the loop. An item whose entity is null does not advance the loop index. */
  function OneItem(items: seq<SetItem>, k: nat, s: Progress, outputCid: nat): (r: Result<Progress>)
    requires k < |items| && ItemFits(items[k], s.slot)
    ensures match r case Ok(t) => |t.slot| == |s.slot| case Err(e) => e == NotAnEntity || e == AlreadyModified
  {
    var item := items[k];
    var d := s.slot[item.entityPos - 1];
    if d.NullDatum? then Ok(s)
    else if !IsEntity(d) then Err(NotAnEntity)
    else
      var e := WithProps(d, Alter(PropsOf(d), item, s.slot));
      var next :- if LastIndex(items, item.entityPos) == s.lidx then Rewrite(s.store, e, outputCid) else Ok(s.store);
      Ok(Progress(s.lidx + 1, s.slot[item.entityPos - 1 := e], next))
  }

  /** What an item changes in the row leaves the items' attributes as they were. */
  predicate SamePlain(row: Row, slot: Row) {
    && |slot| == |row|
    && forall p | 0 <= p < |row| :: if IsEntity(row[p]) then SameEntity(row[p], slot[p]) else slot[p] == row[p]
  }

  lemma FitsStill(items: seq<SetItem>, row: Row, slot: Row)
    requires ItemsFit(items, row) && SamePlain(row, slot)
    ensures ItemsFit(items, slot)
  {}

  lemma OneFitsStill(items: seq<SetItem>, row: Row, slot: Row, k: nat)
    requires k < |items| && ItemsFit(items, row) && SamePlain(row, slot)
    ensures ItemFits(items[k], slot)
  {
    FitsStill(items, row, slot);
  }

  /** After the first n items. */
  function After(items: seq<SetItem>, n: nat, row: Row, store: Store, outputCid: nat): (r: Result<Progress>)
    requires n <= |items| && ItemsFit(items, row)
    ensures r.Ok? ==> SamePlain(row, r.value.slot)
  {
    if n == 0 then Ok(Progress(0, row, store)) else
    var s :- After(items, n - 1, row, store, outputCid);
    OneFitsStill(items, row, s.slot, n - 1);
    OneItem(items, n - 1, s, outputCid)
  }

  /** One more item. */
  lemma AfterNext(items: seq<SetItem>, n: nat, row: Row, store: Store, outputCid: nat)
    requires n < |items| && ItemsFit(items, row) && After(items, n, row, store, outputCid).Ok?
    ensures var s := After(items, n, row, store, outputCid).value;
            && ItemsFit(items, s.slot) && ItemFits(items[n], s.slot)
            && After(items, n + 1, row, store, outputCid) == OneItem(items, n, s, outputCid)
  {
    hide OneItem;
    FitsStill(items, row, After(items, n, row, store, outputCid).value.slot);
  }

  lemma AfterPrefix(items: seq<SetItem>, n: nat, row: Row, store: Store, outputCid: nat)
    requires n < |items| && ItemsFit(items, row)
    ensures After(items, n, row, store, outputCid).Err? ==>
      After(items, n + 1, row, store, outputCid) == After(items, n, row, store, outputCid)
  {
    hide OneItem, SamePlain;
  }

  function SetRow(items: seq<SetItem>, row: Row, store: Store, outputCid: nat): Result<(Row, Store)>
    requires ItemsFit(items, row)
  {
    var s :- After(items, |items|, row, store, outputCid);
    Ok((s.slot, s.store))
  }

  // ---------------------------------------------------------------- what the clause means

  /** The entity of an attribute after the first n items: an ordered fold over its items. */
  function FoldTo(items: seq<SetItem>, n: nat, p: nat, row: Row): (r: Datum)
    requires n <= |items| && ItemsFit(items, row) && 0 < p <= |row|
    ensures if IsEntity(row[p - 1]) then SameEntity(row[p - 1], r) else r == row[p - 1]
  {
    if n == 0 then row[p - 1]
    else
      var d := FoldTo(items, n - 1, p, row);
      if items[n - 1].entityPos == p && IsEntity(d) then WithProps(d, Alter(PropsOf(d), items[n - 1], row)) else d
  }

  /** Item j is the last of the first n that assigns or removes this key of this attribute. */
  predicate LastFor(items: seq<SetItem>, n: nat, j: int, p: nat, key: string)
    requires n <= |items|
  {
    0 <= j < n && items[j].entityPos == p && items[j].key == key
    && forall l | j < l < n :: items[l].entityPos != p || items[l].key != key
  }

  /** What one assignment leaves under its key: nothing for a removal or a null, else the value or the map assigned. */
  ghost predicate Leaves(item: SetItem, row: Row, props: Props)
    requires ItemFits(item, row)
  {
    if item.remove then item.key !in props
    else
      match row[item.propPos - 1]
      case ValueDatum(v) => item.key in props && props[item.key] == v
      case MapDatum(m) => item.key in props && props[item.key].Nested? && props[item.key].fields == m
      case _ => item.key !in props
  }

  /** The key is as it was. */
  predicate KeptKey(key: string, before: Props, after: Props) {
    if key in before then key in after && after[key] == before[key] else key !in after
  }

  /** The last item for a key decides it; a key that no item names keeps what it had. */
  ghost predicate LastItemWins(items: seq<SetItem>, n: nat, p: nat, row: Row, before: Props, after: Props)
    requires n <= |items| && ItemsFit(items, row)
  {
    && (forall j, key | LastFor(items, n, j, p, key) :: Leaves(items[j], row, after))
    && (forall key | (forall j | 0 <= j < n && items[j].entityPos == p :: items[j].key != key) :: KeptKey(key, before, after))
  }

  lemma AlterLeaves(props: Props, item: SetItem, row: Row)
    requires ItemFits(item, row)
    ensures Leaves(item, row, Alter(props, item, row))
    ensures forall key | key != item.key :: KeptKey(key, props, Alter(props, item, row))
  {}

  lemma LeavesStill(item: SetItem, row: Row, before: Props, after: Props)
    requires ItemFits(item, row) && Leaves(item, row, before) && KeptKey(item.key, before, after)
    ensures Leaves(item, row, after)
  {}

  lemma {:induction false} FoldIsLastItem(items: seq<SetItem>, n: nat, p: nat, row: Row)
    requires n <= |items| && ItemsFit(items, row) && 0 < p <= |row| && IsEntity(row[p - 1])
    ensures LastItemWins(items, n, p, row, PropsOf(row[p - 1]), PropsOf(FoldTo(items, n, p, row)))
  {
    if n > 0 {
      FoldIsLastItem(items, n - 1, p, row);
      assert ItemFits(items[n - 1], row);
      LastItemNext(items, n - 1, p, row, PropsOf(row[p - 1]), PropsOf(FoldTo(items, n - 1, p, row)), PropsOf(FoldTo(items, n, p, row)));
    }
  }

  /** One item more, of the attribute or of another. */
  lemma LastItemNext(items: seq<SetItem>, n: nat, p: nat, row: Row, first: Props, before: Props, after: Props)
    requires n < |items| && ItemsFit(items, row) && ItemFits(items[n], row) && LastItemWins(items, n, p, row, first, before)
    requires after == if items[n].entityPos == p then Alter(before, items[n], row) else before
    ensures LastItemWins(items, n + 1, p, row, first, after)
  {
    var item := items[n];
    if item.entityPos == p { AlterLeaves(before, item, row); }
    hide Alter;
    var m := n + 1;
    forall j, key | LastFor(items, m, j, p, key) ensures Leaves(items[j], row, after) {
      if j < n {
        assert LastFor(items, n, j, p, key);
        assert ItemFits(items[j], row);
        if item.entityPos == p { LeavesStill(items[j], row, before, after); }
      }
    }
    forall key | (forall j | 0 <= j < n + 1 && items[j].entityPos == p :: items[j].key != key) ensures KeptKey(key, first, after) {
      assert KeptKey(key, first, before);
    }
  }

  /** How many of the first n items have a null entity. */
  function Nulls(items: seq<SetItem>, n: nat, row: Row): (r: nat)
    requires n <= |items| && ItemsFit(items, row)
    ensures r <= n
    ensures r == 0 <==> forall k | 0 <= k < n :: !row[items[k].entityPos - 1].NullDatum?
  {
    if n == 0 then 0
    else
      assert ItemFits(items[n - 1], row);
      Nulls(items, n - 1, row) + if row[items[n - 1].entityPos - 1].NullDatum? then 1 else 0
  }

  ghost predicate Targeted(items: seq<SetItem>, p: nat) {
    exists k :: 0 <= k < |items| && items[k].entityPos == p
  }

  /** A target: an attribute that holds an entity and that some item changes. */
  ghost predicate IsTarget(items: seq<SetItem>, p: nat, row: Row) {
    0 < p <= |row| && IsEntity(row[p - 1]) && Targeted(items, p)
  }

  /** At item k the executor looks for the tuple to write. */
  predicate Attempts(items: seq<SetItem>, k: nat, row: Row)
    requires k < |items| && ItemsFit(items, row)
  {
    assert ItemFits(items[k], row);
    var p := items[k].entityPos;
    IsEntity(row[p - 1]) && LastIndex(items, p) == k && Nulls(items, k, row) == 0
  }

  /** The entity of item k in the row as it came. */
  function EntityAt(items: seq<SetItem>, k: nat, row: Row): Datum
    requires k < |items| && ItemsFit(items, row)
  {
    assert ItemFits(items[k], row);
    row[items[k].entityPos - 1]
  }

  /** One of the first n items has looked for the tuple already. */
  predicate Attempted(items: seq<SetItem>, n: nat, row: Row, d: Datum)
    requires n <= |items| && ItemsFit(items, row) && IsEntity(d)
  {
    exists j | 0 <= j < n :: Attempts(items, j, row) && SameTuple(EntityAt(items, j, row), d)
  }

  /** Item k leads to a physical write. */
  predicate WritesAt(items: seq<SetItem>, k: nat, row: Row, store: Store)
    requires k < |items| && ItemsFit(items, row)
  {
    var d := EntityAt(items, k, row);
    Attempts(items, k, row) && Found(d, store) && !Written(d, store) && !Attempted(items, k, row, d)
  }

  /** Item k finds a tuple that the command has written already. */
  predicate Conflicts(items: seq<SetItem>, k: nat, row: Row, store: Store)
    requires k < |items| && ItemsFit(items, row)
  {
    var d := EntityAt(items, k, row);
    Attempts(items, k, row) && Found(d, store) && (Written(d, store) || Attempted(items, k, row, d))
  }

  /** The entity of item k once that item has been applied. */
  function HeldAt(items: seq<SetItem>, k: nat, row: Row): (r: Datum)
    requires k < |items| && ItemsFit(items, row)
    ensures var d := EntityAt(items, k, row); if IsEntity(d) then SameEntity(d, r) else r == d
  {
    assert ItemFits(items[k], row);
    FoldTo(items, k + 1, items[k].entityPos, row)
  }

  /** The physical writes of the first n items. */
  function Writes(items: seq<SetItem>, n: nat, row: Row, store: Store): seq<Write>
    requires n <= |items| && ItemsFit(items, row)
  {
    if n == 0 then []
    else Writes(items, n - 1, row, store) + if WritesAt(items, n - 1, row, store) then [WriteOf(HeldAt(items, n - 1, row))] else []
  }

  lemma ReplayMore(g: Graph, ws: seq<Write>, w: Write)
    ensures Replay(g, ws + [w]) == Apply(Replay(g, ws), w)
  {
    assert (ws + [w])[..|ws|] == ws;
  }

  lemma ReplayNone(g: Graph)
    ensures Replay(g, []) == g
  {}

  /** The tables keep their keys. */
  predicate SameKeys(g: Graph, h: Graph) {
    g.vertices.Keys == h.vertices.Keys && g.edges.Keys == h.edges.Keys
  }

  lemma WriteKeepsKeys(g: Graph, d: Datum)
    requires IsEntity(d) && Live(d, g)
    ensures SameKeys(g, Apply(g, WriteOf(d)))
  {}

  lemma SameAssignment(item: SetItem, row: Row, slot: Row)
    requires ItemFits(item, row) && ItemFits(item, slot) && SamePlain(row, slot)
    ensures forall props :: Alter(props, item, slot) == Alter(props, item, row)
  {}

  /** Each attribute holds its fold, and the loop index lags behind by the null entities. */
  ghost predicate HoldsFolds(items: seq<SetItem>, n: nat, row: Row, s: Progress)
    requires n <= |items| && ItemsFit(items, row)
  {
    && SamePlain(row, s.slot) && s.lidx == n - Nulls(items, n, row)
    && forall i | 0 <= i < |row| :: s.slot[i] == FoldTo(items, n, i + 1, row)
  }

  /** The store is the old one with the listed writes, made by the same command. */
  ghost predicate HasWrites(items: seq<SetItem>, n: nat, row: Row, store: Store, next: Store)
    requires n <= |items| && ItemsFit(items, row)
  {
    && next.writes == store.writes + Writes(items, n, row, store) && store.stamps <= next.stamps
    && next.g == Replay(store.g, Writes(items, n, row, store))
    && next.start == store.start && next.last == store.last && next.finished == store.finished && next.command == store.command
  }

  /** Besides what it had written before, the command has written what the items have found. */
  ghost predicate KnowsWritten(items: seq<SetItem>, n: nat, row: Row, store: Store, next: Store)
    requires n <= |items| && ItemsFit(items, row)
  {
    forall d | IsEntity(d) :: Written(d, next) <==> Written(d, store) || (Found(d, store) && Attempted(items, n, row, d))
  }

  lemma OneItemFolds(items: seq<SetItem>, k: nat, row: Row, s: Progress, outputCid: nat)
    requires k < |items| && ItemsFit(items, row) && HoldsFolds(items, k, row, s)
    requires ItemFits(items[k], s.slot)
    ensures OneItem(items, k, s, outputCid).Ok? ==> HoldsFolds(items, k + 1, row, OneItem(items, k, s, outputCid).value)
    ensures OneItem(items, k, s, outputCid) == Err(NotAnEntity) <==> Refused(items, k, row)
  {
    hide LastIndex, Alter, Rewrite;
    SameAssignment(items[k], row, s.slot);
    var pos := items[k].entityPos;
    assert s.slot[pos - 1] == FoldTo(items, k, pos, row);
    RewriteErrors();
    if OneItem(items, k, s, outputCid).Ok? {
      var t := OneItem(items, k, s, outputCid).value;
      forall i | 0 <= i < |row| ensures t.slot[i] == FoldTo(items, k + 1, i + 1, row) {
        assert s.slot[i] == FoldTo(items, k, i + 1, row);
      }
      assert SamePlain(s.slot, t.slot);
    }
  }

  lemma RewriteErrors()
    ensures forall store, d, outputCid | IsEntity(d) :: Rewrite(store, d, outputCid) != Err(NotAnEntity)
  {}

  /** The item is for something else than an entity. */
  predicate Refused(items: seq<SetItem>, k: nat, row: Row)
    requires k < |items| && ItemsFit(items, row)
  {
    var d := EntityAt(items, k, row);
    !d.NullDatum? && !IsEntity(d)
  }

  /** The scan of the command keeps seeing what it saw when the command began. */
  lemma FoundStill(items: seq<SetItem>, n: nat, row: Row, store: Store, next: Store)
    requires n <= |items| && ItemsFit(items, row) && HasWrites(items, n, row, store, next) && store.finished <= |store.writes|
    ensures next.SeenByCommand() == store.SeenByCommand()
  {
    assert next.writes[..store.finished] == store.writes[..store.finished];
  }

  lemma SamePlace(d: Datum, e: Datum, store: Store)
    requires IsEntity(d) && IsEntity(e)
    ensures SameTuple(d, e) ==> Found(d, store) == Found(e, store) && Written(d, store) == Written(e, store)
  {}

  lemma WrittenMore(store: Store, e: Datum, d: Datum)
    requires IsEntity(d) && IsEntity(e) && store.finished <= |store.writes|
    ensures Written(d, store.Do(WriteOf(e))) <==> Written(d, store) || SameTuple(d, e)
  {
    var next := store.Do(WriteOf(e));
    assert forall i | 0 <= i < |store.writes| :: next.writes[i] == store.writes[i];
    assert next.writes[|store.writes|] == WriteOf(e);
  }

  lemma AttemptedNext(items: seq<SetItem>, k: nat, row: Row, d: Datum)
    requires k < |items| && ItemsFit(items, row) && IsEntity(d)
    ensures Attempted(items, k + 1, row, d) <==>
      Attempted(items, k, row, d) || (Attempts(items, k, row) && SameTuple(EntityAt(items, k, row), d))
  {
    hide Attempts;
  }

  /** What the command has written once item k has written, or not. */
  lemma KnowsNext(items: seq<SetItem>, k: nat, row: Row, store: Store, now: Store, next: Store)
    requires k < |items| && ItemsFit(items, row) && KnowsWritten(items, k, row, store, now)
    requires store.finished <= |store.writes| && now.finished <= |now.writes|
    requires next == if WritesAt(items, k, row, store) then now.Do(WriteOf(HeldAt(items, k, row))) else now
    ensures KnowsWritten(items, k + 1, row, store, next)
  {
    forall d | IsEntity(d)
      ensures Written(d, next) <==> Written(d, store) || (Found(d, store) && Attempted(items, k + 1, row, d))
    {
      KnowsNextOf(items, k, row, store, now, next, d);
    }
  }

  lemma KnowsNextOf(items: seq<SetItem>, k: nat, row: Row, store: Store, now: Store, next: Store, d: Datum)
    requires k < |items| && ItemsFit(items, row) && KnowsWritten(items, k, row, store, now) && IsEntity(d)
    requires store.finished <= |store.writes| && now.finished <= |now.writes|
    requires next == if WritesAt(items, k, row, store) then now.Do(WriteOf(HeldAt(items, k, row))) else now
    ensures Written(d, next) <==> Written(d, store) || (Found(d, store) && Attempted(items, k + 1, row, d))
  {
    var e := EntityAt(items, k, row);
    AttemptedNext(items, k, row, d);
    assert Written(d, now) <==> Written(d, store) || (Found(d, store) && Attempted(items, k, row, d));
    if IsEntity(e) {
      SameAttempt(items, k, row, d, e);
      if SameTuple(e, d) { SamePlace(d, e, store); }
    }
    if WritesAt(items, k, row, store) { WrittenMore(now, HeldAt(items, k, row), d); }
    hide KnowsWritten, Written, Found, HeldAt, LastIndex, Nulls, Attempted;
  }

  lemma SameAttempt(items: seq<SetItem>, k: nat, row: Row, d: Datum, e: Datum)
    requires k <= |items| && ItemsFit(items, row) && IsEntity(d) && IsEntity(e)
    ensures SameTuple(e, d) ==> Attempted(items, k, row, d) == Attempted(items, k, row, e)
  {
    hide Attempts;
  }

  /** The item writes, is in conflict, or changes nothing in the store. */
  lemma OneItemStores(items: seq<SetItem>, k: nat, row: Row, store: Store, s: Progress, outputCid: nat)
    requires k < |items| && ItemsFit(items, row) && store.finished <= |store.writes|
    requires HoldsFolds(items, k, row, s) && HasWrites(items, k, row, store, s.store) && KnowsWritten(items, k, row, store, s.store)
    requires ItemFits(items[k], s.slot) && !Refused(items, k, row)
    ensures OneItem(items, k, s, outputCid).Err? <==> Conflicts(items, k, row, store) && store.command != outputCid
    ensures OneItem(items, k, s, outputCid).Ok? ==>
      OneItem(items, k, s, outputCid).value.store ==
        if WritesAt(items, k, row, store) then s.store.Do(WriteOf(HeldAt(items, k, row))) else s.store
  {
    hide Alter, Replay, Apply, Written, Attempted, KnowsWritten, Writes;
    SameAssignment(items[k], row, s.slot);
    var p := items[k].entityPos;
    var d, now := row[p - 1], s.slot[p - 1];
    assert now == FoldTo(items, k, p, row);
    if IsEntity(d) {
      var e := WithProps(now, Alter(PropsOf(now), items[k], s.slot));
      assert e == HeldAt(items, k, row) && SameTuple(d, e);
      FoundStill(items, k, row, store, s.store);
      SamePlace(d, e, s.store);
      KnownAt(items, k, row, store, s.store);
      assert LastIndex(items, p) >= k && s.lidx == k - Nulls(items, k, row);
      assert LastIndex(items, p) == s.lidx <==> Attempts(items, k, row);
    }
  }

  lemma KnownAt(items: seq<SetItem>, k: nat, row: Row, store: Store, now: Store)
    requires k < |items| && ItemsFit(items, row) && KnowsWritten(items, k, row, store, now) && IsEntity(EntityAt(items, k, row))
    ensures var d := EntityAt(items, k, row);
            Written(d, now) <==> Written(d, store) || (Found(d, store) && Attempted(items, k, row, d))
  {}

  lemma MoreWrites(items: seq<SetItem>, k: nat, row: Row, store: Store, now: Store, next: Store)
    requires k < |items| && ItemsFit(items, row) && HasWrites(items, k, row, store, now)
    requires next == if WritesAt(items, k, row, store) then now.Do(WriteOf(HeldAt(items, k, row))) else now
    ensures HasWrites(items, k + 1, row, store, next)
  {
    hide Attempted, Found, Written, Replay, Apply, HeldAt, LastIndex, Nulls;
    var ws := Writes(items, k, row, store);
    if WritesAt(items, k, row, store) {
      var w := WriteOf(HeldAt(items, k, row));
      ReplayMore(store.g, ws, w);
      assert store.writes + ws + [w] == store.writes + (ws + [w]);
    } else {
      assert ws + [] == ws;
    }
  }

  /** All that is known after n items. */
  ghost predicate Reached(items: seq<SetItem>, n: nat, row: Row, store: Store, s: Progress)
    requires n <= |items| && ItemsFit(items, row)
  {
    && HoldsFolds(items, n, row, s) && HasWrites(items, n, row, store, s.store) && KnowsWritten(items, n, row, store, s.store)
    && s.store.finished <= |s.store.writes|
  }

  lemma NothingDone(items: seq<SetItem>, row: Row, store: Store, outputCid: nat)
    requires ItemsFit(items, row) && store.finished <= |store.writes|
    ensures After(items, 0, row, store, outputCid) == Ok(Progress(0, row, store))
    ensures Reached(items, 0, row, store, Progress(0, row, store))
  {
    ReplayNone(store.g);
    assert store.writes + [] == store.writes;
  }

  /** An item fails exactly when it is refused, or in conflict without the output command id. */
  predicate Fails(items: seq<SetItem>, k: nat, row: Row, store: Store, outputCid: nat)
    requires k < |items| && ItemsFit(items, row)
  {
    Refused(items, k, row) || (Conflicts(items, k, row, store) && store.command != outputCid)
  }

  lemma OneItemIs(items: seq<SetItem>, k: nat, row: Row, store: Store, s: Progress, outputCid: nat)
    requires k < |items| && ItemsFit(items, row) && store.finished <= |store.writes|
    requires Reached(items, k, row, store, s) && ItemFits(items[k], s.slot)
    ensures OneItem(items, k, s, outputCid).Err? <==> Fails(items, k, row, store, outputCid)
    ensures OneItem(items, k, s, outputCid).Ok? ==> Reached(items, k + 1, row, store, OneItem(items, k, s, outputCid).value)
  {
    hide HoldsFolds, HasWrites, KnowsWritten, OneItem, WritesAt, Conflicts, Refused;
    OneItemFolds(items, k, row, s, outputCid);
    if !Refused(items, k, row) {
      OneItemStores(items, k, row, store, s, outputCid);
      if OneItem(items, k, s, outputCid).Ok? {
        var t := OneItem(items, k, s, outputCid).value;
        MoreWrites(items, k, row, store, s.store, t.store);
        KnowsNext(items, k, row, store, s.store, t.store);
      }
    }
  }

  /** What the loop over the first n items leaves. */
  lemma {:induction false} AfterIs(items: seq<SetItem>, n: nat, row: Row, store: Store, outputCid: nat)
    requires n <= |items| && ItemsFit(items, row) && store.finished <= |store.writes|
    requires After(items, n, row, store, outputCid).Ok?
    ensures Reached(items, n, row, store, After(items, n, row, store, outputCid).value)
  {
    hide *;
    if n == 0 {
      NothingDone(items, row, store, outputCid);
    } else {
      AfterPrefix(items, n - 1, row, store, outputCid);
      AfterNext(items, n - 1, row, store, outputCid);
      AfterIs(items, n - 1, row, store, outputCid);
      OneItemIs(items, n - 1, row, store, After(items, n - 1, row, store, outputCid).value, outputCid);
    }
  }

  ghost predicate NoneFails(items: seq<SetItem>, n: nat, row: Row, store: Store, outputCid: nat)
    requires n <= |items| && ItemsFit(items, row)
  {
    forall k | 0 <= k < n :: !Fails(items, k, row, store, outputCid)
  }

  lemma NoneFailsYet(items: seq<SetItem>, row: Row, store: Store, outputCid: nat)
    requires ItemsFit(items, row)
    ensures NoneFails(items, 0, row, store, outputCid)
  {}

  lemma NoneFailsNext(items: seq<SetItem>, n: nat, row: Row, store: Store, outputCid: nat)
    requires n < |items| && ItemsFit(items, row)
    ensures NoneFails(items, n + 1, row, store, outputCid) <==>
      NoneFails(items, n, row, store, outputCid) && !Fails(items, n, row, store, outputCid)
  {
    hide Fails;
  }

  /**
   * A row is accepted exactly when every item is for a null, a vertex or an edge, and no item that looks
   * for its tuple finds one that this command has written already, unless the command id is the output
   * command id.
   */
  lemma {:induction false} AfterAccepted(items: seq<SetItem>, n: nat, row: Row, store: Store, outputCid: nat)
    requires n <= |items| && ItemsFit(items, row) && store.finished <= |store.writes|
    ensures After(items, n, row, store, outputCid).Ok? <==> NoneFails(items, n, row, store, outputCid)
  {
    hide *;
    if n == 0 {
      NothingDone(items, row, store, outputCid);
      NoneFailsYet(items, row, store, outputCid);
    } else {
      AfterAccepted(items, n - 1, row, store, outputCid);
      NoneFailsNext(items, n - 1, row, store, outputCid);
      AfterPrefix(items, n - 1, row, store, outputCid);
      if After(items, n - 1, row, store, outputCid).Ok? {
        AfterIs(items, n - 1, row, store, outputCid);
        AfterNext(items, n - 1, row, store, outputCid);
        OneItemIs(items, n - 1, row, store, After(items, n - 1, row, store, outputCid).value, outputCid);
      }
    }
  }
}
