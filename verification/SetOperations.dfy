/**
 * UNION, INTERSECT and EXCEPT: a statement tree becomes a query with a range table of leaf queries
 * and a tree of operators over its indices. A nested statement with its own ORDER BY, SKIP or LIMIT
 * becomes a leaf with a range table of its own.
 */
module SetOperations {
  import opened Results

  type Row = seq<int>

  type Bag = multiset<Row>

  datatype SortKey = SortKey(column: nat, descending: bool)

  datatype Modifiers = Modifiers(orderBy: seq<SortKey>, skip: Option<nat>, limit: Option<nat>) {
    predicate Present() {
      orderBy != [] || skip.Some? || limit.Some?
    }
  }

  const NO_MODIFIERS := Modifiers([], None, None)

  datatype Operator = Union | Intersect | Except

  /** The last clause of a query: a plain RETURN with its output columns, or a set operation. */
  datatype Statement =
    | Return(id: nat, columns: seq<string>, mods: Modifiers)
    | SetOperation(op: Operator, all: bool, left: Statement, right: Statement, mods: Modifiers)

  datatype Query =
    | ReturnQuery(id: nat, columns: seq<string>, mods: Modifiers)
    | UnionQuery(rtable: RangeTable, tree: OpTree, columns: seq<string>, mods: Modifiers)

  datatype RangeTable = RangeTable(entries: seq<Query>)

  /** Indices into the range table start at 1. */
  datatype OpTree =
    | Ref(rtindex: nat)
    | Op(op: Operator, all: bool, left: OpTree, right: OpTree, width: nat)

  // ---------------------------------------------------------------- what statements and queries mean

  function Distinct(b: Bag): Bag {
    multiset(set r | r in b)
  }

  /** The bag that an operator makes of its arguments' bags. */
  function Combine(op: Operator, all: bool, x: Bag, y: Bag): Bag {
    match op
    case Union => if all then x + y else Distinct(x + y)
    case Intersect => if all then x * y else Distinct(x * y)
    case Except => if all then x - y else multiset(set r | r in x && r !in y)
  }

  lemma DistinctCounts(b: Bag, r: Row)
    ensures Distinct(b)[r] == if r in b then 1 else 0
  {}

  /** How often a row is in a result when it is m times in the left and n times in the right argument. */
  function ResultCount(op: Operator, all: bool, m: nat, n: nat): nat {
    match op
    case Union => if all then m + n else if m > 0 || n > 0 then 1 else 0
    case Intersect => if all then (if m < n then m else n) else if m > 0 && n > 0 then 1 else 0
    case Except => if all then (if m > n then m - n else 0) else if m > 0 && n == 0 then 1 else 0
  }

  lemma CombineCounts(op: Operator, all: bool, x: Bag, y: Bag, r: Row)
    ensures Combine(op, all, x, y)[r] == ResultCount(op, all, x[r], y[r])
  {
    DistinctCounts(x + y, r);
    DistinctCounts(x * y, r);
    var rows := set q | q in x && q !in y;
    assert multiset(rows)[r] == if r in rows then 1 else 0;
  }

  /** The row may come before the other: equal on all keys, or ahead at the first key on which they differ. */
  predicate Before(keys: seq<SortKey>, a: Row, b: Row) {
    keys == [] ||
    var k := keys[0];
    var (x, y) := (if k.column < |a| then a[k.column] else 0, if k.column < |b| then b[k.column] else 0);
    if x == y then Before(keys[1..], a, b) else if k.descending then y < x else x < y
  }

  predicate Sorted(keys: seq<SortKey>, rows: seq<Row>) {
    forall i, j | 0 <= i < j < |rows| :: Before(keys, rows[i], rows[j])
  }

  function Skipped(rows: seq<Row>, skip: Option<nat>): seq<Row> {
    match skip
    case None => rows
    case Some(n) => if n <= |rows| then rows[n..] else []
  }

  function Limited(rows: seq<Row>, limit: Option<nat>): seq<Row> {
    match limit
    case None => rows
    case Some(n) => if n <= |rows| then rows[..n] else rows
  }

  /** `out` is a possible result: some arrangement of the bag that the keys allow, cut to SKIP and LIMIT. */
  ghost predicate Shaped(mods: Modifiers, rows: Bag, out: seq<Row>) {
    exists s: seq<Row> :: multiset(s) == rows && Sorted(mods.orderBy, s) && out == Limited(Skipped(s, mods.skip), mods.limit)
  }

  type Data = nat -> Bag

  /** A possible result of the statement, where `data` gives the rows of each plain RETURN. */
  ghost predicate Means(s: Statement, data: Data, out: seq<Row>)
    decreases s, 0
  {
    match s
    case Return(id, _, mods) => Shaped(mods, data(id), out)
    case SetOperation(op, all, left, right, mods) =>
      exists x, y :: MeansBag(left, data, x) && MeansBag(right, data, y) && Shaped(mods, Combine(op, all, x, y), out)
  }

  lemma ResultOf(s: Statement, data: Data, rows: Bag) returns (out: seq<Row>)
    requires MeansBag(s, data, rows)
    ensures Means(s, data, out) && multiset(out) == rows
  {
    var r: seq<Row> :| Means(s, data, r) && multiset(r) == rows;
    out := r;
  }

  lemma ArgumentsOf(s: Statement, data: Data, out: seq<Row>) returns (x: Bag, y: Bag)
    requires s.SetOperation? && Means(s, data, out)
    ensures MeansBag(s.left, data, x) && MeansBag(s.right, data, y) && Shaped(s.mods, Combine(s.op, s.all, x, y), out)
  {
    match s
    case SetOperation(op, all, left, right, mods) =>
      x, y :| MeansBag(left, data, x) && MeansBag(right, data, y) && Shaped(mods, Combine(op, all, x, y), out);
  }

  ghost predicate MeansBag(s: Statement, data: Data, rows: Bag)
    decreases s, 1
  {
    exists out: seq<Row> :: Means(s, data, out) && multiset(out) == rows
  }

  /** A possible result of the compiled query. */
  ghost predicate Yields(q: Query, data: Data, out: seq<Row>)
    decreases q, 1
  {
    match q
    case ReturnQuery(id, _, mods) => Shaped(mods, data(id), out)
    case UnionQuery(rtable, tree, _, mods) => exists x :: TreeYields(rtable, tree, data, x) && Shaped(mods, x, out)
  }

  ghost predicate YieldsBag(q: Query, data: Data, rows: Bag)
    decreases q, 2
  {
    exists out: seq<Row> :: Yields(q, data, out) && multiset(out) == rows
  }

  ghost predicate TreeYields(rtable: RangeTable, tree: OpTree, data: Data, rows: Bag)
    decreases rtable, 0, tree
  {
    match tree
    case Ref(i) =>
      0 < i <= |rtable.entries| && YieldsBag(rtable.entries[i - 1], data, rows)
    case Op(op, all, left, right, _) =>
      exists x, y :: TreeYields(rtable, left, data, x) && TreeYields(rtable, right, data, y) && rows == Combine(op, all, x, y)
  }

  // ---------------------------------------------------------------- the compiler

  function Size(s: Statement): nat {
    match s
    case Return(_, _, _) => 0
    case SetOperation(_, _, left, right, _) => 1 + Size(left) + Size(right)
  }

  /** The analysis of a statement, in a parse state of its own. */
  function TransformClause(s: Statement): Result<Query>
    decreases Size(s), 1, 1
  {
    match s
    case Return(id, columns, mods) => Ok(ReturnQuery(id, columns, mods))
    case SetOperation(_, _, _, _, _) => TransformUnion(s)
  }

  /** Takes the modifiers off the statement and puts them on the query. */
  function TransformUnion(s: Statement): Result<Query>
    requires s.SetOperation?
    decreases Size(s), 1, 0
  {
    var (tree, entries, width) :- TransformTree(SetOperation(s.op, s.all, s.left, s.right, NO_MODIFIERS), []);
    Ok(UnionQuery(RangeTable(entries), tree, entries[Leftmost(tree) - 1].columns, s.mods))
  }

  /** A tree over the range table so far and the entries it adds, with the number of columns. */
  function TransformTree(s: Statement, entries: seq<Query>): (r: Result<(OpTree, seq<Query>, nat)>)
    ensures r.Ok? ==> entries < r.value.1 && Indices(r.value.0) == Range(|entries| + 1, |r.value.1|)
    decreases Size(s), if s.Return? || s.mods.Present() then 2 else 0, 0
  {
    if s.Return? || s.mods.Present() then
      var q :- TransformClause(s);
      Ok((Ref(|entries| + 1), entries + [q], |q.columns|))
    else
      var (left, more, lwidth) :- TransformTree(s.left, entries);
      var (right, all, rwidth) :- TransformTree(s.right, more);
      if lwidth != rwidth then Err(ColumnCountMismatch)
      else
        IndicesInTwo(s.op, s.all, left, right, lwidth, |entries| + 1, |more|, |all|);
        Ok((Op(s.op, s.all, left, right, lwidth), all, lwidth))
  }

  /** Follows the left children to a leaf. */
  function Leftmost(tree: OpTree): nat {
    if tree.Ref? then tree.rtindex else Leftmost(tree.left)
  }

  /** The indices of the tree's leaves from left to right. */
  function Indices(tree: OpTree): (r: seq<nat>)
    ensures |r| > 0 && r[0] == Leftmost(tree)
  {
    if tree.Ref? then [tree.rtindex] else Indices(tree.left) + Indices(tree.right)
  }

  function Range(lo: nat, hi: nat): seq<nat> {
    if lo > hi then [] else seq(hi - lo + 1, k requires k >= 0 => lo + k)
  }

  lemma RangeInTwo(lo: nat, mid: nat, hi: nat)
    requires lo <= mid <= hi
    ensures Range(lo, hi) == Range(lo, mid) + Range(mid + 1, hi)
  {}

  lemma IndicesInTwo(op: Operator, all: bool, left: OpTree, right: OpTree, width: nat, lo: nat, mid: nat, hi: nat)
    requires lo <= mid <= hi && Indices(left) == Range(lo, mid) && Indices(right) == Range(mid + 1, hi)
    ensures Indices(Op(op, all, left, right, width)) == Range(lo, hi)
  {
    RangeInTwo(lo, mid, hi);
  }

  // ---------------------------------------------------------------- the compiled query means the same

  /** The output columns: those of the leftmost RETURN. */
  function Columns(s: Statement): seq<string> {
    if s.Return? then s.columns else Columns(s.left)
  }

  /** Every operator's arguments have equally many columns. */
  predicate Aligned(s: Statement) {
    s.Return? || (Aligned(s.left) && Aligned(s.right) && |Columns(s.left)| == |Columns(s.right)|)
  }

  lemma {:induction false} SameEntriesSameRows(small: RangeTable, big: RangeTable, tree: OpTree, data: Data)
    requires small.entries <= big.entries
    requires forall i | i in Indices(tree) :: 0 < i <= |small.entries|
    ensures forall rows :: TreeYields(small, tree, data, rows) <==> TreeYields(big, tree, data, rows)
  {
    match tree
    case Ref(i) =>
      assert i in Indices(tree);
      assert small.entries[i - 1] == big.entries[i - 1];
    case Op(op, all, left, right, _) =>
      assert forall i | i in Indices(left) || i in Indices(right) :: i in Indices(tree);
      SameEntriesSameRows(small, big, left, data);
      SameEntriesSameRows(small, big, right, data);
  }

  /** Every bag has an arrangement. */
  lemma {:induction false} Arrangement(rows: Bag) returns (s: seq<Row>)
    ensures multiset(s) == rows
  {
    if rows == multiset{} {
      s := [];
    } else {
      var r :| r in rows;
      var rest := Arrangement(rows - multiset{r});
      s := [r] + rest;
    }
  }

  /** Without modifiers exactly the arrangements of the bag are results. */
  lemma ShapedPlain(rows: Bag, out: seq<Row>)
    ensures Shaped(NO_MODIFIERS, rows, out) <==> multiset(out) == rows
  {
    if multiset(out) == rows { assert Sorted([], out); }
  }

  lemma {:induction false} TreeMeans(s: Statement, entries: seq<Query>, data: Data)
    requires TransformTree(s, entries).Ok?
    ensures var (tree, all, width) := TransformTree(s, entries).value;
            && (forall rows :: TreeYields(RangeTable(all), tree, data, rows) <==> MeansBag(s, data, rows))
            && width == |Columns(s)| && all[Leftmost(tree) - 1].columns == Columns(s)
    decreases Size(s), if s.Return? || s.mods.Present() then 2 else 0
  {
    var (tree, all, width) := TransformTree(s, entries).value;
    var rtable := RangeTable(all);
    if s.Return? || s.mods.Present() {
      var q := TransformClause(s).value;
      ClauseMeans(s, data);
      assert all[|entries|] == q && rtable.entries[|entries|] == q;
      forall rows ensures TreeYields(rtable, tree, data, rows) <==> MeansBag(s, data, rows) {
        LeafMeans(s, q, data, rows);
        assert TreeYields(rtable, tree, data, rows) <==> YieldsBag(q, data, rows);
      }
    } else {
      var (left, more, _) := TransformTree(s.left, entries).value;
      TreeMeans(s.left, entries, data);
      TreeMeans(s.right, more, data);
      SameEntriesSameRows(RangeTable(more), rtable, left, data);
      forall rows ensures TreeYields(rtable, tree, data, rows) <==> MeansBag(s, data, rows) {
        NodeMeans(s, tree, rtable, data, rows);
      }
    }
  }

  lemma LeafMeans(s: Statement, q: Query, data: Data, rows: Bag)
    requires forall out :: Yields(q, data, out) <==> Means(s, data, out)
    ensures YieldsBag(q, data, rows) <==> MeansBag(s, data, rows)
  {}

  lemma NodeMeans(s: Statement, tree: OpTree, rtable: RangeTable, data: Data, rows: Bag)
    requires s.SetOperation? && !s.mods.Present() && tree.Op? && tree.op == s.op && tree.all == s.all
    requires forall x :: TreeYields(rtable, tree.left, data, x) <==> MeansBag(s.left, data, x)
    requires forall x :: TreeYields(rtable, tree.right, data, x) <==> MeansBag(s.right, data, x)
    ensures TreeYields(rtable, tree, data, rows) <==> MeansBag(s, data, rows)
  {
    assert s.mods == NO_MODIFIERS;
    if TreeYields(rtable, tree, data, rows) {
      var x, y :| TreeYields(rtable, tree.left, data, x) && TreeYields(rtable, tree.right, data, y)
                  && rows == Combine(s.op, s.all, x, y);
      var out := Arrangement(rows);
      ShapedPlain(rows, out);
      assert MeansBag(s.left, data, x) && MeansBag(s.right, data, y);
      assert Means(s, data, out);
    }
    if MeansBag(s, data, rows) {
      var out := ResultOf(s, data, rows);
      var x, y := ArgumentsOf(s, data, out);
      ShapedPlain(Combine(s.op, s.all, x, y), out);
      assert TreeYields(rtable, tree.left, data, x) && TreeYields(rtable, tree.right, data, y);
    }
  }

  /** The compiled query has the results of the statement, no more and no fewer, and its column names. */
  lemma {:induction false} ClauseMeans(s: Statement, data: Data)
    requires TransformClause(s).Ok?
    ensures forall out :: Yields(TransformClause(s).value, data, out) <==> Means(s, data, out)
    ensures TransformClause(s).value.columns == Columns(s)
    decreases Size(s), 1
  {
    if s.SetOperation? {
      var bare := SetOperation(s.op, s.all, s.left, s.right, NO_MODIFIERS);
      TreeMeans(bare, [], data);
      var (tree, all, _) := TransformTree(bare, []).value;
      forall out ensures Yields(TransformClause(s).value, data, out) <==> Means(s, data, out) {
        UnionMeans(s, bare, TransformClause(s).value, data, out);
      }
    }
  }

  lemma UnionMeans(s: Statement, bare: Statement, q: Query, data: Data, out: seq<Row>)
    requires s.SetOperation? && bare == SetOperation(s.op, s.all, s.left, s.right, NO_MODIFIERS)
    requires q.UnionQuery? && q.mods == s.mods
    requires forall rows :: TreeYields(q.rtable, q.tree, data, rows) <==> MeansBag(bare, data, rows)
    ensures Yields(q, data, out) <==> Means(s, data, out)
  {
    if Yields(q, data, out) {
      var rows :| TreeYields(q.rtable, q.tree, data, rows) && Shaped(q.mods, rows, out);
      var plain := ResultOf(bare, data, rows);
      var x, y := ArgumentsOf(bare, data, plain);
      ShapedPlain(Combine(s.op, s.all, x, y), plain);
    }
    if Means(s, data, out) {
      var x, y := ArgumentsOf(s, data, out);
      var rows := Combine(s.op, s.all, x, y);
      var plain := Arrangement(rows);
      ShapedPlain(rows, plain);
      assert Means(bare, data, plain);
      assert TreeYields(q.rtable, q.tree, data, rows);
    }
  }

  /**
   * What a compiled operator without modifiers returns, row by row: the multiplicities of section 7.13 of
   * SQL:2008, part 2, over some results of its arguments.
   */
  lemma OperatorCounts(s: Statement, data: Data, out: seq<Row>) returns (x: Bag, y: Bag)
    requires s.SetOperation? && !s.mods.Present() && TransformClause(s).Ok? && Yields(TransformClause(s).value, data, out)
    ensures MeansBag(s.left, data, x) && MeansBag(s.right, data, y)
    ensures forall r :: multiset(out)[r] == ResultCount(s.op, s.all, x[r], y[r])
  {
    ClauseMeans(s, data);
    assert Means(s, data, out) && s.mods == NO_MODIFIERS;
    x, y := ArgumentsOf(s, data, out);
    ShapedPlain(Combine(s.op, s.all, x, y), out);
    forall r ensures multiset(out)[r] == ResultCount(s.op, s.all, x[r], y[r]) { CombineCounts(s.op, s.all, x, y, r); }
  }

  /** A statement is refused exactly when some operator's arguments differ in their number of columns. */
  lemma {:induction false} RefusedExactlyWhenNotAligned(s: Statement, entries: seq<Query>)
    ensures TransformClause(s) == Err(ColumnCountMismatch) || TransformClause(s).Ok?
    ensures TransformClause(s).Ok? <==> Aligned(s)
    ensures TransformTree(s, entries) == Err(ColumnCountMismatch) || TransformTree(s, entries).Ok?
    ensures TransformTree(s, entries).Ok? <==> Aligned(s)
    decreases Size(s), s.mods.Present(), 1
  {
    if s.SetOperation? {
      if s.mods.Present() {
        RefusedExactlyWhenNotAligned(SetOperation(s.op, s.all, s.left, s.right, NO_MODIFIERS), []);
      } else {
        TreeRefused(s, entries);
        TreeRefused(s, []);
      }
    }
  }

  lemma {:induction false} TreeRefused(s: Statement, entries: seq<Query>)
    requires s.SetOperation? && !s.mods.Present()
    ensures TransformTree(s, entries) == Err(ColumnCountMismatch) || TransformTree(s, entries).Ok?
    ensures TransformTree(s, entries).Ok? <==> Aligned(s)
    decreases Size(s), false, 0
  {
    RefusedExactlyWhenNotAligned(s.left, entries);
    var left := TransformTree(s.left, entries);
    if left.Ok? {
      RefusedExactlyWhenNotAligned(s.right, left.value.1);
      TreeMeans(s.left, entries, _ => multiset{});
      if TransformTree(s.right, left.value.1).Ok? {
        TreeMeans(s.right, left.value.1, _ => multiset{});
      }
    }
  }

  // ---------------------------------------------------------------- the compiler's own steps

  class ParseState {
    var rtable: seq<Query>

    constructor ()
      ensures rtable == []
    {
      rtable := [];
    }

    /** Appends the leaf queries of the tree to the range table. */
    method TransformUnionTree(s: Statement) returns (r: Result<(OpTree, nat)>)
      modifies this
      ensures match TransformTree(s, old(rtable))
              case Ok((tree, all, width)) => r == Ok((tree, width)) && rtable == all
              case Err(e) => r == Err(e)
      decreases Size(s), if s.Return? || s.mods.Present() then 2 else 0, 0
    {
      if s.Return? || s.mods.Present() {
        var sub := new ParseState();
        var q :- sub.TransformStatement(s);
        rtable := rtable + [q];
        return Ok((Ref(|rtable|), |q.columns|));
      }
      var left :- TransformUnionTree(s.left);
      var right :- TransformUnionTree(s.right);
      if left.1 != right.1 { return Err(ColumnCountMismatch); }
      return Ok((Op(s.op, s.all, left.0, right.0, left.1), left.1));
    }

    method TransformStatement(s: Statement) returns (r: Result<Query>)
      requires rtable == []
      modifies this
      ensures r == TransformClause(s)
      decreases Size(s), 1, 1
    {
      if s.Return? { return Ok(ReturnQuery(s.id, s.columns, s.mods)); }
      var (orderBy, skip, limit) := (s.mods.orderBy, s.mods.skip, s.mods.limit);
      var root :- TransformUnionTree(SetOperation(s.op, s.all, s.left, s.right, NO_MODIFIERS));
      var node := root.0;
      while node.Op?
        invariant Leftmost(node) == Leftmost(root.0)
        decreases node
      {
        node := node.left;
      }
      assert Indices(root.0)[0] == node.rtindex == 1;
      var leftmostQuery := rtable[node.rtindex - 1];
      return Ok(UnionQuery(RangeTable(rtable), root.0, leftmostQuery.columns, Modifiers(orderBy, skip, limit)));
    }
  }
}
