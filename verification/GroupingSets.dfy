/**
 * GROUP BY lists with ROLLUP, CUBE and GROUPING SETS: flattening to a normal form, and the grouping
 * sets that a list stands for.
 */
module GroupingSets {
  import opened Results

  datatype Kind = Empty | Sets | Rollup | Cube

  /** Expressions that the target list identifies have the same number. A `List` is what flattening makes of a row. */
  datatype Item =
    | Expr(id: nat)
    | Row(args: seq<Item>)
    | List(items: seq<Item>)
    | GroupingSet(kind: Kind, content: seq<Item>)

  // ---------------------------------------------------------------- what the grammar makes

  /** An expression, where a row in parentheses is an expression too. */
  predicate IsExpression(item: Item) {
    match item
    case Expr(_) => true
    case Row(args) => args != [] && forall k | 0 <= k < |args| :: IsExpression(args[k])
    case _ => false
  }

  predicate IsGroupItem(item: Item) {
    match item
    case GroupingSet(kind, content) =>
      (match kind
       case Empty => content == []
       case Sets => forall k | 0 <= k < |content| :: IsGroupItem(content[k])
       case _ => forall k | 0 <= k < |content| :: IsExpression(content[k]))
    case _ => IsExpression(item)
  }

  predicate AllGroupItems(items: seq<Item>) {
    forall k | 0 <= k < |items| :: IsGroupItem(items[k])
  }

  // ---------------------------------------------------------------- flattening

  /** What a node is flattened to; an empty list is the absence of a node. */
  function Flatten(item: Item, toplevel: bool): Item
    decreases item
  {
    match item
    case Expr(_) => item
    case Row(args) => List(FlattenList(args, false))
    case List(items) => List(FlattenList(items, toplevel))
    case GroupingSet(kind, content) =>
      if toplevel && kind == Empty then List([])
      else
        var flat := FlattenContent(content);
        if toplevel || kind != Sets then GroupingSet(kind, flat) else List(flat)
  }

  function FlattenList(items: seq<Item>, toplevel: bool): seq<Item>
    decreases items
  {
    if items == [] then []
    else
      var n := Flatten(items[0], toplevel);
      (if n.List? then n.items else [n]) + FlattenList(items[1..], toplevel)
  }

  /** The content of a grouping set, in which nested GROUPING SETS dissolve. */
  function FlattenContent(items: seq<Item>): seq<Item>
    decreases items
  {
    if items == [] then []
    else
      var n := Flatten(items[0], false);
      (if items[0].GroupingSet? && items[0].kind == Sets then n.items else [n]) + FlattenContent(items[1..])
  }

  // ---------------------------------------------------------------- the grouping sets of a list

  type Columns = set<nat>

  /** The columns of an expression or of a list of them. */
  function ColumnsOf(item: Item): Columns
    decreases item
  {
    match item
    case Expr(id) => {id}
    case Row(args) => AllColumns(args)
    case List(items) => AllColumns(items)
    case GroupingSet(_, content) => AllColumns(content)
  }

  function AllColumns(items: seq<Item>): Columns
    decreases items
  {
    if items == [] then {} else ColumnsOf(items[0]) + AllColumns(items[1..])
  }

  function Each(items: seq<Item>): seq<Columns> {
    seq(|items|, k requires 0 <= k < |items| => ColumnsOf(items[k]))
  }

  function UnionOf(cs: seq<Columns>): Columns {
    if cs == [] then {} else UnionOf(cs[..|cs| - 1]) + cs[|cs| - 1]
  }

  /** ROLLUP: the unions of all prefixes, longest first. */
  function Prefixes(cs: seq<Columns>): seq<Columns> {
    if cs == [] then [{}] else [UnionOf(cs)] + Prefixes(cs[..|cs| - 1])
  }

  function AddTo(c: Columns, sets: seq<Columns>): seq<Columns> {
    seq(|sets|, k requires 0 <= k < |sets| => c + sets[k])
  }

  /** CUBE: the unions of all subsets. */
  function Subsets(cs: seq<Columns>): seq<Columns> {
    if cs == [] then [{}] else AddTo(cs[0], Subsets(cs[1..])) + Subsets(cs[1..])
  }

  /** The items of a GROUP BY list multiply. */
  function Product(xs: seq<Columns>, ys: seq<Columns>): seq<Columns> {
    if xs == [] then [] else AddTo(xs[0], ys) + Product(xs[1..], ys)
  }

  function SetsOf(item: Item): seq<Columns>
    decreases item
  {
    match item
    case GroupingSet(kind, content) =>
      (match kind
       case Empty => [{}]
       case Sets => SetsOfAll(content)
       case Rollup => Prefixes(Each(content))
       case Cube => Subsets(Each(content)))
    case _ => [ColumnsOf(item)]
  }

  /** The items of GROUPING SETS add up. */
  function SetsOfAll(items: seq<Item>): seq<Columns>
    decreases items
  {
    if items == [] then [] else SetsOf(items[0]) + SetsOfAll(items[1..])
  }

  function GroupBy(items: seq<Item>): seq<Columns> {
    if items == [] then [{}] else Product(SetsOf(items[0]), GroupBy(items[1..]))
  }

  lemma {:induction false} UnionOfIs(cs: seq<Columns>)
    ensures forall c :: c in UnionOf(cs) <==> exists j :: 0 <= j < |cs| && c in cs[j]
  {
    if cs != [] {
      var most := cs[..|cs| - 1];
      UnionOfIs(most);
      forall c ensures c in UnionOf(cs) <==> exists j :: 0 <= j < |cs| && c in cs[j] {
        if j :| 0 <= j < |cs| && c in cs[j] {
          assert j < |most| ==> c in most[j];
        }
      }
    }
  }

  /** ROLLUP of n elements has n + 1 grouping sets: all elements, all but the last, and so on to none. */
  lemma {:induction false} PrefixesAre(cs: seq<Columns>, k: nat)
    requires k <= |cs|
    ensures |Prefixes(cs)| == |cs| + 1 && Prefixes(cs)[k] == UnionOf(cs[..|cs| - k])
    ensures forall c :: c in Prefixes(cs)[k] <==> exists j :: 0 <= j < |cs| - k && c in cs[j]
  {
    var front := cs[..|cs| - k];
    UnionOfIs(front);
    assert forall j | 0 <= j < |front| :: front[j] == cs[j];
    if cs != [] {
      PrefixesAre(cs[..|cs| - 1], if k == 0 then 0 else k - 1);
      assert cs[..|cs|] == cs;
      if k > 0 { assert cs[..|cs| - 1][..|cs| - k] == cs[..|cs| - k]; }
    }
  }

  /** The union of the chosen elements. */
  function Chosen(cs: seq<Columns>, choice: seq<bool>): Columns
    requires |choice| == |cs|
  {
    if cs == [] then {} else (if choice[0] then cs[0] else {}) + Chosen(cs[1..], choice[1..])
  }

  lemma {:induction false} ChosenIs(cs: seq<Columns>, choice: seq<bool>)
    requires |choice| == |cs|
    ensures forall c :: c in Chosen(cs, choice) <==> exists j :: 0 <= j < |cs| && choice[j] && c in cs[j]
  {
    if cs != [] {
      ChosenIs(cs[1..], choice[1..]);
      forall c ensures c in Chosen(cs, choice) <==> exists j :: 0 <= j < |cs| && choice[j] && c in cs[j] {
        if j :| 0 <= j < |cs| && choice[j] && c in cs[j] {
          assert j > 0 ==> choice[1..][j - 1] && c in cs[1..][j - 1];
        }
        if c in Chosen(cs[1..], choice[1..]) {
          var j :| 0 <= j < |cs[1..]| && choice[1..][j] && c in cs[1..][j];
          assert choice[j + 1] && c in cs[j + 1];
        }
      }
    }
  }

  function PowerOfTwo(n: nat): nat {
    if n == 0 then 1 else 2 * PowerOfTwo(n - 1)
  }

  lemma {:induction false} SubsetsSize(cs: seq<Columns>)
    ensures |Subsets(cs)| == PowerOfTwo(|cs|)
  {
    if cs != [] { SubsetsSize(cs[1..]); }
  }

  lemma {:induction false} ChosenIsSubset(cs: seq<Columns>, choice: seq<bool>)
    requires |choice| == |cs|
    ensures Chosen(cs, choice) in Subsets(cs)
  {
    if cs != [] {
      ChosenIsSubset(cs[1..], choice[1..]);
      var rest, c := Subsets(cs[1..]), Chosen(cs[1..], choice[1..]);
      var k :| 0 <= k < |rest| && rest[k] == c;
      assert AddTo(cs[0], rest)[k] == cs[0] + c && {} + c == c;
    }
  }

  lemma {:induction false} SubsetIsChosen(cs: seq<Columns>, c: Columns) returns (choice: seq<bool>)
    requires c in Subsets(cs)
    ensures |choice| == |cs| && Chosen(cs, choice) == c
  {
    if cs == [] {
      choice := [];
    } else {
      var rest := Subsets(cs[1..]);
      if c in rest {
        var others := SubsetIsChosen(cs[1..], c);
        choice := [false] + others;
        assert choice[1..] == others && {} + c == c;
      } else {
        var k :| 0 <= k < |rest| && AddTo(cs[0], rest)[k] == c;
        var others := SubsetIsChosen(cs[1..], rest[k]);
        choice := [true] + others;
        assert choice[1..] == others;
      }
    }
  }

  /** CUBE of n elements has a grouping set for each of the 2^n choices among them, and no others. */
  lemma SubsetsAre(cs: seq<Columns>)
    ensures |Subsets(cs)| == PowerOfTwo(|cs|)
    ensures forall choice: seq<bool> | |choice| == |cs| :: Chosen(cs, choice) in Subsets(cs)
    ensures forall c | c in Subsets(cs) :: exists choice: seq<bool> :: |choice| == |cs| && Chosen(cs, choice) == c
  {
    hide Subsets, Chosen, PowerOfTwo;
    SubsetsSize(cs);
    forall choice: seq<bool> | |choice| == |cs| ensures Chosen(cs, choice) in Subsets(cs) {
      ChosenIsSubset(cs, choice);
    }
    forall c | c in Subsets(cs) ensures exists choice: seq<bool> :: |choice| == |cs| && Chosen(cs, choice) == c {
      var choice := SubsetIsChosen(cs, c);
    }
  }

  /** Two items of the list give all unions of a set of the one with a set of the other. */
  lemma {:induction false} ProductIs(xs: seq<Columns>, ys: seq<Columns>, i: nat, j: nat)
    requires i < |xs| && j < |ys|
    ensures |Product(xs, ys)| == |xs| * |ys| && i * |ys| + j < |xs| * |ys|
    ensures Product(xs, ys)[i * |ys| + j] == xs[i] + ys[j]
  {
    ProductSize(xs, ys);
    IndexInGrid(i, j, |xs|, |ys|);
    if i > 0 {
      ProductIs(xs[1..], ys, i - 1, j);
      assert i * |ys| + j == |ys| + ((i - 1) * |ys| + j);
    }
  }

  lemma IndexInGrid(i: nat, j: nat, m: nat, n: nat)
    requires i < m && j < n
    ensures i * n + j < m * n
  {
    assert (i + 1) * n <= m * n;
  }

  lemma {:induction false} ProductSize(xs: seq<Columns>, ys: seq<Columns>)
    ensures |Product(xs, ys)| == |xs| * |ys|
  {
    if xs != [] {
      ProductSize(xs[1..], ys);
      OneMoreRow(|xs[1..]|, |ys|);
    }
  }

  lemma OneMoreRow(m: nat, n: nat)
    ensures (m + 1) * n == n + m * n
  {}

  // ---------------------------------------------------------------- the normal form

  predicate InSet(item: Item) {
    item.Expr? || (item.List? && item.items != [] && forall k | 0 <= k < |item.items| :: item.items[k].Expr?)
  }

  /** Lists at most two deep; ROLLUP and CUBE may be inside GROUPING SETS, but nothing else nests. */
  predicate IsNormal(item: Item) {
    match item
    case GroupingSet(kind, content) =>
      (match kind
       case Empty => content == []
       case Sets => forall k | 0 <= k < |content| ::
         InSet(content[k]) || (content[k].GroupingSet? && content[k].kind != Sets && IsNormal(content[k]))
       case _ => forall k | 0 <= k < |content| :: InSet(content[k]))
    case _ => item.Expr?
  }

  predicate IsNormalTop(item: Item) {
    IsNormal(item) && !(item.GroupingSet? && item.kind == Empty)
  }

  predicate InSets(item: Item) {
    InSet(item) || (item.GroupingSet? && item.kind != Sets && IsNormal(item))
  }

  // ---------------------------------------------------------------- expressions

  lemma AllColumnsInTwo(xs: seq<Item>, ys: seq<Item>)
    ensures AllColumns(xs + ys) == AllColumns(xs) + AllColumns(ys)
  {
    if xs == [] {
      assert xs + ys == ys;
    } else {
      assert (xs + ys)[0] == xs[0] && (xs + ys)[1..] == xs[1..] + ys;
      AllColumnsInTwo(xs[1..], ys);
    }
  }

  lemma {:induction false} FlattenExpression(item: Item, toplevel: bool)
    requires IsExpression(item)
    ensures InSet(Flatten(item, toplevel)) && ColumnsOf(Flatten(item, toplevel)) == ColumnsOf(item)
    decreases item
  {
    if item.Row? { FlattenExpressions(item.args, false); }
  }

  lemma {:induction false} FlattenExpressions(items: seq<Item>, toplevel: bool)
    requires forall k | 0 <= k < |items| :: IsExpression(items[k])
    ensures var flat := FlattenList(items, toplevel);
            && (forall k | 0 <= k < |flat| :: flat[k].Expr?)
            && AllColumns(flat) == AllColumns(items) && (items != [] ==> flat != [])
    decreases items
  {
    if items != [] {
      FlattenExpression(items[0], toplevel);
      FlattenExpressions(items[1..], toplevel);
      var n := Flatten(items[0], toplevel);
      AllColumnsInTwo(if n.List? then n.items else [n], FlattenList(items[1..], toplevel));
      assert n.Expr? ==> AllColumns([n]) == ColumnsOf(n) + AllColumns([]);
    }
  }

  /** The content of ROLLUP and CUBE. */
  lemma {:induction false} FlattenElements(items: seq<Item>)
    requires forall k | 0 <= k < |items| :: IsExpression(items[k])
    ensures var flat := FlattenContent(items);
            && Each(flat) == Each(items) && AllColumns(flat) == AllColumns(items)
            && forall k | 0 <= k < |flat| :: InSet(flat[k])
  {
    if items != [] {
      FlattenExpression(items[0], false);
      FlattenElements(items[1..]);
      assert FlattenContent(items) == [Flatten(items[0], false)] + FlattenContent(items[1..]);
      assert Each(items) == [ColumnsOf(items[0])] + Each(items[1..]);
    }
  }

  // ---------------------------------------------------------------- GROUPING SETS

  lemma SetsOfAllInTwo(xs: seq<Item>, ys: seq<Item>)
    ensures SetsOfAll(xs + ys) == SetsOfAll(xs) + SetsOfAll(ys)
  {
    if xs == [] {
      assert xs + ys == ys;
    } else {
      assert (xs + ys)[0] == xs[0] && (xs + ys)[1..] == xs[1..] + ys;
      SetsOfAllInTwo(xs[1..], ys);
    }
  }

  lemma {:induction false} FlattenGroupItem(item: Item)
    requires IsGroupItem(item)
    ensures var n := Flatten(item, false);
            if item.GroupingSet? && item.kind == Sets
            then n.List? && SetsOfAll(n.items) == SetsOf(item) && AllColumns(n.items) == ColumnsOf(item)
                 && forall k | 0 <= k < |n.items| :: InSets(n.items[k])
            else SetsOf(n) == SetsOf(item) && ColumnsOf(n) == ColumnsOf(item) && InSets(n)
    decreases item
  {
    match item
    case GroupingSet(kind, content) =>
      match kind {
        case Empty =>
        case Sets => FlattenGroupContent(content);
        case Rollup => FlattenElements(content);
        case Cube => FlattenElements(content);
      }
    case _ => FlattenExpression(item, false);
  }

  /** Nested GROUPING SETS dissolve without changing the sum, and what remains is normal. */
  lemma {:induction false} FlattenGroupContent(items: seq<Item>)
    requires AllGroupItems(items)
    ensures var flat := FlattenContent(items);
            && SetsOfAll(flat) == SetsOfAll(items) && AllColumns(flat) == AllColumns(items)
            && forall k | 0 <= k < |flat| :: InSets(flat[k])
    decreases items
  {
    if items != [] {
      FlattenGroupItem(items[0]);
      FlattenGroupContent(items[1..]);
      var n := Flatten(items[0], false);
      var head := if items[0].GroupingSet? && items[0].kind == Sets then n.items else [n];
      SetsOfAllInTwo(head, FlattenContent(items[1..]));
      AllColumnsInTwo(head, FlattenContent(items[1..]));
      assert SetsOfAll([n]) == SetsOf(n) + SetsOfAll([]);
      assert AllColumns([n]) == ColumnsOf(n) + AllColumns([]);
    }
  }

  // ---------------------------------------------------------------- the whole list

  lemma AddToTwice(c: Columns, d: Columns, sets: seq<Columns>)
    ensures AddTo(c, AddTo(d, sets)) == AddTo(c + d, sets)
  {
    assert forall k | 0 <= k < |sets| :: c + (d + sets[k]) == c + d + sets[k];
  }

  lemma AddToInTwo(c: Columns, xs: seq<Columns>, ys: seq<Columns>)
    ensures AddTo(c, xs + ys) == AddTo(c, xs) + AddTo(c, ys)
  {}

  lemma ProductInTwo(xs: seq<Columns>, ys: seq<Columns>, zs: seq<Columns>)
    ensures Product(xs + ys, zs) == Product(xs, zs) + Product(ys, zs)
  {
    if xs == [] {
      assert xs + ys == ys;
    } else {
      assert (xs + ys)[0] == xs[0] && (xs + ys)[1..] == xs[1..] + ys;
      ProductInTwo(xs[1..], ys, zs);
    }
  }

  lemma {:induction false} AddToProduct(c: Columns, xs: seq<Columns>, ys: seq<Columns>)
    ensures Product(AddTo(c, xs), ys) == AddTo(c, Product(xs, ys))
  {
    if xs != [] {
      AddToProduct(c, xs[1..], ys);
      assert AddTo(c, xs)[1..] == AddTo(c, xs[1..]);
      AddToTwice(c, xs[0], ys);
      AddToInTwo(c, AddTo(xs[0], ys), Product(xs[1..], ys));
    }
  }

  lemma {:induction false} ProductAssociates(xs: seq<Columns>, ys: seq<Columns>, zs: seq<Columns>)
    ensures Product(Product(xs, ys), zs) == Product(xs, Product(ys, zs))
  {
    if xs != [] {
      ProductAssociates(xs[1..], ys, zs);
      ProductInTwo(AddTo(xs[0], ys), Product(xs[1..], ys), zs);
      AddToProduct(xs[0], ys, zs);
    }
  }

  lemma ProductOfOne(c: Columns, xs: seq<Columns>)
    ensures Product([c], xs) == AddTo(c, xs)
  {
    assert [c][1..] == [] && AddTo(c, xs) + [] == AddTo(c, xs);
  }

  lemma ProductUnit(xs: seq<Columns>)
    ensures Product([{}], xs) == xs
  {
    assert forall k | 0 <= k < |xs| :: {} + xs[k] == xs[k];
    assert AddTo({}, xs) == xs;
  }

  lemma {:induction false} GroupByInTwo(xs: seq<Item>, ys: seq<Item>)
    ensures GroupBy(xs + ys) == Product(GroupBy(xs), GroupBy(ys))
  {
    if xs == [] {
      assert xs + ys == ys;
      ProductUnit(GroupBy(ys));
    } else {
      assert (xs + ys)[0] == xs[0] && (xs + ys)[1..] == xs[1..] + ys;
      GroupByInTwo(xs[1..], ys);
      ProductAssociates(SetsOf(xs[0]), GroupBy(xs[1..]), GroupBy(ys));
    }
  }

  lemma {:induction false} GroupByExpressions(items: seq<Item>)
    requires forall k | 0 <= k < |items| :: items[k].Expr?
    ensures GroupBy(items) == [AllColumns(items)]
  {
    if items != [] {
      GroupByExpressions(items[1..]);
      ProductOfOne(ColumnsOf(items[0]), GroupBy(items[1..]));
      assert AddTo(ColumnsOf(items[0]), [AllColumns(items[1..])]) == [AllColumns(items)];
    }
  }

  lemma GroupByOne(item: Item)
    ensures GroupBy([item]) == SetsOf(item)
  {
    ProductWithUnit(SetsOf(item));
  }

  lemma {:induction false} ProductWithUnit(xs: seq<Columns>)
    ensures Product(xs, [{}]) == xs
  {
    if xs != [] {
      ProductWithUnit(xs[1..]);
      assert xs[0] + {} == xs[0];
      assert AddTo(xs[0], [{}]) == [xs[0]];
    }
  }

  /** One item of the list, at top level. */
  lemma FlattenTopItem(item: Item)
    requires IsGroupItem(item)
    ensures var n := Flatten(item, true);
            var head := if n.List? then n.items else [n];
            && GroupBy(head) == SetsOf(item) && AllColumns(head) == ColumnsOf(item)
            && forall k | 0 <= k < |head| :: IsNormalTop(head[k])
  {
    var n := Flatten(item, true);
    assert AllColumns([n]) == ColumnsOf(n) + AllColumns([]);
    match item
    case GroupingSet(kind, content) =>
      if kind == Sets { FlattenGroupContent(content); }
      if kind == Rollup || kind == Cube { FlattenElements(content); }
      if kind != Empty { GroupByOne(n); }
    case Row(_) =>
      FlattenExpression(item, true);
      GroupByExpressions(n.items);
    case Expr(_) => GroupByOne(n);
  }

  /** Flattening keeps the bag of grouping sets and reaches the normal form. */
  lemma {:induction false} FlattenKeepsSets(items: seq<Item>)
    requires AllGroupItems(items)
    ensures var flat := FlattenList(items, true);
            && GroupBy(flat) == GroupBy(items) && AllColumns(flat) == AllColumns(items)
            && forall k | 0 <= k < |flat| :: IsNormalTop(flat[k])
  {
    if items != [] {
      FlattenTopItem(items[0]);
      FlattenKeepsSets(items[1..]);
      var n := Flatten(items[0], true);
      var head := if n.List? then n.items else [n];
      GroupByInTwo(head, FlattenList(items[1..], true));
      AllColumnsInTwo(head, FlattenList(items[1..], true));
    }
  }

  // ---------------------------------------------------------------- flattening twice

  lemma {:induction false} FlattenFlatList(items: seq<Item>, toplevel: bool)
    requires forall k | 0 <= k < |items| :: items[k].Expr?
    ensures FlattenList(items, toplevel) == items
  {
    if items != [] { FlattenFlatList(items[1..], toplevel); }
  }

  lemma {:induction false} FlattenNormalContent(items: seq<Item>)
    requires forall k | 0 <= k < |items| :: InSets(items[k])
    ensures FlattenContent(items) == items
    decreases items
  {
    if items != [] {
      FlattenNormalContent(items[1..]);
      match items[0]
      case Expr(_) =>
      case List(xs) => FlattenFlatList(xs, false);
      case GroupingSet(kind, content) =>
        assert forall k | 0 <= k < |content| :: InSets(content[k]);
        FlattenNormalContent(content);
    }
  }

  /** A list in normal form is left as it is, so flattening twice is flattening once. */
  lemma {:induction false} FlattenKeepsNormal(items: seq<Item>)
    requires forall k | 0 <= k < |items| :: IsNormalTop(items[k])
    ensures FlattenList(items, true) == items
  {
    if items != [] {
      FlattenKeepsNormal(items[1..]);
      if items[0].GroupingSet? {
        assert forall k | 0 <= k < |items[0].content| :: InSets(items[0].content[k]);
        FlattenNormalContent(items[0].content);
      }
    }
  }

  lemma FlattenTwice(items: seq<Item>)
    requires AllGroupItems(items)
    ensures FlattenList(FlattenList(items, true), true) == FlattenList(items, true)
  {
    FlattenKeepsSets(items);
    FlattenKeepsNormal(FlattenList(items, true));
  }

  // ---------------------------------------------------------------- transforming the flattened list

  const CUBE_LIMIT: nat := 12

  /** A grouping set of the query tree, over the numbers of GROUP BY entries. */
  datatype Gset = NoColumns | Simple(refs: seq<nat>) | Node(kind: Kind, content: seq<Gset>)

  function RefSet(refs: seq<nat>): Columns {
    set r | r in refs
  }

  function RefSets(gs: seq<Gset>): seq<Columns> {
    seq(|gs|, k requires 0 <= k < |gs| => if gs[k].Simple? then RefSet(gs[k].refs) else {})
  }

  /** The grouping sets a node of the query tree stands for. */
  function Denoted(g: Gset): seq<Columns>
    decreases g
  {
    match g
    case NoColumns => [{}]
    case Simple(refs) => [RefSet(refs)]
    case Node(kind, content) =>
      (match kind
       case Empty => [{}]
       case Sets => DenotedAll(content)
       case Rollup => Prefixes(RefSets(content))
       case Cube => Subsets(RefSets(content)))
  }

  function DenotedAll(gs: seq<Gset>): seq<Columns>
    decreases gs
  {
    if gs == [] then [] else DenotedAll(gs[..|gs| - 1]) + Denoted(gs[|gs| - 1])
  }

  function DenotedProduct(gs: seq<Gset>): seq<Columns> {
    if gs == [] then [{}] else Product(DenotedProduct(gs[..|gs| - 1]), Denoted(gs[|gs| - 1]))
  }

  /** The query groups by its clause, or by the product of its grouping sets if it has any. */
  function Grouping(clause: seq<nat>, gsets: seq<Gset>): seq<Columns> {
    if gsets == [] then [RefSet(clause)] else DenotedProduct(gsets)
  }

  predicate NoRepeats(refs: seq<nat>) {
    forall i, j | 0 <= i < j < |refs| :: refs[i] != refs[j]
  }

  /** The entry list has grown by exactly the new columns. */
  predicate Grown(flat: seq<nat>, next: seq<nat>, columns: Columns) {
    flat <= next && NoRepeats(next) && RefSet(next) == RefSet(flat) + columns
  }

  predicate HasSets(items: seq<Item>) {
    exists k :: 0 <= k < |items| && items[k].GroupingSet?
  }

  predicate CubeTooBig(item: Item)
    decreases item
  {
    item.GroupingSet? &&
    ((item.kind == Cube && |item.content| > CUBE_LIMIT) ||
     exists k | 0 <= k < |item.content| :: CubeTooBig(item.content[k]))
  }

  /** The entry for an expression; none for one already seen at its own level. */
  method TransformExpr(flat: seq<nat>, seen: set<nat>, e: nat) returns (ref: Option<nat>, next: seq<nat>)
    requires NoRepeats(flat)
    ensures ref == if e in seen then None else Some(e)
    ensures if e in seen then next == flat else Grown(flat, next, {e})
  {
    if e in seen { return None, flat; }
    next := if e in flat then flat else flat + [e];
    ref := Some(e);
  }

  lemma AllColumnsUpTo(items: seq<Item>, k: nat)
    requires k < |items|
    ensures AllColumns(items[..k + 1]) == AllColumns(items[..k]) + ColumnsOf(items[k])
  {
    assert items[..k + 1] == items[..k] + [items[k]];
    AllColumnsInTwo(items[..k], [items[k]]);
    assert AllColumns([items[k]]) == ColumnsOf(items[k]) + AllColumns([]);
  }

  /** A list inside a grouping set: repetitions are dropped. */
  method TransformList(flat: seq<nat>, items: seq<Item>) returns (refs: seq<nat>, next: seq<nat>)
    requires NoRepeats(flat) && forall k | 0 <= k < |items| :: items[k].Expr?
    ensures RefSet(refs) == AllColumns(items) && NoRepeats(refs)
    ensures Grown(flat, next, AllColumns(items))
  {
    var seen: set<nat> := {};
    refs, next := [], flat;
    for k := 0 to |items|
      invariant seen == RefSet(refs) == AllColumns(items[..k]) && NoRepeats(refs)
      invariant Grown(flat, next, AllColumns(items[..k]))
    {
      AllColumnsUpTo(items, k);
      var ref;
      ref, next := TransformExpr(next, seen, items[k].id);
      if ref.Some? {
        seen := seen + {ref.value};
        refs := refs + [ref.value];
      }
    }
    assert items[..|items|] == items;
  }

  lemma SetsOfAllUpTo(items: seq<Item>, k: nat)
    requires k < |items|
    ensures SetsOfAll(items[..k + 1]) == SetsOfAll(items[..k]) + SetsOf(items[k])
  {
    assert items[..k + 1] == items[..k] + [items[k]];
    SetsOfAllInTwo(items[..k], [items[k]]);
    assert SetsOfAll([items[k]]) == SetsOf(items[k]) + SetsOfAll([]);
  }

  /** One element of a grouping set. */
  method TransformElement(flat: seq<nat>, n: Item) returns (r: Result<Gset>, next: seq<nat>)
    requires NoRepeats(flat) && InSets(n)
    ensures r.Ok? <==> !CubeTooBig(n)
    ensures r.Ok? ==> Denoted(r.value) == SetsOf(n) && Grown(flat, next, ColumnsOf(n))
    ensures r.Ok? && InSet(n) ==> r.value.Simple? && RefSet(r.value.refs) == ColumnsOf(n)
    decreases n, 1
  {
    if n.List? {
      var refs;
      refs, next := TransformList(flat, n.items);
      r := Ok(Simple(refs));
    } else if n.GroupingSet? {
      r, next := TransformGroupingSet(flat, n);
    } else {
      var ref;
      ref, next := TransformExpr(flat, {}, n.id);
      assert RefSet([n.id]) == {n.id};
      r := Ok(Simple([ref.value]));
    }
  }

  /** What the first k elements have become. */
  ghost predicate Transformed(gset: Item, k: nat, content: seq<Gset>)
    requires gset.GroupingSet? && k <= |gset.content|
  {
    && |content| == k
    && (gset.kind == Sets ==> DenotedAll(content) == SetsOfAll(gset.content[..k]))
    && (gset.kind == Rollup || gset.kind == Cube ==> RefSets(content) == Each(gset.content[..k]))
  }

  lemma TransformedNext(gset: Item, k: nat, content: seq<Gset>, g: Gset)
    requires gset.GroupingSet? && k < |gset.content| && Transformed(gset, k, content)
    requires Denoted(g) == SetsOf(gset.content[k])
    requires InSet(gset.content[k]) ==> g.Simple? && RefSet(g.refs) == ColumnsOf(gset.content[k])
    requires gset.kind == Rollup || gset.kind == Cube ==> InSet(gset.content[k])
    ensures Transformed(gset, k + 1, content + [g])
  {
    SetsOfAllUpTo(gset.content, k);
    assert (content + [g])[..k] == content;
    if gset.kind == Rollup || gset.kind == Cube {
      assert RefSets(content + [g]) == RefSets(content) + [RefSet(g.refs)];
      assert Each(gset.content[..k + 1]) == Each(gset.content[..k]) + [ColumnsOf(gset.content[k])];
    }
  }

  lemma NothingTransformed(gset: Item, flat: seq<nat>)
    requires gset.GroupingSet? && NoRepeats(flat)
    ensures Transformed(gset, 0, []) && Grown(flat, flat, AllColumns(gset.content[..0]))
  {
    assert RefSets([]) == Each(gset.content[..0]);
  }

  lemma AllTransformed(gset: Item, content: seq<Gset>)
    requires gset.GroupingSet? && IsNormal(gset) && Transformed(gset, |gset.content|, content)
    ensures Denoted(Node(gset.kind, content)) == SetsOf(gset)
    ensures ColumnsOf(gset) == AllColumns(gset.content[..|gset.content|])
  {
    assert gset.content[..|gset.content|] == gset.content;
  }

  /** A grouping set and its content, which stand for the same grouping sets afterwards. */
  method TransformGroupingSet(flat: seq<nat>, gset: Item) returns (r: Result<Gset>, next: seq<nat>)
    requires NoRepeats(flat) && gset.GroupingSet? && IsNormal(gset)
    ensures r.Ok? <==> !CubeTooBig(gset)
    ensures r.Ok? ==> r.value.Node? && Denoted(r.value) == SetsOf(gset) && Grown(flat, next, ColumnsOf(gset))
    decreases gset, 0
  {
    hide AllColumns, SetsOf, Denoted, InSet, RefSet, ColumnsOf;
    var content: seq<Gset> := [];
    next := flat;
    NothingTransformed(gset, flat);
    for k := 0 to |gset.content|
      invariant Transformed(gset, k, content) && Grown(flat, next, AllColumns(gset.content[..k]))
      invariant forall j | 0 <= j < k :: !CubeTooBig(gset.content[j])
    {
      AllColumnsUpTo(gset.content, k);
      var g;
      g, next := TransformElement(next, gset.content[k]);
      if g.Err? { return Err(TooManyColumns), next; }
      TransformedNext(gset, k, content, g.value);
      content := content + [g.value];
    }
    AllTransformed(gset, content);
    if gset.kind == Cube && |content| > CUBE_LIMIT { return Err(TooManyColumns), next; }
    r := Ok(Node(gset.kind, content));
  }

  lemma GroupByUpTo(items: seq<Item>, k: nat)
    requires k < |items|
    ensures GroupBy(items[..k + 1]) == Product(GroupBy(items[..k]), SetsOf(items[k]))
  {
    assert items[..k + 1] == items[..k] + [items[k]];
    GroupByInTwo(items[..k], [items[k]]);
    GroupByOne(items[k]);
  }

  /** Every grouping set of the list contains the column. */
  predicate InAll(e: nat, sets: seq<Columns>) {
    forall k | 0 <= k < |sets| :: e in sets[k]
  }

  lemma {:induction false} ProductContains(xs: seq<Columns>, ys: seq<Columns>, e: nat)
    requires InAll(e, xs) || InAll(e, ys)
    ensures InAll(e, Product(xs, ys))
  {
    if xs != [] {
      ProductContains(xs[1..], ys, e);
      assert InAll(e, xs) ==> e in xs[0];
    }
  }

  /** Multiplying with a column that every set contains changes nothing. */
  lemma {:induction false} ProductAbsorbs(xs: seq<Columns>, e: nat)
    requires InAll(e, xs)
    ensures Product(xs, [{e}]) == xs
  {
    if xs != [] {
      ProductAbsorbs(xs[1..], e);
      assert e in xs[0];
      assert xs[0] + {e} == xs[0];
      assert AddTo(xs[0], [{e}]) == [xs[0]];
    }
  }

  lemma FlattenKeepsHasSets(items: seq<Item>)
    requires AllGroupItems(items)
    ensures FlattenList(items, true) == [] ==> (items == [] || HasSets(items)) && GroupBy(items) == [{}]
    ensures !HasSets(items) ==> forall k | 0 <= k < |FlattenList(items, true)| :: FlattenList(items, true)[k].Expr?
  {
    FlattenKeepsSets(items);
    if !HasSets(items) { FlattenExpressions(items, true); }
  }

  /** What the first k items have become. */
  ghost predicate GroupedSoFar(flat: seq<Item>, k: nat, has: bool, clause: seq<nat>, gsets: seq<Gset>, seen: set<nat>)
    requires k <= |flat|
  {
    && Grown([], clause, AllColumns(flat[..k])) && seen <= RefSet(clause)
    && (has ==> DenotedProduct(gsets) == GroupBy(flat[..k]) && (k > 0 ==> gsets != []))
    && (has ==> forall e | e in seen :: InAll(e, DenotedProduct(gsets)))
    && (!has ==> gsets == [])
  }

  lemma GroupedGset(flat: seq<Item>, k: nat, clause: seq<nat>, gsets: seq<Gset>, seen: set<nat>, g: Gset, next: seq<nat>)
    requires k < |flat| && GroupedSoFar(flat, k, true, clause, gsets, seen)
    requires Denoted(g) == SetsOf(flat[k]) && Grown(clause, next, ColumnsOf(flat[k]))
    ensures GroupedSoFar(flat, k + 1, true, next, gsets + [g], seen)
  {
    AllColumnsUpTo(flat, k);
    GroupByUpTo(flat, k);
    var sofar := DenotedProduct(gsets);
    assert (gsets + [g])[..|gsets|] == gsets;
    forall e | e in seen ensures InAll(e, Product(sofar, Denoted(g))) { ProductContains(sofar, Denoted(g), e); }
  }

  lemma GroupedNew(flat: seq<Item>, k: nat, has: bool, clause: seq<nat>, gsets: seq<Gset>, seen: set<nat>, next: seq<nat>)
    requires k < |flat| && GroupedSoFar(flat, k, has, clause, gsets, seen) && flat[k].Expr?
    requires Grown(clause, next, {flat[k].id})
    ensures GroupedSoFar(flat, k + 1, has, next, if has then gsets + [Simple([flat[k].id])] else gsets, seen + {flat[k].id})
  {
    var e, g, sofar := flat[k].id, Simple([flat[k].id]), DenotedProduct(gsets);
    assert RefSet([e]) == {e} && InAll(e, Denoted(g));
    if has {
      GroupedGset(flat, k, clause, gsets, seen, g, next);
      ProductContains(sofar, Denoted(g), e);
      assert (gsets + [g])[..|gsets|] == gsets;
    } else {
      AllColumnsUpTo(flat, k);
    }
  }

  lemma GroupedAgain(flat: seq<Item>, k: nat, has: bool, clause: seq<nat>, gsets: seq<Gset>, seen: set<nat>)
    requires k < |flat| && GroupedSoFar(flat, k, has, clause, gsets, seen) && flat[k].Expr? && flat[k].id in seen
    ensures GroupedSoFar(flat, k + 1, has, clause, gsets, seen)
  {
    AllColumnsUpTo(flat, k);
    if has {
      GroupByUpTo(flat, k);
      ProductAbsorbs(DenotedProduct(gsets), flat[k].id);
    }
  }

  lemma GrownFromNothing(next: seq<nat>, columns: Columns)
    requires Grown([], next, columns)
    ensures RefSet(next) == columns
  {
    assert RefSet([]) == {};
  }

  lemma GroupedAll(flat: seq<Item>, has: bool, clause: seq<nat>, gsets: seq<Gset>, seen: set<nat>)
    requires GroupedSoFar(flat, |flat|, has, clause, gsets, seen) && (has ==> flat != [])
    requires !has ==> forall k | 0 <= k < |flat| :: flat[k].Expr?
    ensures Grouping(clause, gsets) == GroupBy(flat) && NoRepeats(clause) && RefSet(clause) == AllColumns(flat)
    ensures gsets != [] <==> has
  {
    hide GroupBy, AllColumns, InAll, Denoted, Product;
    assert flat[..|flat|] == flat;
    assert RefSet(clause) == AllColumns(flat) by { GrownFromNothing(clause, AllColumns(flat)); }
    if !has { GroupByExpressions(flat); }
  }

  /** The flattened list, with () put back if only empty grouping sets were there. */
  function Canonical(items: seq<Item>): seq<Item> {
    var flat := FlattenList(items, true);
    if flat == [] && HasSets(items) then [GroupingSet(Empty, [])] else flat
  }

  lemma CanonicalKeepsSets(items: seq<Item>)
    requires AllGroupItems(items)
    ensures var flat := Canonical(items);
            && GroupBy(flat) == GroupBy(items) && AllColumns(flat) == AllColumns(items)
            && (forall k | 0 <= k < |flat| :: IsNormal(flat[k]))
            && (HasSets(items) ==> flat != [])
            && (!HasSets(items) ==> forall k | 0 <= k < |flat| :: flat[k].Expr?)
  {
    FlattenKeepsSets(items);
    FlattenKeepsHasSets(items);
    GroupByOne(GroupingSet(Empty, []));
    assert AllColumns([GroupingSet(Empty, [])]) == AllColumns([]);
  }

  // ---------------------------------------------------------------- which lists are refused

  /** At the path, in the list as written, stands a CUBE of more than twelve elements. */
  predicate BigCubeAt(items: seq<Item>, path: seq<nat>)
    decreases path
  {
    && path != [] && path[0] < |items| && items[path[0]].GroupingSet?
    && var item := items[path[0]];
       if |path| == 1 then item.kind == Cube && |item.content| > 12 else BigCubeAt(item.content, path[1..])
  }

  predicate AnyTooBig(items: seq<Item>) {
    exists k :: 0 <= k < |items| && CubeTooBig(items[k])
  }

  lemma {:induction false} TooBigIsThere(items: seq<Item>) returns (path: seq<nat>)
    requires AnyTooBig(items)
    ensures BigCubeAt(items, path)
    decreases items
  {
    var k :| 0 <= k < |items| && CubeTooBig(items[k]);
    var item := items[k];
    if item.kind == Cube && |item.content| > CUBE_LIMIT {
      path := [k];
    } else {
      var rest := TooBigIsThere(item.content);
      path := [k] + rest;
      assert path[1..] == rest;
    }
  }

  lemma {:induction false} ThereIsTooBig(items: seq<Item>, path: seq<nat>)
    requires BigCubeAt(items, path)
    ensures AnyTooBig(items)
    decreases path
  {
    if |path| > 1 { ThereIsTooBig(items[path[0]].content, path[1..]); }
    assert CubeTooBig(items[path[0]]);
  }

  lemma AnyTooBigInTwo(xs: seq<Item>, ys: seq<Item>)
    ensures AnyTooBig(xs + ys) <==> AnyTooBig(xs) || AnyTooBig(ys)
  {
    if k :| 0 <= k < |xs| && CubeTooBig(xs[k]) { assert CubeTooBig((xs + ys)[k]); }
    if k :| 0 <= k < |ys| && CubeTooBig(ys[k]) { assert CubeTooBig((xs + ys)[|xs| + k]); }
  }

  lemma {:induction false} ItemKeepsCubes(item: Item)
    requires IsGroupItem(item)
    ensures var n := Flatten(item, false);
            CubeTooBig(item) <==> if item.GroupingSet? && item.kind == Sets then n.List? && AnyTooBig(n.items) else CubeTooBig(n)
    decreases item
  {
    match item
    case GroupingSet(kind, content) =>
      match kind {
        case Empty =>
        case Sets => ContentKeepsCubes(content);
        case Rollup => ElementsKeepCubes(content);
        case Cube => ElementsKeepCubes(content);
      }
    case _ => FlattenExpression(item, false);
  }

  /** A ROLLUP or CUBE keeps the number of its elements, none of which is a grouping set. */
  lemma ElementsKeepCubes(items: seq<Item>)
    requires forall k | 0 <= k < |items| :: IsExpression(items[k])
    ensures |FlattenContent(items)| == |items| && !AnyTooBig(items) && !AnyTooBig(FlattenContent(items))
  {
    FlattenElements(items);
    assert |Each(items)| == |items| && |Each(FlattenContent(items))| == |FlattenContent(items)|;
  }

  lemma {:induction false} ContentKeepsCubes(items: seq<Item>)
    requires AllGroupItems(items)
    ensures AnyTooBig(FlattenContent(items)) <==> AnyTooBig(items)
    decreases items
  {
    if items != [] {
      ItemKeepsCubes(items[0]);
      ContentKeepsCubes(items[1..]);
      var n := Flatten(items[0], false);
      AnyTooBigInTwo(if items[0].GroupingSet? && items[0].kind == Sets then n.items else [n], FlattenContent(items[1..]));
      AnyTooBigInTwo([items[0]], items[1..]);
      OneTooBig(items[0]);
      OneTooBig(n);
      assert items == [items[0]] + items[1..];
    }
  }

  lemma OneTooBig(item: Item)
    ensures AnyTooBig([item]) <==> CubeTooBig(item)
  {
    assert [item][0] == item;
  }

  lemma TopKeepsCubes(item: Item)
    requires IsGroupItem(item)
    ensures var n := Flatten(item, true);
            CubeTooBig(item) <==> AnyTooBig(if n.List? then n.items else [n])
  {
    var n := Flatten(item, true);
    if !n.List? { OneTooBig(n); }
    match item
    case GroupingSet(kind, content) =>
      match kind {
        case Empty =>
        case Sets => ContentKeepsCubes(content);
        case Rollup => ElementsKeepCubes(content);
        case Cube => ElementsKeepCubes(content);
      }
    case _ => FlattenExpression(item, true);
  }

  lemma {:induction false} ListKeepsCubes(items: seq<Item>)
    requires AllGroupItems(items)
    ensures AnyTooBig(FlattenList(items, true)) <==> AnyTooBig(items)
  {
    if items != [] {
      TopKeepsCubes(items[0]);
      ListKeepsCubes(items[1..]);
      var n := Flatten(items[0], true);
      AnyTooBigInTwo(if n.List? then n.items else [n], FlattenList(items[1..], true));
      AnyTooBigInTwo([items[0]], items[1..]);
      OneTooBig(items[0]);
      assert items == [items[0]] + items[1..];
    }
  }

  ghost predicate HasBigCube(items: seq<Item>) {
    exists path: seq<nat> :: BigCubeAt(items, path)
  }

  lemma TooBigExactly(items: seq<Item>)
    ensures AnyTooBig(items) <==> HasBigCube(items)
  {
    hide AnyTooBig, BigCubeAt;
    if AnyTooBig(items) { var path := TooBigIsThere(items); }
    if path: seq<nat> :| BigCubeAt(items, path) { ThereIsTooBig(items, path); }
  }

  /** A CUBE is too big after flattening exactly when it is in the list as written, however deep in GROUPING SETS. */
  lemma CanonicalKeepsCubes(items: seq<Item>)
    requires AllGroupItems(items)
    ensures HasBigCube(items) <==> AnyTooBig(Canonical(items))
  {
    hide AnyTooBig, HasBigCube;
    TooBigExactly(items);
    ListKeepsCubes(items);
    NoBigCube();
  }

  lemma NoBigCube()
    ensures !AnyTooBig([]) && !AnyTooBig([GroupingSet(Empty, [])])
  {
    OneTooBig(GroupingSet(Empty, []));
  }

  /**
   * The whole GROUP BY list. The entries are its columns, each once; the query's grouping sets, in
   * order and with repetitions, are those of the list as written; and a list with any grouping set in
   * it, be it only (), leaves the query with one. It is refused exactly for a CUBE of more than twelve elements.
   */
  method TransformGroupClause(items: seq<Item>) returns (r: Result<(seq<nat>, seq<Gset>)>)
    requires AllGroupItems(items)
    ensures r.Ok? <==> !HasBigCube(items)
    ensures r.Ok? ==>
      var (clause, gsets) := r.value;
      && Grouping(clause, gsets) == GroupBy(items)
      && NoRepeats(clause) && RefSet(clause) == AllColumns(items)
      && (gsets != [] <==> HasSets(items))
  {
    hide CubeTooBig, AllColumns, GroupBy, Denoted, Grouping, RefSet, NoRepeats, SetsOf, HasSets;
    var flat := FlattenList(items, true);
    var has := HasSets(items);
    if flat == [] && has { flat := [GroupingSet(Empty, [])]; }
    assert flat == Canonical(items);
    CanonicalKeepsSets(items);
    CanonicalKeepsCubes(items);
    hide Canonical, FlattenList, IsNormal, HasBigCube;
    var clause: seq<nat>, gsets: seq<Gset>, seen: set<nat> := [], [], {};
    NothingGrouped(flat, has);
    for k := 0 to |flat|
      invariant GroupedSoFar(flat, k, has, clause, gsets, seen) && NoRepeats(clause)
      invariant forall j | 0 <= j < k :: !CubeTooBig(flat[j])
    {
      var n := flat[k];
      ghost var before := clause;
      if n.GroupingSet? {
        var g;
        g, clause := TransformTopSet(clause, n);
        if g.Err? { return Err(TooManyColumns); }
        GroupedGset(flat, k, before, gsets, seen, g.value, clause);
        gsets := gsets + [g.value];
      } else {
        NormalExpression(n);
        var ref;
        ref, clause := TransformExpr(clause, seen, n.id);
        if ref.Some? {
          GroupedNew(flat, k, has, before, gsets, seen, clause);
          seen := seen + {ref.value};
          if has { gsets := gsets + [Simple([ref.value])]; }
        } else {
          GroupedAgain(flat, k, has, clause, gsets, seen);
        }
      }
    }
    GroupedAll(flat, has, clause, gsets, seen);
    r := Ok((clause, gsets));
  }

  lemma NothingGrouped(flat: seq<Item>, has: bool)
    ensures GroupedSoFar(flat, 0, has, [], [], {}) && NoRepeats([])
  {
    assert RefSet([]) == {};
  }

  lemma NormalExpression(n: Item)
    requires IsNormal(n) && !n.GroupingSet?
    ensures n.Expr? && !CubeTooBig(n)
  {}

  /** An item of the list that is a grouping set. */
  method TransformTopSet(clause: seq<nat>, n: Item) returns (r: Result<Gset>, next: seq<nat>)
    requires n.GroupingSet? && IsNormal(n) && NoRepeats(clause)
    ensures r.Ok? <==> !CubeTooBig(n)
    ensures r.Ok? ==> Denoted(r.value) == SetsOf(n) && Grown(clause, next, ColumnsOf(n)) && NoRepeats(next)
  {
    if n.kind == Empty {
      return Ok(NoColumns), clause;
    }
    r, next := TransformGroupingSet(clause, n);
  }
}
