/**
 * When a query groups by plain variables, the check for ungrouped columns refuses nothing that it could accept:
 * for every refused expression there are meanings of its functions, and two rows of one group, on which it differs.
 */
module UngroupedDiffers {
  import opened Results
  import opened Expressions
  import opened AggLevels
  import opened UngroupedColumns

  function Sum(xs: seq<int>): int {
    if xs == [] then 0 else xs[0] + Sum(xs[1..])
  }

  function SumPairs(xs: seq<(seq<int>, seq<int>)>): int {
    if xs == [] then 0 else Sum(xs[0].0) + Sum(xs[0].1) + SumPairs(xs[1..])
  }

  function SumRows(xs: seq<seq<int>>): int {
    if xs == [] then 0 else Sum(xs[0]) + SumRows(xs[1..])
  }

  const ZERO: TableRow := (_, _) => 0

  /** The one frame of every sub-select. */
  ghost const INNER: seq<Frame> := [Frame(ZERO, [ZERO], {})]

  /** Everything is a sum. */
  ghost const SUMS: Meaning := Meaning(
    (_, args) => Sum(args), (_, _, args) => Sum(args), (_, direct, rows) => Sum(direct) + SumPairs(rows), (_, _) => 0,
    _ => INNER, (_, values) => SumRows(values))

  lemma {:induction false} SumGrows(xs: seq<int>, ys: seq<int>)
    requires |xs| == |ys| && forall k | 0 <= k < |xs| :: xs[k] <= ys[k]
    ensures Sum(xs) <= Sum(ys)
    ensures (exists k | 0 <= k < |xs| :: xs[k] < ys[k]) ==> Sum(xs) < Sum(ys)
  {
    if xs != [] {
      SumGrows(xs[1..], ys[1..]);
      if k :| 0 <= k < |xs| && xs[k] < ys[k] {
        if k > 0 { assert xs[1..][k - 1] < ys[1..][k - 1]; }
      }
    }
  }

  lemma {:induction false} SumPairsGrow(xs: seq<(seq<int>, seq<int>)>, ys: seq<(seq<int>, seq<int>)>)
    requires |xs| == |ys| && forall k | 0 <= k < |xs| :: Sum(xs[k].0) <= Sum(ys[k].0) && Sum(xs[k].1) <= Sum(ys[k].1)
    ensures SumPairs(xs) <= SumPairs(ys)
    ensures xs != [] && (Sum(xs[0].0) < Sum(ys[0].0) || Sum(xs[0].1) < Sum(ys[0].1)) ==> SumPairs(xs) < SumPairs(ys)
  {
    if xs != [] { SumPairsGrow(xs[1..], ys[1..]); }
  }

  /** The frames differ only `depth` frames out, in the current row, where the second has no smaller value; no group is empty. */
  ghost predicate Grows(depth: nat, envs: seq<Frame>, other: seq<Frame>) {
    && depth < |envs| == |other|
    && (forall l | 0 <= l < |envs| && l != depth :: envs[l] == other[l])
    && (forall l | 0 <= l <= depth :: envs[l].group != [])
    && envs[depth].group == other[depth].group && envs[depth].gset == other[depth].gset
    && forall rel, attr :: (envs[depth].row)(rel, attr) <= (other[depth].row)(rel, attr)
  }

  /** Ungrouped columns are larger in the second row. */
  ghost predicate Separates(groups: seq<Expr>, depth: nat, envs: seq<Frame>, other: seq<Frame>) {
    Grows(depth, envs, other)
    && forall rel, attr | Var(0, rel, attr) !in groups :: (envs[depth].row)(rel, attr) < (other[depth].row)(rel, attr)
  }

  lemma AtRowGrows(depth: nat, envs: seq<Frame>, other: seq<Frame>, level: nat, k: nat)
    requires Grows(depth, envs, other) && level < |envs| && k < |envs[level].group|
    ensures |other[level].group| == |envs[level].group|
    ensures level == depth ==> AtRow(envs, level, k) == AtRow(other, level, k)
    ensures level != depth ==> Grows(depth, AtRow(envs, level, k), AtRow(other, level, k))
    ensures level != depth ==> AtRow(envs, level, k)[depth].row == envs[depth].row && AtRow(other, level, k)[depth].row == other[depth].row
  {}

  lemma InsideGrows(depth: nat, envs: seq<Frame>, other: seq<Frame>)
    requires Grows(depth, envs, other)
    ensures Grows(depth + 1, INNER + envs, INNER + other)
  {}

  lemma AtRowSeparates(groups: seq<Expr>, depth: nat, envs: seq<Frame>, other: seq<Frame>, level: nat, k: nat)
    requires Separates(groups, depth, envs, other) && level < |envs| && k < |envs[level].group| && level != depth
    ensures |other[level].group| == |envs[level].group| && Separates(groups, depth, AtRow(envs, level, k), AtRow(other, level, k))
  {
    AtRowGrows(depth, envs, other, level, k);
  }

  lemma InsideSeparates(groups: seq<Expr>, depth: nat, envs: seq<Frame>, other: seq<Frame>)
    requires Separates(groups, depth, envs, other)
    ensures Separates(groups, depth + 1, INNER + envs, INNER + other)
  {
    InsideGrows(depth, envs, other);
  }

  /** Sums do not shrink. */
  lemma {:induction false} ValueGrows(e: Expr, depth: nat, envs: seq<Frame>, other: seq<Frame>)
    requires Grows(depth, envs, other)
    ensures Eval(SUMS, e, envs) <= Eval(SUMS, e, other)
    decreases e, 1
  {
    match e
    case Const(_) =>
    case Var(_, _, _) =>
    case Grouping(_, _) =>
    case Call(_, _, args) => ValuesGrow(args, depth, envs, other);
    case Window(_, args) => ValuesGrow(args, depth, envs, other);
    case Query(_, members) =>
      InsideGrows(depth, envs, other);
      ValuesGrow(members, depth + 1, INNER + envs, INNER + other);
      QueryIs(e, envs);
      QueryIs(e, other);
    case Aggref(_, level, direct, args, filter) =>
      if level < |envs| {
        ValuesGrow(direct, depth, envs, other);
        PerRowGrows(e, depth, envs, other);
        SumPairsGrow(PerRow(SUMS, e, envs), PerRow(SUMS, e, other));
      }
  }

  lemma {:induction false} PerRowGrows(e: Expr, depth: nat, envs: seq<Frame>, other: seq<Frame>)
    requires e.Aggref? && e.level < |envs| && Grows(depth, envs, other)
    ensures var xs, ys := PerRow(SUMS, e, envs), PerRow(SUMS, e, other);
            |xs| == |ys| && forall k | 0 <= k < |xs| :: Sum(xs[k].0) <= Sum(ys[k].0) && Sum(xs[k].1) <= Sum(ys[k].1)
    decreases e, 0
  {
    forall k | 0 <= k < |envs[e.level].group|
      ensures |other[e.level].group| == |envs[e.level].group|
      ensures Sum(EvalAll(SUMS, e.args, AtRow(envs, e.level, k))) <= Sum(EvalAll(SUMS, e.args, AtRow(other, e.level, k)))
      ensures Sum(EvalAll(SUMS, e.filter, AtRow(envs, e.level, k))) <= Sum(EvalAll(SUMS, e.filter, AtRow(other, e.level, k)))
    {
      AtRowGrows(depth, envs, other, e.level, k);
      if e.level != depth {
        ValuesGrow(e.args, depth, AtRow(envs, e.level, k), AtRow(other, e.level, k));
        ValuesGrow(e.filter, depth, AtRow(envs, e.level, k), AtRow(other, e.level, k));
      }
    }
    assert envs[e.level].group == other[e.level].group;
  }

  lemma {:induction false} ValuesGrow(es: seq<Expr>, depth: nat, envs: seq<Frame>, other: seq<Frame>)
    requires Grows(depth, envs, other)
    ensures Sum(EvalAll(SUMS, es, envs)) <= Sum(EvalAll(SUMS, es, other))
    decreases es
  {
    if es != [] {
      ValueGrows(es[0], depth, envs, other);
      ValuesGrow(es[1..], depth, envs, other);
      SumFirst(es, envs);
      SumFirst(es, other);
    }
  }

  lemma SumFirst(es: seq<Expr>, envs: seq<Frame>)
    requires es != []
    ensures Sum(EvalAll(SUMS, es, envs)) == Eval(SUMS, es[0], envs) + Sum(EvalAll(SUMS, es[1..], envs))
  {
    assert EvalAll(SUMS, es, envs)[1..] == EvalAll(SUMS, es[1..], envs);
  }

  lemma QueryIs(e: Expr, envs: seq<Frame>)
    requires e.Query?
    ensures Eval(SUMS, e, envs) == Sum(EvalAll(SUMS, e.members, INNER + envs))
  {
    var frames := (SUMS.frames)(e.id);
    assert frames == INNER;
    var rows := seq(|frames|, k requires 0 <= k < |frames| => EvalAll(SUMS, e.members, [frames[k]] + envs));
    assert rows == [EvalAll(SUMS, e.members, INNER + envs)];
    assert rows[1..] == [];
    assert Eval(SUMS, e, envs) == (SUMS.query)(e.id, rows) == SumRows(rows) == Sum(rows[0]) + SumRows(rows[1..]);
  }

  /** A sum over expressions of which one grows. */
  lemma {:induction false} OneGrows(es: seq<Expr>, k: nat, depth: nat, envs: seq<Frame>, other: seq<Frame>)
    requires k < |es| && Grows(depth, envs, other) && Eval(SUMS, es[k], envs) < Eval(SUMS, es[k], other)
    ensures Sum(EvalAll(SUMS, es, envs)) < Sum(EvalAll(SUMS, es, other))
  {
    SumFirst(es, envs);
    SumFirst(es, other);
    if k > 0 {
      ValueGrows(es[0], depth, envs, other);
      OneGrows(es[1..], k - 1, depth, envs, other);
    } else {
      ValuesGrow(es[1..], depth, envs, other);
    }
  }

  /** GROUPING looks at the grouping set in force and not at values. */
  predicate HasGrouping(e: Expr)
    decreases e
  {
    match e
    case Const(_) => false
    case Var(_, _, _) => false
    case Call(_, _, args) => AnyHasGrouping(args)
    case Window(_, args) => AnyHasGrouping(args)
    case Aggref(_, _, direct, args, filter) => AnyHasGrouping(direct) || AnyHasGrouping(args) || AnyHasGrouping(filter)
    case Grouping(_, _) => true
    case Query(_, members) => AnyHasGrouping(members)
  }

  predicate AnyHasGrouping(es: seq<Expr>)
    decreases es
  {
    es != [] && (HasGrouping(es[0]) || AnyHasGrouping(es[1..]))
  }

  lemma {:induction false} OneHasNoGrouping(es: seq<Expr>, k: nat)
    requires k < |es| && !AnyHasGrouping(es) && AllWellLevelled(es)
    ensures !HasGrouping(es[k]) && WellLevelled(es[k])
  {
    if k > 0 { OneHasNoGrouping(es[1..], k - 1); }
  }

  /** An expression with an ungrouped variable grows with it. */
  lemma {:induction false} UngroupedGrows(e: Expr, path: seq<Step>, depth: nat, groups: seq<Expr>, envs: seq<Frame>, other: seq<Frame>)
    requires WellLevelled(e) && !HasGrouping(e) && Ungrouped(e, path, depth, groups) && Separates(groups, depth, envs, other)
    ensures Eval(SUMS, e, envs) < Eval(SUMS, e, other)
    decreases |path|
  {
    if path == [] {
      assert SubExpr(e, path) == Some(e);
    } else {
      var step, rest := path[0], path[1..];
      assert path == [step] + rest;
      assert step.index < |Children(e, step.part)|;
      UngroupedNext(e, step, rest, depth, groups);
      var es, k := Children(e, step.part), step.index;
      OneHasNoGrouping(es, k);
      match e
      case Call(_, _, _) =>
        UngroupedGrows(es[k], rest, depth, groups, envs, other);
        OneGrows(es, k, depth, envs, other);
      case Window(_, _) =>
        UngroupedGrows(es[k], rest, depth, groups, envs, other);
        OneGrows(es, k, depth, envs, other);
      case Query(_, _) =>
        InsideSeparates(groups, depth, envs, other);
        var f := INNER;
        UngroupedGrows(es[k], rest, depth + 1, groups, f + envs, f + other);
        OneGrows(es, k, depth + 1, f + envs, f + other);
        QueryIs(e, envs);
        QueryIs(e, other);
      case Aggref(_, level, _, _, _) =>
        if level > depth { OuterHasNone(e, path, depth, groups); }
        if step.part.Direct? {
          UngroupedGrows(es[k], rest, depth, groups, envs, other);
          OneGrows(es, k, depth, envs, other);
          DirectGrows(e, depth, envs, other);
        } else {
          AtRowSeparates(groups, depth, envs, other, level, 0);
          UngroupedGrows(es[k], rest, depth, groups, AtRow(envs, level, 0), AtRow(other, level, 0));
          OneGrows(es, k, depth, AtRow(envs, level, 0), AtRow(other, level, 0));
          RowGrows(e, step.part, depth, envs, other);
        }
    }
  }

  lemma DirectGrows(e: Expr, depth: nat, envs: seq<Frame>, other: seq<Frame>)
    requires e.Aggref? && e.level <= depth && Grows(depth, envs, other)
    requires Sum(EvalAll(SUMS, e.direct, envs)) < Sum(EvalAll(SUMS, e.direct, other))
    ensures Eval(SUMS, e, envs) < Eval(SUMS, e, other)
  {
    PerRowGrows(e, depth, envs, other);
    SumPairsGrow(PerRow(SUMS, e, envs), PerRow(SUMS, e, other));
  }

  lemma RowGrows(e: Expr, part: Part, depth: nat, envs: seq<Frame>, other: seq<Frame>)
    requires e.Aggref? && e.level < depth && Grows(depth, envs, other) && (part.Args? || part.Filter?)
    requires |envs[e.level].group| > 0 && |other[e.level].group| > 0
    requires Sum(EvalAll(SUMS, Children(e, part), AtRow(envs, e.level, 0))) < Sum(EvalAll(SUMS, Children(e, part), AtRow(other, e.level, 0)))
    ensures Eval(SUMS, e, envs) < Eval(SUMS, e, other)
  {
    ValuesGrow(e.direct, depth, envs, other);
    PerRowGrows(e, depth, envs, other);
    SumPairsGrow(PerRow(SUMS, e, envs), PerRow(SUMS, e, other));
  }

  // ---------------------------------------------------------------- grouping by plain variables

  ghost predicate PlainGroups(groups: seq<Expr>) {
    forall g | g in groups :: g.Var?
  }

  /** 0 in the grouped columns and 1 in all others. */
  ghost function OneRow(groups: seq<Expr>): TableRow {
    (rel: nat, attr: nat) => if Var(0, rel, attr) in groups then 0 else 1
  }

  /** The frame of a row in the group of two rows. */
  ghost function PairFrame(groups: seq<Expr>, row: TableRow): seq<Frame> {
    [Frame(row, [ZERO, OneRow(groups)], {})]
  }

  /** A refused expression has different values on the two rows of one group. */
  lemma RefusedDiffers(e: Expr, groups: seq<Expr>)
    requires WellLevelled(e) && !HasGrouping(e) && PlainGroups(groups) && !Accepts(e, 0, groups)
    ensures var envs, other := PairFrame(groups, ZERO), PairFrame(groups, OneRow(groups));
            SameGroup(SUMS, groups, 0, envs, other) && Eval(SUMS, e, envs) != Eval(SUMS, e, other)
  {
    var envs, other := PairFrame(groups, ZERO), PairFrame(groups, OneRow(groups));
    var error := RefusedHasOne(e, 0, groups);
    var path :| Ungrouped(e, path, 0, groups) && error == ErrorAt(0, path);
    UngroupedGrows(e, path, 0, groups, envs, other);
    assert envs[0..] == envs && other[0..] == other;
    forall g | g in groups ensures Eval(SUMS, g, envs) == Eval(SUMS, g, other) {
      if g.level == 0 { assert Var(0, g.rel, g.attr) in groups; }
    }
  }

  /**
   * With plain variables in GROUP BY the check is exact: an expression without GROUPING is accepted if and only if,
   * whatever its functions mean, it has the same value on any two rows of a group.
   */
  lemma PlainGroupsExactly(e: Expr, groups: seq<Expr>)
    requires WellLevelled(e) && !HasGrouping(e) && PlainGroups(groups)
    ensures Accepts(e, 0, groups) <==>
      forall m, envs, other | SameGroup(m, groups, 0, envs, other) :: Eval(m, e, envs) == Eval(m, e, other)
  {
    hide SameGroup;
    if Accepts(e, 0, groups) {
      forall m, envs, other | SameGroup(m, groups, 0, envs, other) ensures Eval(m, e, envs) == Eval(m, e, other) {
        AcceptedIsConstant(m, e, 0, groups, envs, other);
      }
    } else {
      RefusedDiffers(e, groups);
    }
  }
}
