/**
 * Grouping: which expressions a grouped query may contain, and why their values are the same on all
 * rows of a group. A frame is what one query level offers to an evaluation: the current row, the rows
 * of its group, and the grouping set in force.
 */
module UngroupedColumns {
  import opened Results
  import opened Expressions
  import opened AggLevels

  type TableRow = (nat, nat) -> int

  datatype Frame = Frame(row: TableRow, group: seq<TableRow>, gset: set<nat>)

  /**
   * Deterministic meanings: functions see argument values; aggregates also see the argument and filter
   * values of each row of their group; window functions see the group of the query they stand in; and
   * a sub-select sees the values of its expressions in every frame it may enter.
   */
  datatype Meaning = Meaning(
    call: (nat, seq<int>) -> int,
    window: (nat, seq<TableRow>, seq<int>) -> int,
    aggregate: (nat, seq<int>, seq<(seq<int>, seq<int>)>) -> int,
    grouping: (set<nat>, seq<Expr>) -> int,
    frames: nat -> seq<Frame>,
    query: (nat, seq<seq<int>>) -> int)

  ghost function AtRow(envs: seq<Frame>, level: nat, k: nat): (r: seq<Frame>)
    requires level < |envs| && k < |envs[level].group|
    ensures |r| == |envs| && forall l | 0 <= l < |envs| && l != level :: r[l] == envs[l]
  {
    envs[level := envs[level].(row := envs[level].group[k])]
  }

  /** The frames are those of the query the expression stands in and of the queries around it. */
  ghost function Eval(m: Meaning, e: Expr, envs: seq<Frame>): int
    decreases e, 1
  {
    match e
    case Const(value) => value
    case Var(level, rel, attr) => if level < |envs| then (envs[level].row)(rel, attr) else 0
    case Call(fn, _, args) => (m.call)(fn, EvalAll(m, args, envs))
    case Window(fn, args) => if envs == [] then 0 else (m.window)(fn, envs[0].group, EvalAll(m, args, envs))
    case Aggref(fn, level, direct, args, filter) =>
      if level >= |envs| then 0
      else
        (m.aggregate)(fn, EvalAll(m, direct, envs), PerRow(m, e, envs))
    case Grouping(level, args) => if level < |envs| then (m.grouping)(envs[level].gset, args) else 0
    case Query(id, members) =>
      var frames := (m.frames)(id);
      (m.query)(id, seq(|frames|, k requires 0 <= k < |frames| => EvalAll(m, members, [frames[k]] + envs)))
  }

  /** The argument and filter values of an aggregate for each row of its group. */
  ghost function PerRow(m: Meaning, e: Expr, envs: seq<Frame>): (r: seq<(seq<int>, seq<int>)>)
    requires e.Aggref? && e.level < |envs|
    ensures |r| == |envs[e.level].group|
    ensures forall k | 0 <= k < |r| ::
      r[k] == (EvalAll(m, e.args, AtRow(envs, e.level, k)), EvalAll(m, e.filter, AtRow(envs, e.level, k)))
    decreases e, 0
  {
    seq(|envs[e.level].group|, k requires 0 <= k < |envs[e.level].group| =>
      (EvalAll(m, e.args, AtRow(envs, e.level, k)), EvalAll(m, e.filter, AtRow(envs, e.level, k))))
  }

  ghost function EvalAll(m: Meaning, es: seq<Expr>, envs: seq<Frame>): seq<int>
    decreases es
  {
    if es == [] then [] else [Eval(m, es[0], envs)] + EvalAll(m, es[1..], envs)
  }

  // ---------------------------------------------------------------- the check

  predicate NonVarGrouping(groups: seq<Expr>) {
    exists k :: 0 <= k < |groups| && !groups[k].Var?
  }

  /** The expression may stand `depth` sub-selects inside a query that groups by `groups`. */
  predicate Accepts(e: Expr, depth: nat, groups: seq<Expr>)
    decreases e
  {
    match e
    case Const(_) => true
    case Aggref(_, level, direct, args, filter) =>
      if level == depth then AcceptsAll(direct, depth, groups)
      else level > depth || (AcceptsAll(direct, depth, groups) && AcceptsAll(args, depth, groups) && AcceptsAll(filter, depth, groups))
    case Grouping(level, args) => level >= depth || AcceptsAll(args, depth, groups)
    case Var(level, rel, attr) => level != depth || Var(0, rel, attr) in groups
    case Call(_, _, args) => (depth == 0 && e in groups) || AcceptsAll(args, depth, groups)
    case Window(_, args) => (depth == 0 && e in groups) || AcceptsAll(args, depth, groups)
    case Query(_, members) => (depth == 0 && e in groups) || AcceptsAll(members, depth + 1, groups)
  }

  predicate AcceptsAll(es: seq<Expr>, depth: nat, groups: seq<Expr>)
    decreases es
  {
    es == [] || (Accepts(es[0], depth, groups) && AcceptsAll(es[1..], depth, groups))
  }

  // ---------------------------------------------------------------- the check refuses exactly ungrouped variables

  /** A grouped expression, at the level of the grouped query itself. */
  ghost predicate IsGrouped(e: Expr, level: nat, groups: seq<Expr>) {
    level == 0 && e in groups && !e.Aggref?
  }

  /** The arguments and the filter of the grouped query's own aggregates, and the arguments of its own GROUPING. */
  ghost predicate IsAggregated(e: Expr, part: Part, level: nat) {
    || (e.Aggref? && e.level == level && !part.Direct?)
    || (e.Grouping? && e.level == level)
  }

  /** What stands n steps down the path makes up for everything further down. */
  ghost predicate Covers(e: Expr, path: seq<Step>, n: nat, depth: nat, groups: seq<Expr>)
    requires n <= |path|
  {
    var sub, level := SubExpr(e, path[..n]), depth + SubSelects(path[..n]);
    && sub.Some?
    && (IsGrouped(sub.value, level, groups) || (n < |path| && IsAggregated(sub.value, path[n].part, level)))
  }

  /** At the path occurs a variable of the grouped query that is not grouped, and nothing on the way makes up for it. */
  ghost predicate Ungrouped(e: Expr, path: seq<Step>, depth: nat, groups: seq<Expr>) {
    var sub := SubExpr(e, path);
    && sub.Some? && sub.value.Var? && sub.value.level == depth + SubSelects(path)
    && Var(0, sub.value.rel, sub.value.attr) !in groups
    && forall n | 0 <= n <= |path| :: !Covers(e, path, n, depth, groups)
  }

  /** The level of the grouped query as seen from inside a part. */
  function Inside(depth: nat, part: Part): nat {
    if part.Members? then depth + 1 else depth
  }

  lemma CoversNext(e: Expr, step: Step, rest: seq<Step>, n: nat, depth: nat, groups: seq<Expr>)
    requires step.index < |Children(e, step.part)| && n <= |rest|
    ensures Covers(e, [step] + rest, n + 1, depth, groups)
       <==> Covers(Children(e, step.part)[step.index], rest, n, Inside(depth, step.part), groups)
  {
    assert ([step] + rest)[..n + 1] == [step] + rest[..n];
    FirstStep(e, step, rest[..n]);
    if n < |rest| { assert ([step] + rest)[n + 1] == rest[n]; }
    hide IsGrouped, IsAggregated, SubExpr, SubSelects;
  }

  /** An ungrouped occurrence, one step down. */
  lemma UngroupedNext(e: Expr, step: Step, rest: seq<Step>, depth: nat, groups: seq<Expr>)
    requires step.index < |Children(e, step.part)|
    ensures Ungrouped(e, [step] + rest, depth, groups) <==>
      && !IsGrouped(e, depth, groups) && !IsAggregated(e, step.part, depth)
      && Ungrouped(Children(e, step.part)[step.index], rest, Inside(depth, step.part), groups)
  {
    var path, c, inside := [step] + rest, Children(e, step.part)[step.index], Inside(depth, step.part);
    FirstStep(e, step, rest);
    assert path[..0] == [];
    assert Covers(e, path, 0, depth, groups) <==> IsGrouped(e, depth, groups) || IsAggregated(e, step.part, depth);
    forall n | 0 <= n <= |rest| ensures Covers(e, path, n + 1, depth, groups) <==> Covers(c, rest, n, inside, groups) {
      CoversNext(e, step, rest, n, depth, groups);
    }
    hide Covers, SubExpr, SubSelects, IsGrouped, IsAggregated;
    if Ungrouped(c, rest, inside, groups) && !Covers(e, path, 0, depth, groups) {
      forall n | 0 <= n <= |path| ensures !Covers(e, path, n, depth, groups) {
        if n > 0 { assert !Covers(c, rest, n - 1, inside, groups); }
      }
    }
    if Ungrouped(e, path, depth, groups) {
      forall n | 0 <= n <= |rest| ensures !Covers(c, rest, n, inside, groups) { assert !Covers(e, path, n + 1, depth, groups); }
    }
  }

  lemma {:induction false} AcceptedOne(es: seq<Expr>, k: nat, depth: nat, groups: seq<Expr>)
    requires k < |es|
    ensures AcceptsAll(es, depth, groups) ==> Accepts(es[k], depth, groups)
    ensures AllWellLevelled(es) ==> WellLevelled(es[k])
  {
    if k > 0 { AcceptedOne(es[1..], k - 1, depth, groups); }
  }

  /** No ungrouped variable of the grouped query occurs in an aggregate or GROUPING of a query further out. */
  lemma OuterHasNone(e: Expr, path: seq<Step>, depth: nat, groups: seq<Expr>)
    requires WellLevelled(e) && ((e.Aggref? && e.level > depth) || (e.Grouping? && e.level > depth))
    ensures !Ungrouped(e, path, depth, groups)
  {
    if Ungrouped(e, path, depth, groups) {
      OccursFree(e, path, false, depth);
      if e.Aggref? { NothingBelow(e.level, e.direct, e.args, e.filter); } else { NothingBelow(e.level, [], e.args, []); }
    }
  }

  lemma {:induction false} AcceptedHasNone(e: Expr, path: seq<Step>, depth: nat, groups: seq<Expr>)
    requires WellLevelled(e) && Accepts(e, depth, groups)
    ensures !Ungrouped(e, path, depth, groups)
    decreases |path|
  {
    if path != [] && path[0].index < |Children(e, path[0].part)| {
      var step, rest := path[0], path[1..];
      var es := Children(e, step.part);
      assert path == [step] + rest;
      UngroupedNext(e, step, rest, depth, groups);
      if (e.Aggref? || e.Grouping?) && e.level > depth {
        OuterHasNone(e, path, depth, groups);
      } else if !IsGrouped(e, depth, groups) && !IsAggregated(e, step.part, depth) {
        AcceptedOne(es, step.index, Inside(depth, step.part), groups);
        AcceptedHasNone(es[step.index], rest, Inside(depth, step.part), groups);
      }
    }
  }

  /** The error for an occurrence: is it inside a sub-select? */
  function ErrorAt(depth: nat, path: seq<Step>): Error {
    if depth + SubSelects(path) == 0 then UngroupedColumn else UngroupedInSubquery
  }

  /** An ungrouped variable accounts for the error. */
  ghost predicate Explains(error: Error, e: Expr, depth: nat, groups: seq<Expr>) {
    exists path :: Ungrouped(e, path, depth, groups) && error == ErrorAt(depth, path)
  }

  ghost predicate ExplainsOne(error: Error, es: seq<Expr>, depth: nat, groups: seq<Expr>) {
    exists k :: 0 <= k < |es| && Explains(error, es[k], depth, groups)
  }

  /** An ungrouped variable in a part that nothing makes up for is one of the whole. */
  lemma ExplainsWhole(error: Error, e: Expr, part: Part, depth: nat, groups: seq<Expr>)
    requires ExplainsOne(error, Children(e, part), Inside(depth, part), groups)
    requires !IsGrouped(e, depth, groups) && !IsAggregated(e, part, depth)
    ensures Explains(error, e, depth, groups)
  {
    var es, inside := Children(e, part), Inside(depth, part);
    var k :| 0 <= k < |es| && Explains(error, es[k], inside, groups);
    var rest :| Ungrouped(es[k], rest, inside, groups) && error == ErrorAt(inside, rest);
    UngroupedNext(e, Step(part, k), rest, depth, groups);
    FirstStep(e, Step(part, k), rest);
    hide Ungrouped;
    assert Ungrouped(e, [Step(part, k)] + rest, depth, groups);
  }

  lemma ExplainsSelf(e: Expr, depth: nat, groups: seq<Expr>)
    requires e.Var? && e.level == depth && Var(0, e.rel, e.attr) !in groups
    ensures Explains(ErrorAt(depth, []), e, depth, groups)
  {
    assert SubExpr(e, []) == Some(e);
    assert Ungrouped(e, [], depth, groups);
  }

  lemma ExplainsRest(error: Error, es: seq<Expr>, depth: nat, groups: seq<Expr>)
    requires es != [] && (Explains(error, es[0], depth, groups) || ExplainsOne(error, es[1..], depth, groups))
    ensures ExplainsOne(error, es, depth, groups)
  {
    hide Explains;
    if k :| 0 <= k < |es[1..]| && Explains(error, es[1..][k], depth, groups) { assert Explains(error, es[k + 1], depth, groups); }
  }

  /** A refused expression has an ungrouped variable. */
  lemma {:induction false} RefusedHasOne(e: Expr, depth: nat, groups: seq<Expr>) returns (error: Error)
    requires !Accepts(e, depth, groups)
    ensures Explains(error, e, depth, groups)
    decreases e, 1
  {
    match e
    case Var(_, _, _) =>
      ExplainsSelf(e, depth, groups);
      error := ErrorAt(depth, []);
    case Call(_, _, _) => error := RefusedPart(e, Args, depth, groups);
    case Window(_, _) => error := RefusedPart(e, Args, depth, groups);
    case Grouping(_, _) => error := RefusedPart(e, Args, depth, groups);
    case Query(_, _) => error := RefusedPart(e, Members, depth, groups);
    case Aggref(_, _, direct, args, _) =>
      error := RefusedPart(e, if !AcceptsAll(direct, depth, groups) then Direct else if !AcceptsAll(args, depth, groups) then Args else Filter,
                           depth, groups);
  }

  lemma {:induction false} RefusedPart(e: Expr, part: Part, depth: nat, groups: seq<Expr>) returns (error: Error)
    requires !AcceptsAll(Children(e, part), Inside(depth, part), groups)
    requires !IsGrouped(e, depth, groups) && !IsAggregated(e, part, depth)
    ensures Explains(error, e, depth, groups)
    decreases e, 0
  {
    error := RefusedOne(Children(e, part), Inside(depth, part), groups, e);
    ExplainsWhole(error, e, part, depth, groups);
  }

  lemma {:induction false} RefusedOne(es: seq<Expr>, depth: nat, groups: seq<Expr>, whole: Expr) returns (error: Error)
    requires !AcceptsAll(es, depth, groups) && forall k | 0 <= k < |es| :: es[k] < whole
    ensures ExplainsOne(error, es, depth, groups)
    decreases whole, 0, |es|
  {
    if !Accepts(es[0], depth, groups) {
      error := RefusedHasOne(es[0], depth, groups);
    } else {
      error := RefusedOne(es[1..], depth, groups, whole);
    }
    ExplainsRest(error, es, depth, groups);
  }

  /**
   * An expression is accepted exactly when no variable of the grouped query occurs in it, outside the arguments and
   * filters of the query's own aggregates, outside the arguments of its own GROUPING, outside every part that is
   * itself grouped, and without being grouped.
   */
  lemma AcceptsExactly(e: Expr, depth: nat, groups: seq<Expr>)
    requires WellLevelled(e)
    ensures Accepts(e, depth, groups) <==> forall path :: !Ungrouped(e, path, depth, groups)
  {
    if Accepts(e, depth, groups) {
      forall path ensures !Ungrouped(e, path, depth, groups) { AcceptedHasNone(e, path, depth, groups); }
    } else {
      var error := RefusedHasOne(e, depth, groups);
    }
  }

  // ---------------------------------------------------------------- the check is sound

  /** An expression's value depends on the frames of its free levels only. */
  lemma {:induction false} OnlyFreeLevelsMatter(m: Meaning, e: Expr, envs: seq<Frame>, other: seq<Frame>)
    requires |envs| == |other| && forall l | (l in Levels(e, false) || l in Levels(e, true)) && l < |envs| :: envs[l] == other[l]
    requires !HasForbidden(e) || (envs != [] && envs[0].group == other[0].group)
    ensures Eval(m, e, envs) == Eval(m, e, other)
    decreases e
  {
    match e
    case Const(_) =>
    case Var(_, _, _) =>
    case Call(_, _, args) => OnlyFreeLevelsMatterAll(m, args, envs, other);
    case Window(_, args) => OnlyFreeLevelsMatterAll(m, args, envs, other);
    case Grouping(_, _) =>
    case Aggref(_, level, direct, args, filter) =>
      if level < |envs| {
        OnlyFreeLevelsMatterAll(m, direct, envs, other);
        assert envs[level] == other[level];
        forall k | 0 <= k < |envs[level].group|
          ensures EvalAll(m, args, AtRow(envs, level, k)) == EvalAll(m, args, AtRow(other, level, k))
          ensures EvalAll(m, filter, AtRow(envs, level, k)) == EvalAll(m, filter, AtRow(other, level, k))
        {
          OnlyFreeLevelsMatterAll(m, args, AtRow(envs, level, k), AtRow(other, level, k));
          OnlyFreeLevelsMatterAll(m, filter, AtRow(envs, level, k), AtRow(other, level, k));
        }
        SameAggregate(m, e, envs, other);
      }
    case Query(id, members) =>
      var frames := (m.frames)(id);
      forall k | 0 <= k < |frames| ensures EvalAll(m, members, [frames[k]] + envs) == EvalAll(m, members, [frames[k]] + other) {
        forall l | (l in AllLevels(members, false) || l in AllLevels(members, true)) && l < |envs| + 1
          ensures ([frames[k]] + envs)[l] == ([frames[k]] + other)[l]
        {
          if l > 0 { assert l - 1 in Levels(e, false) || l - 1 in Levels(e, true); }
        }
        OnlyFreeLevelsMatterAll(m, members, [frames[k]] + envs, [frames[k]] + other);
      }
      SameQuery(m, e, envs, other);
  }

  lemma {:induction false} OnlyFreeLevelsMatterAll(m: Meaning, es: seq<Expr>, envs: seq<Frame>, other: seq<Frame>)
    requires |envs| == |other|
    requires forall l | (l in AllLevels(es, false) || l in AllLevels(es, true)) && l < |envs| :: envs[l] == other[l]
    requires !AnyForbidden(es) || (envs != [] && envs[0].group == other[0].group)
    ensures EvalAll(m, es, envs) == EvalAll(m, es, other)
    decreases es
  {
    if es != [] {
      OnlyFreeLevelsMatter(m, es[0], envs, other);
      OnlyFreeLevelsMatterAll(m, es[1..], envs, other);
    }
  }

  /** An aggregate over the same rows with the same argument values has the same value. */
  lemma SameAggregate(m: Meaning, e: Expr, envs: seq<Frame>, other: seq<Frame>)
    requires e.Aggref? && e.level < |envs| == |other| && envs[e.level].group == other[e.level].group
    requires EvalAll(m, e.direct, envs) == EvalAll(m, e.direct, other)
    requires forall k | 0 <= k < |envs[e.level].group| ::
      && EvalAll(m, e.args, AtRow(envs, e.level, k)) == EvalAll(m, e.args, AtRow(other, e.level, k))
      && EvalAll(m, e.filter, AtRow(envs, e.level, k)) == EvalAll(m, e.filter, AtRow(other, e.level, k))
    ensures Eval(m, e, envs) == Eval(m, e, other)
  {
    assert PerRow(m, e, envs) == PerRow(m, e, other);
  }

  lemma SameQuery(m: Meaning, e: Expr, envs: seq<Frame>, other: seq<Frame>)
    requires e.Query?
    requires forall k | 0 <= k < |(m.frames)(e.id)| ::
      EvalAll(m, e.members, [(m.frames)(e.id)[k]] + envs) == EvalAll(m, e.members, [(m.frames)(e.id)[k]] + other)
    ensures Eval(m, e, envs) == Eval(m, e, other)
  {
    var frames := (m.frames)(e.id);
    assert seq(|frames|, k requires 0 <= k < |frames| => EvalAll(m, e.members, [frames[k]] + envs))
        == seq(|frames|, k requires 0 <= k < |frames| => EvalAll(m, e.members, [frames[k]] + other));
  }

  /**
   * The evaluations differ only in the current row of the grouped query, `depth` frames out. The two rows are of
   * the same group, and give the GROUP BY expressions the same values.
   */
  ghost predicate SameGroup(m: Meaning, groups: seq<Expr>, depth: nat, envs: seq<Frame>, other: seq<Frame>) {
    && depth < |envs| == |other|
    && (forall l | 0 <= l < |envs| && l != depth :: envs[l] == other[l])
    && envs[depth].group == other[depth].group && envs[depth].gset == other[depth].gset
    && (forall g | g in groups :: Eval(m, g, envs[depth..]) == Eval(m, g, other[depth..]))
  }

  lemma SameGroupAtRow(m: Meaning, groups: seq<Expr>, depth: nat, envs: seq<Frame>, other: seq<Frame>, level: nat, k: nat)
    requires SameGroup(m, groups, depth, envs, other) && level <= depth && k < |envs[level].group|
    ensures level == depth ==> AtRow(envs, level, k) == AtRow(other, level, k)
    ensures level < depth ==> SameGroup(m, groups, depth, AtRow(envs, level, k), AtRow(other, level, k))
  {
    if level < depth {
      assert AtRow(envs, level, k)[depth..] == envs[depth..];
      assert AtRow(other, level, k)[depth..] == other[depth..];
    }
  }

  lemma SameGroupInside(m: Meaning, groups: seq<Expr>, depth: nat, envs: seq<Frame>, other: seq<Frame>, f: Frame)
    requires SameGroup(m, groups, depth, envs, other)
    ensures SameGroup(m, groups, depth + 1, [f] + envs, [f] + other)
  {
    assert ([f] + envs)[depth + 1..] == envs[depth..];
    assert ([f] + other)[depth + 1..] == other[depth..];
  }

  /** An accepted expression has the same value on any two rows of a group, through any depth of sub-selects. */
  lemma {:induction false} AcceptedIsConstant(m: Meaning, e: Expr, depth: nat, groups: seq<Expr>,
                                              envs: seq<Frame>, other: seq<Frame>)
    requires WellLevelled(e) && Accepts(e, depth, groups) && SameGroup(m, groups, depth, envs, other)
    ensures Eval(m, e, envs) == Eval(m, e, other)
    decreases e
  {
    if depth == 0 && e in groups {
      assert envs[0..] == envs && other[0..] == other;
    } else {
      match e
      case Const(_) =>
      case Var(level, rel, attr) =>
        if level == depth { assert Eval(m, Var(0, rel, attr), envs[depth..]) == Eval(m, Var(0, rel, attr), other[depth..]); }
      case Call(_, _, args) => AllAcceptedAreConstant(m, args, depth, groups, envs, other);
      case Window(_, args) => AllAcceptedAreConstant(m, args, depth, groups, envs, other);
      case Grouping(_, _) =>
      case Aggref(_, level, direct, args, filter) => AggregateIsConstant(m, e, depth, groups, envs, other);
      case Query(id, members) =>
        forall k | 0 <= k < |(m.frames)(id)|
          ensures EvalAll(m, members, [(m.frames)(id)[k]] + envs) == EvalAll(m, members, [(m.frames)(id)[k]] + other)
        {
          var f := (m.frames)(id)[k];
          SameGroupInside(m, groups, depth, envs, other, f);
          AllAcceptedAreConstant(m, members, depth + 1, groups, [f] + envs, [f] + other);
        }
        SameQuery(m, e, envs, other);
    }
  }

  lemma {:induction false} AggregateIsConstant(m: Meaning, e: Expr, depth: nat, groups: seq<Expr>,
                                               envs: seq<Frame>, other: seq<Frame>)
    requires e.Aggref? && WellLevelled(e) && Accepts(e, depth, groups) && SameGroup(m, groups, depth, envs, other)
    ensures Eval(m, e, envs) == Eval(m, e, other)
    decreases e, 0
  {
    if e.level > depth {
      NothingBelow(e.level, e.direct, e.args, e.filter);
      OnlyFreeLevelsMatter(m, e, envs, other);
    } else {
      AllAcceptedAreConstant(m, e.direct, depth, groups, envs, other);
      forall k | 0 <= k < |envs[e.level].group|
        ensures EvalAll(m, e.args, AtRow(envs, e.level, k)) == EvalAll(m, e.args, AtRow(other, e.level, k))
        ensures EvalAll(m, e.filter, AtRow(envs, e.level, k)) == EvalAll(m, e.filter, AtRow(other, e.level, k))
      {
        SameGroupAtRow(m, groups, depth, envs, other, e.level, k);
        if e.level < depth {
          AllAcceptedAreConstant(m, e.args, depth, groups, AtRow(envs, e.level, k), AtRow(other, e.level, k));
          AllAcceptedAreConstant(m, e.filter, depth, groups, AtRow(envs, e.level, k), AtRow(other, e.level, k));
        }
      }
      SameAggregate(m, e, envs, other);
    }
  }

  lemma {:induction false} AllAcceptedAreConstant(m: Meaning, es: seq<Expr>, depth: nat, groups: seq<Expr>,
                                                  envs: seq<Frame>, other: seq<Frame>)
    requires AllWellLevelled(es) && AcceptsAll(es, depth, groups) && SameGroup(m, groups, depth, envs, other)
    ensures EvalAll(m, es, envs) == EvalAll(m, es, other)
    decreases es
  {
    if es != [] {
      AcceptedIsConstant(m, es[0], depth, groups, envs, other);
      AllAcceptedAreConstant(m, es[1..], depth, groups, envs, other);
    }
  }

  // ---------------------------------------------------------------- the walker

  class ColumnWalker {
    const groups: seq<Expr>
    const haveNonVarGrouping: bool
    var sublevelsUp: nat
    var inAggDirectArgs: bool

    ghost predicate Valid()
      reads this
    {
      haveNonVarGrouping == NonVarGrouping(groups)
    }

    constructor (groups: seq<Expr>)
      ensures Valid() && this.groups == groups && sublevelsUp == 0 && !inAggDirectArgs
    {
      this.groups := groups;
      haveNonVarGrouping := NonVarGrouping(groups);
      sublevelsUp, inAggDirectArgs := 0, false;
    }

    /** The position is inside direct arguments only where no aggregate of the original level can follow. */
    ghost predicate Fitting(levels: set<nat>)
      reads this
    {
      inAggDirectArgs ==> sublevelsUp !in levels
    }

    /** The source's assertion about direct arguments is the assertion here. */
    method Walk(e: Expr) returns (r: Result<()>)
      requires Valid() && WellLevelled(e) && Fitting(Levels(e, true))
      modifies this
      ensures sublevelsUp == old(sublevelsUp) && (r.Ok? ==> inAggDirectArgs == old(inAggDirectArgs))
      ensures r.Ok? <==> Accepts(e, sublevelsUp, groups)
      ensures r.Err? ==> Explains(r.error, e, sublevelsUp, groups)
      decreases e, 1
    {
      hide Explains, ExplainsOne;
      if e.Const? { return Ok(()); }
      if e.Aggref? {
        if e.level == sublevelsUp {
          assert !inAggDirectArgs;
          inAggDirectArgs := true;
          NothingBelow(e.level, e.direct, e.args, e.filter);
          r := WalkAll(e.direct);
          if r.Ok? { inAggDirectArgs := false; } else { ExplainsWhole(r.error, e, Direct, sublevelsUp, groups); }
          return;
        }
        if e.level > sublevelsUp { return Ok(()); }
      }
      if e.Grouping? && e.level >= sublevelsUp { return Ok(()); }
      if haveNonVarGrouping && sublevelsUp == 0 && e in groups { return Ok(()); }
      if e.Var? {
        if e.level != sublevelsUp { return Ok(()); }
        if (!haveNonVarGrouping || sublevelsUp != 0) && Var(0, e.rel, e.attr) in groups { return Ok(()); }
        ExplainsSelf(e, sublevelsUp, groups);
        return Err(if sublevelsUp == 0 then UngroupedColumn else UngroupedInSubquery);
      }
      assert !IsGrouped(e, sublevelsUp, groups);
      if e.Query? {
        sublevelsUp := sublevelsUp + 1;
        assert sublevelsUp in AllLevels(e.members, true) ==> sublevelsUp - 1 in Levels(e, true);
        r := WalkAll(e.members);
        sublevelsUp := sublevelsUp - 1;
        if r.Err? { ExplainsWhole(r.error, e, Members, sublevelsUp, groups); }
        return;
      }
      r := WalkChildren(e);
    }

    method WalkChildren(e: Expr) returns (r: Result<()>)
      requires Valid() && WellLevelled(e) && Fitting(Levels(e, true))
      requires e.Call? || e.Window? || ((e.Aggref? || e.Grouping?) && e.level < sublevelsUp)
      requires !IsGrouped(e, sublevelsUp, groups)
      modifies this
      ensures sublevelsUp == old(sublevelsUp) && (r.Ok? ==> inAggDirectArgs == old(inAggDirectArgs))
      ensures r.Ok? <==> (e.Aggref? ==> AcceptsAll(e.direct, sublevelsUp, groups)) && AcceptsAll(e.args, sublevelsUp, groups)
                         && (e.Aggref? ==> AcceptsAll(e.filter, sublevelsUp, groups))
      ensures r.Err? ==> Explains(r.error, e, sublevelsUp, groups)
      decreases e, 0
    {
      hide Explains, ExplainsOne, Accepts, AcceptsAll;
      if e.Aggref? {
        r := WalkAll(e.direct);
        if r.Err? { ExplainsWhole(r.error, e, Direct, sublevelsUp, groups); return; }
      }
      r := WalkAll(e.args);
      if r.Err? { ExplainsWhole(r.error, e, Args, sublevelsUp, groups); return; }
      if e.Aggref? {
        r := WalkAll(e.filter);
        if r.Err? { ExplainsWhole(r.error, e, Filter, sublevelsUp, groups); }
      }
    }

    method WalkAll(es: seq<Expr>) returns (r: Result<()>)
      requires Valid() && AllWellLevelled(es) && Fitting(AllLevels(es, true))
      modifies this
      ensures sublevelsUp == old(sublevelsUp) && (r.Ok? ==> inAggDirectArgs == old(inAggDirectArgs))
      ensures r.Ok? <==> AcceptsAll(es, sublevelsUp, groups)
      ensures r.Err? ==> ExplainsOne(r.error, es, sublevelsUp, groups)
      decreases es, 0
    {
      hide Explains, ExplainsOne, Accepts;
      if es == [] { return Ok(()); }
      r := Walk(es[0]);
      if r.Ok? { r := WalkAll(es[1..]); }
      if r.Err? { ExplainsRest(r.error, es, sublevelsUp, groups); }
    }
  }

  /** In none of the expressions an ungrouped variable of the query occurs outside what makes up for it. */
  ghost predicate NoneUngrouped(es: seq<Expr>, groups: seq<Expr>) {
    forall k, path | 0 <= k < |es| :: !Ungrouped(es[k], path, 0, groups)
  }

  lemma {:induction false} AllAcceptExactly(es: seq<Expr>, groups: seq<Expr>)
    requires AllWellLevelled(es)
    ensures AcceptsAll(es, 0, groups) <==> NoneUngrouped(es, groups)
  {
    hide Ungrouped, Accepts;
    if es != [] {
      AcceptsExactly(es[0], 0, groups);
      AllAcceptExactly(es[1..], groups);
      assert forall k | 0 <= k < |es[1..]| :: es[1..][k] == es[k + 1];
      if NoneUngrouped(es, groups) {
        forall k, path | 0 <= k < |es[1..]| ensures !Ungrouped(es[1..][k], path, 0, groups) { assert !Ungrouped(es[k + 1], path, 0, groups); }
      }
    }
  }

  /**
   * The check of a query's target list or HAVING clause. It refuses exactly the ungrouped variables, with the
   * error for one of them; and what passes is constant on every group.
   */
  method CheckUngroupedColumns(es: seq<Expr>, groups: seq<Expr>) returns (r: Result<()>)
    requires AllWellLevelled(es)
    ensures r.Ok? <==> AcceptsAll(es, 0, groups)
    ensures r.Ok? <==> NoneUngrouped(es, groups)
    ensures r.Err? ==> ExplainsOne(r.error, es, 0, groups)
    ensures r.Ok? ==> forall m, envs, other | SameGroup(m, groups, 0, envs, other) :: EvalAll(m, es, envs) == EvalAll(m, es, other)
  {
    AllAcceptExactly(es, groups);
    var walker := new ColumnWalker(groups);
    var _ :- walker.WalkAll(es);
    forall m, envs, other | SameGroup(m, groups, 0, envs, other) ensures EvalAll(m, es, envs) == EvalAll(m, es, other) {
      AllAcceptedAreConstant(m, es, 0, groups, envs, other);
    }
    r := Ok(());
  }

  // ---------------------------------------------------------------- automatic GROUP BY

  /** The item contains an aggregate call of its own parse state, that is, outside sub-selects. */
  predicate HasAgg(e: Expr)
    decreases e
  {
    match e
    case Const(_) => false
    case Var(_, _, _) => false
    case Call(_, _, args) => AnyHasAgg(args)
    case Window(_, args) => AnyHasAgg(args)
    case Aggref(_, _, _, _, _) => true
    case Grouping(_, args) => AnyHasAgg(args)
    case Query(_, _) => false
  }

  predicate AnyHasAgg(es: seq<Expr>)
    decreases es
  {
    es != [] && (HasAgg(es[0]) || AnyHasAgg(es[1..]))
  }

  /** At the path, outside sub-selects, occurs an aggregate. */
  predicate AggAt(e: Expr, path: seq<Step>) {
    SubExpr(e, path).Some? && SubSelects(path) == 0 && SubExpr(e, path).value.Aggref?
  }

  lemma {:induction false} AggInOne(es: seq<Expr>, k: nat)
    requires k < |es| && HasAgg(es[k])
    ensures AnyHasAgg(es)
  {
    if k > 0 { AggInOne(es[1..], k - 1); }
  }

  lemma {:induction false} OccursAgg(e: Expr, path: seq<Step>)
    requires AggAt(e, path)
    ensures HasAgg(e)
    decreases |path|
  {
    if path != [] && !e.Aggref? {
      OccursAgg(Children(e, path[0].part)[path[0].index], path[1..]);
      AggInOne(Children(e, path[0].part), path[0].index);
    }
  }

  lemma {:induction false} AggOccurs(e: Expr) returns (path: seq<Step>)
    requires HasAgg(e)
    ensures AggAt(e, path)
    decreases e, 1
  {
    path := [];
    if !e.Aggref? {
      var k, rest := AggOccursIn(Children(e, Args), e);
      path := [Step(Args, k)] + rest;
      FirstStep(e, Step(Args, k), rest);
    }
  }

  lemma {:induction false} AggOccursIn(es: seq<Expr>, whole: Expr) returns (k: nat, path: seq<Step>)
    requires AnyHasAgg(es) && forall k | 0 <= k < |es| :: es[k] < whole
    ensures k < |es| && AggAt(es[k], path)
    decreases whole, 0, |es|
  {
    if HasAgg(es[0]) {
      k := 0;
      path := AggOccurs(es[0]);
    } else {
      k, path := AggOccursIn(es[1..], whole);
      k := k + 1;
    }
  }

  /** An item counts as aggregated exactly when an aggregate occurs in it outside sub-selects. */
  lemma HasAggIs(e: Expr)
    ensures HasAgg(e) <==> exists path :: AggAt(e, path)
  {
    if HasAgg(e) { var path := AggOccurs(e); }
    forall path | AggAt(e, path) ensures HasAgg(e) { OccursAgg(e, path); }
  }

  function WithoutAgg(items: seq<Expr>): (r: seq<Expr>)
    ensures forall e :: e in r <==> e in items && !HasAgg(e)
  {
    if items == [] then []
    else WithoutAgg(items[..|items| - 1]) + if HasAgg(items[|items| - 1]) then [] else [items[|items| - 1]]
  }

  lemma WithoutAggNext(items: seq<Expr>, k: nat)
    requires k < |items|
    ensures WithoutAgg(items[..k + 1]) == WithoutAgg(items[..k]) + if HasAgg(items[k]) then [] else [items[k]]
  {
    assert items[..k + 1][..k] == items[..k];
  }

  ghost predicate SomeHasAgg(items: seq<Expr>) {
    exists e | e in items :: HasAgg(e)
  }

  lemma SomeHasAggNext(items: seq<Expr>, k: nat)
    requires k < |items|
    ensures SomeHasAgg(items[..k + 1]) <==> SomeHasAgg(items[..k]) || HasAgg(items[k])
  {
    hide HasAgg;
    assert items[..k + 1] == items[..k] + [items[k]];
  }

  /** The items without aggregates become the GROUP BY list, if some item has an aggregate. */
  method TransformItemList(items: seq<Expr>) returns (groupClause: Option<seq<Expr>>)
    ensures groupClause == if SomeHasAgg(items) then Some(WithoutAgg(items)) else None
  {
    hide HasAgg;
    var groups: seq<Expr>, hasAgg := [], false;
    assert !SomeHasAgg(items[..0]);
    hide SomeHasAgg;
    for k := 0 to |items|
      invariant groups == WithoutAgg(items[..k])
      invariant hasAgg == SomeHasAgg(items[..k])
    {
      WithoutAggNext(items, k);
      SomeHasAggNext(items, k);
      hide WithoutAgg;
      if !HasAgg(items[k]) {
        groups := groups + [items[k]];
      } else {
        hasAgg := true;
      }
    }
    assert items[..|items|] == items;
    groupClause := if hasAgg then Some(groups) else None;
  }

  /** Every item that automatic grouping adds passes the check, whatever the other items are. */
  lemma AutoGroupedIsAccepted(items: seq<Expr>, e: Expr)
    requires e in WithoutAgg(items)
    ensures Accepts(e, 0, WithoutAgg(items))
  {}

  /** With automatic grouping, only items with aggregates can be refused. */
  lemma {:induction false} OnlyAggregatesRefused(items: seq<Expr>, es: seq<Expr>)
    requires forall e | e in es && !HasAgg(e) :: e in items
    ensures AcceptsAll(es, 0, WithoutAgg(items)) <==> forall e | e in es && HasAgg(e) :: Accepts(e, 0, WithoutAgg(items))
  {
    hide Accepts, HasAgg, WithoutAgg;
    var groups := WithoutAgg(items);
    if es != [] {
      OnlyAggregatesRefused(items, es[1..]);
      assert es == [es[0]] + es[1..];
      assert forall e :: e in es <==> e == es[0] || e in es[1..];
      if !HasAgg(es[0]) { AutoGroupedIsAccepted(items, es[0]); }
      assert AcceptsAll(es, 0, groups) <==> Accepts(es[0], 0, groups) && AcceptsAll(es[1..], 0, groups);
      assert es[0] in es;
      if forall e | e in es && HasAgg(e) :: Accepts(e, 0, groups) {
        assert forall e | e in es[1..] && HasAgg(e) :: Accepts(e, 0, groups);
      }
    }
  }
}
