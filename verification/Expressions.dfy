/** Analysed expressions, and the query levels their variables and aggregates belong to. */
module Expressions {
  import opened Results

  /**
   * Levels count outwards: 0 is the query the expression stands in, 1 the query around it. A `Query` is
   * a sub-select with the expressions in it, whose levels count from inside.
   */
  datatype Expr =
    | Const(value: int)
    | Var(level: nat, rel: nat, attr: nat)
    | Call(fn: nat, retset: bool, args: seq<Expr>)
    | Window(fn: nat, args: seq<Expr>)
    | Aggref(fn: nat, level: nat, direct: seq<Expr>, args: seq<Expr>, filter: seq<Expr>)
    | Grouping(level: nat, args: seq<Expr>)
    | Query(id: nat, members: seq<Expr>)

  /** Levels seen from one query further out; those of the sub-select itself drop out. */
  function Outside(levels: set<nat>): set<nat> {
    set l | l in levels && l > 0 :: l - 1
  }

  /** The free levels of the variables, or of the aggregates and grouping operations. */
  function Levels(e: Expr, ofAggs: bool): set<nat>
    decreases e
  {
    match e
    case Const(_) => {}
    case Var(level, _, _) => if ofAggs then {} else {level}
    case Call(_, _, args) => AllLevels(args, ofAggs)
    case Window(_, args) => AllLevels(args, ofAggs)
    case Aggref(_, level, direct, args, filter) =>
      (if ofAggs then {level} else {}) + AllLevels(direct, ofAggs) + AllLevels(args, ofAggs) + AllLevels(filter, ofAggs)
    case Grouping(level, args) => (if ofAggs then {level} else {}) + AllLevels(args, ofAggs)
    case Query(_, members) => Outside(AllLevels(members, ofAggs))
  }

  function AllLevels(es: seq<Expr>, ofAggs: bool): set<nat>
    decreases es
  {
    if es == [] then {} else Levels(es[0], ofAggs) + AllLevels(es[1..], ofAggs)
  }

  /** A set-returning or window function that is not inside a sub-select. */
  predicate HasForbidden(e: Expr)
    decreases e
  {
    match e
    case Const(_) => false
    case Var(_, _, _) => false
    case Call(_, retset, args) => retset || AnyForbidden(args)
    case Window(_, _) => true
    case Aggref(_, _, direct, args, filter) => AnyForbidden(direct) || AnyForbidden(args) || AnyForbidden(filter)
    case Grouping(_, args) => AnyForbidden(args)
    case Query(_, _) => false
  }

  predicate AnyForbidden(es: seq<Expr>)
    decreases es
  {
    es != [] && (HasForbidden(es[0]) || AnyForbidden(es[1..]))
  }

  // ---------------------------------------------------------------- occurrences

  /** The parts of an expression: an aggregate has three, and the members of a sub-select are a query further in. */
  datatype Part = Direct | Args | Filter | Members

  /** One step into an expression; a sequence of steps leads to an occurrence of a part of it. */
  datatype Step = Step(part: Part, index: nat)

  function Children(e: Expr, part: Part): (es: seq<Expr>)
    ensures forall k | 0 <= k < |es| :: es[k] < e
  {
    match part
    case Direct => if e.Aggref? then e.direct else []
    case Args => if e.Call? || e.Window? || e.Aggref? || e.Grouping? then e.args else []
    case Filter => if e.Aggref? then e.filter else []
    case Members => if e.Query? then e.members else []
  }

  /** What occurs at the end of the path. */
  function SubExpr(e: Expr, path: seq<Step>): Option<Expr>
    decreases |path|
  {
    if path == [] then Some(e)
    else if path[0].index >= |Children(e, path[0].part)| then None
    else SubExpr(Children(e, path[0].part)[path[0].index], path[1..])
  }

  /** How many sub-selects the path leads into. */
  function SubSelects(path: seq<Step>): nat {
    if path == [] then 0 else (if path[0].part.Members? then 1 else 0) + SubSelects(path[1..])
  }

  lemma FirstStep(e: Expr, step: Step, rest: seq<Step>)
    requires step.index < |Children(e, step.part)|
    ensures SubExpr(e, [step] + rest) == SubExpr(Children(e, step.part)[step.index], rest)
    ensures SubSelects([step] + rest) == (if step.part.Members? then 1 else 0) + SubSelects(rest)
  {
    assert ([step] + rest)[1..] == rest;
  }

  lemma {:induction false} LevelsOfOne(es: seq<Expr>, k: nat, ofAggs: bool)
    requires k < |es|
    ensures Levels(es[k], ofAggs) <= AllLevels(es, ofAggs)
  {
    if k > 0 { LevelsOfOne(es[1..], k - 1, ofAggs); }
  }

  /** The expression is of a level: a variable, or an aggregate or grouping operation. */
  predicate HasLevel(e: Expr, ofAggs: bool, level: nat) {
    if ofAggs then (e.Aggref? || e.Grouping?) && e.level == level else e.Var? && e.level == level
  }

  /** At the path occurs something of this level, counted from outside the expression. */
  predicate OccursAt(e: Expr, path: seq<Step>, ofAggs: bool, level: nat) {
    SubExpr(e, path).Some? && HasLevel(SubExpr(e, path).value, ofAggs, level + SubSelects(path))
  }

  lemma {:induction false} OccursFree(e: Expr, path: seq<Step>, ofAggs: bool, level: nat)
    requires OccursAt(e, path, ofAggs, level)
    ensures level in Levels(e, ofAggs)
    decreases |path|
  {
    if path != [] {
      var es, k := Children(e, path[0].part), path[0].index;
      OccursFree(es[k], path[1..], ofAggs, level + if path[0].part.Members? then 1 else 0);
      LevelsOfOne(es, k, ofAggs);
      if e.Query? { assert level + 1 in AllLevels(e.members, ofAggs); }
    }
  }

  /** Every free level is that of some occurrence. */
  lemma {:induction false} FreeOccurs(e: Expr, ofAggs: bool, level: nat) returns (path: seq<Step>)
    requires level in Levels(e, ofAggs)
    ensures OccursAt(e, path, ofAggs, level)
    decreases e, 1
  {
    path := [];
    if !HasLevel(e, ofAggs, level) {
      var part :=
        if e.Query? then Members
        else if e.Aggref? && level in AllLevels(e.direct, ofAggs) then Direct
        else if e.Aggref? && level in AllLevels(e.filter, ofAggs) then Filter
        else Args;
      var inside := level + if e.Query? then 1 else 0;
      assert inside in AllLevels(Children(e, part), ofAggs);
      var k, rest := FreeOccursIn(Children(e, part), ofAggs, inside, e);
      path := [Step(part, k)] + rest;
      FirstStep(e, Step(part, k), rest);
    }
  }

  lemma {:induction false} FreeOccursIn(es: seq<Expr>, ofAggs: bool, level: nat, whole: Expr) returns (k: nat, path: seq<Step>)
    requires level in AllLevels(es, ofAggs) && forall k | 0 <= k < |es| :: es[k] < whole
    ensures k < |es| && OccursAt(es[k], path, ofAggs, level)
    decreases whole, 0, |es|
  {
    if level in Levels(es[0], ofAggs) {
      k := 0;
      path := FreeOccurs(es[0], ofAggs, level);
    } else {
      k, path := FreeOccursIn(es[1..], ofAggs, level, whole);
      k := k + 1;
    }
  }

  /** The free levels are those of the variables, or of the aggregates and grouping operations, that occur in the expression, at any depth. */
  lemma LevelsAre(e: Expr, ofAggs: bool, level: nat)
    ensures level in Levels(e, ofAggs) <==> exists path :: OccursAt(e, path, ofAggs, level)
  {
    if level in Levels(e, ofAggs) { var path := FreeOccurs(e, ofAggs, level); }
    forall path | OccursAt(e, path, ofAggs, level) ensures level in Levels(e, ofAggs) { OccursFree(e, path, ofAggs, level); }
  }

  /** At the path, outside sub-selects, occurs a set-returning or a window function. */
  predicate ForbiddenAt(e: Expr, path: seq<Step>) {
    && SubExpr(e, path).Some? && SubSelects(path) == 0
    && var sub := SubExpr(e, path).value; sub.Window? || (sub.Call? && sub.retset)
  }

  lemma {:induction false} ForbiddenOne(es: seq<Expr>, k: nat)
    requires k < |es| && HasForbidden(es[k])
    ensures AnyForbidden(es)
  {
    if k > 0 { ForbiddenOne(es[1..], k - 1); }
  }

  lemma {:induction false} OccursForbidden(e: Expr, path: seq<Step>)
    requires ForbiddenAt(e, path)
    ensures HasForbidden(e)
    decreases |path|
  {
    if path != [] {
      OccursForbidden(Children(e, path[0].part)[path[0].index], path[1..]);
      ForbiddenOne(Children(e, path[0].part), path[0].index);
    }
  }

  lemma {:induction false} ForbiddenOccurs(e: Expr) returns (path: seq<Step>)
    requires HasForbidden(e)
    ensures ForbiddenAt(e, path)
    decreases e, 1
  {
    path := [];
    if !ForbiddenAt(e, []) {
      var part := if e.Aggref? && AnyForbidden(e.direct) then Direct else if e.Aggref? && AnyForbidden(e.filter) then Filter else Args;
      assert AnyForbidden(Children(e, part));
      var k, rest := ForbiddenOccursIn(Children(e, part), e);
      path := [Step(part, k)] + rest;
      FirstStep(e, Step(part, k), rest);
    }
  }

  lemma {:induction false} ForbiddenOccursIn(es: seq<Expr>, whole: Expr) returns (k: nat, path: seq<Step>)
    requires AnyForbidden(es) && forall k | 0 <= k < |es| :: es[k] < whole
    ensures k < |es| && ForbiddenAt(es[k], path)
    decreases whole, 0, |es|
  {
    if HasForbidden(es[0]) {
      k := 0;
      path := ForbiddenOccurs(es[0]);
    } else {
      k, path := ForbiddenOccursIn(es[1..], whole);
      k := k + 1;
    }
  }

  /** What may not stand in an aggregate is exactly a set-returning or window function outside sub-selects. */
  lemma ForbiddenIs(e: Expr)
    ensures HasForbidden(e) <==> exists path :: ForbiddenAt(e, path)
  {
    if HasForbidden(e) { var path := ForbiddenOccurs(e); }
    forall path | ForbiddenAt(e, path) ensures HasForbidden(e) { OccursForbidden(e, path); }
  }

  // ---------------------------------------------------------------- lists

  /** Something of this level occurs in one of the expressions. */
  ghost predicate Occurs(es: seq<Expr>, ofAggs: bool, level: nat) {
    exists k, path :: 0 <= k < |es| && OccursAt(es[k], path, ofAggs, level)
  }

  ghost predicate AnyForbiddenAt(es: seq<Expr>) {
    exists k, path :: 0 <= k < |es| && ForbiddenAt(es[k], path)
  }

  lemma AllLevelsAre(es: seq<Expr>, ofAggs: bool)
    ensures forall level: nat :: level in AllLevels(es, ofAggs) <==> Occurs(es, ofAggs, level)
  {
    hide OccursAt, AllLevels;
    forall level: nat ensures level in AllLevels(es, ofAggs) <==> Occurs(es, ofAggs, level) {
      if level in AllLevels(es, ofAggs) { var k, path := FreeOccursIn(es, ofAggs, level, Call(0, false, es)); }
      if k, path :| 0 <= k < |es| && OccursAt(es[k], path, ofAggs, level) {
        OccursFree(es[k], path, ofAggs, level);
        LevelsOfOne(es, k, ofAggs);
      }
    }
  }

  lemma AnyForbiddenIs(es: seq<Expr>)
    ensures AnyForbidden(es) <==> AnyForbiddenAt(es)
  {
    hide ForbiddenAt, AnyForbidden;
    if AnyForbidden(es) { var k, path := ForbiddenOccursIn(es, Call(0, false, es)); }
    if k, path :| 0 <= k < |es| && ForbiddenAt(es[k], path) {
      OccursForbidden(es[k], path);
      ForbiddenOne(es, k);
    }
  }
}
