/** The level of an aggregate, and which nestings are refused. */
module AggLevels {
  import opened Results
  import opened Expressions

  // ---------------------------------------------------------------- what is accepted

  predicate IsLeast(l: nat, levels: set<nat>) {
    l in levels && forall x | x in levels :: l <= x
  }

  /** The level of an aggregate: the lowest one among its arguments, or its own query's if they have none. */
  predicate IsLevel(l: nat, levels: set<nat>) {
    if levels == {} then l == 0 else IsLeast(l, levels)
  }

  /** The levels of the aggregated arguments and the filter. */
  function ArgLevels(args: seq<Expr>, filter: seq<Expr>): set<nat> {
    AllLevels(args, false) + AllLevels(args, true) + AllLevels(filter, false) + AllLevels(filter, true)
  }

  /**
   * An aggregate of level l is in order: nothing forbidden in its arguments, no aggregate of its own
   * level in them, and in the direct arguments only variables of at least its level and aggregates of
   * a higher one.
   */
  predicate Acceptable(l: nat, direct: seq<Expr>, args: seq<Expr>, filter: seq<Expr>) {
    && IsLevel(l, ArgLevels(args, filter))
    && !AnyForbidden(direct) && !AnyForbidden(args) && !AnyForbidden(filter)
    && l !in AllLevels(args, true) && l !in AllLevels(filter, true)
    && (forall v | v in AllLevels(direct, false) :: l <= v)
    && (forall a | a in AllLevels(direct, true) :: l < a)
  }

  /** Every aggregate and grouping operation has the level its arguments give it. */
  predicate WellLevelled(e: Expr)
    decreases e
  {
    match e
    case Const(_) => true
    case Var(_, _, _) => true
    case Call(_, _, args) => AllWellLevelled(args)
    case Window(_, args) => AllWellLevelled(args)
    case Aggref(_, level, direct, args, filter) =>
      AllWellLevelled(direct) && AllWellLevelled(args) && AllWellLevelled(filter) && Acceptable(level, direct, args, filter)
    case Grouping(level, args) => AllWellLevelled(args) && Acceptable(level, [], args, [])
    case Query(_, members) => AllWellLevelled(members)
  }

  predicate AllWellLevelled(es: seq<Expr>)
    decreases es
  {
    es == [] || (WellLevelled(es[0]) && AllWellLevelled(es[1..]))
  }

  /** Nothing in an accepted aggregate belongs to a level below its own; nested aggregates are all above it. */
  lemma NothingBelow(l: nat, direct: seq<Expr>, args: seq<Expr>, filter: seq<Expr>)
    requires Acceptable(l, direct, args, filter)
    ensures forall x | x in AllLevels(direct, false) || x in AllLevels(args, false) || x in AllLevels(filter, false) :: l <= x
    ensures forall x | x in AllLevels(direct, true) || x in AllLevels(args, true) || x in AllLevels(filter, true) :: l < x
  {}

  /** The level at which something of the arguments or the filter belongs, variable, aggregate or grouping operation. */
  ghost predicate OccursInArgs(args: seq<Expr>, filter: seq<Expr>, level: nat) {
    Occurs(args, false, level) || Occurs(args, true, level) || Occurs(filter, false, level) || Occurs(filter, true, level)
  }

  /**
   * An aggregate has the level exactly when it is the least at which something of its arguments and filter belongs, or
   * its own query's if nothing does; and is in order exactly when no set-returning or window function occurs in it
   * outside sub-selects, no aggregate of its own level in arguments or filter, and in the direct arguments no variable
   * of a lower level and no aggregate but of higher ones.
   */
  lemma AcceptableExactly(l: nat, direct: seq<Expr>, args: seq<Expr>, filter: seq<Expr>)
    ensures Acceptable(l, direct, args, filter) <==>
      && (if exists x: nat :: OccursInArgs(args, filter, x)
          then OccursInArgs(args, filter, l) && forall x: nat | OccursInArgs(args, filter, x) :: l <= x
          else l == 0)
      && !AnyForbiddenAt(direct) && !AnyForbiddenAt(args) && !AnyForbiddenAt(filter)
      && !Occurs(args, true, l) && !Occurs(filter, true, l)
      && (forall v: nat | Occurs(direct, false, v) :: l <= v)
      && (forall a: nat | Occurs(direct, true, a) :: l < a)
  {
    hide Occurs, AnyForbiddenAt, AllLevels, AnyForbidden;
    AnyForbiddenIs(direct);
    AnyForbiddenIs(args);
    AnyForbiddenIs(filter);
    AllLevelsAre(direct, false);
    AllLevelsAre(direct, true);
    AllLevelsAre(args, false);
    AllLevelsAre(args, true);
    AllLevelsAre(filter, false);
    AllLevelsAre(filter, true);
    var levels := ArgLevels(args, filter);
    assert forall x: nat :: x in levels <==> OccursInArgs(args, filter, x);
    if levels != {} { assert exists x: nat :: x in levels && OccursInArgs(args, filter, x); }
  }

  // ---------------------------------------------------------------- the walker

  /** The levels seen from the query in which the walk began, `depth` sub-selects further out. */
  function SeenFrom(levels: set<nat>, depth: nat): set<nat> {
    set l | l in levels && l >= depth :: l - depth
  }

  lemma SeenFromInside(levels: set<nat>, depth: nat)
    ensures SeenFrom(Outside(levels), depth) == SeenFrom(levels, depth + 1)
  {
    forall x ensures x in SeenFrom(Outside(levels), depth) <==> x in SeenFrom(levels, depth + 1) {
      if x in SeenFrom(levels, depth + 1) { assert x + depth in Outside(levels) by { assert x + depth + 1 in levels; } }
      if x in SeenFrom(Outside(levels), depth) { assert x + depth + 1 in levels; }
    }
  }

  lemma SeenFromUnion(a: set<nat>, b: set<nat>, depth: nat)
    ensures SeenFrom(a + b, depth) == SeenFrom(a, depth) + SeenFrom(b, depth)
  {}

  /** -1 stands for nothing found yet. */
  predicate Holds(min: int, found: set<nat>) {
    if found == {} then min == -1 else min >= 0 && IsLeast(min, found)
  }

  class AggWalker {
    var minVarLevel: int
    var minAggLevel: int
    var sublevelsUp: nat
    ghost var vars: set<nat>
    ghost var aggs: set<nat>

    ghost predicate Valid()
      reads this
    {
      Holds(minVarLevel, vars) && Holds(minAggLevel, aggs)
    }

    constructor ()
      ensures Valid() && vars == {} && aggs == {} && sublevelsUp == 0
    {
      minVarLevel, minAggLevel, sublevelsUp := -1, -1, 0;
      vars, aggs := {}, {};
    }

    /** Starts over for the direct arguments. */
    method Reset()
      modifies this
      ensures Valid() && vars == {} && aggs == {} && sublevelsUp == old(sublevelsUp)
    {
      minVarLevel, minAggLevel := -1, -1;
      vars, aggs := {}, {};
    }

    method SeeVar(level: nat)
      requires Valid()
      modifies this
      ensures Valid() && sublevelsUp == old(sublevelsUp) && aggs == old(aggs)
      ensures vars == old(vars) + SeenFrom({level}, sublevelsUp)
    {
      var up := level - sublevelsUp;
      if up >= 0 {
        if minVarLevel < 0 || minVarLevel > up { minVarLevel := up; }
        vars := vars + {up};
      }
    }

    method SeeAgg(level: nat)
      requires Valid()
      modifies this
      ensures Valid() && sublevelsUp == old(sublevelsUp) && vars == old(vars)
      ensures aggs == old(aggs) + SeenFrom({level}, sublevelsUp)
    {
      var up := level - sublevelsUp;
      if up >= 0 {
        if minAggLevel < 0 || minAggLevel > up { minAggLevel := up; }
        aggs := aggs + {up};
      }
    }

    /** Collects the least free levels; fails at a set-returning or window function outside sub-selects. */
    method Walk(e: Expr) returns (r: Result<()>)
      requires Valid()
      modifies this
      ensures sublevelsUp == old(sublevelsUp)
      ensures r.Ok? <==> sublevelsUp > 0 || !HasForbidden(e)
      ensures r.Ok? ==> Valid() && vars == old(vars) + SeenFrom(Levels(e, false), sublevelsUp)
                        && aggs == old(aggs) + SeenFrom(Levels(e, true), sublevelsUp)
      decreases e, 1
    {
      hide SeenFrom, Holds, Outside;
      SeenFromNothing(sublevelsUp);
      match e
      case Const(_) => r := Ok(());
      case Var(level, _, _) =>
        SeeVar(level);
        r := Ok(());
      case Call(_, retset, args) =>
        if sublevelsUp == 0 && retset { return Err(SetReturningInAggregate); }
        r := WalkAll(args);
      case Window(_, args) =>
        if sublevelsUp == 0 { return Err(WindowInAggregate); }
        r := WalkAll(args);
      case Aggref(_, level, direct, args, filter) =>
        SeeAgg(level);
        r := WalkArguments(e);
        SeenFromParts(level, AllLevels(direct, true), AllLevels(args, true), AllLevels(filter, true), sublevelsUp);
        SeenFromParts(level, AllLevels(direct, false), AllLevels(args, false), AllLevels(filter, false), sublevelsUp);
      case Grouping(level, args) =>
        SeeAgg(level);
        r := WalkAll(args);
        SeenFromUnion({level}, AllLevels(args, true), sublevelsUp);
        SeenFromUnion({}, AllLevels(args, false), sublevelsUp);
      case Query(_, members) => r := WalkQuery(members);
    }

    method WalkArguments(e: Expr) returns (r: Result<()>)
      requires Valid() && e.Aggref?
      modifies this
      ensures sublevelsUp == old(sublevelsUp)
      ensures r.Ok? <==> sublevelsUp > 0 || (!AnyForbidden(e.direct) && !AnyForbidden(e.args) && !AnyForbidden(e.filter))
      ensures r.Ok? ==> Valid()
      ensures r.Ok? ==> vars == old(vars) + (SeenFrom(AllLevels(e.direct, false), sublevelsUp)
                                + SeenFrom(AllLevels(e.args, false), sublevelsUp) + SeenFrom(AllLevels(e.filter, false), sublevelsUp))
      ensures r.Ok? ==> aggs == old(aggs) + (SeenFrom(AllLevels(e.direct, true), sublevelsUp)
                                + SeenFrom(AllLevels(e.args, true), sublevelsUp) + SeenFrom(AllLevels(e.filter, true), sublevelsUp))
      decreases e, 0
    {
      hide AllLevels, SeenFrom, Holds, AnyForbidden;
      var _ :- WalkAll(e.direct);
      var _ :- WalkAll(e.args);
      r := WalkAll(e.filter);
    }

    method WalkQuery(members: seq<Expr>) returns (r: Result<()>)
      requires Valid()
      modifies this
      ensures sublevelsUp == old(sublevelsUp) && r.Ok? && Valid()
      ensures vars == old(vars) + SeenFrom(Outside(AllLevels(members, false)), sublevelsUp)
      ensures aggs == old(aggs) + SeenFrom(Outside(AllLevels(members, true)), sublevelsUp)
      decreases members, 1
    {
      hide AllLevels, SeenFrom, Outside, Holds, AnyForbidden;
      sublevelsUp := sublevelsUp + 1;
      r := WalkAll(members);
      sublevelsUp := sublevelsUp - 1;
      SeenFromInside(AllLevels(members, false), sublevelsUp);
      SeenFromInside(AllLevels(members, true), sublevelsUp);
    }

    method WalkAll(es: seq<Expr>) returns (r: Result<()>)
      requires Valid()
      modifies this
      ensures sublevelsUp == old(sublevelsUp)
      ensures r.Ok? <==> sublevelsUp > 0 || !AnyForbidden(es)
      ensures r.Ok? ==> Valid() && vars == old(vars) + SeenFrom(AllLevels(es, false), sublevelsUp)
                        && aggs == old(aggs) + SeenFrom(AllLevels(es, true), sublevelsUp)
      decreases es, 0
    {
      if es == [] { return Ok(()); }
      var _ :- Walk(es[0]);
      r := WalkAll(es[1..]);
      SeenFromUnion(Levels(es[0], false), AllLevels(es[1..], false), sublevelsUp);
      SeenFromUnion(Levels(es[0], true), AllLevels(es[1..], true), sublevelsUp);
    }
  }

  lemma SeenFromParts(level: nat, a: set<nat>, b: set<nat>, c: set<nat>, depth: nat)
    ensures SeenFrom({level} + a + b + c, depth) ==
      SeenFrom({level}, depth) + SeenFrom(a, depth) + SeenFrom(b, depth) + SeenFrom(c, depth)
    ensures SeenFrom({} + a + b + c, depth) == SeenFrom(a, depth) + SeenFrom(b, depth) + SeenFrom(c, depth)
  {}

  lemma SeenFromNothing(depth: nat)
    ensures SeenFrom({}, depth) == {}
  {}

  lemma SeenFromHere(levels: set<nat>)
    ensures SeenFrom(levels, 0) == levels
  {
    forall x ensures x in SeenFrom(levels, 0) <==> x in levels {
      if x in levels { assert x - 0 in SeenFrom(levels, 0); }
    }
  }

  /**
   * The level of an aggregate call, or an error. It is accepted exactly when some level is acceptable
   * for it, and that level is the least free level of its arguments and filter, 0 if there is none.
   */
  method CheckAggArguments(direct: seq<Expr>, args: seq<Expr>, filter: seq<Expr>) returns (r: Result<nat>)
    ensures r.Ok? ==> Acceptable(r.value, direct, args, filter)
    ensures r.Err? ==> forall l: nat :: !Acceptable(l, direct, args, filter)
  {
    var walker := new AggWalker();
    var _ :- walker.WalkAll(args);
    var _ :- walker.WalkAll(filter);
    SeenFromAll(args);
    SeenFromAll(filter);
    SeenFromAll(direct);
    assert walker.vars == AllLevels(args, false) + AllLevels(filter, false);
    assert walker.aggs == AllLevels(args, true) + AllLevels(filter, true);
    assert walker.vars + walker.aggs == ArgLevels(args, filter);
    var level: int;
    if walker.minVarLevel < 0 {
      level := if walker.minAggLevel < 0 then 0 else walker.minAggLevel;
    } else if walker.minAggLevel < 0 {
      level := walker.minVarLevel;
    } else {
      level := if walker.minVarLevel < walker.minAggLevel then walker.minVarLevel else walker.minAggLevel;
    }
    assert IsLevel(level, ArgLevels(args, filter)) by {
      LeastOfTwo(walker.minVarLevel, walker.vars, walker.minAggLevel, walker.aggs);
    }
    assert level in walker.aggs <==> level == walker.minAggLevel;
    if level == walker.minAggLevel {
      forall l: nat ensures !Acceptable(l, direct, args, filter) { OnlyLevel(l, level, direct, args, filter); }
      return Err(NestedAggregates);
    }
    walker.Reset();
    var walked := walker.WalkAll(direct);
    if walked.Err? { return Err(walked.error); }
    if 0 <= walker.minVarLevel < level {
      forall l: nat ensures !Acceptable(l, direct, args, filter) { OnlyLevel(l, level, direct, args, filter); }
      return Err(LowerLevelVariable);
    }
    if 0 <= walker.minAggLevel <= level {
      forall l: nat ensures !Acceptable(l, direct, args, filter) { OnlyLevel(l, level, direct, args, filter); }
      return Err(NestedAggregates);
    }
    return Ok(level);
  }

  lemma SeenFromAll(es: seq<Expr>)
    ensures SeenFrom(AllLevels(es, false), 0) == AllLevels(es, false) && SeenFrom(AllLevels(es, true), 0) == AllLevels(es, true)
  {
    SeenFromHere(AllLevels(es, false));
    SeenFromHere(AllLevels(es, true));
  }

  lemma LeastOfTwo(v: int, vars: set<nat>, a: int, aggs: set<nat>)
    requires Holds(v, vars) && Holds(a, aggs)
    ensures vars + aggs == {} <==> v < 0 && a < 0
    ensures v >= 0 && (a < 0 || v <= a) ==> IsLeast(v, vars + aggs)
    ensures a >= 0 && (v < 0 || a <= v) ==> IsLeast(a, vars + aggs)
  {
    assert v >= 0 ==> v in vars + aggs;
    assert a >= 0 ==> a in vars + aggs;
  }

  lemma OnlyLevel(l: nat, level: nat, direct: seq<Expr>, args: seq<Expr>, filter: seq<Expr>)
    requires IsLevel(level, ArgLevels(args, filter))
    ensures Acceptable(l, direct, args, filter) ==> l == level
  {}

  // ---------------------------------------------------------------- marking the level

  /** Where in a query an expression is being analysed. */
  datatype ExprKind = Other | Having | WindowPartition | WindowOrder | SelectTarget | OrderBy | DistinctOn | Elsewhere(clause: string)

  lemma LevelInRange(level: nat, direct: seq<Expr>, args: seq<Expr>, filter: seq<Expr>, depth: nat)
    requires Acceptable(level, direct, args, filter) && depth > 0 && forall l | l in ArgLevels(args, filter) :: l < depth
    ensures level < depth
    ensures forall l: nat :: Acceptable(l, direct, args, filter) ==> l == level
  {}

  class ParseLevel {
    const parent: ParseLevel?
    const kind: ExprKind
    var hasAggs: bool
    ghost const chain: seq<ParseLevel>

    /** This level and those around it, from the inside out. */
    ghost predicate Valid()
      decreases |chain|
    {
      && chain != [] && chain[0] == this
      && (if parent == null then chain == [this] else chain[1..] == parent.chain && parent.Valid())
    }

    constructor (parent: ParseLevel?, kind: ExprKind)
      requires parent != null ==> parent.Valid()
      ensures Valid() && this.parent == parent && this.kind == kind && !hasAggs
      ensures parent != null ==> chain[1..] == parent.chain
    {
      this.parent, this.kind, hasAggs := parent, kind, false;
      chain := [this] + if parent == null then [] else parent.chain;
    }

    /** Climbs outwards. */
    method Ancestor(level: nat) returns (at: ParseLevel)
      requires Valid() && level < |chain|
      ensures at == chain[level]
    {
      at := this;
      var climb := level;
      assert chain[0..] == chain;
      while climb > 0
        invariant 0 <= climb <= level < |chain| && at.Valid() && at.chain == chain[level - climb..]
      {
        assert at.chain[1..] == chain[level - climb + 1..];
        at := at.parent;
        climb := climb - 1;
      }
    }

    /**
     * Computes an aggregate's level and marks that level's query, and no other, as having aggregates.
     * Aggregates are refused where that query has no place for them.
     */
    method CheckAggLevels(direct: seq<Expr>, args: seq<Expr>, filter: seq<Expr>) returns (r: Result<nat>)
      requires Valid() && forall l | l in ArgLevels(args, filter) :: l < |chain|
      modifies chain
      ensures r.Ok? ==> Acceptable(r.value, direct, args, filter) && r.value < |chain| && !chain[r.value].kind.Elsewhere?
      ensures r.Ok? ==> forall k | 0 <= k < |chain| :: chain[k].hasAggs == (old(chain[k].hasAggs) || chain[k] == chain[r.value])
      ensures r.Err? ==> forall l: nat | l < |chain| :: Acceptable(l, direct, args, filter) ==> chain[l].kind.Elsewhere?
    {
      hide Acceptable, ArgLevels, AllLevels;
      var level :- CheckAggArguments(direct, args, filter);
      LevelInRange(level, direct, args, filter, |chain|);
      var at := Ancestor(level);
      at.hasAggs := true;
      if at.kind.Elsewhere? {
        return Err(AggregateNotAllowed);
      }
      return Ok(level);
    }
  }
}
