/**
 * The parse state of a MATCH clause, and the passes over a path: naming and transforming its
 * elements into entities, then walking the entities to emit the quals.
 */
module MatchCompile {
  import opened Results
  import opened PropertyGraph
  import opened MatchPattern
  import opened MatchQuals
  import opened MatchLinks
  import opened MatchTheorems

  /** The parsed element an entity stands for, with the variable it has by now. */
  function Declared(e: Entity): Elem {
    match e
    case Vertex(n, _) => Node(n)
    case Edge(r) => Rel(r)
    case VleEdge(r) => Rel(r)
  }

  predicate IncludeNodeInJoinTree(p: Path, n: NodePat) {
    p.varName.Some? || n.name.Some? || n.props.Some?
  }

  /** The first entity with this variable. */
  function FindVariable(entities: seq<Entity>, name: Option<Name>): (r: Option<Entity>)
    requires name.Some?
    ensures r.None? <==> forall e | e in entities :: e.Name() != name
    ensures r.Some? ==> r.value in entities && r.value.Name() == name
  {
    if entities == [] then None
    else if entities[0].Name() == name then Some(entities[0])
    else FindVariable(entities[1..], name)
  }

  /** The check made before an element's variable is declared, or reused. */
  predicate Declares(entities: seq<Entity>, e: Elem) {
    e.Name().None? ||
    match FindVariable(entities, e.Name())
    case None => true
    case Some(first) =>
      // A second range table entry for a variable-length edge clashes with any variable of its name.
      if e.Vle() then false
      else if e.Node? then first.Vertex? && e.node.ofLabel.AnyLabel? && e.node.props.None?
      else first.Edge? && e.rel.ofLabel.AnyLabel? && e.rel.props.None?
  }

  ghost predicate Kinds(entities: seq<Entity>) {
    forall e | e in entities :: (e.Edge? ==> e.rel.varlen.None?) && (e.VleEdge? ==> e.rel.varlen.Some?)
  }

  /** All entities may repeat the ones before them that have their variable. */
  ghost predicate EntitiesAgree(entities: seq<Entity>) {
    forall i, j | 0 <= i < j < |entities| && SameVariable(Declared(entities[i]), Declared(entities[j])) ::
      MayRepeat(Declared(entities[i]), Declared(entities[j]))
  }

  ghost predicate FitsAfter(entities: seq<Entity>, e: Elem) {
    forall x | x in entities && SameVariable(Declared(x), e) :: MayRepeat(Declared(x), e)
  }

  /** Looking at the first entity with the variable is as good as looking at all of them. */
  lemma DeclaresMeansFits(entities: seq<Entity>, e: Elem)
    requires Kinds(entities) && EntitiesAgree(entities)
    ensures Declares(entities, e) <==> FitsAfter(entities, e)
  {
    if e.Name().Some? && FindVariable(entities, e.Name()).Some? {
      var first := FindVariable(entities, e.Name()).value;
      assert SameVariable(Declared(first), e);
      var i :| 0 <= i < |entities| && entities[i] == first;
      forall x | x in entities && SameVariable(Declared(x), e) && Declares(entities, e) ensures MayRepeat(Declared(x), e) {
        var j :| 0 <= j < |entities| && entities[j] == x;
        assert i == j || MayRepeat(Declared(first), Declared(x)) || MayRepeat(Declared(x), Declared(first));
      }
    }
  }

  /** The name is one of the pattern's own. */
  ghost predicate Mentions(p: Path, name: Option<Name>) {
    exists k :: 0 <= k < |p.elems| && p.elems[k].Name() == name
  }

  ghost predicate AllNamed(p: Path) {
    forall k | 0 <= k < |p.elems| :: p.elems[k].Name().Some?
  }

  predicate Below(name: Option<Name>, n: nat) {
    name.Some? && name.value.Alias? ==> name.value.n < n
  }

  /**
   * The aliases the counter has yet to give out are free: no entity and no element of the pattern has one of
   * them, unless the pattern needs none. MERGE names every element of its pattern before it becomes a
   * MATCH, in a parse state whose counter starts at 0 again.
   */
  ghost predicate Clear(p: Path, entities: seq<Entity>, n: nat) {
    AllNamed(p) ||
    ((forall e | e in entities :: Below(e.Name(), n)) && forall k | 0 <= k < |p.elems| :: Below(p.elems[k].Name(), n))
  }

  /** A path fresh from the parser is clear behind any entities whose aliases the counter has given out. */
  lemma ParsedIsClear(p: Path, entities: seq<Entity>, n: nat)
    requires Parsed(p) && forall e | e in entities :: Below(e.Name(), n)
    ensures Clear(p, entities, n)
  {}

  /** No entity has the next alias. */
  ghost predicate AliasFree(entities: seq<Entity>, n: nat) {
    forall e | e in entities :: e.Name() != Some(Alias(n))
  }

  /** The new list keeps the invariant of the parse state when its last entity fits after the others. */
  lemma AppendAgrees(entities: seq<Entity>, e: Entity)
    requires EntitiesAgree(entities) && FitsAfter(entities, Declared(e))
    ensures EntitiesAgree(entities + [e])
  {
    var all := entities + [e];
    forall i, j | 0 <= i < j < |all| && SameVariable(Declared(all[i]), Declared(all[j]))
      ensures MayRepeat(Declared(all[i]), Declared(all[j]))
    {
      assert all[i] in entities;
    }
  }

  /** What one transformed position owes to its element. */
  ghost predicate Transformed(p: Path, ent: Entity, k: int)
    requires 0 <= k < |p.elems|
  {
    && Renames(p.elems[k], ent)
    && (p.elems[k].Node? ==> ent.inJoinTree == Scans(p, k))
    && (if p.elems[k].Name().Some? then ent.Name() == p.elems[k].Name()
        else ent.Name().Some? ==> ent.Name().value.Alias? && !Mentions(p, ent.Name()))
    && (ent.InTree() ==> ent.Name().Some?)
  }

  /** Generated variables occur once. */
  ghost predicate AliasesDiffer(p: Path, ents: seq<Entity>) {
    forall i, j | 0 <= i < j < |ents| && ents[i].Name().Some? && ents[i].Name() == ents[j].Name() ::
      Mentions(p, ents[i].Name())
  }

  lemma TransformedIsCompiled(p: Path, ents: seq<Entity>)
    requires WellFormed(p) && |ents| == |p.elems| && AliasesDiffer(p, ents)
    requires forall k | 0 <= k < |ents| :: Transformed(p, ents[k], k)
    ensures Compiled(p, ents)
  {
    forall i, j | 0 <= i < j < |ents| && ents[i].InTree() && ents[j].InTree() && ents[i].Name() == ents[j].Name()
      ensures p.elems[i].Name().Some? && p.elems[i].Name() == p.elems[j].Name()
    {
      assert Transformed(p, ents[i], i) && Transformed(p, ents[j], j);
      assert Mentions(p, ents[i].Name());
    }
  }

  /** The path's variables agree among themselves and with the entities already declared. */
  ghost predicate Accepted(prior: seq<Entity>, p: Path) {
    VariablesAgree(p) && forall k | 0 <= k < |p.elems| :: FitsAfter(prior, p.elems[k])
  }

  /** Nothing but the variable, and for an edge its direction, of the same kind as `a`, which is no variable-length edge. */
  predicate BareMention(a: Elem, b: Elem) {
    && !a.Vle()
    && if a.Node? then b == Node(NodePat(a.Name(), AnyLabel, None))
       else b.Rel? && b == Rel(RelPat(a.Name(), AnyLabel, None, None, b.rel.dir))
  }

  /** Element by element: a path is accepted exactly when every repeated variable is mentioned bare, in this clause or after earlier ones. */
  lemma AcceptedExactly(prior: seq<Entity>, p: Path)
    ensures Accepted(prior, p) <==>
      && (forall i, j | 0 <= i < j < |p.elems| && SameVariable(p.elems[i], p.elems[j]) :: BareMention(p.elems[i], p.elems[j]))
      && (forall e, k | e in prior && 0 <= k < |p.elems| && SameVariable(Declared(e), p.elems[k]) :: BareMention(Declared(e), p.elems[k]))
  {}

  /** The first `n` elements of the path are accepted. */
  ghost predicate AcceptedUpTo(prior: seq<Entity>, p: Path, n: int)
    requires 0 <= n <= |p.elems|
  {
    Accepted(prior, Path(p.varName, p.elems[..n]))
  }

  /** An entity made of an element has its variable, and may be repeated by the same ones. */
  lemma EntityStandsFor(p: Path, ent: Entity, k: int, n: int)
    requires 0 <= k < n < |p.elems| && Transformed(p, ent, k)
    ensures SameVariable(Declared(ent), p.elems[n]) == SameVariable(p.elems[k], p.elems[n])
    ensures SameVariable(p.elems[k], p.elems[n]) ==> MayRepeat(Declared(ent), p.elems[n]) == MayRepeat(p.elems[k], p.elems[n])
  {
    if SameVariable(Declared(ent), p.elems[n]) { assert Mentions(p, p.elems[n].Name()); }
  }

  /** The element fits after the entities made so far exactly when it fits the earlier clauses' and the path's own elements. */
  lemma FitsAfterPath(prior: seq<Entity>, p: Path, ents: seq<Entity>, n: int)
    requires 0 <= n < |p.elems| && |ents| == n
    requires forall k | 0 <= k < n :: Transformed(p, ents[k], k)
    ensures FitsAfter(prior + ents, p.elems[n]) <==>
      FitsAfter(prior, p.elems[n]) && forall k | 0 <= k < n && SameVariable(p.elems[k], p.elems[n]) :: MayRepeat(p.elems[k], p.elems[n])
  {
    forall k | 0 <= k < n
      ensures ents[k] in prior + ents && SameVariable(Declared(ents[k]), p.elems[n]) == SameVariable(p.elems[k], p.elems[n])
      ensures SameVariable(p.elems[k], p.elems[n]) ==> MayRepeat(Declared(ents[k]), p.elems[n]) == MayRepeat(p.elems[k], p.elems[n])
    {
      EntityStandsFor(p, ents[k], k, n);
    }
    hide SameVariable, MayRepeat, Declared, Transformed;
    assert forall x | x in prior :: x in prior + ents;
  }

  /** One element more is accepted exactly when it fits. */
  lemma AcceptedNext(prior: seq<Entity>, p: Path, n: int)
    requires 0 <= n < |p.elems| && AcceptedUpTo(prior, p, n)
    ensures AcceptedUpTo(prior, p, n + 1) <==>
      FitsAfter(prior, p.elems[n]) && forall k | 0 <= k < n && SameVariable(p.elems[k], p.elems[n]) :: MayRepeat(p.elems[k], p.elems[n])
  {
    hide SameVariable, MayRepeat, FitsAfter;
    var before, q := Path(p.varName, p.elems[..n]), Path(p.varName, p.elems[..n + 1]);
    assert forall k | 0 <= k < n :: q.elems[k] == before.elems[k] == p.elems[k];
    assert q.elems[n] == p.elems[n];
  }

  lemma AcceptedPart(prior: seq<Entity>, p: Path, n: int)
    requires 0 <= n <= |p.elems| && Accepted(prior, p)
    ensures AcceptedUpTo(prior, p, n)
  {
    hide SameVariable, MayRepeat, FitsAfter;
  }

  /** The next element is accepted exactly when it fits after the entities made so far. */
  lemma AcceptNext(prior: seq<Entity>, p: Path, ents: seq<Entity>, n: int)
    requires 0 <= n < |p.elems| && |ents| == n && AcceptedUpTo(prior, p, n)
    requires forall k | 0 <= k < n :: Transformed(p, ents[k], k)
    ensures AcceptedUpTo(prior, p, n + 1) <==> FitsAfter(prior + ents, p.elems[n])
    ensures !FitsAfter(prior + ents, p.elems[n]) ==> !Accepted(prior, p)
  {
    hide AcceptedUpTo, Accepted, FitsAfter, Transformed, SameVariable, MayRepeat;
    FitsAfterPath(prior, p, ents, n);
    AcceptedNext(prior, p, n);
    if Accepted(prior, p) { AcceptedPart(prior, p, n + 1); }
  }

  lemma VleFitsBefore(entities: seq<Entity>, vle: Entity, next: Entity)
    requires Kinds(entities) && EntitiesAgree(entities) && FitsAfter(entities, Declared(next)) && next.Vertex?
    requires vle.VleEdge? && vle.rel.varlen.Some? && FitsAfter(entities + [next], Declared(vle))
    ensures Kinds(entities + [vle, next]) && EntitiesAgree(entities + [vle, next])
    ensures !SameVariable(Declared(next), Declared(vle)) && FitsAfter(entities, Declared(vle))
  {
    assert next in entities + [next];
    assert forall x | x in entities :: x in entities + [next];
    AppendAgrees(entities, vle);
    assert FitsAfter(entities + [vle], Declared(next));
    AppendAgrees(entities + [vle], next);
    assert entities + [vle] + [next] == entities + [vle, next];
  }

  /** The lone undirected edge between unmentioned vertices: its second vertex gets a variable ahead of its turn. */
  predicate ForcedName(p: Path, i: int) {
    && i == 2 && |p.elems| == 3 && p.elems[0].Node? && p.elems[1].Rel? && p.elems[2].Node?
    && p.elems[1].rel.varlen.None? && p.elems[1].rel.dir.Either? && !Mentioned(p, 0) && !Mentioned(p, 2)
  }

  ghost predicate Forced(p: Path, original: Elem, now: Elem, n: nat, entities: seq<Entity>) {
    && !Mentions(p, now.Name()) && original.Node? && now == Node(original.node.(name := now.Name())) && now.Name().Some? && now.Name().value.Alias?
    && now.Name().value.n < n
    && forall e | e in entities :: e.Name() != now.Name()
  }

  /** The entity's variable is the pattern's, or no entity before it has it. */
  ghost predicate NewName(p: Path, entities: seq<Entity>, e: Entity) {
    e.Name().None? || Mentions(p, e.Name()) || forall x | x in entities :: x.Name() != e.Name()
  }

  /** The first `i` positions are done. */
  ghost predicate Progress(prior: seq<Entity>, p: Path, ents: seq<Entity>, i: int) {
    && |ents| == i <= |p.elems|
    && (forall k | 0 <= k < i :: Transformed(p, ents[k], k))
    && AliasesDiffer(p, ents) && AcceptedUpTo(prior, p, i)
  }

  lemma ProgressSoFar(prior: seq<Entity>, p: Path, ents: seq<Entity>, i: int)
    requires 0 <= i < |p.elems| && Progress(prior, p, ents, i)
    ensures |ents| == i && (i > 0 ==> Transformed(p, ents[i - 1], i - 1))
    ensures !FitsAfter(prior + ents, p.elems[i]) ==> !Accepted(prior, p)
  {
    AcceptNext(prior, p, ents, i);
  }

  lemma MakeProgress(prior: seq<Entity>, p: Path, ents: seq<Entity>, i: int, e: Entity)
    requires i < |p.elems| && Progress(prior, p, ents, i)
    requires Transformed(p, e, i) && NewName(p, prior + ents, e) && FitsAfter(prior + ents, p.elems[i])
    ensures Progress(prior, p, ents + [e], i + 1)
  {
    AcceptNext(prior, p, ents, i);
    var all := ents + [e];
    forall a, b | 0 <= a < b < |all| && all[a].Name().Some? && all[a].Name() == all[b].Name()
      ensures Mentions(p, all[a].Name())
    {
      if b == i { assert all[a] in prior + ents; }
    }
  }

  lemma FitsAfterOneMore(entities: seq<Entity>, x: Entity, e: Elem)
    ensures FitsAfter(entities + [x], e) <==>
      FitsAfter(entities, e) && (SameVariable(Declared(x), e) ==> MayRepeat(Declared(x), e))
  {
    assert x in entities + [x];
    assert forall y | y in entities :: y in entities + [x];
    assert forall y | y in entities + [x] :: y == x || y in entities;
  }

  /** An alias that the first k elements of the pattern do not have. */
  lemma {:induction false} AliasBeyond(p: Path, k: nat) returns (n: nat)
    requires k <= |p.elems|
    ensures forall j | 0 <= j < k :: Below(p.elems[j].Name(), n)
    ensures k == |p.elems| ==> !Mentions(p, Some(Alias(n)))
  {
    n := 0;
    if k > 0 {
      n := AliasBeyond(p, k - 1);
      var name := p.elems[k - 1].Name();
      if name.Some? && name.value.Alias? && name.value.n >= n { n := name.value.n + 1; }
    }
  }

  /** A variable-length edge and the vertex after it are accepted together. */
  lemma VleAccepted(prior: seq<Entity>, p: Path, ents: seq<Entity>, i: int)
    requires WellFormed(p) && 0 < i < |p.elems| - 1 && p.elems[i].Vle() && Progress(prior, p, ents, i)
    ensures Accepted(prior, p) ==>
      && FitsAfter(prior + ents, p.elems[i]) && FitsAfter(prior + ents, p.elems[i + 1])
      && !SameVariable(p.elems[i], p.elems[i + 1])
  {
    AcceptNext(prior, p, ents, i);
    if FitsAfter(prior + ents, p.elems[i]) {
      var rel := p.elems[i].rel;
      var n := AliasBeyond(p, |p.elems|);
      var vle := VleEdge(if rel.name.Some? then rel else rel.(name := Some(Alias(n))));
      AcceptNext(prior, p, ents + [vle], i + 1);
      assert prior + ents + [vle] == prior + (ents + [vle]);
      FitsAfterOneMore(prior + ents, vle, p.elems[i + 1]);
    }
  }

  lemma VleProgress(prior: seq<Entity>, p: Path, ents: seq<Entity>, i: int, vle: Entity, next: Entity)
    requires WellFormed(p) && 0 < i < |p.elems| - 1 && p.elems[i].Vle() && Progress(prior, p, ents, i)
    requires Transformed(p, vle, i) && Transformed(p, next, i + 1)
    requires NewName(p, prior + ents, vle) && NewName(p, prior + ents + [vle], next)
    requires FitsAfter(prior + ents, p.elems[i]) && FitsAfter(prior + ents, p.elems[i + 1])
    requires !SameVariable(p.elems[i], p.elems[i + 1])
    ensures Progress(prior, p, ents + [vle, next], i + 2)
  {
    MakeProgress(prior, p, ents, i, vle);
    assert prior + ents + [vle] == prior + (ents + [vle]);
    FitsAfterOneMore(prior + ents, vle, p.elems[i + 1]);
    MakeProgress(prior, p, ents + [vle], i + 1, next);
    assert ents + [vle] + [next] == ents + [vle, next];
  }

  /** The elements from `i` on are still as parsed, except that the vertex at `i` may have been named. */
  ghost predicate Pending(p: Path, elems: seq<Elem>, i: int, n: nat, entities: seq<Entity>) {
    && |elems| == |p.elems|
    && (forall k | 0 <= k < |elems| && i < k :: elems[k] == p.elems[k])
    && (0 <= i < |elems| ==>
          if ForcedName(p, i) then Forced(p, p.elems[i], elems[i], n, entities) else elems[i] == p.elems[i])
  }

  /** The list is at a vertex that no variable-length edge has already taken, or at an edge. */
  ghost predicate InTurn(p: Path, i: int) {
    0 <= i < |p.elems| ==> (p.elems[i].Node? <==> i % 2 == 0) && (p.elems[i].Node? && i > 0 ==> !p.elems[i - 1].Vle())
  }

  lemma NextInTurn(p: Path, i: int, step: int)
    requires WellFormed(p) && InTurn(p, i) && 0 <= i < |p.elems|
    requires step == if p.elems[i].Vle() then 2 else 1
    ensures i + step <= |p.elems| && InTurn(p, i + step)
  {
    if i + 1 < |p.elems| { assert p.elems[i + 1].Node? == p.elems[i].Rel?; }
    if i + 2 < |p.elems| { assert p.elems[i + 2].Node? == p.elems[i + 1].Rel?; }
  }

  lemma StartProgress(prior: seq<Entity>, p: Path)
    requires WellFormed(p)
    ensures Progress(prior, p, [], 0) && InTurn(p, 0) && Pending(p, p.elems, 0, 0, prior)
  {}

  lemma FinishProgress(prior: seq<Entity>, p: Path, ents: seq<Entity>)
    requires WellFormed(p) && Progress(prior, p, ents, |p.elems|)
    ensures Compiled(p, ents) && Accepted(prior, p)
  {
    TransformedIsCompiled(p, ents);
    assert p.elems[..|p.elems|] == p.elems;
  }

  class CypherParseState {
    var defaultAliasNum: nat
    var entities: seq<Entity>

    ghost predicate Valid()
      reads this
    {
      Kinds(entities) && EntitiesAgree(entities)
    }

    constructor ()
      ensures Valid() && entities == []
    {
      defaultAliasNum, entities := 0, [];
    }

    method GetNextDefaultAlias() returns (name: Name)
      modifies this`defaultAliasNum
      ensures name == Alias(old(defaultAliasNum)) && defaultAliasNum == old(defaultAliasNum) + 1
    {
      name := Alias(defaultAliasNum);
      defaultAliasNum := defaultAliasNum + 1;
    }

    /** `node` is the element at `i` as the passes before have named it. */
    method HandleVertex(p: Path, node: NodePat, i: int) returns (r: Result<Entity>)
      requires Valid() && WellFormed(p) && 0 <= i < |p.elems| && (node.name.None? ==> AliasFree(entities, defaultAliasNum))
      modifies this`defaultAliasNum
      ensures old(defaultAliasNum) <= defaultAliasNum
      ensures r.Ok? ==>
        && r.value.Vertex? && r.value.node == node.(name := r.value.node.name)
        && r.value.inJoinTree == (|p.elems| == 1 || IncludeNodeInJoinTree(p, node)
                                  || (i + 1 < |p.elems| && p.elems[i + 1].Vle()))
        && (r.value.inJoinTree ==> r.value.node.name.Some?)
        && (node.name.Some? ==> r.value.node.name == node.name)
        && (node.name.None? && r.value.node.name.Some? ==>
              r.value.node.name == Some(Alias(old(defaultAliasNum))) && defaultAliasNum > old(defaultAliasNum))
      ensures r.Ok? <==> FitsAfter(entities, Node(node))
    {
      var n := node;
      if n.name.None? && !IncludeNodeInJoinTree(p, n) && i + 1 < |p.elems| && p.elems[i + 1].Vle() {
        var alias := GetNextDefaultAlias();
        n := n.(name := Some(alias));
      }
      var output := if |p.elems| == 1 then true else IncludeNodeInJoinTree(p, n);
      if output {
        if n.name.Some? {
          DeclaresMeansFits(entities, Node(n));
          if !Declares(entities, Node(n)) {
            return Err(DuplicateVariable);
          }
        } else {
          var alias := GetNextDefaultAlias();
          n := n.(name := Some(alias));
        }
      }
      r := Ok(Vertex(n, output));
    }

    method HandleEdge(p: Path, rel: RelPat) returns (r: Result<Entity>)
      requires Valid() && rel.varlen.None?
      modifies this`defaultAliasNum
      ensures old(defaultAliasNum) <= defaultAliasNum
      ensures r.Ok? ==>
        && r.value.Edge? && r.value.rel == rel.(name := r.value.rel.name) && r.value.rel.name.Some?
        && (if rel.name.Some? then r.value.rel.name == rel.name
            else r.value.rel.name == Some(Alias(old(defaultAliasNum))) && defaultAliasNum > old(defaultAliasNum))
      ensures r.Ok? <==> FitsAfter(entities, Rel(rel))
    {
      if rel.name.Some? {
        DeclaresMeansFits(entities, Rel(rel));
        if !Declares(entities, Rel(rel)) {
          return Err(DuplicateVariable);
        }
        return Ok(Entity.Edge(rel));
      }
      var alias := GetNextDefaultAlias();
      r := Ok(Entity.Edge(rel.(name := Some(alias))));
    }

    method TransformVleEdge(rel: RelPat) returns (r: Result<Entity>)
      requires Valid() && rel.varlen.Some? && (rel.name.None? ==> AliasFree(entities, defaultAliasNum))
      modifies this`defaultAliasNum
      ensures old(defaultAliasNum) <= defaultAliasNum
      ensures r.Ok? ==>
        && r.value.VleEdge? && r.value.rel == rel.(name := r.value.rel.name) && r.value.rel.name.Some?
        && (if rel.name.Some? then r.value.rel.name == rel.name
            else r.value.rel.name == Some(Alias(old(defaultAliasNum))) && defaultAliasNum > old(defaultAliasNum))
      ensures r.Ok? <==> FitsAfter(entities, Rel(rel))
    {
      var named := rel;
      if rel.name.None? {
        var alias := GetNextDefaultAlias();
        named := rel.(name := Some(alias));
      }
      DeclaresMeansFits(entities, Rel(named));
      if !Declares(entities, Rel(named)) {
        return Err(DuplicateVariable);
      }
      r := Ok(VleEdge(named));
    }

    /** Appends an entity that fits. */
    method Append(e: Entity)
      requires Valid() && FitsAfter(entities, Declared(e)) && Kinds([e])
      modifies this`entities
      ensures Valid() && entities == old(entities) + [e]
    {
      AppendAgrees(entities, e);
      entities := entities + [e];
    }

    /** A variable-length edge at `i`: the vertex after it is named and transformed first, then put back behind it. */
    method StepVle(p: Path, rel: RelPat, node: NodePat, i: int) returns (r: Result<(Entity, Entity)>)
      requires Valid() && WellFormed(p) && 0 < i < |p.elems| - 1 && p.elems[i] == Rel(rel) && p.elems[i + 1] == Node(node)
      requires rel.varlen.Some? && Clear(p, entities, defaultAliasNum)
      modifies this
      ensures r.Ok? <==> FitsAfter(old(entities), Rel(rel)) && FitsAfter(old(entities), Node(node))
                         && !SameVariable(Rel(rel), Node(node))
      ensures r.Ok? ==>
        var (vle, next) := r.value;
        && Valid() && entities == old(entities) + [vle, next] && old(defaultAliasNum) <= defaultAliasNum
        && Clear(p, entities, defaultAliasNum)
        && Transformed(p, vle, i) && Transformed(p, next, i + 1)
        && NewName(p, old(entities), vle) && NewName(p, old(entities) + [vle], next)
    {
      hide Kinds, EntitiesAgree, MayRepeat;
      var n := node;
      if !IncludeNodeInJoinTree(p, n) {
        var alias := GetNextDefaultAlias();
        n := n.(name := Some(alias));
      }
      var next :- HandleVertex(p, n, i + 1);
      assert NextToVle(p, i + 1);
      ghost var before := entities;
      assert FitsAfter(before, Declared(next));
      Append(next);
      var vle :- TransformVleEdge(rel);
      assert next in entities;
      VleFitsBefore(before, vle, next);
      entities := entities[..|entities| - 1] + [vle, next];
      assert entities == before + [vle, next];
      r := Ok((vle, next));
    }

    /** A vertex at `i`, whose name may have been forced ahead of its turn. */
    method StepVertex(p: Path, node: NodePat, i: int) returns (r: Result<Entity>)
      requires Valid() && WellFormed(p) && 0 <= i < |p.elems| && p.elems[i].Node?
      requires if ForcedName(p, i) then Forced(p, p.elems[i], Node(node), defaultAliasNum, entities) else p.elems[i] == Node(node)
      requires (i > 0 ==> !p.elems[i - 1].Vle()) && Clear(p, entities, defaultAliasNum)
      modifies this
      ensures r.Ok? <==> FitsAfter(old(entities), p.elems[i])
      ensures r.Ok? ==>
        && Valid() && entities == old(entities) + [r.value] && old(defaultAliasNum) <= defaultAliasNum
        && Clear(p, entities, defaultAliasNum)
        && Transformed(p, r.value, i) && NewName(p, old(entities), r.value)
    {
      r := HandleVertex(p, node, i);
      if r.Ok? { Append(r.value); }
    }

    /** A single edge at `i`. */
    method StepEdge(p: Path, rel: RelPat, i: int) returns (r: Result<Entity>)
      requires Valid() && WellFormed(p) && 0 <= i < |p.elems| && p.elems[i] == Rel(rel) && rel.varlen.None?
      requires Clear(p, entities, defaultAliasNum)
      modifies this
      ensures r.Ok? <==> FitsAfter(old(entities), p.elems[i])
      ensures r.Ok? ==>
        && Valid() && entities == old(entities) + [r.value] && old(defaultAliasNum) <= defaultAliasNum
        && Clear(p, entities, defaultAliasNum)
        && Transformed(p, r.value, i) && NewName(p, old(entities), r.value)
        && (r.value.Name() == p.elems[i].Name() || r.value.Name() == Some(Alias(old(defaultAliasNum))))
    {
      r := HandleEdge(p, rel);
      if r.Ok? { Append(r.value); }
    }

    /** The element at `i`, or a variable-length edge and the vertex after it. */
    method StepEdges(p: Path, elems: seq<Elem>, ents: seq<Entity>, i: int, ghost prior: seq<Entity>)
      returns (r: Result<seq<Entity>>)
      requires Valid() && WellFormed(p) && entities == prior + ents && Progress(prior, p, ents, i)
      requires 0 < i < |elems| - 1 && |elems| == |p.elems| && elems[i] == p.elems[i] && elems[i].Rel?
      requires (elems[i].Vle() ==> elems[i + 1] == p.elems[i + 1]) && Clear(p, entities, defaultAliasNum)
      modifies this
      ensures r.Err? ==> !Accepted(prior, p)
      ensures r.Ok? ==>
        && Valid() && entities == prior + ents + r.value && |r.value| == (if elems[i].Vle() then 2 else 1)
        && Progress(prior, p, ents + r.value, i + |r.value|)
      ensures r.Ok? ==> old(defaultAliasNum) <= defaultAliasNum && Clear(p, entities, defaultAliasNum)
      ensures r.Ok? && !elems[i].Vle() ==>
        r.value[0].Name() == p.elems[i].Name() || r.value[0].Name() == Some(Alias(old(defaultAliasNum)))
    {
      AcceptNext(prior, p, ents, i);
      if elems[i].rel.varlen.None? {
        var entity :- StepEdge(p, elems[i].rel, i);
        MakeProgress(prior, p, ents, i, entity);
        r := Ok([entity]);
      } else {
        VleAccepted(prior, p, ents, i);
        var step :- StepVle(p, elems[i].rel, elems[i + 1].node, i);
        VleProgress(prior, p, ents, i, step.0, step.1);
        r := Ok([step.0, step.1]);
      }
    }

    /** Before a lone undirected edge is transformed, the vertex behind it may get a name. */
    method NameLoneVertex(p: Path, elems: seq<Elem>, ents: seq<Entity>, i: int) returns (named: seq<Elem>)
      requires Valid() && WellFormed(p) && 0 < i < |elems| - 1 && |elems| == |p.elems| && |ents| == i
      requires elems[i] == p.elems[i] && elems[i].Rel? && elems[i + 1] == p.elems[i + 1]
      requires Transformed(p, ents[i - 1], i - 1) && Clear(p, entities, defaultAliasNum)
      modifies this`defaultAliasNum
      ensures Valid() && old(defaultAliasNum) <= defaultAliasNum && Clear(p, entities, defaultAliasNum)
      ensures |named| == |elems| && forall k | 0 <= k < |elems| && k != i + 1 :: named[k] == elems[k]
      ensures if ForcedName(p, i + 1) then Forced(p, p.elems[i + 1], named[i + 1], defaultAliasNum, entities)
              else named[i + 1] == p.elems[i + 1]
      ensures elems[i].Vle() ==> named == elems
    {
      named := elems;
      var rel := elems[i].rel;
      if rel.varlen.None? && |elems| == 3 && rel.dir.Either? && !ents[i - 1].InTree() {
        var node := elems[2].node;
        if !IncludeNodeInJoinTree(p, node) {
          var alias := GetNextDefaultAlias();
          named := named[2 := Node(node.(name := Some(alias)))];
        }
      }
    }

    /** One turn of the loop: a vertex, an edge, or a variable-length edge with the vertex after it. */
    method Step(p: Path, elems: seq<Elem>, ents: seq<Entity>, i: int, ghost prior: seq<Entity>)
      returns (r: Result<seq<Entity>>, named: seq<Elem>)
      requires Valid() && WellFormed(p) && entities == prior + ents && Progress(prior, p, ents, i)
      requires 0 <= i < |elems| && InTurn(p, i) && Pending(p, elems, i, defaultAliasNum, entities)
      requires Clear(p, entities, defaultAliasNum)
      modifies this
      ensures r.Err? ==> !Accepted(prior, p)
      ensures |named| == |p.elems|
      ensures r.Ok? ==>
        && Valid() && entities == prior + (ents + r.value) && |r.value| > 0 && i + |r.value| <= |p.elems|
        && Progress(prior, p, ents + r.value, i + |r.value|) && InTurn(p, i + |r.value|)
        && Pending(p, named, i + |r.value|, defaultAliasNum, entities) && Clear(p, entities, defaultAliasNum)
    {
      hide Progress, Accepted, FitsAfter, Clear, Transformed, NewName;
      NextInTurn(p, i, if p.elems[i].Vle() then 2 else 1);
      ProgressSoFar(prior, p, ents, i);
      named := elems;
      if i % 2 == 0 {
        var entity :- StepVertex(p, elems[i].node, i);
        MakeProgress(prior, p, ents, i, entity);
        r := Ok([entity]);
      } else {
        named := NameLoneVertex(p, elems, ents, i);
        r := StepEdges(p, named, ents, i, prior);
      }
    }

    /**
     * The whole path. It is accepted exactly when its variables agree with each other and with the
     * ones declared before; then the entities are the path's, vertex and edge in turn.
     */
    method TransformMatchEntities(p: Path) returns (r: Result<seq<Entity>>)
      requires Valid() && WellFormed(p) && Clear(p, entities, defaultAliasNum)
      modifies this
      ensures r.Ok? <==> Accepted(old(entities), p)
      ensures r.Ok? ==> Compiled(p, r.value) && Valid() && entities == old(entities) + r.value
      ensures r.Ok? ==> Clear(p, entities, defaultAliasNum)
    {
      var elems := p.elems;
      var ents: seq<Entity> := [];
      var i := 0;
      ghost var prior := entities;
      StartProgress(prior, p);
      while i < |elems|
        invariant 0 <= i <= |elems|
        invariant Valid() && entities == prior + ents && Progress(prior, p, ents, i) && Clear(p, entities, defaultAliasNum)
        invariant InTurn(p, i) && Pending(p, elems, i, defaultAliasNum, entities)
      {
        var step, named := Step(p, elems, ents, i, prior);
        if step.Err? {
          return Err(step.error);
        }
        elems := named;
        ents := ents + step.value;
        i := i + |step.value|;
      }
      FinishProgress(prior, p, ents);
      r := Ok(ents);
    }
  }

  /** Puts what the remaining edges emit behind what has been emitted. */
  function Emit(done: seq<Qual>, rest: Result<seq<Qual>>): Result<seq<Qual>> {
    if rest.Ok? then Ok(done + rest.value) else rest
  }

  lemma EmitTwice(a: seq<Qual>, b: seq<Qual>, rest: Result<seq<Qual>>)
    ensures Emit(a, Emit(b, rest)) == Emit(a + b, rest)
    ensures Emit([], rest) == rest
  {
    if rest.Ok? {
      assert a + (b + rest.value) == (a + b) + rest.value;
      assert [] + rest.value == rest.value;
    }
  }

  /** Walks the entities, keeping the edge before, the vertex before, the edge, and what follows it. */
  method MakePathJoinQuals(ents: seq<Entity>) returns (r: Result<seq<Qual>>)
    requires Alternates(ents)
    ensures r == if |ents| < 3 then Ok([]) else QualsFrom(ents, 0)
  {
    if |ents| < 3 {
      return Ok([]);
    }
    var prevNode, edge, lc := ents[0], ents[1], 1;
    var prevEdge: Option<Entity> := None;
    var quals: seq<Qual> := [];
    assert QualsFrom(ents, 0) == QualsFrom(ents, 1);
    EmitTwice([], [], QualsFrom(ents, 1));
    while true
      invariant 1 <= lc < |ents| - 1 && edge == ents[lc] && !edge.Vertex? && prevNode == ents[lc - 1]
      invariant prevEdge == if lc >= 2 then Some(ents[lc - 2]) else None
      invariant QualsFrom(ents, 0) == Emit(quals, QualsFrom(ents, lc))
      decreases |ents| - lc
    {
      ghost var at := lc;
      lc := lc + 1;
      var nextNode := ents[lc];
      var nextEdge: Option<Entity> := None;
      if lc + 1 < |ents| {
        lc := lc + 1;
        nextEdge := Some(ents[lc]);
      }
      assert EdgeQuals(ents, at) == MakeJoinConditionForEdge(prevEdge, prevNode, edge, nextNode, nextEdge);
      assert ents[at + 1].Vertex?;
      assert QualsFrom(ents, at + 1) == QualsFrom(ents, at + 2);
      var joinQuals :- MakeJoinConditionForEdge(prevEdge, prevNode, edge, nextNode, nextEdge);
      ghost var before := quals;
      quals := quals + joinQuals;
      EmitTwice(before, joinQuals, QualsFrom(ents, at + 2));
      assert QualsFrom(ents, at) == Emit(joinQuals, QualsFrom(ents, at + 2));
      if nextEdge.None? {
        assert quals + [] == quals;
        return Ok(quals);
      }
      prevEdge, prevNode, edge := Some(edge), nextNode, nextEdge.value;
    }
  }

  lemma Assoc<T>(a: seq<T>, b: seq<T>, c: seq<T>)
    ensures a + (b + c) == (a + b) + c
  {}

  /** Two nested loops over the entities, unless a variable-length edge calls for the uniqueness function. */
  method MakePreventDuplicateEdges(ents: seq<Entity>) returns (q: Qual)
    ensures q == PreventDuplicateEdges(ents)
  {
    var hasVle, k := false, 0;
    while k < |ents| && !hasVle
      invariant 0 <= k <= |ents|
      invariant !hasVle ==> forall e | e in ents[..k] :: !e.VleEdge?
      invariant hasVle ==> exists e | e in ents :: e.VleEdge?
      decreases |ents| - k, !hasVle
    {
      if ents[k].VleEdge? {
        hasVle := true;
      } else {
        k := k + 1;
      }
    }
    if hasVle {
      return UniqueEdges(ents);
    }
    assert ents[..k] == ents;
    var edges: seq<Qual> := [];
    for i := 0 to |ents|
      invariant PairwiseDistinct(ents, 0) == edges + PairwiseDistinct(ents, i)
    {
      if ents[i].Edge? {
        ghost var before := edges;
        for j := i + 1 to |ents|
          invariant before + DistinctFrom(ents, i, i + 1) == edges + DistinctFrom(ents, i, j)
        {
          if ents[j].Edge? {
            var ne := Ne(Id(ents[i].Name()), Id(ents[j].Name()));
            Assoc(edges, [ne], DistinctFrom(ents, i, j + 1));
            edges := edges + [ne];
          } else {
            assert DistinctFrom(ents, i, j) == DistinctFrom(ents, i, j + 1);
          }
        }
        assert before + DistinctFrom(ents, i, i + 1) == edges;
        Assoc(before, DistinctFrom(ents, i, i + 1), PairwiseDistinct(ents, i + 1));
      } else {
        assert PairwiseDistinct(ents, i) == PairwiseDistinct(ents, i + 1);
      }
    }
    q := And(edges);
  }

  /** A path of the MATCH clause: its entities, then the quals that join them. */
  method TransformMatchPath(state: CypherParseState, p: Path) returns (r: Result<(seq<Entity>, seq<Qual>)>)
    requires state.Valid() && WellFormed(p) && Clear(p, state.entities, state.defaultAliasNum)
    modifies state
    ensures r.Ok? <==> Accepted(old(state.entities), p)
    ensures r.Ok? ==>
      && Compiled(p, r.value.0) && Alternates(r.value.0) && PathQuals(r.value.0) == Ok(r.value.1)
      && state.Valid() && state.entities == old(state.entities) + r.value.0
  {
    var ents :- state.TransformMatchEntities(p);
    PathQualsWellFormed(p, ents);
    var joins := MakePathJoinQuals(ents);
    var quals := joins.value;  // compiled entities never reach the error branch
    assert quals + [] + PropQuals(ents) == quals + PropQuals(ents);
    if |ents| > 3 {
      var unique := MakePreventDuplicateEdges(ents);
      quals := quals + [unique];
    }
    r := Ok((ents, quals + PropQuals(ents)));
  }
}
