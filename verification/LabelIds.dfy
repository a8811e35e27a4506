/**
 * Label ids come from a sequence that cycles through all of them; ids of dropped labels are used again.
 * A graph id packs a label id and an entry number into 64 bits.
 */
module LabelIds {
  import opened Results
  import opened PropertyGraph

  const LABEL_ID_MIN: nat := 1
  const LABEL_ID_MAX: nat := 65535
  const ENTRY_ID_MIN: nat := 1
  const ENTRY_ID_SPAN: nat := 281474976710656

  predicate IsLabelId(id: nat) {
    LABEL_ID_MIN <= id <= LABEL_ID_MAX
  }

  // ---------------------------------------------------------------- the cyclic search

  /** `nextval` on the cycling sequence; it has given out nothing yet when `last` is 0. */
  function NextVal(last: nat): nat {
    if last >= LABEL_ID_MAX then LABEL_ID_MIN else last + 1
  }

  /** The n-th value the sequence gives out from now on. */
  function Probe(last: nat, n: nat): nat {
    if n == 0 then last else NextVal(Probe(last, n - 1))
  }

  lemma {:induction false} ProbeIs(last: nat, n: nat)
    requires last <= LABEL_ID_MAX
    ensures Probe(last, n) <= LABEL_ID_MAX && (n > 0 ==> Probe(last, n) == (last + n - 1) % LABEL_ID_MAX + 1)
  {
    if n > 0 {
      ProbeIs(last, n - 1);
      if n > 1 { NextOfRemainder(last + n - 2); }
    }
  }

  lemma NextOfRemainder(x: nat)
    ensures (x + 1) % LABEL_ID_MAX == if x % LABEL_ID_MAX == LABEL_ID_MAX - 1 then 0 else x % LABEL_ID_MAX + 1
  {
    var q := x / LABEL_ID_MAX;
    assert x == q * LABEL_ID_MAX + x % LABEL_ID_MAX;
    if x % LABEL_ID_MAX == LABEL_ID_MAX - 1 {
      assert x + 1 == (q + 1) * LABEL_ID_MAX;
    } else {
      assert x + 1 == q * LABEL_ID_MAX + (x % LABEL_ID_MAX + 1);
    }
  }

  /** One full cycle of probes meets every id. */
  lemma CycleMeets(last: nat, id: nat)
    requires last <= LABEL_ID_MAX && IsLabelId(id)
    ensures exists n :: 0 < n <= LABEL_ID_MAX && Probe(last, n) == id
  {
    var n := if id > last then id - last else id - last + LABEL_ID_MAX;
    ProbeIs(last, n);
    assert 0 < n <= LABEL_ID_MAX && Probe(last, n) == id;
  }

  class LabelIdSequence {
    var last: nat

    ghost predicate Valid()
      reads this
    {
      last <= LABEL_ID_MAX
    }

    constructor (last: nat)
      requires last <= LABEL_ID_MAX
      ensures Valid() && this.last == last
    {
      this.last := last;
    }

    method Next() returns (id: nat)
      requires Valid()
      modifies this
      ensures Valid() && last == id == NextVal(old(last)) && IsLabelId(id)
    {
      last := if last >= LABEL_ID_MAX then LABEL_ID_MIN else last + 1;
      id := last;
    }

    /**
     * The first unused id that the sequence meets, after at most one full cycle; an error exactly when
     * every id is taken.
     */
    method GetNewLabelId(taken: set<nat>) returns (r: Result<nat>)
      requires Valid()
      modifies this
      ensures Valid()
      ensures r.Ok? ==> IsLabelId(r.value) && r.value !in taken && last == r.value
      ensures r.Ok? ==> exists n :: 0 < n <= LABEL_ID_MAX && Probe(old(last), n) == r.value
                                    && forall k | 0 < k < n :: Probe(old(last), k) in taken
      ensures r.Err? <==> forall id | IsLabelId(id) :: id in taken
      ensures r.Err? ==> r.error == NoMoreLabels
    {
      for cnt := LABEL_ID_MIN to LABEL_ID_MAX + 1
        invariant Valid() && last == Probe(old(last), cnt - 1)
        invariant forall k | 0 < k < cnt :: Probe(old(last), k) in taken
      {
        var id := Next();
        assert id == Probe(old(last), cnt);
        if id !in taken { return Ok(id); }
      }
      forall id | IsLabelId(id) ensures id in taken {
        CycleMeets(old(last), id);
      }
      r := Err(NoMoreLabels);
    }
  }

  // ---------------------------------------------------------------- packed graph ids

  /** `make_graphid`: the label id in the upper sixteen bits, as a signed 64-bit number. */
  function MakeGraphid(labelId: nat, entry: nat): (gid: int)
    requires IsLabelId(labelId) && ENTRY_ID_MIN <= entry <= ENTRY_ID_MAX
    ensures -0x8000_0000_0000_0000 <= gid < 0x8000_0000_0000_0000
  {
    var u := labelId * ENTRY_ID_SPAN + entry;
    if u >= 0x8000_0000_0000_0000 then u - 0x1_0000_0000_0000_0000 else u
  }

  function Unsigned(gid: int): nat
    requires -0x8000_0000_0000_0000 <= gid < 0x8000_0000_0000_0000
  {
    if gid < 0 then gid + 0x1_0000_0000_0000_0000 else gid
  }

  function GraphidLabelId(gid: int): nat
    requires -0x8000_0000_0000_0000 <= gid < 0x8000_0000_0000_0000
  {
    Unsigned(gid) / ENTRY_ID_SPAN
  }

  function GraphidEntryId(gid: int): nat
    requires -0x8000_0000_0000_0000 <= gid < 0x8000_0000_0000_0000
  {
    Unsigned(gid) % ENTRY_ID_SPAN
  }

  lemma GraphidRoundTrip(labelId: nat, entry: nat)
    requires IsLabelId(labelId) && ENTRY_ID_MIN <= entry <= ENTRY_ID_MAX
    ensures GraphidLabelId(MakeGraphid(labelId, entry)) == labelId && GraphidEntryId(MakeGraphid(labelId, entry)) == entry
  {
    assert labelId * ENTRY_ID_SPAN <= LABEL_ID_MAX * ENTRY_ID_SPAN;
    QuotientAndRemainder(labelId, entry);
  }

  lemma QuotientAndRemainder(q: nat, r: nat)
    requires r < ENTRY_ID_SPAN
    ensures (q * ENTRY_ID_SPAN + r) / ENTRY_ID_SPAN == q && (q * ENTRY_ID_SPAN + r) % ENTRY_ID_SPAN == r
  {}

  // ---------------------------------------------------------------- runs of label commands and inserts

  /** A label's row in the catalog, its own sequence, and the entry numbers of its live rows. */
  datatype LabelTable = LabelTable(name: string, id: nat, last: nat, rows: set<nat>)

  datatype Catalog = Catalog(labels: seq<LabelTable>, seqLast: nat)

  datatype Command =
    | CreateLabel(name: string)
    | DropLabel(name: string)
    | InsertRow(name: string)
    | DeleteRow(name: string, entry: nat)

  function IdsOf(labels: seq<LabelTable>): set<nat> {
    set k | 0 <= k < |labels| :: labels[k].id
  }

  function Find(labels: seq<LabelTable>, name: string): (r: Option<nat>)
    ensures r.Some? ==> r.value < |labels| && labels[r.value].name == name
    ensures r.None? ==> forall k | 0 <= k < |labels| :: labels[k].name != name
  {
    if labels == [] then None
    else if labels[|labels| - 1].name == name then Some(|labels| - 1)
    else Find(labels[..|labels| - 1], name)
  }

  /** Ids, names and packed ids are unambiguous: no two labels share an id, and rows carry numbers already drawn. */
  ghost predicate Unambiguous(c: Catalog) {
    && c.seqLast <= LABEL_ID_MAX
    && (forall k | 0 <= k < |c.labels| :: IsLabelId(c.labels[k].id) && c.labels[k].last <= ENTRY_ID_MAX)
    && (forall k, e | 0 <= k < |c.labels| && e in c.labels[k].rows :: ENTRY_ID_MIN <= e <= c.labels[k].last)
    && (forall j, k | 0 <= j < k < |c.labels| :: c.labels[j].id != c.labels[k].id && c.labels[j].name != c.labels[k].name)
  }

  lemma Dropped(c: Catalog, k: nat)
    requires Unambiguous(c) && k < |c.labels|
    ensures var d := c.(labels := c.labels[..k] + c.labels[k + 1..]);
            Unambiguous(d) && Effect(c, DropLabel(c.labels[k].name), d)
  {}

  lemma Inserted(c: Catalog, k: nat)
    requires Unambiguous(c) && k < |c.labels| && c.labels[k].last < ENTRY_ID_MAX
    ensures var t := c.labels[k];
            var d := c.(labels := c.labels[k := t.(last := t.last + 1, rows := t.rows + {t.last + 1})]);
            Unambiguous(d) && Effect(c, InsertRow(t.name), d)
  {}

  lemma Deleted(c: Catalog, k: nat, entry: nat)
    requires Unambiguous(c) && k < |c.labels|
    ensures var t := c.labels[k];
            var d := c.(labels := c.labels[k := t.(rows := t.rows - {entry})]);
            Unambiguous(d) && Effect(c, DeleteRow(t.name, entry), d)
  {}

  /** One command on the catalog. */
  method Execute(c: Catalog, command: Command) returns (r: Result<Catalog>)
    requires Unambiguous(c)
    ensures r.Ok? ==> Unambiguous(r.value) && Effect(c, command, r.value)
    ensures r.Err? ==> Refused(c, command)
  {
    var at := Find(c.labels, command.name);
    match command
    case CreateLabel(name) =>
      if at.Some? { return Err(LabelExists); }
      var ids := new LabelIdSequence(c.seqLast);
      var id :- ids.GetNewLabelId(IdsOf(c.labels));
      return Ok(Catalog(c.labels + [LabelTable(name, id, 0, {})], ids.last));
    case DropLabel(name) =>
      if at.None? { return Err(NoSuchLabel); }
      hide Unambiguous, Effect;
      Dropped(c, at.value);
      return Ok(c.(labels := c.labels[..at.value] + c.labels[at.value + 1..]));
    case InsertRow(name) =>
      if at.None? { return Err(NoSuchLabel); }
      var t := c.labels[at.value];
      if t.last >= ENTRY_ID_MAX { return Err(NoMoreEntries); }
      hide Unambiguous, Effect;
      Inserted(c, at.value);
      return Ok(c.(labels := c.labels[at.value := t.(last := t.last + 1, rows := t.rows + {t.last + 1})]));
    case DeleteRow(name, entry) =>
      if at.None? { return Err(NoSuchLabel); }
      hide Unambiguous, Effect;
      Deleted(c, at.value, entry);
      var t := c.labels[at.value];
      return Ok(c.(labels := c.labels[at.value := t.(rows := t.rows - {entry})]));
  }

  /** The packed ids of all live rows, label by label. */
  ghost predicate LiveRow(c: Catalog, k: int, e: nat) {
    0 <= k < |c.labels| && e in c.labels[k].rows
  }

  /** What a command does to the set of labels and rows. */
  ghost predicate Effect(c: Catalog, command: Command, d: Catalog) {
    match command
    case CreateLabel(name) =>
      && |d.labels| == |c.labels| + 1 && d.labels[..|c.labels|] == c.labels
      && d.labels[|c.labels|].name == name && d.labels[|c.labels|].rows == {}
      && d.labels[|c.labels|].id !in IdsOf(c.labels)
    case DropLabel(name) =>
      exists k | 0 <= k < |c.labels| :: c.labels[k].name == name && d.labels == c.labels[..k] + c.labels[k + 1..]
    case InsertRow(name) =>
      exists k | 0 <= k < |c.labels| && |d.labels| == |c.labels| ::
        && c.labels[k].name == name && d.labels == c.labels[k := d.labels[k]]
        && d.labels[k].id == c.labels[k].id && d.labels[k].name == name
        && exists e :: d.labels[k].rows == c.labels[k].rows + {e} && e !in c.labels[k].rows
    case DeleteRow(name, entry) =>
      exists k | 0 <= k < |c.labels| && |d.labels| == |c.labels| ::
        c.labels[k].name == name && d.labels == c.labels[k := c.labels[k].(rows := c.labels[k].rows - {entry})]
  }

  ghost predicate Refused(c: Catalog, command: Command) {
    match command
    case CreateLabel(name) => Find(c.labels, name).Some? || forall id | IsLabelId(id) :: id in IdsOf(c.labels)
    case InsertRow(name) =>
      Find(c.labels, name).None? || exists k | 0 <= k < |c.labels| :: c.labels[k].name == name && c.labels[k].last == ENTRY_ID_MAX
    case _ => Find(c.labels, command.name).None?
  }

  /** In an unambiguous catalog, two live rows with the same packed id are the same row. */
  lemma PackedIdsNeverCollide(c: Catalog, j: nat, d: nat, k: nat, e: nat)
    requires Unambiguous(c) && LiveRow(c, j, d) && LiveRow(c, k, e)
    ensures MakeGraphid(c.labels[j].id, d) == MakeGraphid(c.labels[k].id, e) <==> j == k && d == e
  {
    GraphidRoundTrip(c.labels[j].id, d);
    GraphidRoundTrip(c.labels[k].id, e);
  }

  /** Runs from an empty catalog: whatever the commands, failed ones changing nothing, the catalog stays unambiguous. */
  method ExecuteAll(commands: seq<Command>) returns (c: Catalog)
    ensures Unambiguous(c)
    ensures forall j, d, k, e | LiveRow(c, j, d) && LiveRow(c, k, e) && (j != k || d != e) ::
              MakeGraphid(c.labels[j].id, d) != MakeGraphid(c.labels[k].id, e)
  {
    c := Catalog([], 0);
    for n := 0 to |commands|
      invariant Unambiguous(c)
    {
      var r := Execute(c, commands[n]);
      if r.Ok? { c := r.value; }
    }
    forall j, d, k, e | LiveRow(c, j, d) && LiveRow(c, k, e) && (j != k || d != e)
      ensures MakeGraphid(c.labels[j].id, d) != MakeGraphid(c.labels[k].id, e)
    {
      PackedIdsNeverCollide(c, j, d, k, e);
    }
  }
}
