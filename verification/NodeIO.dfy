/**
 * Printing and reading the nodes that a plan carries to the executors. Texts are sequences of tokens;
 * splitting text into tokens, and quoting inside a token, is Postgres'. What a node prints and reads is
 * given by the lists of its fields and the macros used for them.
 */
module NodeIO {
  import opened Results
  import opened Decimals

  /** A word stands for itself, a quoted token for a non-empty string, and a foreign one for a node of Postgres'. */
  datatype Token = Word(text: string) | Quoted(value: string) | ForeignNode(id: nat)

  type Tokens = seq<Token>

  const NOTHING := Word("<>")

  datatype Kind =
    | CreateTargetNodes | CreatePath | TargetNode | UpdateInformation | UpdateItem | DeleteInformation | DeleteItem | MergeInformation

  datatype Value = NodeOf(node: Node) | StringOf(s: Option<string>) | CharOf(c: char) | BoolOf(b: bool) | NumberOf(x: int)

  datatype Field = Field(name: string, value: Value)

  datatype Node =
    | Null
    | Integer(value: int32)
    | List(items: seq<Node>)
    | Foreign(id: nat)
    | Extended(kind: Kind, fields: seq<Field>)

  // ---------------------------------------------------------------- the nodes' fields

  datatype CType = Pointer | CString | Char | Bool | Int16 | Int32 | Uint32

  datatype Writer = WriteNode | WriteString | WriteChar | WriteBool | WriteEnum | WriteInt32 | WriteOid

  datatype Reader = ReadNode | ReadString | ReadChar | ReadBool | ReadEnum | ReadInt | ReadUint | ReadOid

  function KindName(kind: Kind): string {
    match kind
    case CreateTargetNodes => "cypher_create_target_nodes"
    case CreatePath => "cypher_create_path"
    case TargetNode => "cypher_target_node"
    case UpdateInformation => "cypher_update_information"
    case UpdateItem => "cypher_update_item"
    case DeleteInformation => "cypher_delete_information"
    case DeleteItem => "cypher_delete_item"
    case MergeInformation => "cypher_merge_information"
  }

  const KINDS := [CreateTargetNodes, CreatePath, TargetNode, UpdateInformation, UpdateItem, DeleteInformation, DeleteItem, MergeInformation]

  /** The fields in the order in which they are printed, with their C types and the macros that print them. */
  function OutFields(kind: Kind): seq<(string, CType, Writer)> {
    match kind
    case CreateTargetNodes =>
      [("paths", Pointer, WriteNode), ("flags", Uint32, WriteInt32), ("graph_oid", Uint32, WriteInt32)]
    case CreatePath =>
      [("target_nodes", Pointer, WriteNode), ("path_attr_num", Int16, WriteInt32), ("var_name", CString, WriteString)]
    case TargetNode =>
      [("type", Char, WriteChar), ("flags", Uint32, WriteInt32), ("dir", Int32, WriteEnum),
       ("id_expr", Pointer, WriteNode), ("id_expr_state", Pointer, WriteNode), ("prop_expr", Pointer, WriteNode),
       ("prop_expr_state", Pointer, WriteNode), ("prop_attr_num", Int16, WriteInt32),
       ("resultRelInfo", Pointer, WriteNode), ("elemTupleSlot", Pointer, WriteNode), ("relid", Uint32, WriteOid),
       ("label_name", CString, WriteString), ("variable_name", CString, WriteString), ("tuple_position", Int16, WriteInt32)]
    case UpdateInformation =>
      [("set_items", Pointer, WriteNode), ("flags", Int32, WriteInt32), ("tuple_position", Int16, WriteInt32),
       ("graph_name", CString, WriteString), ("clause_name", CString, WriteString), ("graph_oid", Uint32, WriteInt32)]
    case UpdateItem =>
      [("prop_position", Int16, WriteInt32), ("entity_position", Int16, WriteInt32), ("var_name", CString, WriteString),
       ("prop_name", CString, WriteString), ("qualified_name", Pointer, WriteNode), ("remove_item", Bool, WriteBool)]
    case DeleteInformation =>
      [("delete_items", Pointer, WriteNode), ("flags", Int32, WriteInt32), ("graph_name", CString, WriteString),
       ("graph_oid", Uint32, WriteInt32), ("detach", Bool, WriteBool)]
    case DeleteItem => [("entity_position", Pointer, WriteNode), ("var_name", CString, WriteString)]
    case MergeInformation =>
      [("flags", Int32, WriteInt32), ("graph_oid", Uint32, WriteInt32), ("merge_function_attr", Int16, WriteInt32),
       ("path", Pointer, WriteNode)]
  }

  /** The fields in the order in which they are read, with their C types and the macros that read them. */
  function InFields(kind: Kind): seq<(string, CType, Reader)> {
    match kind
    case CreateTargetNodes =>
      [("paths", Pointer, ReadNode), ("flags", Uint32, ReadInt), ("graph_oid", Uint32, ReadInt)]
    case CreatePath =>
      [("target_nodes", Pointer, ReadNode), ("path_attr_num", Int16, ReadInt), ("var_name", CString, ReadString)]
    case TargetNode =>
      [("type", Char, ReadChar), ("flags", Uint32, ReadInt), ("dir", Int32, ReadEnum),
       ("id_expr", Pointer, ReadNode), ("id_expr_state", Pointer, ReadNode), ("prop_expr", Pointer, ReadNode),
       ("prop_expr_state", Pointer, ReadNode), ("prop_attr_num", Int16, ReadInt),
       ("resultRelInfo", Pointer, ReadNode), ("elemTupleSlot", Pointer, ReadNode), ("relid", Uint32, ReadOid),
       ("label_name", CString, ReadString), ("variable_name", CString, ReadString), ("tuple_position", Int16, ReadInt)]
    case UpdateInformation =>
      [("set_items", Pointer, ReadNode), ("flags", Int32, ReadInt), ("tuple_position", Int16, ReadInt),
       ("graph_name", CString, ReadString), ("clause_name", CString, ReadString), ("graph_oid", Uint32, ReadInt)]
    case UpdateItem =>
      [("prop_position", Int16, ReadInt), ("entity_position", Int16, ReadInt), ("var_name", CString, ReadString),
       ("prop_name", CString, ReadString), ("qualified_name", Pointer, ReadNode), ("remove_item", Bool, ReadBool)]
    case DeleteInformation =>
      [("delete_items", Pointer, ReadNode), ("flags", Int32, ReadInt), ("graph_name", CString, ReadString),
       ("graph_oid", Uint32, ReadInt), ("detach", Bool, ReadBool)]
    case DeleteItem => [("entity_position", Pointer, ReadNode), ("var_name", CString, ReadString)]
    case MergeInformation =>
      [("flags", Int32, ReadInt), ("graph_oid", Uint32, ReadUint), ("merge_function_attr", Int16, ReadInt),
       ("path", Pointer, ReadNode)]
  }

  predicate InRange(t: CType, x: int) {
    match t
    case Int16 => -0x8000 <= x < 0x8000
    case Int32 => -0x8000_0000 <= x < 0x8000_0000
    case Uint32 => 0 <= x < 0x1_0000_0000
    case _ => false
  }

  /** The value has the C type. */
  predicate HasType(v: Value, t: CType) {
    match v
    case NodeOf(_) => t == Pointer
    case StringOf(_) => t == CString
    case CharOf(_) => t == Char
    case BoolOf(_) => t == Bool
    case NumberOf(x) => InRange(t, x)
  }

  /** Every extended node in the tree has its kind's fields, each of its type. */
  predicate WellTyped(n: Node)
    decreases n
  {
    match n
    case List(items) => forall k | 0 <= k < |items| :: WellTyped(items[k])
    case Extended(kind, fields) =>
      && |fields| == |OutFields(kind)|
      && (forall k | 0 <= k < |fields| ::
            && fields[k].name == OutFields(kind)[k].0 && HasType(fields[k].value, OutFields(kind)[k].1)
            && (fields[k].value.NodeOf? ==> WellTyped(fields[k].value.node)))
    case _ => true
  }

  // ---------------------------------------------------------------- printing, in front of what follows

  /** `%d` and `%u` print the bits of the number as a signed and as an unsigned one. */
  function Printed(x: int, t: CType, w: Writer): int {
    if t == Uint32 && InRange(t, x) && w != WriteOid then SignedBits(x) else x
  }

  /** The token of a value that is not a node; a null and an empty string are printed alike. */
  function OutToken(v: Value, t: CType, w: Writer): Token {
    match v
    case StringOf(s) => if s.None? || s.value == "" then NOTHING else Quoted(s.value)
    case CharOf(c) => if c == '\0' then NOTHING else Quoted([c])
    case BoolOf(b) => Word(if b then "true" else "false")
    case NumberOf(x) => Word(Decimal(Printed(x, t, w)))
    case NodeOf(_) => NOTHING
  }

  function OutNode(n: Node, rest: Tokens): Tokens
    decreases n, 1
  {
    match n
    case Null => [NOTHING] + rest
    case Integer(v) => [Word(Decimal(v))] + rest
    case List(items) => if items == [] then [NOTHING] + rest else [Word("(")] + OutItems(items, [Word(")")] + rest)
    case Foreign(id) => [ForeignNode(id)] + rest
    case Extended(kind, fields) =>
      [Word("{")] + ([Word("EXTENSIBLENODE")] + ([Word(":extnodename")] + ([Quoted(KindName(kind))] +
      OutAll(fields, OutFields(kind), [Word("}")] + rest))))
  }

  function OutItems(items: seq<Node>, rest: Tokens): Tokens
    decreases items, 0
  {
    if items == [] then rest else OutNode(items[0], OutItems(items[1..], rest))
  }

  /** Every field is its name and its value. */
  function OutAll(fields: seq<Field>, macros: seq<(string, CType, Writer)>, rest: Tokens): Tokens
    decreases fields, 0
  {
    if fields == [] || macros == [] then rest
    else [Word(":" + macros[0].0)] + OutValue(fields[0].value, macros[0].1, macros[0].2, OutAll(fields[1..], macros[1..], rest))
  }

  function OutValue(v: Value, t: CType, w: Writer, rest: Tokens): Tokens
    decreases v, 2
  {
    if v.NodeOf? then OutNode(v.node, rest) else [OutToken(v, t, w)] + rest
  }

  // ---------------------------------------------------------------- reading from the cursor on

  /** The C conversion of what the macro parses to the field's type. */
  function Narrowed(x: int, t: CType): int {
    match t
    case Int16 => ToInt16(x)
    case Uint32 => ToUint32(x)
    case _ => ToInt32(x)
  }

  /** The value of a field's token; a missing string becomes an empty one. */
  function ReadToken(token: Token, t: CType, r: Reader): Result<Value> {
    match r
    case ReadString =>
      if token.Quoted? then Ok(StringOf(Some(token.value)))
      else if token == NOTHING then Ok(StringOf(Some(""))) else Err(MalformedNode)
    case ReadChar =>
      if token == NOTHING then Ok(CharOf('\0'))
      else if token.Quoted? && token.value != "" then Ok(CharOf(token.value[0])) else Err(MalformedNode)
    case ReadBool => if token.Word? && token.text != "" then Ok(BoolOf(token.text[0] == 't')) else Err(MalformedNode)
    case ReadNode => Err(MalformedNode)
    case _ =>
      if token.Word? && IsNumber(token.text) then Ok(NumberOf(Narrowed(StrToL(token.text), t))) else Err(MalformedNode)
  }

  function ReadNodeAt(ts: Tokens): (r: Result<(Node, Tokens)>)
    ensures r.Ok? ==> |r.value.1| < |ts|
    decreases |ts|, 1
  {
    if ts == [] then Err(MalformedNode)
    else
      match ts[0]
      case ForeignNode(id) => Ok((Foreign(id), ts[1..]))
      case Quoted(_) => Err(MalformedNode)
      case Word(text) =>
        if text == "<>" then Ok((Null, ts[1..]))
        else if text == "(" then
          var (items, rest) :- ReadItems(ts[1..]);
          Ok((List(items), rest))
        else if text == "{" then ReadExtended(ts[1..])
        else if IsNumber(text) then Ok((Integer(ToInt32(StrToL(text))), ts[1..]))
        else Err(MalformedNode)
  }

  function ReadItems(ts: Tokens): (r: Result<(seq<Node>, Tokens)>)
    ensures r.Ok? ==> |r.value.1| < |ts|
    decreases |ts|, 2
  {
    if ts == [] then Err(MalformedNode)
    else if ts[0] == Word(")") then Ok(([], ts[1..]))
    else
      var (n, rest) :- ReadNodeAt(ts);
      var (more, end) :- ReadItems(rest);
      Ok(([n] + more, end))
  }

  /** The node's name chooses the reader. */
  function KindNamed(name: string, kinds: seq<Kind>): Option<Kind> {
    if kinds == [] then None else if KindName(kinds[0]) == name then Some(kinds[0]) else KindNamed(name, kinds[1..])
  }

  function ReadExtended(ts: Tokens): (r: Result<(Node, Tokens)>)
    ensures r.Ok? ==> |r.value.1| < |ts|
    decreases |ts|, 0
  {
    if |ts| < 3 || ts[0] != Word("EXTENSIBLENODE") || !ts[2].Quoted? then Err(MalformedNode)
    else
      match KindNamed(ts[2].value, KINDS)
      case None => Err(MalformedNode)
      case Some(kind) =>
        var (fields, rest) :- ReadAll(InFields(kind), ts[3..]);
        if rest == [] || rest[0] != Word("}") then Err(MalformedNode) else Ok((Extended(kind, fields), rest[1..]))
  }

  /** Field by field; the names in the text are skipped unread. */
  function ReadAll(macros: seq<(string, CType, Reader)>, ts: Tokens): (r: Result<(seq<Field>, Tokens)>)
    ensures r.Ok? ==> |r.value.1| <= |ts|
    decreases |ts|, 3, |macros|
  {
    if macros == [] then Ok(([], ts))
    else if ts == [] then Err(MalformedNode)
    else
      var (v, rest) :- ReadValue(macros[0].1, macros[0].2, ts[1..]);
      var (more, end) :- ReadAll(macros[1..], rest);
      Ok(([Field(macros[0].0, v)] + more, end))
  }

  function ReadValue(t: CType, r: Reader, ts: Tokens): (x: Result<(Value, Tokens)>)
    ensures x.Ok? ==> |x.value.1| < |ts|
    decreases |ts|, 2
  {
    if r == ReadNode then
      var (n, rest) :- ReadNodeAt(ts);
      Ok((NodeOf(n), rest))
    else if ts == [] then Err(MalformedNode)
    else
      var v :- ReadToken(ts[0], t, r);
      Ok((v, ts[1..]))
  }

  // ---------------------------------------------------------------- reading undoes printing

  /** What reading makes of a printed node: missing strings become empty, empty lists are no nodes. */
  function Normal(n: Node): Node
    decreases n, 1
  {
    match n
    case List(items) => if items == [] then Null else List(NormalItems(items))
    case Extended(kind, fields) => Extended(kind, NormalFields(fields))
    case _ => n
  }

  function NormalItems(items: seq<Node>): seq<Node>
    decreases items, 0
  {
    if items == [] then [] else [Normal(items[0])] + NormalItems(items[1..])
  }

  function NormalValue(v: Value): Value
    decreases v, 2
  {
    match v
    case NodeOf(n) => NodeOf(Normal(n))
    case StringOf(s) => StringOf(Some(if s.None? then "" else s.value))
    case _ => v
  }

  function NormalFields(fields: seq<Field>): seq<Field>
    decreases fields, 0
  {
    if fields == [] then [] else [Field(fields[0].name, NormalValue(fields[0].value))] + NormalFields(fields[1..])
  }

  /** What the one macro prints of a field of the type, the other reads back. */
  predicate Fits(t: CType, w: Writer, r: Reader) {
    match t
    case Pointer => w == WriteNode && r == ReadNode
    case CString => w == WriteString && r == ReadString
    case Char => w == WriteChar && r == ReadChar
    case Bool => w == WriteBool && r == ReadBool
    case Uint32 => (w == WriteInt32 && (r == ReadInt || r == ReadUint)) || (w == WriteOid && r == ReadOid)
    case _ => (w == WriteInt32 && r == ReadInt) || (w == WriteEnum && r == ReadEnum)
  }

  predicate FieldsAgree(outs: seq<(string, CType, Writer)>, ins: seq<(string, CType, Reader)>) {
    && |outs| == |ins|
    && forall k | 0 <= k < |outs| :: outs[k].0 == ins[k].0 && outs[k].1 == ins[k].1 && Fits(outs[k].1, outs[k].2, ins[k].2)
  }

  lemma TargetNodesAgree()
    ensures FieldsAgree(OutFields(TargetNode), InFields(TargetNode))
  {
    var outs, ins := OutFields(TargetNode), InFields(TargetNode);
    forall k | 0 <= k < |outs|
      ensures outs[k].0 == ins[k].0 && outs[k].1 == ins[k].1 && Fits(outs[k].1, outs[k].2, ins[k].2)
    {
      if k < 7 {} else {}
    }
  }

  /** The lists of the eight nodes agree: same fields, same order, macros that fit. */
  lemma ListsAgree(kind: Kind)
    ensures FieldsAgree(OutFields(kind), InFields(kind))
  {
    if kind == TargetNode {
      TargetNodesAgree();
      return;
    }
    var outs, ins := OutFields(kind), InFields(kind);
    assert |outs| == |ins|;
    forall k | 0 <= k < |outs|
      ensures outs[k].0 == ins[k].0 && outs[k].1 == ins[k].1 && Fits(outs[k].1, outs[k].2, ins[k].2)
    {
      match kind
      case CreateTargetNodes => {}
      case CreatePath => {}
      case UpdateInformation => {}
      case UpdateItem => {}
      case DeleteInformation => {}
      case DeleteItem => {}
      case MergeInformation => {}
    }
  }

  lemma KindIsFound(kind: Kind)
    ensures KindNamed(KindName(kind), KINDS) == Some(kind)
  {
    var k :=
      match kind
      case CreateTargetNodes => 0
      case CreatePath => 1
      case TargetNode => 2
      case UpdateInformation => 3
      case UpdateItem => 4
      case DeleteInformation => 5
      case DeleteItem => 6
      case MergeInformation => 7;
    NamesDiffer();
    FirstNamed(KINDS, k);
  }

  lemma NamesDiffer()
    ensures forall j, k | 0 <= j < k < |KINDS| :: KindName(KINDS[j]) != KindName(KINDS[k])
  {
    forall j, k | 0 <= j < k < |KINDS|
      ensures KindName(KINDS[j]) != KindName(KINDS[k])
    {
      if |KindName(KINDS[j])| == |KindName(KINDS[k])| {
        assert KindName(KINDS[j])[7] != KindName(KINDS[k])[7];
      }
    }
  }

  lemma {:induction false} FirstNamed(kinds: seq<Kind>, k: nat)
    requires k < |kinds|
    requires forall j | 0 <= j < k :: KindName(kinds[j]) != KindName(kinds[k])
    ensures KindNamed(KindName(kinds[k]), kinds) == Some(kinds[k])
  {
    if k > 0 { FirstNamed(kinds[1..], k - 1); }
  }

  /** A number survives printing and reading in its C type, an unsigned one through its signed form. */
  lemma NumberReadBack(x: int, t: CType, w: Writer, r: Reader)
    requires InRange(t, x) && Fits(t, w, r)
    ensures ReadToken(OutToken(NumberOf(x), t, w), t, r) == Ok(NumberOf(x))
  {
    DecimalRoundTrip(Printed(x, t, w));
    ConversionsRoundTrip();
  }

  lemma TokenReadBack(v: Value, t: CType, w: Writer, r: Reader)
    requires HasType(v, t) && Fits(t, w, r) && !v.NodeOf?
    ensures ReadToken(OutToken(v, t, w), t, r) == Ok(NormalValue(v))
  {
    if v.NumberOf? { NumberReadBack(v.x, t, w, r); }
  }

  lemma WordRead(t: Token, rest: Tokens)
    ensures ([t] + rest)[0] == t && ([t] + rest)[1..] == rest
  {}

  lemma NumberIsNoMark(s: string)
    requires IsNumber(s)
    ensures s != "<>" && s != "(" && s != "{" && s != ")"
  {}

  /** No node's text begins with the end of a list. */
  lemma NoNodeBeginsClosing(n: Node, rest: Tokens)
    ensures OutNode(n, rest) != [] && OutNode(n, rest)[0] != Word(")")
  {
    if n.Integer? {
      DecimalRoundTrip(n.value);
      NumberIsNoMark(Decimal(n.value));
    }
  }

  /**
   * Whatever follows it, a printed node is read back with all its fields, and the cursor is left at
   * what follows.
   */
  lemma {:induction false} ReadNodeBack(n: Node, rest: Tokens)
    requires WellTyped(n)
    ensures ReadNodeAt(OutNode(n, rest)) == Ok((Normal(n), rest))
    decreases n, 1
  {
    if n.Integer? {
      DecimalRoundTrip(n.value);
      ConversionsRoundTrip();
      WordRead(Word(Decimal(n.value)), rest);
      NumberIsNoMark(Decimal(n.value));
    } else if n.List? && n.items != [] {
      ReadItemsBack(n.items, rest);
      WordRead(Word("("), OutItems(n.items, [Word(")")] + rest));
    } else if n.Extended? {
      ListsAgree(n.kind);
      ReadAllBack(n.fields, OutFields(n.kind), InFields(n.kind), [Word("}")] + rest);
      ReadBracesBack(n.kind, n.fields, rest);
    } else {
      var t := if n.Foreign? then ForeignNode(n.id) else NOTHING;
      WordRead(t, rest);
      assert OutNode(n, rest) == [t] + rest;
    }
  }

  /** The braces and the name around the fields. */
  lemma ReadBracesBack(kind: Kind, fields: seq<Field>, rest: Tokens)
    requires ReadAll(InFields(kind), OutAll(fields, OutFields(kind), [Word("}")] + rest)) == Ok((NormalFields(fields), [Word("}")] + rest))
    ensures ReadNodeAt(OutNode(Extended(kind, fields), rest)) == Ok((Extended(kind, NormalFields(fields)), rest))
  {
    hide ReadAll, OutAll, InFields, OutFields, KindNamed, NormalFields;
    var inner := OutAll(fields, OutFields(kind), [Word("}")] + rest);
    var ts := [Word("EXTENSIBLENODE")] + ([Word(":extnodename")] + ([Quoted(KindName(kind))] + inner));
    assert OutNode(Extended(kind, fields), rest) == [Word("{")] + ts;
    WordRead(Word("{"), ts);
    assert ts[3..] == inner && ts[2] == Quoted(KindName(kind)) && ts[0] == Word("EXTENSIBLENODE");
    KindIsFound(kind);
    WordRead(Word("}"), rest);
  }

  lemma {:induction false} ReadItemsBack(items: seq<Node>, rest: Tokens)
    requires forall k | 0 <= k < |items| :: WellTyped(items[k])
    ensures ReadItems(OutItems(items, [Word(")")] + rest)) == Ok((NormalItems(items), rest))
    decreases items, 0
  {
    if items == [] {
      WordRead(Word(")"), rest);
    } else {
      var more := OutItems(items[1..], [Word(")")] + rest);
      ReadNodeBack(items[0], more);
      ReadItemsBack(items[1..], rest);
      NoNodeBeginsClosing(items[0], more);
    }
  }

  lemma {:induction false} ReadAllBack(fields: seq<Field>, outs: seq<(string, CType, Writer)>, ins: seq<(string, CType, Reader)>, rest: Tokens)
    requires |fields| == |outs| && FieldsAgree(outs, ins)
    requires forall k | 0 <= k < |fields| ::
      && fields[k].name == outs[k].0 && HasType(fields[k].value, outs[k].1)
      && (fields[k].value.NodeOf? ==> WellTyped(fields[k].value.node))
    ensures ReadAll(ins, OutAll(fields, outs, rest)) == Ok((NormalFields(fields), rest))
    decreases fields, 0
  {
    if fields != [] {
      var more := OutAll(fields[1..], outs[1..], rest);
      ReadValueBack(fields[0].value, outs[0].1, outs[0].2, ins[0].2, more);
      ReadAllBack(fields[1..], outs[1..], ins[1..], rest);
      WordRead(Word(":" + outs[0].0), OutValue(fields[0].value, outs[0].1, outs[0].2, more));
      hide ReadValue, OutValue;
    }
  }

  lemma {:induction false} ReadValueBack(v: Value, t: CType, w: Writer, r: Reader, rest: Tokens)
    requires HasType(v, t) && Fits(t, w, r) && (v.NodeOf? ==> WellTyped(v.node))
    ensures ReadValue(t, r, OutValue(v, t, w, rest)) == Ok((NormalValue(v), rest))
    decreases v, 2
  {
    if v.NodeOf? {
      ReadNodeBack(v.node, rest);
    } else {
      TokenReadBack(v, t, w, r);
      WordRead(OutToken(v, t, w), rest);
    }
  }
}
