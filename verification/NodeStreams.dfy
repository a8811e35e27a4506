/** The printers and readers of plan nodes as they work: on a buffer that grows, and on a cursor that moves. */
module NodeStreams {
  import opened Results
  import opened Decimals
  import opened NodeIO

  /**
   * The text under construction. `rest` stands for whatever is appended later; what a method appends does
   * not depend on it.
   */
  class StringInfo {
    var data: Tokens

    constructor ()
      ensures data == []
    {
      data := [];
    }

    method Append(t: Token, ghost rest: Tokens)
      modifies this
      ensures data + rest == old(data) + ([t] + rest)
    {
      data := data + [t];
    }

    method WriteNode(n: Node, ghost rest: Tokens)
      modifies this
      ensures data + rest == old(data) + OutNode(n, rest)
      decreases n, 1
    {
      match n
      case Null => Append(NOTHING, rest);
      case Integer(v) => Append(Word(Decimal(v)), rest);
      case Foreign(id) => Append(ForeignNode(id), rest);
      case List(items) =>
        if items == [] {
          Append(NOTHING, rest);
        } else {
          ghost var end := [Word(")")] + rest;
          Append(Word("("), OutItems(items, end));
          WriteItems(items, end);
          Append(Word(")"), rest);
        }
      case Extended(kind, fields) =>
        ghost var end := [Word("}")] + rest;
        ghost var inner := OutAll(fields, OutFields(kind), end);
        ghost var named := [Quoted(KindName(kind))] + inner;
        ghost var labelled := [Word(":extnodename")] + named;
        Append(Word("{"), [Word("EXTENSIBLENODE")] + labelled);
        Append(Word("EXTENSIBLENODE"), labelled);
        Append(Word(":extnodename"), named);
        Append(Quoted(KindName(kind)), inner);
        WriteFields(fields, OutFields(kind), end);
        Append(Word("}"), rest);
    }

    method WriteItems(items: seq<Node>, ghost rest: Tokens)
      modifies this
      ensures data + rest == old(data) + OutItems(items, rest)
      decreases items, 0
    {
      if items == [] { return; }
      WriteNode(items[0], OutItems(items[1..], rest));
      WriteItems(items[1..], rest);
    }

    method WriteFields(fields: seq<Field>, macros: seq<(string, CType, Writer)>, ghost rest: Tokens)
      modifies this
      ensures data + rest == old(data) + OutAll(fields, macros, rest)
      decreases fields, 0
    {
      if fields == [] || macros == [] { return; }
      ghost var more := OutAll(fields[1..], macros[1..], rest);
      Append(Word(":" + macros[0].0), OutValue(fields[0].value, macros[0].1, macros[0].2, more));
      WriteValue(fields[0].value, macros[0].1, macros[0].2, more);
      WriteFields(fields[1..], macros[1..], rest);
    }

    method WriteValue(v: Value, t: CType, w: Writer, ghost rest: Tokens)
      modifies this
      ensures data + rest == old(data) + OutValue(v, t, w, rest)
      decreases v, 2
    {
      if v.NodeOf? {
        WriteNode(v.node, rest);
      } else {
        Append(OutToken(v, t, w), rest);
      }
    }
  }

  /** The cursor over a text's tokens. */
  class TokenReader {
    const tokens: Tokens
    var pos: nat

    ghost predicate Valid()
      reads this
    {
      pos <= |tokens|
    }

    /** What is still to be read. */
    ghost function Rest(): Tokens
      reads this
      requires Valid()
    {
      tokens[pos..]
    }

    constructor (tokens: Tokens)
      ensures Valid() && this.tokens == tokens && Rest() == tokens
    {
      this.tokens, pos := tokens, 0;
    }

    method StrTok() returns (r: Result<Token>)
      requires Valid()
      modifies this
      ensures Valid()
      ensures if old(Rest()) == [] then r == Err(MalformedNode)
              else r == Ok(old(Rest())[0]) && Rest() == old(Rest())[1..]
    {
      if pos == |tokens| { return Err(MalformedNode); }
      pos := pos + 1;
      r := Ok(tokens[pos - 1]);
    }

    method Node() returns (r: Result<Node>)
      requires Valid()
      modifies this
      ensures Valid()
      ensures match ReadNodeAt(old(Rest())) case Ok(f) => r == Ok(f.0) && Rest() == f.1 case Err(e) => r == Err(e)
      decreases |Rest()|, 1
    {
      var t :- StrTok();
      if t.ForeignNode? { return Ok(Foreign(t.id)); }
      if t.Quoted? { return Err(MalformedNode); }
      if t.text == "<>" { return Ok(Null); }
      if t.text == "(" {
        var items :- Items();
        return Ok(List(items));
      }
      if t.text == "{" {
        r := ExtendedNode();
        return;
      }
      if IsNumber(t.text) { return Ok(Integer(ToInt32(StrToL(t.text)))); }
      return Err(MalformedNode);
    }

    method Items() returns (r: Result<seq<Node>>)
      requires Valid()
      modifies this
      ensures Valid()
      ensures match ReadItems(old(Rest())) case Ok(f) => r == Ok(f.0) && Rest() == f.1 case Err(e) => r == Err(e)
      decreases |Rest()|, 2
    {
      if pos < |tokens| && tokens[pos] == Word(")") {
        pos := pos + 1;
        return Ok([]);
      }
      var n :- Node();
      var more :- Items();
      return Ok([n] + more);
    }

    method ExtendedNode() returns (r: Result<Node>)
      requires Valid()
      modifies this
      ensures Valid()
      ensures match ReadExtended(old(Rest())) case Ok(f) => r == Ok(f.0) && Rest() == f.1 case Err(e) => r == Err(e)
      decreases |Rest()|, 0
    {
      hide InFields, KindNamed;
      var tag :- StrTok();
      if tag != Word("EXTENSIBLENODE") { return Err(MalformedNode); }
      var _ :- StrTok();
      var name :- StrTok();
      if !name.Quoted? { return Err(MalformedNode); }
      var kind := KindNamed(name.value, KINDS);
      if kind.None? { return Err(MalformedNode); }
      var fields :- Fields(InFields(kind.value));
      var end :- StrTok();
      if end != Word("}") { return Err(MalformedNode); }
      return Ok(Extended(kind.value, fields));
    }

    method Fields(macros: seq<(string, CType, Reader)>) returns (r: Result<seq<Field>>)
      requires Valid()
      modifies this
      ensures Valid()
      ensures match ReadAll(macros, old(Rest())) case Ok(f) => r == Ok(f.0) && Rest() == f.1 case Err(e) => r == Err(e)
      decreases |Rest()|, 3, |macros|
    {
      if macros == [] { return Ok([]); }
      var _ :- StrTok();
      var v :- FieldValue(macros[0].1, macros[0].2);
      var more :- Fields(macros[1..]);
      return Ok([Field(macros[0].0, v)] + more);
    }

    method FieldValue(t: CType, m: Reader) returns (r: Result<Value>)
      requires Valid()
      modifies this
      ensures Valid()
      ensures match ReadValue(t, m, old(Rest())) case Ok(f) => r == Ok(f.0) && Rest() == f.1 case Err(e) => r == Err(e)
      decreases |Rest()|, 2
    {
      if m == ReadNode {
        var n :- Node();
        return Ok(NodeOf(n));
      }
      var token :- StrTok();
      r := ReadToken(token, t, m);
    }
  }

  /** What one process prints, another reads: the whole text is used up, and the node is there again. */
  method PrintAndRead(n: Node) returns (r: Result<Node>)
    requires WellTyped(n)
    ensures r == Ok(Normal(n))
  {
    var str := new StringInfo();
    str.WriteNode(n, []);
    assert str.data == str.data + [] == OutNode(n, []);
    ReadNodeBack(n, []);
    var reader := new TokenReader(str.data);
    r := reader.Node();
  }
}
