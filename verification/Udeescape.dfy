/**
 * Unicode escapes in string tokens, `U&'...'`: doubled escape characters, four-digit and six-digit code
 * points, and surrogate pairs (section 2 of RFC 2781). Strings are bytes without zeros.
 */
module Udeescape {
  import opened Results

  type byte = x: int | 0 <= x < 256

  type Text = seq<byte>

  predicate IsXDigit(c: byte) {
    '0' as int <= c <= '9' as int || 'a' as int <= c <= 'f' as int || 'A' as int <= c <= 'F' as int
  }

  function HexVal(c: byte): (r: nat)
    requires IsXDigit(c)
    ensures r < 16
  {
    if c <= '9' as int then c - '0' as int
    else if c <= 'F' as int then c - 'A' as int + 10
    else c - 'a' as int + 10
  }

  /** May the character serve as the escape character? */
  predicate CheckUescapechar(c: byte) {
    !IsXDigit(c) && c !in {'+' as int, '\'' as int, '"' as int, ' ' as int, '\t' as int, '\n' as int, '\r' as int, 12}
  }

  predicate AllDigits(ds: Text) {
    forall k | 0 <= k < |ds| :: IsXDigit(ds[k])
  }

  function HexNumber(ds: Text): nat
    requires AllDigits(ds)
  {
    if ds == [] then 0 else HexNumber(ds[..|ds| - 1]) * 16 + HexVal(ds[|ds| - 1])
  }

  const LAST_CODE_POINT: nat := 0x10FFFF
  const MAX_UNICODE_EQUIVALENT_STRING: nat := 16

  predicate IsFirst(c: nat) { 0xD800 <= c <= 0xDBFF }

  predicate IsSecond(c: nat) { 0xDC00 <= c <= 0xDFFF }

  predicate IsCodePoint(c: nat) { 0 < c <= LAST_CODE_POINT }

  /** A scalar value other than zero: a code point outside the range that section 2 of RFC 2781 keeps for pairs. */
  predicate IsScalar(c: nat) { 0 < c < 0xD800 || 0xDFFF < c <= 0x10FFFF }

  function PairToCodePoint(first: nat, second: nat): nat {
    first % 1024 * 1024 + 0x10000 + second % 1024
  }

  /** The server's encoding of a scalar value: short enough for the buffer's padding, and without zeros. */
  type Encoding = nat -> Text

  ghost predicate IsEncoding(enc: Encoding) {
    forall c | IsScalar(c) :: |enc(c)| <= MAX_UNICODE_EQUIVALENT_STRING && forall k | 0 <= k < |enc(c)| :: enc(c)[k] != 0
  }

  // ---------------------------------------------------------------- decoding

  datatype Token = Byte(b: byte) | Code(value: nat)

  /** The token at the front of the text and its length. */
  function Scan(s: Text, escape: byte): (r: Result<(Token, nat)>)
    requires s != []
    ensures r.Ok? ==> 0 < r.value.1 <= |s|
  {
    if s[0] != escape then Ok((Byte(s[0]), 1))
    else if |s| > 1 && s[1] == escape then Ok((Byte(escape), 2))
    else if |s| >= 5 && AllDigits(s[1..5]) then Ok((Code(HexNumber(s[1..5])), 5))
    else if |s| >= 8 && s[1] == '+' as int && AllDigits(s[2..8]) then Ok((Code(HexNumber(s[2..8])), 8))
    else Err(InvalidUnicodeEscape)
  }

  /** What a token adds to the output, and the first half of a pair that waits for the second, 0 for none. */
  function Emit(enc: Encoding, t: Token, first: nat): Result<(Text, nat)> {
    match t
    case Byte(b) => if first != 0 then Err(InvalidSurrogatePair) else Ok(([b], 0))
    case Code(v) =>
      if !IsCodePoint(v) then Err(InvalidUnicodeValue)
      else if first != 0 then
        if IsSecond(v) then Ok((enc(PairToCodePoint(first, v)), 0)) else Err(InvalidSurrogatePair)
      else if IsSecond(v) then Err(InvalidSurrogatePair)
      else if IsFirst(v) then Ok(([], v))
      else Ok((enc(v), 0))
  }

  function Decode(enc: Encoding, escape: byte, s: Text, first: nat): Result<Text> {
    if s == [] then if first != 0 then Err(InvalidSurrogatePair) else Ok([])
    else
      var (t, n) :- Scan(s, escape);
      var (out, next) :- Emit(enc, t, first);
      var rest :- Decode(enc, escape, s[n..], next);
      Ok(out + rest)
  }

  // ---------------------------------------------------------------- decoding inverts escaping

  function High(c: nat): nat
    requires 0x10000 <= c <= LAST_CODE_POINT
  {
    0xD800 + (c - 0x10000) / 1024
  }

  function Low(c: nat): nat
    requires 0x10000 <= c <= LAST_CODE_POINT
  {
    0xDC00 + (c - 0x10000) % 1024
  }

  lemma HalvesOf(c: nat)
    requires 0x10000 <= c <= LAST_CODE_POINT
    ensures IsFirst(High(c)) && IsSecond(Low(c)) && PairToCodePoint(High(c), Low(c)) == c
  {}

  const LOWER := "0123456789abcdef"
  const UPPER := "0123456789ABCDEF"

  function Digit(v: nat, upper: bool): byte
    requires v < 16
  {
    (if upper then UPPER else LOWER)[v] as int
  }

  /** The number written with as many digits as there are cases, each digit in its own case. */
  function WriteHex(value: nat, upper: seq<bool>): (t: Text)
    ensures |t| == |upper|
  {
    if upper == [] then []
    else WriteHex(value / 16, upper[..|upper| - 1]) + [Digit(value % 16, upper[|upper| - 1])]
  }

  /** The numbers that n digits can write. */
  function Limit(n: nat): nat {
    if n == 0 then 1 else 16 * Limit(n - 1)
  }

  lemma DigitIsRead(v: nat, upper: bool)
    requires v < 16
    ensures IsXDigit(Digit(v, upper)) && HexVal(Digit(v, upper)) == v
  {
    assert v in {0, 1, 2, 3, 4, 5, 6, 7, 8, 9, 10, 11, 12, 13, 14, 15};
  }

  /** Every character that is read as a digit is one that is written. */
  lemma DigitIsWritten(c: byte)
    requires IsXDigit(c)
    ensures c == Digit(HexVal(c), 'A' as int <= c <= 'F' as int)
  {
    assert c as char in LOWER || c as char in UPPER by {
      assert HexVal(c) in {0, 1, 2, 3, 4, 5, 6, 7, 8, 9, 10, 11, 12, 13, 14, 15};
    }
  }

  /** Every character may serve but the digits, the plus sign, the quotes and the white space of the scanner. */
  lemma EscapeCharactersAre(c: byte)
    ensures CheckUescapechar(c) <==> c as char !in LOWER && c as char !in UPPER && c as char !in "+'\" \t\n\r\U{0C}"
  {}

  /** Reading digits undoes writing them, for every number and every choice of case. */
  lemma {:induction false} HexReadBack(value: nat, upper: seq<bool>)
    requires value < Limit(|upper|)
    ensures AllDigits(WriteHex(value, upper)) && HexNumber(WriteHex(value, upper)) == value
  {
    if upper != [] {
      var n := |upper| - 1;
      HexReadBack(value / 16, upper[..n]);
      DigitIsRead(value % 16, upper[n]);
      var front, digit := WriteHex(value / 16, upper[..n]), Digit(value % 16, upper[n]);
      assert WriteHex(value, upper) == front + [digit];
      hide *;
      HexOneMore(front, digit);
      assert value == value / 16 * 16 + value % 16;
    }
  }

  lemma HexOneMore(front: Text, digit: byte)
    requires AllDigits(front) && IsXDigit(digit)
    ensures AllDigits(front + [digit]) && HexNumber(front + [digit]) == HexNumber(front) * 16 + HexVal(digit)
  {
    assert (front + [digit])[..|front|] == front;
  }

  /** Whatever is read as a number of so many digits, writing that number can give. */
  lemma {:induction false} HexIsWritten(ds: Text) returns (upper: seq<bool>)
    requires AllDigits(ds)
    ensures |upper| == |ds| && HexNumber(ds) < Limit(|ds|) && WriteHex(HexNumber(ds), upper) == ds
  {
    upper := [];
    if ds != [] {
      var n := |ds| - 1;
      var front := HexIsWritten(ds[..n]);
      DigitIsWritten(ds[n]);
      upper := front + ['A' as int <= ds[n] <= 'F' as int];
      assert upper[..n] == front;
      assert HexNumber(ds) / 16 == HexNumber(ds[..n]) && HexNumber(ds) % 16 == HexVal(ds[n]);
      assert ds == ds[..n] + [ds[n]];
    }
  }

  /** An escape sequence for the number: its four digits, or a plus sign and its six digits, each in either case. */
  ghost predicate EscapeFor(t: Text, value: nat, escape: byte) {
    || (value < 0x10000 && exists upper :: |upper| == 4 && t == [escape] + WriteHex(value, upper))
    || (value < 0x1000000 && exists upper :: |upper| == 6 && t == [escape, '+' as int] + WriteHex(value, upper))
  }

  /** What the decoder recognises as an escape sequence for the number. */
  predicate ReadsAs(t: Text, value: nat, escape: byte) {
    || (|t| == 5 && t[0] == escape && AllDigits(t[1..]) && HexNumber(t[1..]) == value)
    || (|t| == 8 && t[0] == escape && t[1] == '+' as int && AllDigits(t[2..]) && HexNumber(t[2..]) == value)
  }

  lemma Limits()
    ensures Limit(4) == 0x10000 && Limit(6) == 0x1000000
  {
    assert Limit(1) == 16 && Limit(2) == 256 && Limit(3) == 4096;
  }

  /** The decoder recognises exactly the escape sequences that can be written. */
  lemma EscapesAreRead(t: Text, value: nat, escape: byte)
    ensures EscapeFor(t, value, escape) <==> ReadsAs(t, value, escape)
  {
    hide WriteHex, HexNumber, IsXDigit, Limit;
    Limits();
    if upper :| |upper| == 4 && value < 0x10000 && t == [escape] + WriteHex(value, upper) {
      HexReadBack(value, upper);
      assert t[1..] == WriteHex(value, upper);
    }
    if upper :| |upper| == 6 && value < 0x1000000 && t == [escape, '+' as int] + WriteHex(value, upper) {
      HexReadBack(value, upper);
      assert t[2..] == WriteHex(value, upper);
    }
    if ReadsAs(t, value, escape) {
      if |t| == 5 {
        var upper := HexIsWritten(t[1..]);
        assert t == [escape] + WriteHex(value, upper);
      } else {
        var upper := HexIsWritten(t[2..]);
        assert t == [escape, '+' as int] + WriteHex(value, upper);
      }
    }
  }

  /** The ways to write a scalar value: as it is, doubled, as one escape sequence, or as two for a pair. */
  ghost predicate Spells(enc: Encoding, t: Text, c: nat, escape: byte) {
    || (t == enc(c) && escape !in t)
    || (t == [escape, escape] && enc(c) == [escape])
    || EscapeFor(t, c, escape)
    || (0x10000 <= c <= LAST_CODE_POINT && exists n ::
          0 <= n <= |t| && EscapeFor(t[..n], High(c), escape) && EscapeFor(t[n..], Low(c), escape))
  }

  lemma ScanEscape(t: Text, rest: Text, value: nat, escape: byte)
    requires EscapeFor(t, value, escape) && CheckUescapechar(escape)
    ensures Scan(t + rest, escape) == Ok((Code(value), |t|)) && (t + rest)[|t|..] == rest
  {
    EscapesAreRead(t, value, escape);
    hide EscapeFor;
    var s := t + rest;
    assert s[1] == t[1];
    if |t| == 5 {
      assert s[1..5] == t[1..];
      assert IsXDigit(t[1..][0]);
    } else {
      assert s[2..8] == t[2..];
      assert s[1..5][0] == '+' as int;
    }
  }

  lemma {:induction false} DecodePlain(enc: Encoding, t: Text, rest: Text, escape: byte)
    requires escape !in t
    ensures match Decode(enc, escape, rest, 0)
            case Ok(out) => Decode(enc, escape, t + rest, 0) == Ok(t + out)
            case Err(e) => Decode(enc, escape, t + rest, 0) == Err(e)
  {
    if t == [] {
      assert t + rest == rest;
      assert Decode(enc, escape, rest, 0).Ok? ==> t + Decode(enc, escape, rest, 0).value == Decode(enc, escape, rest, 0).value;
    } else {
      DecodePlain(enc, t[1..], rest, escape);
      assert (t + rest)[1..] == t[1..] + rest;
      assert [t[0]] + t[1..] == t;
      if Decode(enc, escape, rest, 0).Ok? {
        assert [t[0]] + (t[1..] + Decode(enc, escape, rest, 0).value) == t + Decode(enc, escape, rest, 0).value;
      }
    }
  }

  /** However a scalar value is written, decoding gives its encoding and goes on behind it. */
  lemma DecodeSpelled(enc: Encoding, t: Text, c: nat, rest: Text, escape: byte)
    requires IsScalar(c) && CheckUescapechar(escape) && Spells(enc, t, c, escape)
    ensures match Decode(enc, escape, rest, 0)
            case Ok(out) => Decode(enc, escape, t + rest, 0) == Ok(enc(c) + out)
            case Err(e) => Decode(enc, escape, t + rest, 0) == Err(e)
  {
    hide EscapeFor, High, Low, Scan, Emit, Decode;
    if t == enc(c) && escape !in t {
      DecodePlain(enc, t, rest, escape);
    } else if t == [escape, escape] && enc(c) == [escape] {
      DecodeDoubled(enc, rest, escape);
    } else if EscapeFor(t, c, escape) {
      DecodeSingle(enc, t, c, rest, escape);
    } else {
      var n :| 0 <= n <= |t| && EscapeFor(t[..n], High(c), escape) && EscapeFor(t[n..], Low(c), escape);
      DecodeHalves(enc, t, n, c, rest, escape);
    }
  }

  lemma DecodeHalves(enc: Encoding, t: Text, n: nat, c: nat, rest: Text, escape: byte)
    requires 0x10000 <= c <= LAST_CODE_POINT && n <= |t| && CheckUescapechar(escape)
    requires EscapeFor(t[..n], High(c), escape) && EscapeFor(t[n..], Low(c), escape)
    ensures match Decode(enc, escape, rest, 0)
            case Ok(out) => Decode(enc, escape, t + rest, 0) == Ok(enc(c) + out)
            case Err(e) => Decode(enc, escape, t + rest, 0) == Err(e)
  {
    hide *;
    assert t + rest == t[..n] + (t[n..] + rest);
    ScanEscape(t[..n], t[n..] + rest, High(c), escape);
    ScanEscape(t[n..], rest, Low(c), escape);
    EscapeNotEmpty(t[..n], High(c), escape);
    EscapeNotEmpty(t[n..], Low(c), escape);
    DecodePair(enc, t, n, c, rest, escape);
  }

  lemma DecodeDoubled(enc: Encoding, rest: Text, escape: byte)
    ensures match Decode(enc, escape, rest, 0)
            case Ok(out) => Decode(enc, escape, [escape, escape] + rest, 0) == Ok([escape] + out)
            case Err(e) => Decode(enc, escape, [escape, escape] + rest, 0) == Err(e)
  {
    var s := [escape, escape] + rest;
    assert s[2..] == rest;
    assert Scan(s, escape) == Ok((Byte(escape), 2));
  }

  lemma EscapeNotEmpty(t: Text, value: nat, escape: byte)
    requires EscapeFor(t, value, escape)
    ensures |t| > 0
  {
    EscapesAreRead(t, value, escape);
  }

  lemma DecodeSingle(enc: Encoding, t: Text, c: nat, rest: Text, escape: byte)
    requires IsScalar(c) && CheckUescapechar(escape) && EscapeFor(t, c, escape)
    ensures match Decode(enc, escape, rest, 0)
            case Ok(out) => Decode(enc, escape, t + rest, 0) == Ok(enc(c) + out)
            case Err(e) => Decode(enc, escape, t + rest, 0) == Err(e)
  {
    ScanEscape(t, rest, c, escape);
    hide Scan;
    assert Emit(enc, Code(c), 0) == Ok((enc(c), 0));
  }

  lemma DecodePair(enc: Encoding, t: Text, n: nat, c: nat, rest: Text, escape: byte)
    requires 0x10000 <= c <= LAST_CODE_POINT && 0 < n < |t|
    requires Scan(t + rest, escape) == Ok((Code(High(c)), n)) && (t + rest)[n..] == t[n..] + rest
    requires Scan(t[n..] + rest, escape) == Ok((Code(Low(c)), |t| - n)) && (t[n..] + rest)[|t| - n..] == rest
    ensures match Decode(enc, escape, rest, 0)
            case Ok(out) => Decode(enc, escape, t + rest, 0) == Ok(enc(c) + out)
            case Err(e) => Decode(enc, escape, t + rest, 0) == Err(e)
  {
    HalvesOf(c);
    var second := Decode(enc, escape, t[n..] + rest, High(c));
    assert Emit(enc, Code(High(c)), 0) == Ok(([], High(c)));
    assert Emit(enc, Code(Low(c)), High(c)) == Ok((enc(c), 0));
    if second.Ok? { assert [] + second.value == second.value; }
  }

  function Concat(ts: seq<Text>): Text {
    if ts == [] then [] else ts[0] + Concat(ts[1..])
  }

  function Encoded(enc: Encoding, cs: seq<nat>): Text {
    if cs == [] then [] else enc(cs[0]) + Encoded(enc, cs[1..])
  }

  /** Any mix of spellings of any sequence of scalar values decodes to the encoding of that sequence. */
  lemma {:induction false} DecodeInvertsEscape(enc: Encoding, ts: seq<Text>, cs: seq<nat>, escape: byte)
    requires CheckUescapechar(escape) && |ts| == |cs|
    requires forall k | 0 <= k < |cs| :: IsScalar(cs[k]) && Spells(enc, ts[k], cs[k], escape)
    ensures Decode(enc, escape, Concat(ts), 0) == Ok(Encoded(enc, cs))
  {
    if ts != [] {
      DecodeInvertsEscape(enc, ts[1..], cs[1..], escape);
      DecodeSpelled(enc, ts[0], cs[0], Concat(ts[1..]), escape);
    }
  }

  // ---------------------------------------------------------------- what is accepted

  function Tokens(s: Text, escape: byte): Result<seq<Token>> {
    if s == [] then Ok([])
    else
      var (t, n) :- Scan(s, escape);
      var rest :- Tokens(s[n..], escape);
      Ok([t] + rest)
  }

  predicate FirstAt(ts: seq<Token>, k: int) {
    0 <= k < |ts| && ts[k].Code? && IsFirst(ts[k].value)
  }

  predicate SecondAt(ts: seq<Token>, k: int) {
    0 <= k < |ts| && ts[k].Code? && IsSecond(ts[k].value)
  }

  /** All numbers are code points, and each half of a pair is next to its other half. */
  ghost predicate WellPaired(ts: seq<Token>) {
    && (forall k | 0 <= k < |ts| && ts[k].Code? :: IsCodePoint(ts[k].value))
    && (forall k :: FirstAt(ts, k) <==> SecondAt(ts, k + 1))
  }

  /** The values of a well-paired text: bytes taken over, and scalar values. */
  function Values(ts: seq<Token>): seq<Token> {
    if ts == [] then []
    else if FirstAt(ts, 0) && SecondAt(ts, 1) then [Code(PairToCodePoint(ts[0].value, ts[1].value))] + Values(ts[2..])
    else [ts[0]] + Values(ts[1..])
  }

  function Written(enc: Encoding, ts: seq<Token>): Text {
    if ts == [] then [] else (if ts[0].Byte? then [ts[0].b] else enc(ts[0].value)) + Written(enc, ts[1..])
  }

  function Run(enc: Encoding, ts: seq<Token>, first: nat): Result<Text> {
    if ts == [] then if first != 0 then Err(InvalidSurrogatePair) else Ok([])
    else
      var (out, next) :- Emit(enc, ts[0], first);
      var rest :- Run(enc, ts[1..], next);
      Ok(out + rest)
  }

  lemma {:induction false} DecodeRunsTokens(enc: Encoding, escape: byte, s: Text, first: nat)
    ensures Decode(enc, escape, s, first).Ok? <==> Tokens(s, escape).Ok? && Run(enc, Tokens(s, escape).value, first).Ok?
    ensures Decode(enc, escape, s, first).Ok? ==> Decode(enc, escape, s, first) == Run(enc, Tokens(s, escape).value, first)
    decreases |s|
  {
    if s != [] && Scan(s, escape).Ok? {
      var (t, n) := Scan(s, escape).value;
      if Emit(enc, t, first).Ok? {
        DecodeRunsTokens(enc, escape, s[n..], Emit(enc, t, first).value.1);
      }
      if Tokens(s[n..], escape).Ok? { assert ([t] + Tokens(s[n..], escape).value)[1..] == Tokens(s[n..], escape).value; }
    }
  }

  /** Taking away the first n tokens moves all halves by n. */
  lemma HalvesMove(ts: seq<Token>, n: nat, k: int)
    requires n <= |ts| && k >= 0
    ensures FirstAt(ts[n..], k) <==> FirstAt(ts, k + n)
    ensures SecondAt(ts[n..], k) <==> SecondAt(ts, k + n)
  {}

  lemma PairedWithout(ts: seq<Token>, n: nat)
    requires 0 < n <= |ts| && n <= 2 && !FirstAt(ts, n - 1)
    requires forall k | 0 <= k < n && ts[k].Code? :: IsCodePoint(ts[k].value)
    requires n == 1 ==> !SecondAt(ts, 0)
    requires n == 2 ==> FirstAt(ts, 0) && SecondAt(ts, 1) && !SecondAt(ts, 0)
    ensures WellPaired(ts) <==> WellPaired(ts[n..])
  {
    hide IsFirst, IsSecond, IsCodePoint;
    var rest := ts[n..];
    if WellPaired(ts) {
      forall k ensures FirstAt(rest, k) <==> SecondAt(rest, k + 1) {
        assert FirstAt(ts, k + n) <==> SecondAt(ts, k + n + 1);
        if k >= 0 { HalvesMove(ts, n, k); }
        if k >= -1 { HalvesMove(ts, n, k + 1); }
      }
      forall k | 0 <= k < |rest| && rest[k].Code? ensures IsCodePoint(rest[k].value) { assert ts[k + n] == rest[k]; }
    }
    if WellPaired(rest) {
      forall k ensures FirstAt(ts, k) <==> SecondAt(ts, k + 1) {
        assert FirstAt(rest, k - n) <==> SecondAt(rest, k - n + 1);
        if k >= n { HalvesMove(ts, n, k - n); }
        if k >= n - 1 { HalvesMove(ts, n, k - n + 1); }
      }
      forall k | 0 <= k < |ts| && ts[k].Code? ensures IsCodePoint(ts[k].value) { if k >= n { assert ts[k] == rest[k - n]; } }
    }
  }

  /** A token list decodes exactly when it is well paired, to its values, none of which is half of a pair. */
  lemma {:induction false} RunPairs(enc: Encoding, ts: seq<Token>)
    ensures Run(enc, ts, 0).Ok? <==> WellPaired(ts)
    ensures WellPaired(ts) ==> Run(enc, ts, 0) == Ok(Written(enc, Values(ts)))
                               && forall v | v in Values(ts) && v.Code? :: IsScalar(v.value)
    decreases |ts|
  {
    if ts != [] {
      assert FirstAt(ts, -1) <==> false;
      var t := ts[0];
      if SecondAt(ts, 0) {
        assert !(FirstAt(ts, -1) <==> SecondAt(ts, -1 + 1));
      } else if FirstAt(ts, 0) {
        if SecondAt(ts, 1) {
          PairedWithout(ts, 2);
          RunPairs(enc, ts[2..]);
          RunOfPair(enc, ts);
        } else {
          assert !(FirstAt(ts, 0) <==> SecondAt(ts, 0 + 1));
          RunOfLoneFirst(enc, ts);
        }
      } else if t.Byte? || IsCodePoint(t.value) {
        PairedWithout(ts, 1);
        RunPairs(enc, ts[1..]);
      }
    }
  }

  lemma RunOfPair(enc: Encoding, ts: seq<Token>)
    requires FirstAt(ts, 0) && SecondAt(ts, 1)
    ensures match Run(enc, ts[2..], 0)
            case Ok(rest) => Run(enc, ts, 0) == Ok(enc(PairToCodePoint(ts[0].value, ts[1].value)) + rest)
            case Err(_) => Run(enc, ts, 0).Err?
    ensures IsScalar(PairToCodePoint(ts[0].value, ts[1].value))
  {
    assert ts[1..][0] == ts[1] && ts[1..][1..] == ts[2..];
    var inner := Run(enc, ts[1..], ts[0].value);
    if inner.Ok? { assert [] + inner.value == inner.value; }
  }

  lemma RunOfLoneFirst(enc: Encoding, ts: seq<Token>)
    requires FirstAt(ts, 0) && !SecondAt(ts, 1)
    ensures Run(enc, ts, 0).Err?
  {
    if |ts| > 1 { assert ts[1..][0] == ts[1]; }
  }

  /**
   * A text is accepted exactly when all its escapes are complete, all numbers are code points, and every half of a
   * pair stands next to its other half. The output has no half in it.
   */
  lemma AcceptedExactlyWhenPaired(enc: Encoding, escape: byte, s: Text)
    ensures Decode(enc, escape, s, 0).Ok? <==> Tokens(s, escape).Ok? && WellPaired(Tokens(s, escape).value)
    ensures Decode(enc, escape, s, 0).Ok? ==>
      var values := Values(Tokens(s, escape).value);
      && Decode(enc, escape, s, 0) == Ok(Written(enc, values))
      && forall v | v in values && v.Code? :: IsScalar(v.value)
  {
    DecodeRunsTokens(enc, escape, s, 0);
    if Tokens(s, escape).Ok? { RunPairs(enc, Tokens(s, escape).value); }
  }

  /** The ways to write a token: a byte other than the escape character, that one doubled, or an escape sequence. */
  ghost predicate WritesToken(t: Text, token: Token, escape: byte) {
    match token
    case Byte(b) => t == if b == escape then [b, b] else [b]
    case Code(value) => EscapeFor(t, value, escape)
  }

  ghost predicate WritesTokens(ts: seq<Text>, tokens: seq<Token>, escape: byte) {
    |ts| == |tokens| && forall k | 0 <= k < |ts| :: WritesToken(ts[k], tokens[k], escape)
  }

  /** The token at the front of a text is one that is written there. */
  lemma ScanFinds(s: Text, escape: byte)
    requires s != [] && Scan(s, escape).Ok?
    ensures var (token, n) := Scan(s, escape).value; WritesToken(s[..n], token, escape)
  {
    var (token, n) := Scan(s, escape).value;
    if token.Code? {
      assert s[..5][1..] == s[1..5];
      if n == 8 { assert s[..8][2..] == s[2..8]; }
      EscapesAreRead(s[..n], token.value, escape);
      hide EscapeFor, HexNumber;
    }
  }

  /** A written token is found, whatever follows. */
  lemma ScanReads(t: Text, token: Token, rest: Text, escape: byte)
    requires WritesToken(t, token, escape) && CheckUescapechar(escape)
    ensures t != [] && Scan(t + rest, escape) == Ok((token, |t|)) && (t + rest)[|t|..] == rest
  {
    if token.Code? {
      hide Scan, EscapeFor;
      ScanEscape(t, rest, token.value, escape);
      EscapeNotEmpty(t, token.value, escape);
    }
  }

  lemma {:induction false} WrittenTokensAreRead(ts: seq<Text>, tokens: seq<Token>, escape: byte)
    requires WritesTokens(ts, tokens, escape) && CheckUescapechar(escape)
    ensures Tokens(Concat(ts), escape) == Ok(tokens)
  {
    if ts != [] {
      hide WritesToken, Scan;
      WrittenTokensAreRead(ts[1..], tokens[1..], escape);
      ScanReads(ts[0], tokens[0], Concat(ts[1..]), escape);
      assert [tokens[0]] + tokens[1..] == tokens;
    }
  }

  lemma {:induction false} TokensAreWritten(s: Text, escape: byte) returns (ts: seq<Text>)
    requires Tokens(s, escape).Ok?
    ensures WritesTokens(ts, Tokens(s, escape).value, escape) && Concat(ts) == s
    decreases |s|
  {
    ts := [];
    if s != [] {
      var (token, n) := Scan(s, escape).value;
      ScanFinds(s, escape);
      var rest := TokensAreWritten(s[n..], escape);
      hide WritesToken, Scan, Tokens;
      ts := [s[..n]] + rest;
      assert ts[1..] == rest && s == s[..n] + s[n..];
    }
  }

  /** For a legal escape character, a text has exactly the tokens of which it is written, piece by piece. */
  lemma TokensExactly(s: Text, escape: byte, tokens: seq<Token>)
    requires CheckUescapechar(escape)
    ensures Tokens(s, escape) == Ok(tokens) <==> exists ts :: WritesTokens(ts, tokens, escape) && Concat(ts) == s
  {
    hide WritesTokens, Tokens;
    if Tokens(s, escape) == Ok(tokens) {
      var ts := TokensAreWritten(s, escape);
    }
    forall ts | WritesTokens(ts, tokens, escape) && Concat(ts) == s ensures Tokens(s, escape) == Ok(tokens) {
      WrittenTokensAreRead(ts, tokens, escape);
    }
  }

  // ---------------------------------------------------------------- the decoder's buffer

  lemma HexNext(d: Text, k: nat)
    requires k < |d| && AllDigits(d)
    ensures HexNumber(d[..k + 1]) == HexNumber(d[..k]) * 16 + HexVal(d[k])
  {
    assert d[..k + 1][..k] == d[..k];
  }

  lemma FourDigits(s: Text, i: nat)
    requires i + 4 <= |s|
    ensures AllDigits(s[i..i + 4]) <==> IsXDigit(s[i]) && IsXDigit(s[i + 1]) && IsXDigit(s[i + 2]) && IsXDigit(s[i + 3])
    ensures AllDigits(s[i..i + 4]) ==> (HexNumber(s[i..i + 4]) ==
      HexVal(s[i]) * 4096 + HexVal(s[i + 1]) * 256 + HexVal(s[i + 2]) * 16 + HexVal(s[i + 3]))
  {
    var d := s[i..i + 4];
    assert d == [s[i], s[i + 1], s[i + 2], s[i + 3]];
    if AllDigits(d) {
      assert d[..4] == d && d[..0] == [];
      HexNext(d, 0); HexNext(d, 1); HexNext(d, 2); HexNext(d, 3);
    }
  }

  lemma SixDigits(s: Text, i: nat)
    requires i + 6 <= |s|
    ensures AllDigits(s[i..i + 6]) <==> IsXDigit(s[i]) && IsXDigit(s[i + 1]) && IsXDigit(s[i + 2]) && IsXDigit(s[i + 3])
                                        && IsXDigit(s[i + 4]) && IsXDigit(s[i + 5])
    ensures AllDigits(s[i..i + 6]) ==> (HexNumber(s[i..i + 6]) ==
      HexVal(s[i]) * 1048576 + HexVal(s[i + 1]) * 65536 + HexVal(s[i + 2]) * 4096 + HexVal(s[i + 3]) * 256
      + HexVal(s[i + 4]) * 16 + HexVal(s[i + 5]))
  {
    var d := s[i..i + 6];
    assert d == [s[i], s[i + 1], s[i + 2], s[i + 3], s[i + 4], s[i + 5]];
    if AllDigits(d) {
      assert d[..6] == d && d[..0] == [];
      HexNext(d, 0); HexNext(d, 1); HexNext(d, 2); HexNext(d, 3); HexNext(d, 4); HexNext(d, 5);
    }
  }

  /** The input: bytes without zeros, and a zero behind them. */
  ghost predicate IsString(str: array<byte>, n: nat)
    reads str
  {
    n + 1 == str.Length && str[n] == 0 && forall k | 0 <= k < n :: str[k] != 0
  }

  /** Tests byte after byte, so that no read goes past the final zero. */
  method ReadToken(str: array<byte>, n: nat, i: nat, escape: byte) returns (r: Result<(Token, nat)>)
    requires IsString(str, n) && i < n
    ensures r == Scan(str[i..n], escape)
  {
    ghost var s := str[i..n];
    if str[i] != escape { return Ok((Byte(str[i]), 1)); }
    if str[i + 1] == escape { return Ok((Byte(escape), 2)); }
    if |s| >= 5 { FourDigits(s, 1); }
    if |s| >= 8 { SixDigits(s, 2); }
    hide HexNumber, HexVal, AllDigits;
    if IsXDigit(str[i + 1]) && IsXDigit(str[i + 2]) && IsXDigit(str[i + 3]) && IsXDigit(str[i + 4]) {
      var v := HexVal(str[i + 1]) * 4096 + HexVal(str[i + 2]) * 256 + HexVal(str[i + 3]) * 16 + HexVal(str[i + 4]);
      return Ok((Code(v), 5));
    }
    if str[i + 1] == '+' as int && IsXDigit(str[i + 2]) && IsXDigit(str[i + 3]) && IsXDigit(str[i + 4])
       && IsXDigit(str[i + 5]) && IsXDigit(str[i + 6]) && IsXDigit(str[i + 7]) {
      var v := HexVal(str[i + 2]) * 1048576 + HexVal(str[i + 3]) * 65536 + HexVal(str[i + 4]) * 4096
             + HexVal(str[i + 5]) * 256 + HexVal(str[i + 6]) * 16 + HexVal(str[i + 7]);
      return Ok((Code(v), 8));
    }
    return Err(InvalidUnicodeEscape);
  }

  /** Writes a string and the zero behind it. */
  method PutString(buffer: array<byte>, out: nat, text: Text)
    requires out + |text| < buffer.Length
    modifies buffer
    ensures buffer[..out + |text|] == old(buffer[..out]) + text
  {
    for k := 0 to |text|
      invariant buffer[..out] == old(buffer[..out]) && buffer[out..out + k] == text[..k]
    {
      buffer[out + k] := text[k];
    }
    assert text[..|text|] == text;
    buffer[out + |text|] := 0;
  }

  /** A larger buffer with what has been written so far. */
  method Enlarge(buffer: array<byte>, len: nat, size: nat) returns (bigger: array<byte>)
    requires len <= buffer.Length <= size
    ensures fresh(bigger) && bigger.Length == size && bigger[..len] == buffer[..len]
  {
    bigger := new byte[size](_ => 0);
    for k := 0 to len
      invariant bigger[..k] == buffer[..k]
    {
      bigger[k] := buffer[k];
    }
  }

  /** What a token adds to the buffer, and the half that then waits. */
  method PutToken(buffer: array<byte>, out: nat, t: Token, pairFirst: nat, enc: Encoding) returns (r: Result<(nat, nat)>)
    requires IsEncoding(enc) && (pairFirst == 0 || IsFirst(pairFirst))
    requires out + MAX_UNICODE_EQUIVALENT_STRING < buffer.Length
    modifies buffer
    ensures match Emit(enc, t, pairFirst)
            case Ok((text, next)) => r == Ok((out + |text|, next)) && |text| <= MAX_UNICODE_EQUIVALENT_STRING
                                     && buffer[..out + |text|] == old(buffer[..out]) + text && (next == 0 || IsFirst(next))
            case Err(e) => r == Err(e)
  {
    if t.Code? {
      r := PutCode(buffer, out, t.value, pairFirst, enc);
    } else {
      if pairFirst != 0 { return Err(InvalidSurrogatePair); }
      buffer[out] := t.b;
      return Ok((out + 1, 0));
    }
  }


  /** The same for a code: the two halves of a pair are put together. */
  method PutCode(buffer: array<byte>, out: nat, v: nat, pairFirst: nat, enc: Encoding) returns (r: Result<(nat, nat)>)
    requires IsEncoding(enc) && (pairFirst == 0 || IsFirst(pairFirst))
    requires out + MAX_UNICODE_EQUIVALENT_STRING < buffer.Length
    modifies buffer
    ensures match Emit(enc, Code(v), pairFirst)
            case Ok((text, next)) => r == Ok((out + |text|, next)) && |text| <= MAX_UNICODE_EQUIVALENT_STRING
                                     && buffer[..out + |text|] == old(buffer[..out]) + text && (next == 0 || IsFirst(next))
            case Err(e) => r == Err(e)
  {
    if !IsCodePoint(v) { return Err(InvalidUnicodeValue); }
    var unicode, first := v, pairFirst;
    if first != 0 {
      if !IsSecond(v) { return Err(InvalidSurrogatePair); }
      unicode, first := PairToCodePoint(first, v), 0;
    } else if IsSecond(v) {
      return Err(InvalidSurrogatePair);
    }
    if IsFirst(unicode) {
      assert buffer[..out] + [] == buffer[..out];
      return Ok((out, unicode));
    }
    PutString(buffer, out, enc(unicode));
    return Ok((out + |enc(unicode)|, first));
  }

  /** Decoding a text is decoding its first token and then the rest. */
  lemma DecodeStep(enc: Encoding, escape: byte, s: Text, first: nat, done: Text, whole: Result<Text>)
    requires s != [] && Continues(enc, escape, s, first, done, whole)
    ensures match Scan(s, escape)
            case Err(e) => whole == Err(e)
            case Ok((t, n)) =>
              match Emit(enc, t, first)
              case Err(e) => whole == Err(e)
              case Ok((text, next)) => Continues(enc, escape, s[n..], next, done + text, whole)
  {
    if Scan(s, escape).Ok? {
      var (t, n) := Scan(s, escape).value;
      if Emit(enc, t, first).Ok? {
        var (text, next) := Emit(enc, t, first).value;
        if Decode(enc, escape, s[n..], next).Ok? {
          var rest := Decode(enc, escape, s[n..], next).value;
          assert done + (text + rest) == done + text + rest;
        }
      }
    }
  }

  /** The result of the whole is what has been done followed by what the rest decodes to. */
  predicate Continues(enc: Encoding, escape: byte, s: Text, first: nat, done: Text, whole: Result<Text>) {
    match Decode(enc, escape, s, first)
    case Ok(rest) => whole == Ok(done + rest)
    case Err(e) => whole == Err(e)
  }

  /** One turn of the loop: the new input and output positions, and the half that waits. */
  method OneToken(str: array<byte>, n: nat, i: nat, escape: byte, enc: Encoding,
                  buffer: array<byte>, len: nat, pairFirst: nat, ghost whole: Result<Text>)
    returns (r: Result<(nat, nat, nat)>)
    requires IsString(str, n) && IsEncoding(enc) && buffer != str && i < n
    requires len + MAX_UNICODE_EQUIVALENT_STRING < buffer.Length && (pairFirst == 0 || IsFirst(pairFirst))
    requires Continues(enc, escape, str[i..n], pairFirst, buffer[..len], whole)
    modifies buffer
    ensures r.Err? ==> whole == Err(r.error)
    ensures r.Ok? ==>
      var (i', len', first) := r.value;
      && i < i' <= n && len' <= len + MAX_UNICODE_EQUIVALENT_STRING && (first == 0 || IsFirst(first))
      && Continues(enc, escape, str[i'..n], first, buffer[..len'], whole)
  {
    DecodeStep(enc, escape, str[i..n], pairFirst, buffer[..len], whole);
    hide Continues, Decode, Scan, Emit, IsFirst, IsEncoding;
    var read :- ReadToken(str, n, i, escape);
    var (token, width) := read;
    ScanAdvances(str[i..n], escape);
    assert str[i..n][width..] == str[i + width..n];
    var put :- PutToken(buffer, len, token, pairFirst, enc);
    r := Ok((i + width, put.0, put.1));
  }

  /**
   * Decodes into a buffer that starts with room for the input and doubles when less than the padding
   * is left. Reads stop at the input's zero; every write, the final zero included, is inside the buffer.
   */
  method StrUdeescape(str: array<byte>, n: nat, escape: byte, enc: Encoding)
    returns (r: Result<()>, buffer: array<byte>, len: nat)
    requires IsString(str, n) && IsEncoding(enc)
    ensures match Decode(enc, escape, str[..n], 0)
            case Ok(text) => r.Ok? && len == |text| < buffer.Length && buffer[..len] == text && buffer[len] == 0
            case Err(e) => r == Err(e)
  {
    ghost var whole := Decode(enc, escape, str[..n], 0);
    var newLen := n + MAX_UNICODE_EQUIVALENT_STRING + 1;
    buffer := new byte[newLen](_ => 0);
    len := 0;
    var i: nat, pairFirst: nat := 0, 0;
    assert str[0..n] == str[..n] && buffer[..0] == [];
    DecodeStart(enc, escape, str[..n]);
    hide Continues, Decode, Scan, Emit;
    while str[i] != 0
      invariant 0 <= i <= n && fresh(buffer)
      invariant newLen == buffer.Length && len < newLen && newLen > MAX_UNICODE_EQUIVALENT_STRING
      invariant pairFirst == 0 || IsFirst(pairFirst)
      invariant Continues(enc, escape, str[i..n], pairFirst, buffer[..len], whole)
      decreases n - i
    {
      if len > newLen - (MAX_UNICODE_EQUIVALENT_STRING + 1) {
        newLen := newLen * 2;
        buffer := Enlarge(buffer, len, newLen);
      }
      assert len + MAX_UNICODE_EQUIVALENT_STRING < newLen;
      var next := OneToken(str, n, i, escape, enc, buffer, len, pairFirst, whole);
      if next.Err? { r := Err(next.error); return; }
      i, len, pairFirst := next.value.0, next.value.1, next.value.2;
    }
    assert str[i..n] == [];
    DecodeEnd(enc, escape, pairFirst, buffer[..len], whole);
    if pairFirst != 0 { r := Err(InvalidSurrogatePair); return; }
    buffer[len] := 0;
    r := Ok(());
  }

  lemma DecodeStart(enc: Encoding, escape: byte, s: Text)
    ensures Continues(enc, escape, s, 0, [], Decode(enc, escape, s, 0))
  {
    var whole := Decode(enc, escape, s, 0);
    if whole.Ok? { assert [] + whole.value == whole.value; }
  }

  lemma DecodeEnd(enc: Encoding, escape: byte, first: nat, done: Text, whole: Result<Text>)
    requires Continues(enc, escape, [], first, done, whole)
    ensures whole == if first != 0 then Err(InvalidSurrogatePair) else Ok(done)
  {
    assert done + [] == done;
  }

  lemma ScanAdvances(s: Text, escape: byte)
    requires s != [] && Scan(s, escape).Ok?
    ensures 0 < Scan(s, escape).value.1 <= |s|
  {}

  // ---------------------------------------------------------------- a server that uses UTF-8

  function Tail(c: nat): byte {
    0x80 + c % 64
  }

  function Lead(mark: nat, c: nat): byte
    requires mark + c < 256
  {
    mark + c
  }

  function Utf8(c: nat): Text {
    if c <= 0x7F then [c]
    else if c <= 0x7FF then [Lead(0xC0, c / 64), Tail(c)]
    else if c <= 0xFFFF then [Lead(0xE0, c / 64 / 64), Tail(c / 64), Tail(c)]
    else if c <= LAST_CODE_POINT then [Lead(0xF0, c / 64 / 64 / 64), Tail(c / 64 / 64), Tail(c / 64), Tail(c)]
    else []
  }

  function Bits(b: byte, n: nat): (r: nat)
    requires n > 0
  {
    b % n
  }

  /** The number that a UTF-8 sequence stands for. */
  function FromUtf8(t: Text): nat {
    match |t|
    case 1 => t[0]
    case 2 => Bits(t[0], 32) * 64 + Bits(t[1], 64)
    case 3 => (Bits(t[0], 16) * 64 + Bits(t[1], 64)) * 64 + Bits(t[2], 64)
    case 4 => ((Bits(t[0], 8) * 64 + Bits(t[1], 64)) * 64 + Bits(t[2], 64)) * 64 + Bits(t[3], 64)
    case _ => 0
  }

  lemma Utf8IsEncoding()
    ensures IsEncoding(Utf8)
  {}

  lemma TailBits(c: nat)
    ensures c / 64 * 64 + Bits(Tail(c), 64) == c
  {}

  lemma LeadBits(c: nat)
    ensures c < 32 ==> Bits(Lead(0xC0, c), 32) == c
    ensures c < 16 ==> Bits(Lead(0xE0, c), 16) == c
    ensures c < 8 ==> Bits(Lead(0xF0, c), 8) == c
  {}

  lemma Utf8RoundTrip(c: nat)
    requires IsScalar(c)
    ensures FromUtf8(Utf8(c)) == c
  {
    hide Bits, Tail, Lead;
    var (c1, c2, c3) := (c / 64, c / 64 / 64, c / 64 / 64 / 64);
    TailBits(c);
    TailBits(c1);
    TailBits(c2);
    LeadBits(c1);
    LeadBits(c2);
    LeadBits(c3);
  }

  /** With UTF-8 the first guess is enough: the output is never longer than the input. */
  lemma {:induction false} Utf8FitsGuess(escape: byte, s: Text, first: nat)
    requires Decode(Utf8, escape, s, first).Ok?
    ensures |Decode(Utf8, escape, s, first).value| <= |s|
    decreases |s|
  {
    if s != [] {
      var (t, n) := Scan(s, escape).value;
      Utf8FitsGuess(escape, s[n..], Emit(Utf8, t, first).value.1);
    }
  }

  /** How long the sequence is that begins with this byte. */
  function LengthFrom(b: byte): nat {
    if b < 0x80 then 1 else if b < 0xE0 then 2 else if b < 0xF0 then 3 else 4
  }

  /** The scalar values of a UTF-8 text; the first byte of each tells how long it is. */
  function ReadUtf8(t: Text): seq<nat> {
    if t == [] || LengthFrom(t[0]) > |t| then []
    else [FromUtf8(t[..LengthFrom(t[0])])] + ReadUtf8(t[LengthFrom(t[0])..])
  }

  lemma Utf8Length(c: nat)
    requires IsScalar(c)
    ensures Utf8(c) != [] && LengthFrom(Utf8(c)[0]) == |Utf8(c)|
  {}

  lemma {:induction false} ReadUtf8Back(cs: seq<nat>)
    requires forall k | 0 <= k < |cs| :: IsScalar(cs[k])
    ensures ReadUtf8(Encoded(Utf8, cs)) == cs
  {
    if cs != [] {
      hide FromUtf8, Utf8, IsScalar, LengthFrom;
      ReadUtf8Back(cs[1..]);
      var t, rest := Utf8(cs[0]), Encoded(Utf8, cs[1..]);
      assert (t + rest)[..|t|] == t && (t + rest)[|t|..] == rest;
      Utf8Length(cs[0]);
      Utf8RoundTrip(cs[0]);
    }
  }

  /** With UTF-8 the decoded bytes read as the scalar values that were written, in whatever mix of spellings. */
  lemma EscapedTextReadsBack(ts: seq<Text>, cs: seq<nat>, escape: byte)
    requires CheckUescapechar(escape) && |ts| == |cs|
    requires forall k | 0 <= k < |cs| :: IsScalar(cs[k]) && Spells(Utf8, ts[k], cs[k], escape)
    ensures Decode(Utf8, escape, Concat(ts), 0).Ok? && ReadUtf8(Decode(Utf8, escape, Concat(ts), 0).value) == cs
  {
    DecodeInvertsEscape(Utf8, ts, cs, escape);
    ReadUtf8Back(cs);
  }

  /** On such a server the decoded string is never longer than the token it came from. */
  method StrUdeescapeUtf8(str: array<byte>, n: nat, escape: byte) returns (r: Result<()>, buffer: array<byte>, len: nat)
    requires IsString(str, n)
    ensures match Decode(Utf8, escape, str[..n], 0)
            case Ok(text) => r.Ok? && len == |text| <= n && len < buffer.Length && buffer[..len] == text && buffer[len] == 0
            case Err(e) => r == Err(e)
  {
    Utf8IsEncoding();
    r, buffer, len := StrUdeescape(str, n, escape, Utf8);
    if r.Ok? { Utf8FitsGuess(escape, str[..n], 0); }
  }
}
