/**
 The strict JSON parser of the manifest (browser/src/manifest.ts, `StrictJsonParser`): an
 integer-only subset of JSON without duplicate keys. Text is a sequence of UTF-16 code units, as
 in the source language.
 */
module StrictJson {
  import opened Wrappers
  import opened Numbers
  import opened Sequences

  type Unit = x: int | 0 <= x < 0x1_0000
  type Text = seq<Unit>

  const QUOTE: Unit := 0x22
  const COMMA: Unit := 0x2C
  const MINUS: Unit := 0x2D
  const ZERO: Unit := 0x30
  const NINE: Unit := 0x39
  const COLON: Unit := 0x3A
  const OPEN_BRACKET: Unit := 0x5B
  const BACKSLASH: Unit := 0x5C
  const CLOSE_BRACKET: Unit := 0x5D
  const OPEN_BRACE: Unit := 0x7B
  const CLOSE_BRACE: Unit := 0x7D
  const TRUE_TEXT: Text := [0x74, 0x72, 0x75, 0x65]
  const FALSE_TEXT: Text := [0x66, 0x61, 0x6C, 0x73, 0x65]
  const NULL_TEXT: Text := [0x6E, 0x75, 0x6C, 0x6C]

  /** The key whose assignment sets the prototype of an object instead of an own property. */
  const PROTO: Text := [0x5F, 0x5F, 0x70, 0x72, 0x6F, 0x74, 0x6F, 0x5F, 0x5F]

  /** Parsed values. An object is the list of its own properties in the order they were assigned. */
  datatype Json =
    | Null
    | Bool(bit: bool)
    | Int(number: int)
    | NegativeZero
    | Str(text: Text)
    | Arr(elements: seq<Json>)
    | Obj(members: seq<Member>)

  datatype Member = Member(key: Text, value: Json)

  datatype Error =
    | TrailingInput | UnexpectedToken | NotPortable | KeyNotString | DuplicateKey
    | MissingColon | MissingComma | InvalidString | UnterminatedString

  /** A parsed value and the text that follows it. */
  datatype Parsed<+T> = Yes(value: T, rest: Text) | No(error: Error)

  // ---------- characters ----------

  /** The white space of the source language's `\s`. */
  predicate IsSpace(u: Unit)
  {
    || 0x09 <= u <= 0x0D || u == 0x20 || u == 0xA0 || u == 0x1680 || 0x2000 <= u <= 0x200A
    || u == 0x2028 || u == 0x2029 || u == 0x202F || u == 0x205F || u == 0x3000 || u == 0xFEFF
  }

  predicate IsDigit(u: Unit) { ZERO <= u <= NINE }

  predicate StartsWith(s: Text, u: Unit) { s != [] && s[0] == u }

  function SkipSpace(s: Text): (r: Text)
    ensures |r| <= |s|
    ensures r == [] || !IsSpace(r[0])
  {
    if s != [] && IsSpace(s[0]) then SkipSpace(s[1..]) else s
  }

  // ---------- numbers ----------

  function CountDigits(s: Text): (n: nat)
    ensures n <= |s|
    ensures forall i :: 0 <= i < n ==> IsDigit(s[i])
    ensures n < |s| ==> !IsDigit(s[n])
  {
    if s != [] && IsDigit(s[0]) then 1 + CountDigits(s[1..]) else 0
  }

  /** The length of the longest match of an optional minus and a decimal without leading zeros. */
  function MatchNumber(s: Text): (n: nat)
    ensures n <= |s|
  {
    var sign := if StartsWith(s, MINUS) then 1 else 0;
    if |s| == sign || !IsDigit(s[sign]) then 0
    else if s[sign] == ZERO then sign + 1
    else sign + CountDigits(s[sign..])
  }

  function DecimalValue(digits: Text): int
  {
    if digits == [] then 0
    else
      var n := |digits| - 1;
      10 * DecimalValue(digits[..n]) + (digits[n] - ZERO)
  }

  function NumberValue(s: Text): int
  {
    if StartsWith(s, MINUS) then -DecimalValue(s[1..]) else DecimalValue(s)
  }

  /** The number a token denotes; the source language tells the two zeros apart. */
  function NumberJson(t: Text): Json
  {
    if t == [MINUS, ZERO] then NegativeZero else Int(NumberValue(t))
  }

  // ---------- strings ----------

  /** The scan for the closing quote: the number of units before it, skipping escaped ones. */
  function ScanString(s: Text): (r: Option<nat>)
    ensures r.Some? ==> r.value < |s| && s[r.value] == QUOTE
  {
    if s == [] then None
    else if s[0] == QUOTE then Some(0)
    else
      var skip := if s[0] == BACKSLASH then 2 else 1;
      if skip > |s| then None
      else
        var rest := ScanString(s[skip..]);
        if rest.None? then None else Some(skip + rest.value)
  }

  function HexValue(u: Unit): Option<int>
  {
    if IsDigit(u) then Some(u - ZERO)
    else if 0x41 <= u <= 0x46 then Some(u - 0x41 + 10)
    else if 0x61 <= u <= 0x66 then Some(u - 0x61 + 10)
    else None
  }

  function SimpleEscape(u: Unit): Option<Unit>
  {
    if u == QUOTE || u == BACKSLASH || u == 0x2F then Some(u)
    else if u == 0x62 then Some(0x08)
    else if u == 0x66 then Some(0x0C)
    else if u == 0x6E then Some(0x0A)
    else if u == 0x72 then Some(0x0D)
    else if u == 0x74 then Some(0x09)
    else None
  }

  function HexUnit(s: Text): Option<Unit>
  {
    if |s| < 4 then None
    else
      var a, b, c, d := HexValue(s[0]), HexValue(s[1]), HexValue(s[2]), HexValue(s[3]);
      if a.None? || b.None? || c.None? || d.None? then None
      else
        var v := 4096 * a.value + 256 * b.value + 16 * c.value + d.value;
        if 0 <= v < 0x1_0000 then Some(v) else None
  }

  /** `JSON.parse` of a string literal, given what stands between its quotes. */
  function DecodeString(body: Text): (r: Option<Text>)
    decreases |body|
  {
    if body == [] then Some([])
    else if body[0] == BACKSLASH then
      if |body| < 2 then None
      else if SimpleEscape(body[1]).Some? then Prepend(SimpleEscape(body[1]).value, DecodeString(body[2..]))
      else if body[1] == 0x75 && HexUnit(body[2..]).Some? then Prepend(HexUnit(body[2..]).value, DecodeString(body[6..]))
      else None
    else if body[0] < 0x20 || body[0] == QUOTE then None
    else Prepend(body[0], DecodeString(body[1..]))
  }

  function Prepend(u: Unit, rest: Option<Text>): Option<Text>
  {
    if rest.None? then None else Some([u] + rest.value)
  }

  // ---------- the recursive descent ----------

  /** A string token; `s` starts at its opening quote. */
  function ParseString(s: Text): (r: Parsed<Text>)
    requires s != []
    ensures r.Yes? ==> |r.rest| < |s|
  {
    var scan := ScanString(s[1..]);
    if scan.None? then No(UnterminatedString)
    else
      var decoded := DecodeString(s[1..1 + scan.value]);
      if decoded.None? then No(InvalidString) else Yes(decoded.value, s[2 + scan.value..])
  }

  function ParseAtom(s: Text): (r: Parsed<Json>)
    ensures r.Yes? ==> |r.rest| < |s|
  {
    if TRUE_TEXT <= s then Yes(Bool(true), s[4..])
    else if FALSE_TEXT <= s then Yes(Bool(false), s[5..])
    else if NULL_TEXT <= s then Yes(Null, s[4..])
    else
      var n := MatchNumber(s);
      if n == 0 then No(UnexpectedToken)
      else
        var v := NumberValue(s[..n]);
        if -SAFE_INTEGER_MAX <= v <= SAFE_INTEGER_MAX then Yes(NumberJson(s[..n]), s[n..]) else No(NotPortable)
  }

  predicate IsOwn(m: Member) { m.key != PROTO }

  /** What assigning the entries one by one leaves on the object. */
  function Own(entries: seq<Member>): (r: seq<Member>)
    ensures |r| <= |entries|
  {
    Filter(entries, IsOwn)
  }

  predicate HasKey(members: seq<Member>, key: Text)
  {
    exists i :: 0 <= i < |members| && members[i].key == key
  }

  function ParseValue(text: Text): (r: Parsed<Json>)
    ensures r.Yes? ==> |r.rest| < |text|
    decreases |text|, 2
  {
    var s := SkipSpace(text);
    if StartsWith(s, OPEN_BRACE) then ParseObject(s)
    else if StartsWith(s, OPEN_BRACKET) then ParseArray(s)
    else if StartsWith(s, QUOTE) then
      var r := ParseString(s);
      if r.Yes? then Yes(Str(r.value), r.rest) else No(r.error)
    else ParseAtom(s)
  }

  function ParseObject(s: Text): (r: Parsed<Json>)
    requires s != []
    ensures r.Yes? ==> |r.rest| < |s|
    decreases |s|, 1
  {
    var t := SkipSpace(s[1..]);
    if StartsWith(t, CLOSE_BRACE) then Yes(Obj([]), t[1..]) else ParseMembers(t, [])
  }

  /** What follows an item: the closing token, or a comma. */
  function ParseSeparator(text: Text, close: Unit): (r: Parsed<bool>)
    ensures r.Yes? ==> |r.rest| < |text|
  {
    var s := SkipSpace(text);
    if StartsWith(s, close) then Yes(true, s[1..])
    else if !StartsWith(s, COMMA) then No(MissingComma)
    else Yes(false, s[1..])
  }

  /** One entry of an object, after those in `done`. */
  function ParseEntry(text: Text, done: seq<Member>): (r: Parsed<Member>)
    ensures r.Yes? ==> |r.rest| < |text|
    decreases |text|, 3
  {
    var s := SkipSpace(text);
    if !StartsWith(s, QUOTE) then No(KeyNotString)
    else
      var key := ParseString(s);
      if key.No? then No(key.error)
      else if HasKey(done, key.value) then No(DuplicateKey)
      else
        var t := SkipSpace(key.rest);
        if !StartsWith(t, COLON) then No(MissingColon)
        else
          var value := ParseValue(t[1..]);
          if value.No? then No(value.error) else Yes(Member(key.value, value.value), value.rest)
  }

  /** The entries of an object, after those in `done`, and its closing brace. */
  function ParseMembers(text: Text, done: seq<Member>): (r: Parsed<Json>)
    ensures r.Yes? ==> |r.rest| < |text|
    decreases |text|, 4
  {
    var entry := ParseEntry(text, done);
    if entry.No? then No(entry.error)
    else
      var members, next := done + [entry.value], ParseSeparator(entry.rest, CLOSE_BRACE);
      if next.No? then No(next.error)
      else if next.value then Yes(Obj(Own(members)), next.rest)
      else ParseMembers(next.rest, members)
  }

  function ParseArray(s: Text): (r: Parsed<Json>)
    requires s != []
    ensures r.Yes? ==> |r.rest| < |s|
    decreases |s|, 1
  {
    var t := SkipSpace(s[1..]);
    if StartsWith(t, CLOSE_BRACKET) then Yes(Arr([]), t[1..]) else ParseElements(t, [])
  }

  function ParseElements(text: Text, done: seq<Json>): (r: Parsed<Json>)
    ensures r.Yes? ==> |r.rest| < |text|
    decreases |text|, 3
  {
    var value := ParseValue(text);
    if value.No? then No(value.error)
    else
      var elements, next := done + [value.value], ParseSeparator(value.rest, CLOSE_BRACKET);
      if next.No? then No(next.error)
      else if next.value then Yes(Arr(elements), next.rest)
      else ParseElements(next.rest, elements)
  }

  function ParseDocument(text: Text): (r: Result<Json, Error>)
  {
    var value := ParseValue(text);
    if value.No? then Err(value.error)
    else if SkipSpace(value.rest) != [] then Err(TrailingInput)
    else Ok(value.value)
  }

  // ---------- the parser object ----------

  lemma SkipSpaceStep(s: Text)
    ensures SkipSpace(s) == if s != [] && IsSpace(s[0]) then SkipSpace(s[1..]) else s
  {
  }

  function Shifted(at: Option<nat>, offset: nat): Option<nat>
  {
    if at.None? then None else Some(offset + at.value)
  }

  lemma ScanStep(s: Text)
    ensures s == [] ==> ScanString(s) == None
    ensures s != [] && s[0] == QUOTE ==> ScanString(s) == Some(0)
    ensures s != [] && s[0] == BACKSLASH ==> ScanString(s) == if |s| < 2 then None else Shifted(ScanString(s[2..]), 2)
    ensures s != [] && s[0] != QUOTE && s[0] != BACKSLASH ==> ScanString(s) == Shifted(ScanString(s[1..]), 1)
  {
  }

  /** The scan from a position inside a text. */
  lemma ScanAt(source: Text, at: nat)
    requires at < |source|
    ensures source[at] == QUOTE ==> ScanString(source[at..]) == Some(0)
    ensures source[at] == BACKSLASH ==>
              ScanString(source[at..]) == if at + 2 > |source| then None else Shifted(ScanString(source[at + 2..]), 2)
    ensures source[at] != QUOTE && source[at] != BACKSLASH ==>
              ScanString(source[at..]) == Shifted(ScanString(source[at + 1..]), 1)
  {
    hide ScanString;
    ScanStep(source[at..]);
    assert source[at..][1..] == source[at + 1..];
    if at + 2 <= |source| { assert source[at..][2..] == source[at + 2..]; }
  }

  /** A string token, in terms of positions in the whole text. */
  lemma StringToken(source: Text, start: nat)
    requires start < |source|
    ensures var scan := ScanString(source[start + 1..]);
            ParseString(source[start..]) ==
              if scan.None? then No(UnterminatedString)
              else
                var end := start + 1 + scan.value;
                var decoded := DecodeString(source[start + 1..end]);
                if decoded.None? then No(InvalidString) else Yes(decoded.value, source[end + 1..])
  {
    hide ScanString, DecodeString;
    var s := source[start..];
    assert s[1..] == source[start + 1..];
    var scan := ScanString(s[1..]);
    if scan.Some? {
      assert s[1..1 + scan.value] == source[start + 1..start + 1 + scan.value];
      assert s[2 + scan.value..] == source[start + 2 + scan.value..];
    }
  }

  /** The object's result `r` at `position` is the functional result `p`. */
  ghost predicate Agrees<T>(r: Result<T, Error>, source: Text, position: nat, p: Parsed<T>)
  {
    match p
    case Yes(v, rest) => r == Ok(v) && position <= |source| && source[position..] == rest
    case No(e) => r == Err(e)
  }

  lemma MembersStep(text: Text, done: seq<Member>)
    ensures var entry := ParseEntry(text, done);
            ParseMembers(text, done) ==
              if entry.No? then No(entry.error)
              else
                var members, next := done + [entry.value], ParseSeparator(entry.rest, CLOSE_BRACE);
                if next.No? then No(next.error)
                else if next.value then Yes(Obj(Own(members)), next.rest)
                else ParseMembers(next.rest, members)
  {
    hide ParseEntry, ParseSeparator, Own;
  }

  /** An entry, with the texts between its parts. */
  lemma EntryStep(text: Text, done: seq<Member>)
    ensures var s := SkipSpace(text);
            if !StartsWith(s, QUOTE) then ParseEntry(text, done) == No(KeyNotString)
            else
              var key := ParseString(s);
              if key.No? then ParseEntry(text, done) == No(key.error)
              else if HasKey(done, key.value) then ParseEntry(text, done) == No(DuplicateKey)
              else
                var t := SkipSpace(key.rest);
                if !StartsWith(t, COLON) then ParseEntry(text, done) == No(MissingColon)
                else
                  var value := ParseValue(t[1..]);
                  ParseEntry(text, done) == if value.No? then No(value.error) else Yes(Member(key.value, value.value), value.rest)
  {
    hide SkipSpace, ParseString, ParseValue, HasKey;
  }

  lemma ElementsStep(text: Text, done: seq<Json>)
    ensures var value := ParseValue(text);
            ParseElements(text, done) ==
              if value.No? then No(value.error)
              else
                var elements, next := done + [value.value], ParseSeparator(value.rest, CLOSE_BRACKET);
                if next.No? then No(next.error)
                else if next.value then Yes(Arr(elements), next.rest)
                else ParseElements(next.rest, elements)
  {
    hide ParseValue, ParseSeparator;
  }

  class StrictJsonParser {
    const source: Text
    var position: nat

    ghost predicate Valid()
      reads this
    {
      position <= |source|
    }

    ghost function Remaining(): Text
      requires Valid()
      reads this
    {
      source[position..]
    }

    constructor (source: Text)
      ensures this.source == source && position == 0 && Valid()
    {
      this.source := source;
      position := 0;
    }

    method Parse() returns (r: Result<Json, Error>)
      requires Valid()
      modifies this
      ensures r == ParseDocument(old(Remaining()))
    {
      r := Value();
      if r.Err? { return; }
      Space();
      if position != |source| { return Err(TrailingInput); }
    }

    method Space()
      requires Valid()
      modifies this
      ensures Valid() && Remaining() == SkipSpace(old(Remaining()))
    {
      hide SkipSpace, IsSpace;
      while position < |source| && IsSpace(source[position])
        invariant Valid() && SkipSpace(Remaining()) == SkipSpace(old(Remaining()))
        decreases |source| - position
      {
        SkipSpaceStep(Remaining());
        assert Remaining()[1..] == source[position + 1..];
        position := position + 1;
      }
      SkipSpaceStep(Remaining());
    }

    method Consume(token: Unit) returns (taken: bool)
      requires Valid()
      modifies this
      ensures Valid() && taken == StartsWith(old(Remaining()), token)
      ensures Remaining() == if taken then old(Remaining())[1..] else old(Remaining())
    {
      if position >= |source| || source[position] != token { return false; }
      assert Remaining()[1..] == source[position + 1..];
      position := position + 1;
      return true;
    }

    method String() returns (r: Result<Text, Error>)
      requires Valid() && position < |source|
      modifies this
      ensures Agrees(r, source, position, ParseString(old(Remaining())))
    {
      hide ScanString, DecodeString, ParseString;
      var start := position;
      position := position + 1;
      ghost var whole := ScanString(source[position..]);
      StringToken(source, start);
      while position < |source|
        invariant start < position
        invariant position > |source| ==> whole == None
        invariant position <= |source| ==> whole == Shifted(ScanString(source[position..]), position - start - 1)
        decreases |source| - position
      {
        ScanAt(source, position);
        var token := source[position];
        if token == QUOTE {
          position := position + 1;
          var decoded := DecodeString(source[start + 1..position - 1]);
          return if decoded.Some? then Ok(decoded.value) else Err(InvalidString);
        }
        if token == BACKSLASH { position := position + 1; }
        position := position + 1;
      }
      if position == |source| { ScanStep(source[position..]); }
      return Err(UnterminatedString);
    }

    method Atom() returns (r: Result<Json, Error>)
      requires Valid()
      modifies this
      ensures Agrees(r, source, position, ParseAtom(old(Remaining())))
    {
      var s := source[position..];
      if TRUE_TEXT <= s {
        position := position + 4;
        return Ok(Bool(true));
      }
      if FALSE_TEXT <= s {
        position := position + 5;
        return Ok(Bool(false));
      }
      if NULL_TEXT <= s {
        position := position + 4;
        return Ok(Null);
      }
      var n := MatchNumber(s);
      if n == 0 { return Err(UnexpectedToken); }
      position := position + n;
      var v := NumberValue(s[..n]);
      if v < -SAFE_INTEGER_MAX || v > SAFE_INTEGER_MAX { return Err(NotPortable); }
      return Ok(NumberJson(s[..n]));
    }

    method Value() returns (r: Result<Json, Error>)
      requires Valid()
      modifies this
      ensures Agrees(r, source, position, ParseValue(old(Remaining())))
      ensures r.Ok? ==> position > old(position)
      decreases |source| - position, 2
    {
      hide SkipSpace, ParseString, ParseObject, ParseArray, ParseAtom;
      Space();
      if position < |source| && source[position] == OPEN_BRACE {
        r := Object();
      } else if position < |source| && source[position] == OPEN_BRACKET {
        r := Array();
      } else if position < |source| && source[position] == QUOTE {
        var text := String();
        r := if text.Ok? then Ok(Str(text.value)) else Err(text.error);
      } else {
        r := Atom();
      }
    }

    method Object() returns (r: Result<Json, Error>)
      requires Valid() && position < |source|
      modifies this
      ensures Agrees(r, source, position, ParseObject(old(Remaining())))
      ensures r.Ok? ==> position > old(position)
      decreases |source| - position, 1
    {
      hide SkipSpace, ParseMembers, ParseEntry, ParseSeparator, Own;
      assert Remaining()[1..] == source[position + 1..];
      position := position + 1;
      Space();
      var empty := Consume(CLOSE_BRACE);
      if empty { return Ok(Obj([])); }
      var members: seq<Member> := [];
      ghost var whole := ParseMembers(Remaining(), []);
      while true
        invariant Valid() && position > old(position)
        invariant ParseMembers(Remaining(), members) == whole
        decreases |source| - position
      {
        MembersStep(Remaining(), members);
        var entry := Entry(members);
        if entry.Err? { return Err(entry.error); }
        members := members + [entry.value];
        var closed := Separator(CLOSE_BRACE);
        if closed.Err? { return Err(closed.error); }
        if closed.value { return Ok(Obj(Own(members))); }
      }
    }

    method Separator(close: Unit) returns (r: Result<bool, Error>)
      requires Valid()
      modifies this
      ensures Agrees(r, source, position, ParseSeparator(old(Remaining()), close))
      ensures r.Ok? ==> position > old(position)
    {
      hide SkipSpace;
      Space();
      var closed := Consume(close);
      if closed { return Ok(true); }
      var comma := Consume(COMMA);
      if !comma { return Err(MissingComma); }
      return Ok(false);
    }

    method Entry(members: seq<Member>) returns (r: Result<Member, Error>)
      requires Valid()
      modifies this
      ensures Agrees(r, source, position, ParseEntry(old(Remaining()), members))
      ensures r.Ok? ==> position > old(position)
      decreases |source| - position, 3
    {
      hide SkipSpace, ParseString, ParseValue, HasKey, ParseEntry, IsSpace;
      EntryStep(Remaining(), members);
      Space();
      if position >= |source| || source[position] != QUOTE { return Err(KeyNotString); }
      var key := String();
      if key.Err? { return Err(key.error); }
      if HasKey(members, key.value) { return Err(DuplicateKey); }
      Space();
      var colon := Consume(COLON);
      if !colon { return Err(MissingColon); }
      var value := Value();
      if value.Err? { return Err(value.error); }
      return Ok(Member(key.value, value.value));
    }

    method Array() returns (r: Result<Json, Error>)
      requires Valid() && position < |source|
      modifies this
      ensures Agrees(r, source, position, ParseArray(old(Remaining())))
      ensures r.Ok? ==> position > old(position)
      decreases |source| - position, 1
    {
      hide SkipSpace, ParseElements, ParseValue, ParseSeparator;
      assert Remaining()[1..] == source[position + 1..];
      position := position + 1;
      Space();
      var empty := Consume(CLOSE_BRACKET);
      if empty { return Ok(Arr([])); }
      var elements: seq<Json> := [];
      ghost var whole := ParseElements(Remaining(), []);
      while true
        invariant Valid() && position > old(position)
        invariant ParseElements(Remaining(), elements) == whole
        decreases |source| - position
      {
        ElementsStep(Remaining(), elements);
        var value := Value();
        if value.Err? { return Err(value.error); }
        elements := elements + [value.value];
        var closed := Separator(CLOSE_BRACKET);
        if closed.Err? { return Err(closed.error); }
        if closed.value { return Ok(Arr(elements)); }
      }
    }
  }
}
