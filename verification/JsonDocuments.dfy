/**
 Documents of the strict JSON subset with their layout: every choice of white space, of string
 escapes and of number spelling. The parser accepts exactly the renderings of these documents whose
 objects have no duplicate keys (browser/src/manifest.ts, `StrictJsonParser`).
 */
module JsonDocuments {
  import opened Wrappers
  import opened Numbers
  import opened StrictJson

  datatype Doc =
    | DNull
    | DBool(bit: bool)
    | DNumber(token: Text)
    | DString(body: Text)                          // what stands between the quotes
    | DArray(inner: Text, items: seq<Item>)        // `inner` is the space of an empty array
    | DObject(inner: Text, fields: seq<Field>)

  /** A value between white space. */
  datatype Item = Item(before: Text, doc: Doc, after: Text)

  /** An object entry: space, a key literal, space, a colon and a value. */
  datatype Field = Field(before: Text, key: Text, beforeColon: Text, item: Item)

  // ---------- rendering ----------

  function Render(doc: Doc): Text
    decreases doc, 0
  {
    match doc
    case DNull => NULL_TEXT
    case DBool(bit) => if bit then TRUE_TEXT else FALSE_TEXT
    case DNumber(token) => token
    case DString(body) => Quoted(body)
    case DArray(inner, items) => [OPEN_BRACKET] + if items == [] then inner + [CLOSE_BRACKET] else RenderItems(items)
    case DObject(inner, fields) => [OPEN_BRACE] + if fields == [] then inner + [CLOSE_BRACE] else RenderFields(fields)
  }

  function Quoted(body: Text): Text { [QUOTE] + body + [QUOTE] }

  function RenderItem(item: Item): Text
    decreases item, 1
  {
    item.before + Render(item.doc) + item.after
  }

  /** The items, separated by commas, and the closing bracket. */
  function RenderItems(items: seq<Item>): Text
    requires items != []
    decreases items, 0
  {
    RenderItem(items[0]) + if |items| == 1 then [CLOSE_BRACKET] else [COMMA] + RenderItems(items[1..])
  }

  function RenderField(f: Field): Text
    decreases f, 2
  {
    f.before + Quoted(f.key) + f.beforeColon + [COLON] + RenderItem(f.item)
  }

  function RenderFields(fields: seq<Field>): Text
    requires fields != []
    decreases fields, 0
  {
    RenderField(fields[0]) + if |fields| == 1 then [CLOSE_BRACE] else [COMMA] + RenderFields(fields[1..])
  }

  // ---------- well-formed documents and their values ----------

  ghost predicate AllSpace(s: Text)
  {
    forall i :: 0 <= i < |s| ==> IsSpace(s[i])
  }

  ghost predicate DecimalToken(t: Text)
  {
    && t != [] && (forall i :: 0 <= i < |t| ==> 0x30 <= t[i] <= 0x39)
    && (|t| > 1 ==> t[0] != 0x30)
  }

  /** An optional minus and a decimal without leading zeros, of a portable value. */
  ghost predicate NumberToken(t: Text)
  {
    && (if t != [] && t[0] == 0x2D then DecimalToken(t[1..]) else DecimalToken(t))
    && -SAFE_INTEGER_MAX <= NumberValue(t) <= SAFE_INTEGER_MAX
  }

  ghost predicate WellFormed(doc: Doc)
    decreases doc, 0
  {
    match doc
    case DNull => true
    case DBool(_) => true
    case DNumber(token) => NumberToken(token)
    case DString(body) => DecodeString(body).Some?
    case DArray(inner, items) => (items == [] ==> AllSpace(inner)) && ItemsWellFormed(items)
    case DObject(inner, fields) => (fields == [] ==> AllSpace(inner)) && FieldsWellFormed(fields)
  }

  ghost predicate ItemWellFormed(item: Item)
    decreases item, 1
  {
    AllSpace(item.before) && WellFormed(item.doc) && AllSpace(item.after)
  }

  ghost predicate ItemsWellFormed(items: seq<Item>)
    decreases items, 0
  {
    items == [] || (ItemWellFormed(items[0]) && ItemsWellFormed(items[1..]))
  }

  ghost predicate FieldWellFormed(f: Field)
    decreases f, 2
  {
    AllSpace(f.before) && DecodeString(f.key).Some? && AllSpace(f.beforeColon) && ItemWellFormed(f.item)
  }

  ghost predicate FieldsWellFormed(fields: seq<Field>)
    decreases fields, 0
  {
    fields == [] || (FieldWellFormed(fields[0]) && FieldsWellFormed(fields[1..]))
  }

  function TextOf(body: Text): Text
  {
    var decoded := DecodeString(body);
    if decoded.Some? then decoded.value else []
  }

  /** The value a document denotes. */
  function ValueOf(doc: Doc): Json
    decreases doc, 0
  {
    match doc
    case DNull => Null
    case DBool(bit) => Bool(bit)
    case DNumber(token) => NumberJson(token)
    case DString(body) => Str(TextOf(body))
    case DArray(_, items) => Arr(ItemValues(items))
    case DObject(_, fields) => Obj(Own(FieldMembers(fields)))
  }

  function ItemValues(items: seq<Item>): (r: seq<Json>)
    decreases items, 0
  {
    if items == [] then [] else [ValueOf(items[0].doc)] + ItemValues(items[1..])
  }

  function FieldMembers(fields: seq<Field>): (r: seq<Member>)
    decreases fields, 0
  {
    if fields == [] then [] else [MemberOf(fields[0])] + FieldMembers(fields[1..])
  }

  function MemberOf(f: Field): Member
    decreases f, 1
  {
    Member(TextOf(f.key), ValueOf(f.item.doc))
  }

  /** No object at any depth repeats a key. */
  ghost predicate UniqueKeys(doc: Doc)
    decreases doc, 0
  {
    match doc
    case DArray(_, items) => ItemsUnique(items)
    case DObject(_, fields) => DistinctKeys(fields) && FieldsUnique(fields)
    case _ => true
  }

  ghost predicate ItemsUnique(items: seq<Item>)
    decreases items, 0
  {
    items == [] || (UniqueKeys(items[0].doc) && ItemsUnique(items[1..]))
  }

  ghost predicate FieldsUnique(fields: seq<Field>)
    decreases fields, 0
  {
    fields == [] || (UniqueKeys(fields[0].item.doc) && FieldsUnique(fields[1..]))
  }

  ghost predicate DistinctKeys(fields: seq<Field>)
  {
    forall i, j :: 0 <= i < j < |fields| ==> TextOf(fields[i].key) != TextOf(fields[j].key)
  }

  // ---------- tokens in context ----------

  ghost predicate Follow(rest: Text)
  {
    rest == [] || !IsDigit(rest[0])
  }

  lemma {:induction false} SkipSpaces(space: Text, rest: Text)
    requires AllSpace(space)
    ensures SkipSpace(space + rest) == SkipSpace(rest)
  {
    if space == [] {
      assert space + rest == rest;
    } else {
      assert (space + rest)[1..] == space[1..] + rest;
      SkipSpaces(space[1..], rest);
    }
  }

  lemma SkipNothing(rest: Text)
    requires rest == [] || !IsSpace(rest[0])
    ensures SkipSpace(rest) == rest
  {
  }

  lemma {:induction false} CountDigitsInContext(t: Text, rest: Text)
    requires (forall i :: 0 <= i < |t| ==> IsDigit(t[i])) && Follow(rest)
    ensures CountDigits(t + rest) == |t|
  {
    if t == [] {
      assert t + rest == rest;
    } else {
      assert (t + rest)[1..] == t[1..] + rest;
      CountDigitsInContext(t[1..], rest);
    }
  }

  lemma NumberInContext(t: Text, rest: Text)
    requires NumberToken(t) && Follow(rest)
    ensures MatchNumber(t + rest) == |t| > 0
    ensures t[0] == MINUS || IsDigit(t[0])
  {
    hide NumberValue, CountDigits;
    if StartsWith(t, MINUS) {
      assert (t + rest)[1..] == t[1..] + rest;
      assert (t + rest)[1] == t[1..][0];
      CountDigitsInContext(t[1..], rest);
    } else {
      assert (t + rest)[0..] == t + rest;
      CountDigitsInContext(t, rest);
    }
  }

  /** A decodable literal is scanned to its own closing quote. */
  lemma {:induction false} ScanInContext(body: Text, tail: Text)
    requires DecodeString(body).Some? && StartsWith(tail, QUOTE)
    ensures ScanString(body + tail) == Some(|body|)
    decreases |body|, 1
  {
    hide ScanString, SimpleEscape, HexUnit;
    var s := body + tail;
    ScanStep(s);
    if body == [] {
      assert s == tail;
    } else if body[0] == BACKSLASH && SimpleEscape(body[1]).Some? {
      assert s[2..] == body[2..] + tail;
      ScanInContext(body[2..], tail);
    } else if body[0] == BACKSLASH {
      HexBodyScans(body, tail);
    } else {
      assert s[1..] == body[1..] + tail;
      ScanInContext(body[1..], tail);
    }
  }

  lemma HexDigitsArePlain(s: Text)
    requires HexUnit(s).Some?
    ensures |s| >= 4 && forall i :: 0 <= i < 4 ==> s[i] != QUOTE && s[i] != BACKSLASH
  {
  }

  lemma HexBodyScans(body: Text, tail: Text)
    requires |body| >= 2 && body[0] == BACKSLASH && SimpleEscape(body[1]).None?
    requires DecodeString(body).Some? && StartsWith(tail, QUOTE)
    ensures ScanString(body + tail) == Some(|body|)
    decreases |body|, 0
  {
    hide ScanString, SimpleEscape, HexUnit;
    HexDigitsArePlain(body[2..]);
    ScanInContext(body[6..], tail);
    PlainUnitsScan(body + tail);
    assert (body + tail)[6..] == body[6..] + tail;
    assert forall i :: 2 <= i < 6 ==> (body + tail)[i] == body[2..][i - 2];
  }

  lemma PlainUnitsScan(s: Text)
    requires |s| >= 6 && s[0] == BACKSLASH
    ensures (forall i :: 2 <= i < 6 ==> s[i] != QUOTE && s[i] != BACKSLASH) ==>
            ScanString(s) == Shifted(ScanString(s[6..]), 6)
  {
    hide ScanString;
    ScanStep(s);
    assert s[2..][1..] == s[3..] && s[3..][1..] == s[4..] && s[4..][1..] == s[5..] && s[5..][1..] == s[6..];
    ScanStep(s[2..]);
    ScanStep(s[3..]);
    ScanStep(s[4..]);
    ScanStep(s[5..]);
  }

  lemma StringInContext(body: Text, rest: Text)
    requires DecodeString(body).Some?
    ensures Quoted(body) + rest != []
    ensures ParseString(Quoted(body) + rest) == Yes(TextOf(body), rest)
  {
    hide ScanString, DecodeString;
    ScanInContext(body, [QUOTE] + rest);
    var s := Quoted(body) + rest;
    assert s[1..] == body + ([QUOTE] + rest);
    assert s[1..1 + |body|] == body;
    assert s[2 + |body|..] == rest;
  }

  lemma SeparatorInContext(after: Text, u: Unit, close: Unit, rest: Text)
    requires AllSpace(after) && (u == close || u == COMMA) && !IsSpace(u) && close != COMMA
    ensures ParseSeparator(after + ([u] + rest), close) == Yes(u == close, rest)
  {
    SkipSpaces(after, [u] + rest);
    SkipNothing([u] + rest);
    assert ([u] + rest)[1..] == rest;
  }

  /** The first unit of a value: not a space, and no delimiter that could follow it. */
  lemma FirstUnit(doc: Doc)
    requires WellFormed(doc)
    ensures Render(doc) != []
    ensures var u := Render(doc)[0]; !IsSpace(u) && u != CLOSE_BRACKET && u != CLOSE_BRACE && u != COMMA
  {
    hide RenderItems, RenderFields, NumberValue;
  }

  // ---------- every rendering parses to its value ----------

  ghost function Expected(doc: Doc, rest: Text): Parsed<Json>
  {
    if UniqueKeys(doc) then Yes(ValueOf(doc), rest) else No(DuplicateKey)
  }

  lemma LiteralParses(doc: Doc, rest: Text)
    requires doc.DNull? || doc.DBool?
    ensures ParseValue(Render(doc) + rest) == Expected(doc, rest)
  {
    hide ParseValue, MatchNumber, NumberJson;
    var s := Render(doc) + rest;
    assert s[0] == Render(doc)[0];
    AtomDispatch(s);
    assert Render(doc) <= s && s[|Render(doc)|..] == rest;
  }

  lemma NumberParses(token: Text, rest: Text)
    requires NumberToken(token) && Follow(rest)
    ensures ParseValue(token + rest) == Yes(NumberJson(token), rest)
  {
    hide SkipSpace, MatchNumber, NumberValue, ParseValue, ParseAtom;
    NumberInContext(token, rest);
    var s := token + rest;
    assert s[0] == token[0];
    assert s[..|token|] == token && s[|token|..] == rest;
    AtomDispatch(s);
    NumberAtom(s, |token|);
  }

  lemma AtomDispatch(s: Text)
    requires s != [] && !IsSpace(s[0]) && s[0] != OPEN_BRACE && s[0] != OPEN_BRACKET && s[0] != QUOTE
    ensures ParseValue(s) == ParseAtom(s)
  {
    hide SkipSpace, ParseAtom, ParseObject, ParseArray, ParseString;
    SkipNothing(s);
  }

  lemma NumberAtom(s: Text, n: nat)
    requires 0 < n <= |s| && (s[0] == MINUS || IsDigit(s[0])) && MatchNumber(s) == n
    requires -SAFE_INTEGER_MAX <= NumberValue(s[..n]) <= SAFE_INTEGER_MAX
    ensures ParseAtom(s) == Yes(NumberJson(s[..n]), s[n..])
  {
    hide MatchNumber, NumberValue;
    assert TRUE_TEXT[0] != s[0] && FALSE_TEXT[0] != s[0] && NULL_TEXT[0] != s[0];
  }

  lemma StringParses(body: Text, rest: Text)
    requires DecodeString(body).Some?
    ensures ParseValue(Quoted(body) + rest) == Yes(Str(TextOf(body)), rest)
  {
    hide SkipSpace, DecodeString, ParseString, TextOf;
    var s := Quoted(body) + rest;
    StringInContext(body, rest);
    assert s[0] == QUOTE;
    SkipNothing(s);
  }

  /** White space in front of a value is skipped. */
  lemma ParseSkips(space: Text, text: Text, done: seq<Json>, members: seq<Member>)
    requires AllSpace(space)
    ensures ParseValue(space + text) == ParseValue(text)
    ensures ParseElements(space + text, done) == ParseElements(text, done)
    ensures ParseMembers(space + text, members) == ParseMembers(text, members)
  {
    SameAfterSpace(space + text, text, done, members) by { SkipSpaces(space, text); }
  }

  lemma SameAfterSpace(a: Text, b: Text, done: seq<Json>, members: seq<Member>)
    requires SkipSpace(a) == SkipSpace(b)
    ensures ParseValue(a) == ParseValue(b)
    ensures ParseElements(a, done) == ParseElements(b, done)
    ensures ParseMembers(a, members) == ParseMembers(b, members)
  {
    hide SkipSpace, ParseObject, ParseArray, ParseString, ParseAtom, ParseSeparator;
    assert ParseEntry(a, members) == ParseEntry(b, members);
    MembersStep(a, members);
    MembersStep(b, members);
    ElementsStep(a, done);
    ElementsStep(b, done);
  }

  lemma {:induction false} RoundTrip(doc: Doc, rest: Text)
    requires WellFormed(doc) && Follow(rest)
    ensures ParseValue(Render(doc) + rest) == Expected(doc, rest)
    decreases doc, 0
  {
    hide ParseValue, NumberToken, DecodeString, TextOf, NumberJson, Quoted;
    match doc {
      case DNull => LiteralParses(doc, rest);
      case DBool(_) => LiteralParses(doc, rest);
      case DNumber(token) => NumberParses(token, rest);
      case DString(body) => StringParses(body, rest);
      case DArray(inner, items) =>
        if items == [] {
          EmptyArrayParses(inner, rest);
          assert doc == DArray(inner, []) && ItemValues(items) == [];
          assert ItemsUnique(items);
        } else {
          RoundTripItems(items, [], rest);
          ArrayParses(inner, items, rest);
          assert [] + ItemValues(items) == ItemValues(items);
        }
      case DObject(inner, fields) =>
        if fields == [] {
          EmptyObjectParses(inner, rest);
          assert doc == DObject(inner, []) && FieldMembers(fields) == [] && Own([]) == [];
          assert FieldsUnique(fields) && DistinctKeys(fields);
        } else {
          RoundTripFields(fields, [], rest);
          ObjectParses(inner, fields, rest);
          UniqueFromStart(fields);
          assert [] + FieldMembers(fields) == FieldMembers(fields);
        }
    }
  }

  lemma ArrayDispatch(body: Text)
    ensures var t := SkipSpace(body);
            ParseValue([OPEN_BRACKET] + body) ==
              if StartsWith(t, CLOSE_BRACKET) then Yes(Arr([]), t[1..]) else ParseElements(t, [])
  {
    hide SkipSpace, ParseElements, ParseObject, ParseAtom, ParseString;
    var s := [OPEN_BRACKET] + body;
    SkipNothing(s);
    assert s[1..] == body;
  }

  lemma ObjectDispatch(body: Text)
    ensures var t := SkipSpace(body);
            ParseValue([OPEN_BRACE] + body) ==
              if StartsWith(t, CLOSE_BRACE) then Yes(Obj([]), t[1..]) else ParseMembers(t, [])
  {
    hide SkipSpace, ParseMembers, ParseArray, ParseAtom, ParseString;
    var s := [OPEN_BRACE] + body;
    SkipNothing(s);
    assert s[1..] == body;
  }

  lemma CloseInContext(inner: Text, close: Unit, rest: Text)
    requires AllSpace(inner) && !IsSpace(close)
    ensures SkipSpace(inner + ([close] + rest)) == [close] + rest && ([close] + rest)[1..] == rest
  {
    SkipSpaces(inner, [close] + rest);
    SkipNothing([close] + rest);
  }

  lemma EmptyArrayParses(inner: Text, rest: Text)
    requires AllSpace(inner)
    ensures ParseValue(Render(DArray(inner, [])) + rest) == Yes(Arr([]), rest)
  {
    hide SkipSpace, ParseElements, ParseValue;
    var body := inner + ([CLOSE_BRACKET] + rest);
    assert Render(DArray(inner, [])) + rest == [OPEN_BRACKET] + body;
    ArrayDispatch(body);
    CloseInContext(inner, CLOSE_BRACKET, rest);
  }

  lemma EmptyObjectParses(inner: Text, rest: Text)
    requires AllSpace(inner)
    ensures ParseValue(Render(DObject(inner, [])) + rest) == Yes(Obj([]), rest)
  {
    hide SkipSpace, ParseMembers, ParseValue;
    var body := inner + ([CLOSE_BRACE] + rest);
    assert Render(DObject(inner, [])) + rest == [OPEN_BRACE] + body;
    ObjectDispatch(body);
    CloseInContext(inner, CLOSE_BRACE, rest);
  }

  /** An array of items is parsed by the element loop from its first item on. */
  lemma ArrayParses(inner: Text, items: seq<Item>, rest: Text)
    requires items != [] && ItemsWellFormed(items)
    ensures ParseValue(Render(DArray(inner, items)) + rest) == ParseElements(RenderItems(items) + rest, [])
  {
    hide SkipSpace, ParseElements, ParseValue, RenderItems, ItemsWellFormed;
    var body := RenderItems(items) + rest;
    assert Render(DArray(inner, items)) + rest == [OPEN_BRACKET] + body;
    ItemsStart(items, rest);
    ArrayDispatch(body);
    SkipIdempotent(body);
    SameAfterSpace(body, SkipSpace(body), [], []);
  }

  lemma SkipIdempotent(s: Text)
    ensures SkipSpace(SkipSpace(s)) == SkipSpace(s)
  {
    SkipNothing(SkipSpace(s));
  }

  lemma ItemsStart(items: seq<Item>, rest: Text)
    requires items != [] && ItemsWellFormed(items)
    ensures !StartsWith(SkipSpace(RenderItems(items) + rest), CLOSE_BRACKET)
  {
    var item := items[0];
    FirstUnit(item.doc);
    hide SkipSpace, Render, WellFormed;
    var tail := if |items| == 1 then [CLOSE_BRACKET] else [COMMA] + RenderItems(items[1..]);
    var text := Render(item.doc) + item.after + tail + rest;
    assert RenderItems(items) + rest == item.before + text;
    SkipSpaces(item.before, text);
    assert text[0] == Render(item.doc)[0];
    SkipNothing(text);
  }

  lemma ObjectParses(inner: Text, fields: seq<Field>, rest: Text)
    requires fields != [] && FieldsWellFormed(fields)
    ensures ParseValue(Render(DObject(inner, fields)) + rest) == ParseMembers(RenderFields(fields) + rest, [])
  {
    hide SkipSpace, ParseMembers, ParseValue, RenderFields, FieldsWellFormed;
    var body := RenderFields(fields) + rest;
    assert Render(DObject(inner, fields)) + rest == [OPEN_BRACE] + body;
    FieldsStart(fields, rest);
    ObjectDispatch(body);
    SkipIdempotent(body);
    SameAfterSpace(body, SkipSpace(body), [], []);
  }

  lemma FieldsStart(fields: seq<Field>, rest: Text)
    requires fields != [] && FieldsWellFormed(fields)
    ensures !StartsWith(SkipSpace(RenderFields(fields) + rest), CLOSE_BRACE)
  {
    hide SkipSpace, Render, WellFormed, RenderItem;
    var f := fields[0];
    var tail := if |fields| == 1 then [CLOSE_BRACE] else [COMMA] + RenderFields(fields[1..]);
    var text := Quoted(f.key) + f.beforeColon + [COLON] + RenderItem(f.item) + tail + rest;
    assert RenderFields(fields) + rest == f.before + text;
    SkipSpaces(f.before, text);
    assert text[0] == QUOTE;
    SkipNothing(text);
  }

  /** An item in front of a delimiter: its value, then the delimiter. */
  lemma {:induction false} ItemInContext(item: Item, u: Unit, close: Unit, rest: Text)
    requires ItemWellFormed(item) && (u == close || u == COMMA) && (close == CLOSE_BRACKET || close == CLOSE_BRACE)
    ensures ParseValue(RenderItem(item) + ([u] + rest)) == Expected(item.doc, item.after + ([u] + rest))
    ensures ParseSeparator(item.after + ([u] + rest), close) == Yes(u == close, rest)
    decreases item, 1
  {
    hide ParseValue, ParseSeparator, Render, WellFormed, Expected;
    var tail := item.after + ([u] + rest);
    assert Follow(tail) by {
      assert tail[0] == if item.after == [] then u else item.after[0];
      assert item.after != [] ==> IsSpace(item.after[0]);
    }
    RoundTrip(item.doc, tail);
    assert RenderItem(item) + ([u] + rest) == item.before + (Render(item.doc) + tail);
    ParseSkips(item.before, Render(item.doc) + tail, [], []);
    SeparatorInContext(item.after, u, close, rest);
  }

  lemma {:induction false} RoundTripItems(items: seq<Item>, done: seq<Json>, rest: Text)
    requires items != [] && ItemsWellFormed(items)
    ensures ParseElements(RenderItems(items) + rest, done) ==
            if ItemsUnique(items) then Yes(Arr(done + ItemValues(items)), rest) else No(DuplicateKey)
    decreases items, 0
  {
    hide ParseValue, ParseSeparator, ParseElements, RenderItem, WellFormed, UniqueKeys, ValueOf;
    var item := items[0];
    var text := RenderItems(items) + rest;
    var elements := done + [ValueOf(item.doc)];
    ElementsStep(text, done);
    if |items| == 1 {
      ItemInContext(item, CLOSE_BRACKET, CLOSE_BRACKET, rest);
      assert text == RenderItem(item) + ([CLOSE_BRACKET] + rest);
      assert items[1..] == [];
      assert [ValueOf(item.doc)] + ItemValues(items[1..]) == [ValueOf(item.doc)];
    } else {
      var more := RenderItems(items[1..]) + rest;
      ItemInContext(item, COMMA, CLOSE_BRACKET, more);
      assert text == RenderItem(item) + ([COMMA] + more);
      RoundTripItems(items[1..], elements, rest);
      assert elements + ItemValues(items[1..]) == done + ItemValues(items);
    }
  }

  /** The keys of the remaining fields are new, pairwise distinct, and their values have unique keys. */
  ghost predicate FieldsFresh(fields: seq<Field>, done: seq<Member>)
    decreases fields
  {
    fields == [] ||
    (&& !HasKey(done, TextOf(fields[0].key))
     && UniqueKeys(fields[0].item.doc)
     && FieldsFresh(fields[1..], done + [MemberOf(fields[0])]))
  }

  lemma {:induction false} FreshIsUnique(fields: seq<Field>, done: seq<Member>)
    ensures FieldsFresh(fields, done) <==>
            (&& FieldsUnique(fields) && DistinctKeys(fields)
             && forall i :: 0 <= i < |fields| ==> !HasKey(done, TextOf(fields[i].key)))
    decreases fields
  {
    hide UniqueKeys, HasKey, TextOf, ValueOf;
    if fields != [] {
      var rest, more := fields[1..], done + [MemberOf(fields[0])];
      FreshIsUnique(rest, more);
      forall i | 0 <= i < |rest|
        ensures HasKey(more, TextOf(rest[i].key)) <==> HasKey(done, TextOf(fields[i + 1].key)) || TextOf(fields[0].key) == TextOf(fields[i + 1].key)
      {
        HasKeySnoc(done, MemberOf(fields[0]), TextOf(rest[i].key));
      }
      DistinctHead(fields);
      assert forall i :: 0 < i < |fields| ==> fields[i] == rest[i - 1];
    }
  }

  lemma HasKeySnoc(done: seq<Member>, m: Member, key: Text)
    ensures HasKey(done + [m], key) <==> HasKey(done, key) || m.key == key
  {
    if HasKey(done, key) {
      var i :| 0 <= i < |done| && done[i].key == key;
      assert (done + [m])[i].key == key;
    }
    if m.key == key { assert (done + [m])[|done|].key == key; }
  }

  lemma DistinctHead(fields: seq<Field>)
    requires fields != []
    ensures DistinctKeys(fields) <==>
            (&& DistinctKeys(fields[1..])
             && forall i :: 0 < i < |fields| ==> TextOf(fields[0].key) != TextOf(fields[i].key))
  {
    hide TextOf;
    var rest := fields[1..];
    assert forall i :: 0 < i < |fields| ==> fields[i] == rest[i - 1];
    if DistinctKeys(fields) {
      forall i, j | 0 <= i < j < |rest| ensures TextOf(rest[i].key) != TextOf(rest[j].key) {
        assert TextOf(fields[i + 1].key) != TextOf(fields[j + 1].key);
      }
    }
  }

  lemma UniqueFromStart(fields: seq<Field>)
    ensures FieldsFresh(fields, []) <==> FieldsUnique(fields) && DistinctKeys(fields)
  {
    FreshIsUnique(fields, []);
  }

  /** An entry in front of a delimiter. */
  lemma {:induction false} FieldInContext(f: Field, done: seq<Member>, u: Unit, rest: Text)
    requires FieldWellFormed(f) && (u == CLOSE_BRACE || u == COMMA)
    ensures ParseEntry(RenderField(f) + ([u] + rest), done) ==
            if HasKey(done, TextOf(f.key)) || !UniqueKeys(f.item.doc) then No(DuplicateKey)
            else Yes(MemberOf(f), f.item.after + ([u] + rest))
    ensures ParseSeparator(f.item.after + ([u] + rest), CLOSE_BRACE) == Yes(u == CLOSE_BRACE, rest)
    decreases f, 2
  {
    hide ParseValue, ParseSeparator, SkipSpace, ParseString, ParseEntry, RenderItem, UniqueKeys, ValueOf, TextOf, DecodeString, HasKey, Quoted,
         ItemWellFormed, AllSpace;
    ItemInContext(f.item, u, CLOSE_BRACE, rest);
    var value := RenderItem(f.item) + ([u] + rest);
    var afterKey := f.beforeColon + ([COLON] + value);
    var literal := Quoted(f.key) + afterKey;
    assert RenderField(f) + ([u] + rest) == f.before + literal;
    SkipSpaces(f.before, literal);
    StringInContext(f.key, afterKey);
    QuotedStarts(f.key, afterKey);
    SkipSpaces(f.beforeColon, [COLON] + value);
    SkipNothing([COLON] + value);
    EntryParts(RenderField(f) + ([u] + rest), literal, TextOf(f.key), afterKey, value, done);
  }

  lemma EntryParts(text: Text, literal: Text, key: Text, afterKey: Text, value: Text, done: seq<Member>)
    requires SkipSpace(text) == literal && StartsWith(literal, QUOTE) && ParseString(literal) == Yes(key, afterKey)
    requires SkipSpace(afterKey) == [COLON] + value
    ensures var v := ParseValue(value);
            ParseEntry(text, done) ==
              if HasKey(done, key) then No(DuplicateKey)
              else if v.No? then No(v.error)
              else Yes(Member(key, v.value), v.rest)
  {
    hide ParseValue, ParseString, SkipSpace, HasKey;
    assert ([COLON] + value)[1..] == value;
  }

  lemma QuotedStarts(key: Text, rest: Text)
    ensures StartsWith(Quoted(key) + rest, QUOTE) && SkipSpace(Quoted(key) + rest) == Quoted(key) + rest
  {
    SkipNothing(Quoted(key) + rest);
  }

  lemma {:induction false} RoundTripFields(fields: seq<Field>, done: seq<Member>, rest: Text)
    requires fields != [] && FieldsWellFormed(fields)
    ensures ParseMembers(RenderFields(fields) + rest, done) ==
            if FieldsFresh(fields, done) then Yes(Obj(Own(done + FieldMembers(fields))), rest) else No(DuplicateKey)
    decreases fields, 0
  {
    hide ParseEntry, ParseSeparator, ParseMembers, RenderField, RenderFields, FieldMembers, FieldWellFormed, UniqueKeys, ValueOf, HasKey,
         TextOf, Own;
    var f := fields[0];
    MembersStep(RenderFields(fields) + rest, done);
    FieldsText(fields, rest);
    FieldsMembers(fields, done);
    if |fields| == 1 {
      FieldInContext(f, done, CLOSE_BRACE, rest);
      assert FieldsFresh(fields[1..], done + [MemberOf(f)]);
    } else {
      FieldInContext(f, done, COMMA, RenderFields(fields[1..]) + rest);
      RoundTripFields(fields[1..], done + [MemberOf(f)], rest);
    }
  }

  lemma FieldsText(fields: seq<Field>, rest: Text)
    requires fields != []
    ensures RenderFields(fields) + rest
         == RenderField(fields[0]) + if |fields| == 1 then [CLOSE_BRACE] + rest else [COMMA] + (RenderFields(fields[1..]) + rest)
  {
    hide RenderField, RenderFields;
    if |fields| == 1 {
      LastField(fields);
      LastText(RenderField(fields[0]), CLOSE_BRACE, rest);
    } else {
      FirstField(fields);
      Regroup(RenderField(fields[0]), COMMA, RenderFields(fields[1..]), rest);
    }
  }

  lemma LastField(fields: seq<Field>)
    requires |fields| == 1
    ensures RenderFields(fields) == RenderField(fields[0]) + [CLOSE_BRACE]
  {
    hide RenderField;
  }

  lemma FirstField(fields: seq<Field>)
    requires |fields| > 1
    ensures RenderFields(fields) == RenderField(fields[0]) + ([COMMA] + RenderFields(fields[1..]))
  {
    hide RenderField;
  }

  lemma LastText(a: Text, u: Unit, rest: Text)
    ensures (a + [u]) + rest == a + ([u] + rest)
  {
  }

  lemma Regroup(a: Text, u: Unit, b: Text, c: Text)
    ensures (a + ([u] + b)) + c == a + ([u] + (b + c))
  {
  }

  lemma FieldsMembers(fields: seq<Field>, done: seq<Member>)
    requires fields != []
    ensures done + [MemberOf(fields[0])] + FieldMembers(fields[1..]) == done + FieldMembers(fields)
    ensures |fields| == 1 ==> done + [MemberOf(fields[0])] == done + FieldMembers(fields)
  {
    FirstMember(fields);
    hide MemberOf, FieldMembers;
    MembersRegroup(done, MemberOf(fields[0]), FieldMembers(fields[1..]));
  }

  lemma FirstMember(fields: seq<Field>)
    requires fields != []
    ensures FieldMembers(fields) == [MemberOf(fields[0])] + FieldMembers(fields[1..])
    ensures |fields| == 1 ==> FieldMembers(fields[1..]) == [] && FieldMembers(fields) == [MemberOf(fields[0])]
  {
    hide MemberOf;
  }

  lemma MembersRegroup(a: seq<Member>, m: Member, b: seq<Member>)
    ensures (a + [m]) + b == a + ([m] + b)
  {
  }

  /** Parsing any layout of a document returns its value, or rejects it for a duplicate key at some depth. */
  lemma DocumentRoundTrip(item: Item)
    requires ItemWellFormed(item)
    ensures ParseDocument(RenderItem(item)) == if UniqueKeys(item.doc) then Ok(ValueOf(item.doc)) else Err(DuplicateKey)
  {
    hide ParseValue, Render, WellFormed, UniqueKeys, ValueOf, SkipSpace;
    RoundTrip(item.doc, item.after) by {
      assert item.after != [] ==> IsSpace(item.after[0]);
    }
    assert RenderItem(item) == item.before + (Render(item.doc) + item.after);
    ParseSkips(item.before, Render(item.doc) + item.after, [], []);
    SkipSpaces(item.after, []);
    assert item.after + [] == item.after;
    SkipNothing([]);
  }

  // ---------- everything that parses is a rendering ----------

  lemma {:induction false} SkippedSpace(s: Text) returns (space: Text)
    ensures AllSpace(space) && s == space + SkipSpace(s)
  {
    hide IsSpace, SkipSpace, AllSpace;
    SkipSpaceStep(s);
    if s != [] && IsSpace(s[0]) {
      var rest := SkippedSpace(s[1..]);
      space := [s[0]] + rest;
      SpaceCons(s[0], rest);
      HeadSplit(s, rest, SkipSpace(s));
    } else {
      space := [];
      EmptyIsSpace();
      assert [] + s == s;
    }
  }

  lemma SpaceCons(u: Unit, space: Text)
    requires IsSpace(u) && AllSpace(space)
    ensures AllSpace([u] + space)
  {
    hide IsSpace;
  }

  lemma HeadSplit(s: Text, a: Text, b: Text)
    requires s != [] && s[1..] == a + b
    ensures s == ([s[0]] + a) + b
  {
  }

  lemma MatchedNumber(s: Text)
    requires MatchNumber(s) > 0
    ensures var t := s[..MatchNumber(s)];
            if StartsWith(t, MINUS) then DecimalToken(t[1..]) else DecimalToken(t)
  {
    var n := MatchNumber(s);
    var sign := if StartsWith(s, MINUS) then 1 else 0;
    var t := s[..n];
    assert t[0] == s[0];
    var digits := t[sign..];
    assert forall i :: 0 <= i < n - sign ==> digits[i] == s[sign..][i];
    assert sign == 0 ==> digits == t;
  }

  lemma AtomIsRendering(s: Text, value: Json, rest: Text) returns (doc: Doc)
    requires ParseAtom(s) == Yes(value, rest)
    ensures WellFormed(doc) && UniqueKeys(doc) && ValueOf(doc) == value && s == Render(doc) + rest
  {
    hide MatchNumber, NumberValue, DecimalToken;
    if TRUE_TEXT <= s {
      doc := DBool(true);
      assert s == s[..4] + s[4..];
    } else if FALSE_TEXT <= s {
      doc := DBool(false);
      assert s == s[..5] + s[5..];
    } else if NULL_TEXT <= s {
      doc := DNull;
      assert s == s[..4] + s[4..];
    } else {
      var n := MatchNumber(s);
      doc := DNumber(s[..n]);
      MatchedNumber(s);
      assert s == s[..n] + s[n..];
    }
  }

  /** What a string token stands for, and the literal it was read from. */
  lemma StringIsRendering(s: Text, text: Text, rest: Text) returns (body: Text)
    requires s != [] && s[0] == QUOTE && ParseString(s) == Yes(text, rest)
    ensures DecodeString(body) == Some(text) && s == Quoted(body) + rest
  {
    hide ScanString, DecodeString;
    var n := ScanString(s[1..]).value;
    body := s[1..1 + n];
    assert s[1..][n] == s[1 + n];
    assert s == [s[0]] + s[1..1 + n] + [s[1 + n]] + s[2 + n..];
  }

  /** The separator that was found, and the space in front of it. */
  lemma SeparatorIsRendering(text: Text, close: Unit, closed: bool, rest: Text) returns (after: Text)
    requires ParseSeparator(text, close) == Yes(closed, rest)
    ensures AllSpace(after) && text == after + ([if closed then close else COMMA] + rest)
  {
    hide SkipSpace;
    after := SkippedSpace(text);
    var s := SkipSpace(text);
    assert s == [s[0]] + s[1..];
  }

  /** Every accepted value is, after some white space, a rendering of a document with unique keys. */
  lemma {:induction false} ParsedIsRendering(text: Text, value: Json, rest: Text) returns (before: Text, doc: Doc)
    requires ParseValue(text) == Yes(value, rest)
    ensures AllSpace(before) && WellFormed(doc) && UniqueKeys(doc) && ValueOf(doc) == value
    ensures text == before + (Render(doc) + rest)
    decreases |text|, 1
  {
    hide SkipSpace, ParseAtom, ParseString, ParseElements, ParseMembers, DecodeString, AllSpace, Quoted;
    before := SkippedSpace(text);
    var s := SkipSpace(text);
    if StartsWith(s, OPEN_BRACE) {
      doc := ObjectIsRendering(s, value, rest);
    } else if StartsWith(s, OPEN_BRACKET) {
      doc := ArrayIsRendering(s, value, rest);
    } else if StartsWith(s, QUOTE) {
      var body := StringIsRendering(s, value.text, rest);
      doc := DString(body);
    } else {
      doc := AtomIsRendering(s, value, rest);
    }
  }

  lemma {:induction false} ArrayIsRendering(s: Text, value: Json, rest: Text) returns (doc: Doc)
    requires StartsWith(s, OPEN_BRACKET) && ParseArray(s) == Yes(value, rest)
    ensures WellFormed(doc) && UniqueKeys(doc) && ValueOf(doc) == value && s == Render(doc) + rest
    decreases |s|, 0
  {
    hide SkipSpace, ParseElements, AllSpace, ItemsWellFormed, ItemsUnique, ItemValues, RenderItems, PadItems,
         Render, WellFormed, UniqueKeys, ValueOf;
    var space := SkippedSpace(s[1..]);
    var t := SkipSpace(s[1..]);
    Opened(s, space, t);
    if StartsWith(t, CLOSE_BRACKET) {
      Opened(t, [], t[1..]);
      Reassociate(OPEN_BRACKET, space, [CLOSE_BRACKET], rest);
      doc := DArray(space, []);
      EmptyContainers(space);
    } else {
      var items := ElementsAreRendering(t, [], value, rest);
      doc := DArray([], PadItems(space, items));
      PaddedArray(space, items);
      Reassociate(OPEN_BRACKET, space, RenderItems(items), rest);
      assert [] + ItemValues(items) == ItemValues(items);
    }
  }

  lemma EmptyContainers(space: Text)
    requires AllSpace(space)
    ensures var doc := DArray(space, []);
            WellFormed(doc) && UniqueKeys(doc) && ValueOf(doc) == Arr([]) && Render(doc) == [OPEN_BRACKET] + (space + [CLOSE_BRACKET])
    ensures var doc := DObject(space, []);
            WellFormed(doc) && UniqueKeys(doc) && ValueOf(doc) == Obj([]) && Render(doc) == [OPEN_BRACE] + (space + [CLOSE_BRACE])
  {
    hide AllSpace;
    NoItems();
  }

  lemma PaddedArray(space: Text, items: seq<Item>)
    requires items != [] && AllSpace(space) && ItemsWellFormed(items) && ItemsUnique(items)
    ensures var doc := DArray([], PadItems(space, items));
            && WellFormed(doc) && UniqueKeys(doc) && ValueOf(doc) == Arr(ItemValues(items))
            && Render(doc) == [OPEN_BRACKET] + (space + RenderItems(items))
  {
    PaddedItems(space, items);
    EmptyIsSpace();
    hide AllSpace, ItemsWellFormed, ItemsUnique, ItemValues, RenderItems, PadItems;
  }

  lemma Opened(s: Text, space: Text, t: Text)
    requires s != [] && s[1..] == space + t
    ensures s == [s[0]] + (space + t)
    ensures space == [] ==> s == [s[0]] + t
  {
  }

  lemma Reassociate(u: Unit, a: Text, b: Text, c: Text)
    ensures [u] + (a + (b + c)) == [u] + (a + b) + c
  {
  }

  lemma NoItems()
    ensures ItemsWellFormed([]) && ItemsUnique([]) && ItemValues([]) == []
    ensures FieldsWellFormed([]) && FieldsUnique([]) && DistinctKeys([]) && FieldMembers([]) == []
  {
  }

  lemma EmptyIsSpace()
    ensures AllSpace([])
  {
  }

  /** Space in front of the first item belongs to that item. */
  function PadItems(space: Text, items: seq<Item>): (r: seq<Item>)
    requires items != []
    ensures |r| == |items|
  {
    items[0 := items[0].(before := space + items[0].before)]
  }

  lemma PaddedItems(space: Text, items: seq<Item>)
    requires items != [] && AllSpace(space) && ItemsWellFormed(items)
    ensures var r := PadItems(space, items);
            && ItemsWellFormed(r) && ItemValues(r) == ItemValues(items)
            && (ItemsUnique(r) <==> ItemsUnique(items))
            && RenderItems(r) == space + RenderItems(items)
  {
    hide Render, WellFormed, ValueOf, UniqueKeys;
    var r := PadItems(space, items);
    assert r[1..] == items[1..];
    assert RenderItem(r[0]) == space + RenderItem(items[0]);
    assert RenderItems(r) == space + RenderItems(items);
  }

  lemma {:induction false} ElementsAreRendering(text: Text, done: seq<Json>, value: Json, rest: Text) returns (items: seq<Item>)
    requires ParseElements(text, done) == Yes(value, rest)
    ensures items != [] && ItemsWellFormed(items) && ItemsUnique(items)
    ensures value == Arr(done + ItemValues(items)) && text == RenderItems(items) + rest
    decreases |text|, 2
  {
    hide ParseValue, ParseSeparator, ParseElements, AllSpace, WellFormed, UniqueKeys, ValueOf, Render, RenderItems, RenderItem, ItemValues;
    ElementsStep(text, done);
    var first := ParseValue(text);
    var next := ParseSeparator(first.rest, CLOSE_BRACKET);
    var before, doc := ParsedIsRendering(text, first.value, first.rest);
    var after := SeparatorIsRendering(first.rest, CLOSE_BRACKET, next.value, next.rest);
    var item := Item(before, doc, after);
    var u := if next.value then CLOSE_BRACKET else COMMA;
    ItemJoins(item, u, next.rest, text);
    if next.value {
      items := [item];
      assert items[0] == item && items[1..] == [];
      NoItems();
      OneItem(item, done, rest);
    } else {
      var others := ElementsAreRendering(next.rest, done + [first.value], value, rest);
      items := [item] + others;
      assert items[0] == item && items[1..] == others;
      MoreItems(item, others, done, rest);
    }
  }

  lemma ItemJoins(item: Item, u: Unit, rest: Text, text: Text)
    requires text == item.before + (Render(item.doc) + (item.after + ([u] + rest)))
    ensures text == RenderItem(item) + ([u] + rest)
  {
    hide Render;
  }

  lemma OneItem(item: Item, done: seq<Json>, rest: Text)
    ensures RenderItem(item) + ([CLOSE_BRACKET] + rest) == RenderItems([item]) + rest
    ensures ItemValues([item]) == [ValueOf(item.doc)]
  {
    hide RenderItem, ValueOf;
    assert RenderItems([item]) == RenderItem(item) + [CLOSE_BRACKET];
    assert [item][1..] == [];
  }

  lemma MoreItems(item: Item, others: seq<Item>, done: seq<Json>, rest: Text)
    requires others != []
    ensures RenderItem(item) + ([COMMA] + (RenderItems(others) + rest)) == RenderItems([item] + others) + rest
    ensures done + [ValueOf(item.doc)] + ItemValues(others) == done + ItemValues([item] + others)
  {
    hide RenderItem, ValueOf;
    var items := [item] + others;
    assert items[1..] == others && items[0] == item;
    assert RenderItems(items) == RenderItem(item) + ([COMMA] + RenderItems(others));
    Regroup(RenderItem(item), COMMA, RenderItems(others), rest);
    assert ItemValues(items) == [ValueOf(item.doc)] + ItemValues(others);
  }

  lemma {:induction false} ObjectIsRendering(s: Text, value: Json, rest: Text) returns (doc: Doc)
    requires StartsWith(s, OPEN_BRACE) && ParseObject(s) == Yes(value, rest)
    ensures WellFormed(doc) && UniqueKeys(doc) && ValueOf(doc) == value && s == Render(doc) + rest
    decreases |s|, 0
  {
    hide SkipSpace, ParseMembers, AllSpace, FieldsWellFormed, FieldsUnique, FieldMembers, RenderFields, DistinctKeys, Own, PadFields,
         Render, WellFormed, UniqueKeys, ValueOf;
    var space := SkippedSpace(s[1..]);
    var t := SkipSpace(s[1..]);
    Opened(s, space, t);
    if StartsWith(t, CLOSE_BRACE) {
      Opened(t, [], t[1..]);
      Reassociate(OPEN_BRACE, space, [CLOSE_BRACE], rest);
      doc := DObject(space, []);
      EmptyContainers(space);
    } else {
      var fields := MembersAreRendering(t, [], value, rest);
      UniqueFromStart(fields);
      doc := DObject([], PadFields(space, fields));
      PaddedObject(space, fields);
      Reassociate(OPEN_BRACE, space, RenderFields(fields), rest);
      assert [] + FieldMembers(fields) == FieldMembers(fields);
    }
  }

  lemma {:induction false} PaddedObject(space: Text, fields: seq<Field>)
    requires fields != [] && AllSpace(space) && FieldsWellFormed(fields) && FieldsUnique(fields) && DistinctKeys(fields)
    ensures var doc := DObject([], PadFields(space, fields));
            && WellFormed(doc) && UniqueKeys(doc) && ValueOf(doc) == Obj(Own(FieldMembers(fields)))
            && Render(doc) == [OPEN_BRACE] + (space + RenderFields(fields))
  {
    PaddedFields(space, fields);
    EmptyIsSpace();
    hide AllSpace, FieldsWellFormed, FieldsUnique, FieldMembers, RenderFields, DistinctKeys, Own, PadFields;
  }

  function PadFields(space: Text, fields: seq<Field>): (r: seq<Field>)
    requires fields != []
    ensures |r| == |fields|
  {
    fields[0 := fields[0].(before := space + fields[0].before)]
  }

  lemma {:induction false} PaddedFields(space: Text, fields: seq<Field>)
    requires fields != [] && AllSpace(space) && FieldsWellFormed(fields)
    ensures var r := PadFields(space, fields);
            && FieldsWellFormed(r) && FieldMembers(r) == FieldMembers(fields)
            && (FieldsUnique(r) <==> FieldsUnique(fields)) && (DistinctKeys(r) <==> DistinctKeys(fields))
            && RenderFields(r) == space + RenderFields(fields)
  {
    hide RenderItem, ItemWellFormed, ValueOf, UniqueKeys, DecodeString, TextOf;
    var r := PadFields(space, fields);
    assert r[1..] == fields[1..];
    assert forall i :: 0 <= i < |r| ==> r[i].key == fields[i].key;
    assert RenderField(r[0]) == space + RenderField(fields[0]);
    assert RenderFields(r) == space + RenderFields(fields);
  }

  lemma {:induction false} EntryIsRendering(text: Text, done: seq<Member>, m: Member, rest: Text)
    returns (before: Text, key: Text, beforeColon: Text, valueBefore: Text, doc: Doc)
    requires ParseEntry(text, done) == Yes(m, rest)
    ensures AllSpace(before) && DecodeString(key) == Some(m.key) && AllSpace(beforeColon) && AllSpace(valueBefore)
    ensures WellFormed(doc) && UniqueKeys(doc) && ValueOf(doc) == m.value && !HasKey(done, m.key)
    ensures text == before + Quoted(key) + beforeColon + [COLON] + (valueBefore + (Render(doc) + rest))
    decreases |text|, 2
  {
    hide SkipSpace, ParseString, ParseValue, HasKey, AllSpace, WellFormed, UniqueKeys, ValueOf, Render, DecodeString, Quoted;
    before := SkippedSpace(text);
    var s := SkipSpace(text);
    var parsed := ParseString(s);
    key := StringIsRendering(s, m.key, parsed.rest);
    beforeColon := SkippedSpace(parsed.rest);
    var t := SkipSpace(parsed.rest);
    assert t == [COLON] + t[1..];
    valueBefore, doc := ParsedIsRendering(t[1..], m.value, rest);
  }

  lemma {:induction false} MembersAreRendering(text: Text, done: seq<Member>, value: Json, rest: Text) returns (fields: seq<Field>)
    requires ParseMembers(text, done) == Yes(value, rest)
    ensures fields != [] && FieldsWellFormed(fields) && FieldsFresh(fields, done)
    ensures value == Obj(Own(done + FieldMembers(fields))) && text == RenderFields(fields) + rest
    decreases |text|, 3
  {
    hide ParseEntry, ParseSeparator, ParseMembers, AllSpace, WellFormed, UniqueKeys, ValueOf, Render, HasKey, DecodeString, Quoted, Own;
    MembersStep(text, done);
    var entry := ParseEntry(text, done);
    var next := ParseSeparator(entry.rest, CLOSE_BRACE);
    var before, key, beforeColon, valueBefore, doc := EntryIsRendering(text, done, entry.value, entry.rest);
    var after := SeparatorIsRendering(entry.rest, CLOSE_BRACE, next.value, next.rest);
    var f := Field(before, key, beforeColon, Item(valueBefore, doc, after));
    assert MemberOf(f) == entry.value && FieldWellFormed(f);
    var u := if next.value then CLOSE_BRACE else COMMA;
    FieldText(f, u, next.rest, text);
    if next.value {
      fields := [f];
      assert fields[0] == f && fields[1..] == [];
      assert done + FieldMembers(fields) == done + [entry.value];
      NoItems();
      assert text == RenderFields(fields) + rest;
    } else {
      var others := MembersAreRendering(next.rest, done + [entry.value], value, rest);
      fields := [f] + others;
      assert fields[0] == f && fields[1..] == others;
      assert text == RenderField(f) + ([COMMA] + (RenderFields(others) + rest));
      assert text == RenderFields(fields) + rest;
      assert done + [entry.value] + FieldMembers(others) == done + FieldMembers(fields);
    }
  }

  lemma FieldText(f: Field, u: Unit, rest: Text, text: Text)
    requires text == f.before + Quoted(f.key) + f.beforeColon + [COLON] + (f.item.before + (Render(f.item.doc) + (f.item.after + ([u] + rest))))
    ensures text == RenderField(f) + ([u] + rest)
  {
    hide Render, Quoted;
  }

  /** A text is accepted with a value exactly if it is a layout of a document with unique keys and that value. */
  lemma AcceptsExactlyRenderings(text: Text, value: Json)
    ensures ParseDocument(text) == Ok(value) <==>
            exists item :: ItemWellFormed(item) && UniqueKeys(item.doc) && ValueOf(item.doc) == value && RenderItem(item) == text
  {
    hide ParseValue, SkipSpace, Render, WellFormed, UniqueKeys, ValueOf, AllSpace;
    if ParseDocument(text) == Ok(value) {
      var parsed := ParseValue(text);
      var before, doc := ParsedIsRendering(text, value, parsed.rest);
      var after := SkippedSpace(parsed.rest);
      assert after + [] == after;
      assert RenderItem(Item(before, doc, after)) == text;
    }
    if item :| ItemWellFormed(item) && UniqueKeys(item.doc) && ValueOf(item.doc) == value && RenderItem(item) == text {
      DocumentRoundTrip(item);
    }
  }
}
