/**
 Which accepted texts are JSON. The parser skips every white space of the source language, while
 RFC 8259, section 2, knows only four; an accepted text is JSON exactly if its layout uses no other.
 */
module JsonLayout {
  import opened Wrappers
  import opened StrictJson
  import opened JsonDocuments

  /** The white space of RFC 8259, section 2. */
  predicate IsJsonSpace(u: Unit)
  {
    u == 0x20 || u == 0x09 || u == 0x0A || u == 0x0D
  }

  ghost predicate Strict(space: Text)
  {
    forall i :: 0 <= i < |space| ==> IsJsonSpace(space[i])
  }

  // ---------- documents laid out with JSON white space ----------

  ghost predicate StrictDoc(doc: Doc)
    decreases doc, 0
  {
    match doc
    case DArray(inner, items) => if items == [] then Strict(inner) else StrictItems(items)
    case DObject(inner, fields) => if fields == [] then Strict(inner) else StrictFields(fields)
    case _ => true
  }

  ghost predicate StrictItem(item: Item)
    decreases item, 1
  {
    Strict(item.before) && StrictDoc(item.doc) && Strict(item.after)
  }

  ghost predicate StrictItems(items: seq<Item>)
    decreases items, 0
  {
    items == [] || (StrictItem(items[0]) && StrictItems(items[1..]))
  }

  ghost predicate StrictField(f: Field)
    decreases f, 2
  {
    Strict(f.before) && Strict(f.beforeColon) && StrictItem(f.item)
  }

  ghost predicate StrictFields(fields: seq<Field>)
    decreases fields, 0
  {
    fields == [] || (StrictField(fields[0]) && StrictFields(fields[1..]))
  }

  /** The numbers and string literals of a document are well formed, whatever its layout. */
  ghost predicate TokensOk(doc: Doc)
    decreases doc, 0
  {
    match doc
    case DNumber(token) => NumberToken(token)
    case DString(body) => DecodeString(body).Some?
    case DArray(_, items) => ItemTokensOk(items)
    case DObject(_, fields) => FieldTokensOk(fields)
    case _ => true
  }

  ghost predicate ItemTokensOk(items: seq<Item>)
    decreases items, 0
  {
    items == [] || (TokensOk(items[0].doc) && ItemTokensOk(items[1..]))
  }

  ghost predicate FieldTokensOk(fields: seq<Field>)
    decreases fields, 0
  {
    fields == [] || (DecodeString(fields[0].key).Some? && TokensOk(fields[0].item.doc) && FieldTokensOk(fields[1..]))
  }

  /** Some layout of the text is JSON. */
  ghost predicate IsJson(text: Text)
  {
    exists item: Item :: TokensOk(item.doc) && StrictItem(item) && RenderItem(item) == text
  }

  // ---------- JSON is accepted ----------

  lemma StrictIsSpace(space: Text)
    requires Strict(space)
    ensures AllSpace(space)
  {
  }

  lemma {:induction false} StrictIsWellFormed(doc: Doc)
    ensures TokensOk(doc) && StrictDoc(doc) ==> WellFormed(doc)
    ensures WellFormed(doc) ==> TokensOk(doc)
    decreases doc, 0
  {
    hide DecodeString, NumberToken, Strict, AllSpace;
    match doc {
      case DArray(inner, items) =>
        if items == [] && Strict(inner) { StrictIsSpace(inner); }
        StrictItemsWellFormed(items);
      case DObject(inner, fields) =>
        if fields == [] && Strict(inner) { StrictIsSpace(inner); }
        StrictFieldsWellFormed(fields);
      case _ =>
    }
  }

  lemma {:induction false} StrictItemsWellFormed(items: seq<Item>)
    ensures ItemTokensOk(items) && StrictItems(items) ==> ItemsWellFormed(items)
    ensures ItemsWellFormed(items) ==> ItemTokensOk(items)
    decreases items, 0
  {
    hide TokensOk, StrictItem, ItemWellFormed;
    if items != [] {
      StrictItemWellFormed(items[0]);
      StrictItemsWellFormed(items[1..]);
    }
  }

  lemma {:induction false} StrictItemWellFormed(item: Item)
    ensures TokensOk(item.doc) && StrictItem(item) ==> ItemWellFormed(item)
    ensures ItemWellFormed(item) ==> TokensOk(item.doc)
    decreases item, 1
  {
    hide TokensOk, StrictDoc, WellFormed, Strict, AllSpace;
    StrictIsWellFormed(item.doc);
    if Strict(item.before) { StrictIsSpace(item.before); }
    if Strict(item.after) { StrictIsSpace(item.after); }
  }

  lemma {:induction false} StrictFieldsWellFormed(fields: seq<Field>)
    ensures FieldTokensOk(fields) && StrictFields(fields) ==> FieldsWellFormed(fields)
    ensures FieldsWellFormed(fields) ==> FieldTokensOk(fields)
    decreases fields, 0
  {
    hide StrictField, FieldWellFormed, TokensOk;
    if fields != [] {
      StrictFieldWellFormed(fields[0]);
      StrictFieldsWellFormed(fields[1..]);
    }
  }

  lemma {:induction false} StrictFieldWellFormed(f: Field)
    ensures DecodeString(f.key).Some? && TokensOk(f.item.doc) && StrictField(f) ==> FieldWellFormed(f)
    ensures FieldWellFormed(f) ==> DecodeString(f.key).Some? && TokensOk(f.item.doc)
    decreases f, 2
  {
    hide TokensOk, StrictItem, ItemWellFormed, Strict, AllSpace, DecodeString;
    StrictItemWellFormed(f.item);
    if Strict(f.before) { StrictIsSpace(f.before); }
    if Strict(f.beforeColon) { StrictIsSpace(f.beforeColon); }
  }

  /**
   Parsing any JSON layout of a document, with spaces, tabs, line feeds and carriage returns at will,
   returns its value, or rejects it for a duplicate key at some depth.
   */
  lemma JsonParses(item: Item)
    requires TokensOk(item.doc) && StrictItem(item)
    ensures ParseDocument(RenderItem(item)) == if UniqueKeys(item.doc) then Ok(ValueOf(item.doc)) else Err(DuplicateKey)
  {
    hide TokensOk, StrictItem, ItemWellFormed, RenderItem, UniqueKeys, ValueOf, ParseDocument;
    StrictItemWellFormed(item);
    DocumentRoundTrip(item);
  }

  // ---------- the layout of a text is unique ----------

  lemma SpaceSame(space1: Text, t1: Text, space2: Text, t2: Text)
    requires AllSpace(space1) && AllSpace(space2) && space1 + t1 == space2 + t2
    requires (t1 == [] || !IsSpace(t1[0])) && (t2 == [] || !IsSpace(t2[0]))
    ensures space1 == space2 && t1 == t2
  {
    hide SkipSpace, IsSpace;
    SkipSpaces(space1, t1);
    SkipSpaces(space2, t2);
    SkipNothing(t1);
    SkipNothing(t2);
    assert t1 == t2;
    CancelTail(space1, space2, t1);
  }

  lemma CancelTail(a: Text, b: Text, t: Text)
    requires a + t == b + t
    ensures a == b
  {
    assert a == (a + t)[..|a|] && b == (b + t)[..|b|];
  }

  /** What the first unit of a value tells about its kind. */
  lemma KindByFirst(doc: Doc)
    requires WellFormed(doc)
    ensures Render(doc) != []
    ensures var u := Render(doc)[0];
            && !IsSpace(u)
            && (doc.DArray? <==> u == OPEN_BRACKET) && (doc.DObject? <==> u == OPEN_BRACE) && (doc.DString? <==> u == QUOTE)
            && (doc.DNumber? <==> u == MINUS || IsDigit(u))
            && (doc.DNull? <==> u == NULL_TEXT[0]) && (doc.DBool? <==> u == TRUE_TEXT[0] || u == FALSE_TEXT[0])
            && (doc.DBool? ==> (doc.bit <==> u == TRUE_TEXT[0]))
  {
    hide DecimalValue, NumberValue;
    FirstUnit(doc);
  }

  /** Two layouts of one text in front of what may follow a value have the same white space. */
  lemma {:induction false} DocSame(doc1: Doc, rest1: Text, doc2: Doc, rest2: Text)
    requires WellFormed(doc1) && WellFormed(doc2) && Follow(rest1) && Follow(rest2)
    requires Render(doc1) + rest1 == Render(doc2) + rest2
    ensures rest1 == rest2 && (StrictDoc(doc1) <==> StrictDoc(doc2))
    decreases doc1, 0
  {
    hide Render, WellFormed, AllSpace, ItemsWellFormed, FieldsWellFormed, StrictItems, StrictFields, Strict, Follow;
    KindByFirst(doc1);
    KindByFirst(doc2);
    var text := Render(doc1) + rest1;
    assert text[0] == Render(doc1)[0] == Render(doc2)[0];
    match doc1 {
      case DArray(inner, items) =>
        ArrayText(doc1, rest1);
        ArrayText(doc2, rest2);
        ItemListsSame(inner, items, rest1, doc2.inner, doc2.items, rest2, text[1..]);
      case DObject(inner, fields) =>
        ObjectText(doc1, rest1);
        ObjectText(doc2, rest2);
        FieldListsSame(inner, fields, rest1, doc2.inner, doc2.fields, rest2, text[1..]);
      case _ =>
        TokenLength(doc1, rest1);
        TokenLength(doc2, rest2);
        assert rest1 == text[|Render(doc1)|..] && rest2 == text[|Render(doc2)|..];
    }
  }

  /** The length of a token, read off the text it starts. */
  ghost function TokenEnd(text: Text): nat
  {
    if StartsWith(text, QUOTE) then
      var scan := ScanString(text[1..]);
      if scan.Some? then 2 + scan.value else 0
    else if TRUE_TEXT <= text || NULL_TEXT <= text then 4
    else if FALSE_TEXT <= text then 5
    else MatchNumber(text)
  }

  lemma TokenLength(doc: Doc, rest: Text)
    requires WellFormed(doc) && Follow(rest) && !doc.DArray? && !doc.DObject?
    ensures TokenEnd(Render(doc) + rest) == |Render(doc)|
  {
    hide DecimalValue, NumberValue, MatchNumber, ScanString, DecodeString, DecimalToken;
    var text := Render(doc) + rest;
    KindByFirst(doc);
    assert text[0] == Render(doc)[0];
    match doc {
      case DNumber(token) => NumberInContext(token, rest);
      case DString(body) =>
        ScanInContext(body, [QUOTE] + rest);
        assert text[1..] == body + ([QUOTE] + rest);
      case DNull => assert NULL_TEXT <= text;
      case DBool(bit) => assert (if bit then TRUE_TEXT else FALSE_TEXT) <= text;
      case _ =>
    }
  }

  lemma ArrayText(doc: Doc, rest: Text)
    requires WellFormed(doc) && doc.DArray?
    ensures (doc.items == [] ==> AllSpace(doc.inner)) && ItemsWellFormed(doc.items)
    ensures (Render(doc) + rest)[1..] == if doc.items == [] then doc.inner + ([CLOSE_BRACKET] + rest) else RenderItems(doc.items) + rest
  {
    hide AllSpace, ItemsWellFormed, RenderItems;
    assert doc.items == [] ==> doc.inner + [CLOSE_BRACKET] + rest == doc.inner + ([CLOSE_BRACKET] + rest);
  }

  lemma ObjectText(doc: Doc, rest: Text)
    requires WellFormed(doc) && doc.DObject?
    ensures (doc.fields == [] ==> AllSpace(doc.inner)) && FieldsWellFormed(doc.fields)
    ensures (Render(doc) + rest)[1..] == if doc.fields == [] then doc.inner + ([CLOSE_BRACE] + rest) else RenderFields(doc.fields) + rest
  {
    hide AllSpace, FieldsWellFormed, RenderFields;
    assert doc.fields == [] ==> doc.inner + [CLOSE_BRACE] + rest == doc.inner + ([CLOSE_BRACE] + rest);
  }

  lemma {:induction false} ItemListsSame(inner1: Text, items1: seq<Item>, rest1: Text, inner2: Text, items2: seq<Item>, rest2: Text, text: Text)
    requires (items1 == [] ==> AllSpace(inner1)) && (items2 == [] ==> AllSpace(inner2)) && ItemsWellFormed(items1) && ItemsWellFormed(items2)
    requires text == if items1 == [] then inner1 + ([CLOSE_BRACKET] + rest1) else RenderItems(items1) + rest1
    requires text == if items2 == [] then inner2 + ([CLOSE_BRACKET] + rest2) else RenderItems(items2) + rest2
    ensures rest1 == rest2 && (items1 == [] <==> items2 == [])
    ensures items1 == [] ==> inner1 == inner2
    ensures items1 != [] ==> (StrictItems(items1) <==> StrictItems(items2))
    decreases items1, 1
  {
    hide ItemsWellFormed, RenderItems, SkipSpace, AllSpace, StrictItems;
    if items1 == [] || items2 == [] {
      if items1 != [] { ItemsStart(items1, rest1); } else { CloseInContext(inner1, CLOSE_BRACKET, rest1); }
      if items2 != [] { ItemsStart(items2, rest2); } else { CloseInContext(inner2, CLOSE_BRACKET, rest2); }
      SpaceSame(inner1, [CLOSE_BRACKET] + rest1, inner2, [CLOSE_BRACKET] + rest2);
    } else {
      ItemsSame(items1, rest1, items2, rest2);
    }
  }

  /** A list of items in a text: the first item, its delimiter, and what follows. */
  lemma FirstItemText(items: seq<Item>, rest: Text) returns (u: Unit, more: Text)
    requires items != [] && ItemsWellFormed(items)
    ensures ItemWellFormed(items[0]) && ItemsWellFormed(items[1..])
    ensures RenderItems(items) + rest == RenderItem(items[0]) + ([u] + more)
    ensures u == (if |items| == 1 then CLOSE_BRACKET else COMMA) && more == if |items| == 1 then rest else RenderItems(items[1..]) + rest
  {
    hide RenderItem, ItemWellFormed;
    u := if |items| == 1 then CLOSE_BRACKET else COMMA;
    more := if |items| == 1 then rest else RenderItems(items[1..]) + rest;
    if |items| == 1 {
      LastText(RenderItem(items[0]), CLOSE_BRACKET, rest);
    } else {
      Regroup(RenderItem(items[0]), COMMA, RenderItems(items[1..]), rest);
    }
  }

  lemma {:induction false} ItemsSame(items1: seq<Item>, rest1: Text, items2: seq<Item>, rest2: Text)
    requires items1 != [] && items2 != [] && ItemsWellFormed(items1) && ItemsWellFormed(items2)
    requires RenderItems(items1) + rest1 == RenderItems(items2) + rest2
    ensures rest1 == rest2 && (StrictItems(items1) <==> StrictItems(items2))
    decreases items1, 0
  {
    hide ItemWellFormed, ItemsWellFormed, RenderItem, RenderItems, StrictItem;
    var u1, more1 := FirstItemText(items1, rest1);
    var u2, more2 := FirstItemText(items2, rest2);
    ItemSame(items1[0], u1, more1, items2[0], u2, more2);
    if |items1| > 1 {
      ItemsSame(items1[1..], rest1, items2[1..], rest2);
    } else {
      assert items1[1..] == [] && items2[1..] == [];
    }
  }

  predicate Delimiter(u: Unit) { u == COMMA || u == CLOSE_BRACKET || u == CLOSE_BRACE }

  lemma {:induction false} ItemSame(item1: Item, u1: Unit, more1: Text, item2: Item, u2: Unit, more2: Text)
    requires ItemWellFormed(item1) && ItemWellFormed(item2) && Delimiter(u1) && Delimiter(u2)
    requires RenderItem(item1) + ([u1] + more1) == RenderItem(item2) + ([u2] + more2)
    ensures u1 == u2 && more1 == more2 && (StrictItem(item1) <==> StrictItem(item2))
    decreases item1, 1
  {
    hide WellFormed, AllSpace, Render, StrictDoc, Strict, Follow;
    var tail1, tail2 := item1.after + ([u1] + more1), item2.after + ([u2] + more2);
    ItemText(item1, u1, more1);
    ItemText(item2, u2, more2);
    KindByFirst(item1.doc);
    KindByFirst(item2.doc);
    SpaceSame(item1.before, Render(item1.doc) + tail1, item2.before, Render(item2.doc) + tail2);
    DocSame(item1.doc, tail1, item2.doc, tail2);
    SpaceSame(item1.after, [u1] + more1, item2.after, [u2] + more2);
    assert ([u1] + more1)[1..] == more1 && ([u2] + more2)[1..] == more2;
  }

  lemma ItemText(item: Item, u: Unit, more: Text)
    requires AllSpace(item.after) && Delimiter(u)
    ensures RenderItem(item) + ([u] + more) == item.before + (Render(item.doc) + (item.after + ([u] + more)))
    ensures Follow(item.after + ([u] + more))
  {
    hide Render;
    assert item.after != [] ==> IsSpace(item.after[0]);
  }

  lemma {:induction false} FieldListsSame(inner1: Text, fields1: seq<Field>, rest1: Text, inner2: Text, fields2: seq<Field>, rest2: Text, text: Text)
    requires (fields1 == [] ==> AllSpace(inner1)) && (fields2 == [] ==> AllSpace(inner2)) && FieldsWellFormed(fields1) && FieldsWellFormed(fields2)
    requires text == if fields1 == [] then inner1 + ([CLOSE_BRACE] + rest1) else RenderFields(fields1) + rest1
    requires text == if fields2 == [] then inner2 + ([CLOSE_BRACE] + rest2) else RenderFields(fields2) + rest2
    ensures rest1 == rest2 && (fields1 == [] <==> fields2 == [])
    ensures fields1 == [] ==> inner1 == inner2
    ensures fields1 != [] ==> (StrictFields(fields1) <==> StrictFields(fields2))
    decreases fields1, 1
  {
    hide FieldsWellFormed, RenderFields, SkipSpace, AllSpace, StrictFields;
    if fields1 == [] || fields2 == [] {
      if fields1 != [] { FieldsStart(fields1, rest1); } else { CloseInContext(inner1, CLOSE_BRACE, rest1); }
      if fields2 != [] { FieldsStart(fields2, rest2); } else { CloseInContext(inner2, CLOSE_BRACE, rest2); }
      SpaceSame(inner1, [CLOSE_BRACE] + rest1, inner2, [CLOSE_BRACE] + rest2);
    } else {
      FieldsSame(fields1, rest1, fields2, rest2);
    }
  }

  lemma FirstFieldText(fields: seq<Field>, rest: Text) returns (u: Unit, more: Text)
    requires fields != [] && FieldsWellFormed(fields)
    ensures FieldWellFormed(fields[0]) && FieldsWellFormed(fields[1..])
    ensures RenderFields(fields) + rest == RenderField(fields[0]) + ([u] + more)
    ensures u == (if |fields| == 1 then CLOSE_BRACE else COMMA) && more == if |fields| == 1 then rest else RenderFields(fields[1..]) + rest
  {
    hide RenderField, RenderFields, FieldWellFormed;
    u := if |fields| == 1 then CLOSE_BRACE else COMMA;
    more := if |fields| == 1 then rest else RenderFields(fields[1..]) + rest;
    FieldsText(fields, rest);
  }

  lemma {:induction false} FieldsSame(fields1: seq<Field>, rest1: Text, fields2: seq<Field>, rest2: Text)
    requires fields1 != [] && fields2 != [] && FieldsWellFormed(fields1) && FieldsWellFormed(fields2)
    requires RenderFields(fields1) + rest1 == RenderFields(fields2) + rest2
    ensures rest1 == rest2 && (StrictFields(fields1) <==> StrictFields(fields2))
    decreases fields1, 0
  {
    hide FieldWellFormed, FieldsWellFormed, RenderField, RenderFields, StrictField;
    var u1, more1 := FirstFieldText(fields1, rest1);
    var u2, more2 := FirstFieldText(fields2, rest2);
    FieldSame(fields1[0], u1, more1, fields2[0], u2, more2);
    if |fields1| > 1 {
      FieldsSame(fields1[1..], rest1, fields2[1..], rest2);
    } else {
      assert fields1[1..] == [] && fields2[1..] == [];
    }
  }

  lemma {:induction false} FieldSame(f1: Field, u1: Unit, more1: Text, f2: Field, u2: Unit, more2: Text)
    requires FieldWellFormed(f1) && FieldWellFormed(f2) && Delimiter(u1) && Delimiter(u2)
    requires RenderField(f1) + ([u1] + more1) == RenderField(f2) + ([u2] + more2)
    ensures u1 == u2 && more1 == more2 && (StrictField(f1) <==> StrictField(f2))
    decreases f1, 2
  {
    hide AllSpace, ItemWellFormed, RenderItem, StrictItem, Strict, DecodeString, ScanString, Quoted;
    var value1, value2 := RenderItem(f1.item) + ([u1] + more1), RenderItem(f2.item) + ([u2] + more2);
    var after1, after2 := f1.beforeColon + ([COLON] + value1), f2.beforeColon + ([COLON] + value2);
    EntryText(f1, u1, more1);
    EntryText(f2, u2, more2);
    SpaceSame(f1.before, Quoted(f1.key) + after1, f2.before, Quoted(f2.key) + after2);
    KeySame(f1.key, after1, f2.key, after2);
    SpaceSame(f1.beforeColon, [COLON] + value1, f2.beforeColon, [COLON] + value2);
    assert ([COLON] + value1)[1..] == value1 && ([COLON] + value2)[1..] == value2;
    ItemSame(f1.item, u1, more1, f2.item, u2, more2);
  }

  lemma EntryText(f: Field, u: Unit, more: Text)
    ensures var after := f.beforeColon + ([COLON] + (RenderItem(f.item) + ([u] + more)));
            && RenderField(f) + ([u] + more) == f.before + (Quoted(f.key) + after)
            && StartsWith(Quoted(f.key) + after, QUOTE) && !IsSpace(QUOTE) && !IsSpace(COLON)
  {
    hide RenderItem;
  }

  lemma KeySame(key1: Text, after1: Text, key2: Text, after2: Text)
    requires DecodeString(key1).Some? && DecodeString(key2).Some?
    requires Quoted(key1) + after1 == Quoted(key2) + after2
    ensures after1 == after2
  {
    hide Follow;
    var text := Quoted(key1) + after1;
    StringEnd(key1, after1);
    StringEnd(key2, after2);
    assert after1 == text[|key1| + 2..] && after2 == text[|key2| + 2..];
  }

  lemma {:induction false} StringEnd(key: Text, after: Text)
    requires DecodeString(key).Some?
    ensures ScanString((Quoted(key) + after)[1..]) == Some(|key|)
  {
    hide DecodeString, ScanString, Quoted;
    ScanInContext(key, [QUOTE] + after);
    LiteralText(key, after);
  }

  lemma LiteralText(key: Text, after: Text)
    ensures (Quoted(key) + after)[1..] == key + ([QUOTE] + after)
  {
  }

  // ---------- which accepted texts are JSON ----------

  /** An accepted text is JSON exactly if the white space of its layout is that of JSON. */
  lemma JsonExactly(item: Item)
    requires ItemWellFormed(item)
    ensures IsJson(RenderItem(item)) <==> StrictItem(item)
  {
    hide ItemWellFormed, StrictItem, RenderItem, TokensOk;
    StrictItemWellFormed(item);
    if other: Item :| TokensOk(other.doc) && StrictItem(other) && RenderItem(other) == RenderItem(item) {
      StrictItemWellFormed(other);
      var text := RenderItem(item) + ([COMMA] + []);
      ItemSame(item, COMMA, [], other, COMMA, []);
    }
  }

  /** A no-break space in front of a value is accepted, although it is not JSON. */
  lemma AcceptedButNotJson()
    ensures ParseDocument([0xA0] + NULL_TEXT) == Ok(Null) && !IsJson([0xA0] + NULL_TEXT)
  {
    var item := Item([0xA0], DNull, []);
    DocumentRoundTrip(item);
    assert RenderItem(item) == [0xA0] + NULL_TEXT;
    JsonExactly(item);
    assert !IsJsonSpace(item.before[0]);
  }
}
