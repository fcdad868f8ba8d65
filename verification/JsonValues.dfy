/**
 Every value tree of the subset has a document, so the round trip of `JsonDocuments` covers all of
 them: null, booleans, portable integers, strings, arrays, and objects with distinct keys. A tree
 comes back unchanged exactly if none of its objects has the key `__proto__`.
 */
module JsonValues {
  import opened Wrappers
  import opened Numbers
  import opened StrictJson
  import opened JsonDocuments

  /** Portable integers only. */
  predicate Portable(v: Json)
    decreases v, 0
  {
    match v
    case Int(n) => -SAFE_INTEGER_MAX <= n <= SAFE_INTEGER_MAX
    case Arr(elements) => PortableAll(elements)
    case Obj(members) => PortableMembers(members)
    case _ => true
  }

  predicate PortableAll(vs: seq<Json>)
    decreases vs, 0
  {
    vs == [] || (Portable(vs[0]) && PortableAll(vs[1..]))
  }

  predicate PortableMembers(ms: seq<Member>)
    decreases ms, 0
  {
    ms == [] || (Portable(ms[0].value) && PortableMembers(ms[1..]))
  }

  /** Objects with distinct keys at every depth. */
  ghost predicate PlainObjects(v: Json)
    decreases v, 0
  {
    match v
    case Arr(elements) => PlainAll(elements)
    case Obj(members) =>
      KeysDistinct(members) && PlainMembers(members)
    case _ => true
  }

  ghost predicate PlainAll(vs: seq<Json>)
    decreases vs, 0
  {
    vs == [] || (PlainObjects(vs[0]) && PlainAll(vs[1..]))
  }

  ghost predicate PlainMembers(ms: seq<Member>)
    decreases ms, 0
  {
    ms == [] || (PlainObjects(ms[0].value) && PlainMembers(ms[1..]))
  }

  // ---------- the key that is not stored ----------

  /** No object at any depth has the key `__proto__`. */
  predicate NoProto(v: Json)
    decreases v, 0
  {
    match v
    case Arr(elements) => NoProtoAll(elements)
    case Obj(members) => NoProtoMembers(members)
    case _ => true
  }

  predicate NoProtoAll(vs: seq<Json>)
    decreases vs, 0
  {
    vs == [] || (NoProto(vs[0]) && NoProtoAll(vs[1..]))
  }

  predicate NoProtoMembers(ms: seq<Member>)
    decreases ms, 0
  {
    ms == [] || (IsOwn(ms[0]) && NoProto(ms[0].value) && NoProtoMembers(ms[1..]))
  }

  /** The tree without the entries that set a prototype. */
  function Stored(v: Json): Json
    decreases v, 0
  {
    match v
    case Arr(elements) => Arr(StoredAll(elements))
    case Obj(members) => Obj(Own(StoredMembers(members)))
    case _ => v
  }

  function StoredAll(vs: seq<Json>): seq<Json>
    decreases vs, 0
  {
    if vs == [] then [] else [Stored(vs[0])] + StoredAll(vs[1..])
  }

  function StoredMembers(ms: seq<Member>): (r: seq<Member>)
    ensures |r| == |ms|
    decreases ms, 0
  {
    if ms == [] then [] else [Member(ms[0].key, Stored(ms[0].value))] + StoredMembers(ms[1..])
  }

  lemma {:induction false} StoredSame(v: Json)
    ensures Stored(v) == v <==> NoProto(v)
    decreases v, 0
  {
    match v {
      case Arr(elements) => AllSame(elements);
      case Obj(members) => MembersSame(members);
      case _ =>
    }
  }

  lemma {:induction false} AllSame(vs: seq<Json>)
    ensures StoredAll(vs) == vs <==> NoProtoAll(vs)
    decreases vs, 0
  {
    hide Stored, NoProto;
    if vs != [] {
      StoredSame(vs[0]);
      AllSame(vs[1..]);
      assert vs == [vs[0]] + vs[1..];
      assert StoredAll(vs)[1..] == StoredAll(vs[1..]);
    }
  }

  lemma {:induction false} MembersSame(ms: seq<Member>)
    ensures Own(StoredMembers(ms)) == ms <==> NoProtoMembers(ms)
    decreases ms, 0
  {
    hide Stored, NoProto;
    if ms != [] {
      StoredSame(ms[0].value);
      MembersSame(ms[1..]);
      var stored := StoredMembers(ms);
      assert stored[1..] == StoredMembers(ms[1..]);
      assert ms == [ms[0]] + ms[1..];
      if IsOwn(ms[0]) {
        assert Own(stored) == [stored[0]] + Own(stored[1..]);
        assert Own(stored)[1..] == Own(stored[1..]);
      } else {
        assert Own(stored) == Own(stored[1..]);
      }
    }
  }

  // ---------- a spelling for every value ----------

  function Digits(n: nat): (t: Text)
    ensures t != []
  {
    if n < 10 then [ZERO + n] else Digits(n / 10) + [ZERO + n % 10]
  }

  lemma {:induction false} DigitsSpell(n: nat)
    ensures DecimalToken(Digits(n)) && DecimalValue(Digits(n)) == n
    ensures n > 0 ==> Digits(n)[0] != ZERO
  {
    if n < 10 {
      assert Digits(n)[..0] == [];
    } else {
      DigitsSpell(n / 10);
      var t, init := Digits(n), Digits(n / 10);
      assert t[..|t| - 1] == init;
      assert t[0] == init[0];
    }
  }

  function SpellInt(n: int): Text
  {
    if n < 0 then [MINUS] + Digits(-n) else Digits(n)
  }

  lemma IntSpelled(n: int)
    requires -SAFE_INTEGER_MAX <= n <= SAFE_INTEGER_MAX
    ensures NumberToken(SpellInt(n)) && NumberJson(SpellInt(n)) == Int(n)
  {
    hide Digits;
    if n < 0 {
      DigitsSpell(-n);
      assert SpellInt(n)[1..] == Digits(-n);
    } else {
      DigitsSpell(n);
    }
  }

  lemma ZeroSpelled()
    ensures NumberToken([MINUS, ZERO]) && NumberJson([MINUS, ZERO]) == NegativeZero
  {
    var digits := [MINUS, ZERO][1..];
    assert digits == [ZERO] && digits[..0] == [];
    assert DecimalValue(digits) == 10 * DecimalValue(digits[..0]) + 0;
  }

  function HexDigit(d: int): (u: Unit)
    requires 0 <= d < 16
    ensures HexValue(u) == Some(d)
  {
    if d < 10 then ZERO + d else 0x61 + d - 10
  }

  /** A unit as a numeric escape, without the leading backslash and `u`. */
  function HexText(u: Unit): Text
  {
    var q := u / 16;
    var r := q / 16;
    [HexDigit(r / 16), HexDigit(r % 16), HexDigit(q % 16), HexDigit(u % 16)]
  }

  lemma HexTextReads(u: Unit, rest: Text)
    ensures HexUnit(HexText(u) + rest) == Some(u)
  {
    hide HexValue, HexDigit;
    var q := u / 16;
    var r := q / 16;
    var s := HexText(u) + rest;
    assert HexValue(s[0]) == Some(r / 16) && HexValue(s[1]) == Some(r % 16);
    assert HexValue(s[2]) == Some(q % 16) && HexValue(s[3]) == Some(u % 16);
  }

  function Escape(t: Text): Text
  {
    if t == [] then [] else [BACKSLASH, 0x75] + HexText(t[0]) + Escape(t[1..])
  }

  lemma {:induction false} EscapeDecodes(t: Text)
    ensures DecodeString(Escape(t)) == Some(t)
  {
    if t != [] {
      EscapeDecodes(t[1..]);
      hide HexText, HexUnit;
      var body := Escape(t);
      HexTextReads(t[0], Escape(t[1..]));
      assert |HexText(t[0])| == 4 by { HexTextLength(t[0]); }
      assert body[0] == BACKSLASH && body[1] == 0x75;
      assert body[2..] == HexText(t[0]) + Escape(t[1..]);
      assert body[6..] == Escape(t[1..]);
      assert [t[0]] + t[1..] == t;
    }
  }

  lemma HexTextLength(u: Unit)
    ensures |HexText(u)| == 4
  {
  }

  function Write(v: Json): Doc
    decreases v, 0
  {
    match v
    case Null => DNull
    case Bool(bit) => DBool(bit)
    case Int(n) => DNumber(SpellInt(n))
    case NegativeZero => DNumber([MINUS, ZERO])
    case Str(text) => DString(Escape(text))
    case Arr(elements) => DArray([], WriteAll(elements))
    case Obj(members) => DObject([], WriteMembers(members))
  }

  function WriteAll(vs: seq<Json>): (r: seq<Item>)
    decreases vs, 0
  {
    if vs == [] then [] else [Item([], Write(vs[0]), [])] + WriteAll(vs[1..])
  }

  function WriteMembers(ms: seq<Member>): (r: seq<Field>)
    ensures |r| == |ms|
    decreases ms, 0
  {
    if ms == [] then [] else [WriteMember(ms[0])] + WriteMembers(ms[1..])
  }

  function WriteMember(m: Member): Field
    decreases m, 1
  {
    Field([], Escape(m.key), [], Item([], Write(m.value), []))
  }

  lemma {:induction false} WrittenWell(v: Json)
    requires Portable(v)
    ensures WellFormed(Write(v)) && ValueOf(Write(v)) == Stored(v)
    ensures PlainObjects(v) ==> UniqueKeys(Write(v))
    decreases v, 0
  {
    hide SpellInt, Escape, DecodeString, NumberToken, NumberJson;
    match v {
      case Null =>
      case Bool(_) =>
      case Int(n) => IntSpelled(n);
      case NegativeZero => ZeroSpelled();
      case Str(text) => EscapeDecodes(text);
      case Arr(elements) =>
        WrittenAll(elements);
        EmptyIsSpace();
      case Obj(members) =>
        WrittenMembers(members);
        WrittenKeys(members);
        EmptyIsSpace();
    }
  }

  lemma {:induction false} WrittenAll(vs: seq<Json>)
    requires PortableAll(vs)
    ensures ItemsWellFormed(WriteAll(vs)) && ItemValues(WriteAll(vs)) == StoredAll(vs)
    ensures PlainAll(vs) ==> ItemsUnique(WriteAll(vs))
    decreases vs, 0
  {
    hide Portable, PlainObjects, WellFormed, ValueOf, UniqueKeys, Write, Stored;
    if vs != [] {
      WrittenWell(vs[0]);
      WrittenAll(vs[1..]);
      var items := WriteAll(vs);
      assert items[0] == Item([], Write(vs[0]), []) && items[1..] == WriteAll(vs[1..]);
      EmptyIsSpace();
    }
  }

  lemma {:induction false} WrittenMembers(ms: seq<Member>)
    requires PortableMembers(ms)
    ensures FieldsWellFormed(WriteMembers(ms)) && FieldMembers(WriteMembers(ms)) == StoredMembers(ms)
    ensures PlainMembers(ms) ==> FieldsUnique(WriteMembers(ms))
    decreases ms, 0
  {
    hide Portable, PlainObjects, WellFormed, ValueOf, UniqueKeys, Write, Escape, DecodeString, Stored;
    if ms != [] {
      WrittenWell(ms[0].value);
      WrittenMembers(ms[1..]);
      EscapeDecodes(ms[0].key);
      EmptyIsSpace();
      var fields := WriteMembers(ms);
      assert fields[0] == WriteMember(ms[0]) && fields[1..] == WriteMembers(ms[1..]);
      assert MemberOf(fields[0]) == StoredMembers(ms)[0] && FieldWellFormed(fields[0]);
    }
  }

  lemma WrittenKeys(ms: seq<Member>)
    ensures KeysDistinct(ms) ==> DistinctKeys(WriteMembers(ms))
  {
    hide Escape, DecodeString, Write;
    forall i | 0 <= i < |ms| ensures TextOf(WriteMembers(ms)[i].key) == ms[i].key {
      WrittenAt(ms, i);
      EscapeDecodes(ms[i].key);
    }
  }

  lemma {:induction false} WrittenAt(ms: seq<Member>, i: nat)
    requires i < |ms|
    ensures WriteMembers(ms)[i] == WriteMember(ms[i])
  {
    if i > 0 { WrittenAt(ms[1..], i - 1); }
  }

  /**
   Parsing the spelling of a value tree returns it without the entries for `__proto__`, so it
   survives exactly if it has none.
   */
  lemma ValueRoundTrip(v: Json)
    requires Portable(v) && PlainObjects(v)
    ensures ParseDocument(Render(Write(v))) == Ok(Stored(v))
    ensures ParseDocument(Render(Write(v))) == Ok(v) <==> NoProto(v)
  {
    hide Portable, PlainObjects, Render, Write, WellFormed, UniqueKeys, ValueOf, ParseDocument, Stored, NoProto;
    WrittenWell(v);
    StoredSame(v);
    EmptyIsSpace();
    var item := Item([], Write(v), []);
    DocumentRoundTrip(item);
    assert RenderItem(item) == Render(Write(v));
  }

  /** An object with the single entry `__proto__` comes back empty. */
  lemma ProtoIsLost()
    ensures var v := Obj([Member(PROTO, Int(0))]);
            Portable(v) && PlainObjects(v) && ParseDocument(Render(Write(v))) == Ok(Obj([]))
  {
    var ms := [Member(PROTO, Int(0))];
    assert ms[1..] == [];
    assert PortableMembers([]) && Portable(ms[0].value) && PortableMembers(ms);
    assert PlainMembers([]) && PlainObjects(ms[0].value) && PlainMembers(ms);
    ValueRoundTrip(Obj(ms));
    assert StoredMembers(ms) == ms;
  }

  ghost predicate KeysDistinct(ms: seq<Member>)
  {
    forall i, j :: 0 <= i < j < |ms| ==> ms[i].key != ms[j].key
  }

  lemma {:induction false} OwnKeeps(ms: seq<Member>)
    requires PortableMembers(ms) && PlainMembers(ms) && KeysDistinct(ms) && OwnValues(ms)
    ensures PortableMembers(Own(ms)) && PlainMembers(Own(ms)) && NoProtoMembers(Own(ms)) && KeysDistinct(Own(ms))
    ensures forall m :: m in Own(ms) ==> m in ms
  {
    hide Portable, PlainObjects, NoProto;
    if ms != [] {
      OwnKeeps(ms[1..]);
      assert ms[0] !in ms[1..];
      if IsOwn(ms[0]) {
        var r := Own(ms);
        assert r[0] == ms[0] && r[1..] == Own(ms[1..]);
        forall j | 0 < j < |r| ensures r[j].key != ms[0].key {
          assert r[j] in r[1..];
        }
      } else {
        assert Own(ms) == Own(ms[1..]);
      }
    }
  }

  /** No value of the entries has the key `__proto__` inside. */
  predicate OwnValues(ms: seq<Member>)
  {
    ms == [] || (NoProto(ms[0].value) && OwnValues(ms[1..]))
  }

  /** Whatever the parser returns is such a tree. */
  lemma {:induction false} ParsedIsPortable(doc: Doc)
    requires WellFormed(doc) && UniqueKeys(doc)
    ensures Portable(ValueOf(doc)) && PlainObjects(ValueOf(doc)) && NoProto(ValueOf(doc))
    decreases doc, 0
  {
    hide NumberValue, DecodeString, TextOf, Own;
    match doc {
      case DArray(_, items) => ItemsPortable(items);
      case DObject(_, fields) =>
        FieldsPortable(fields);
        MembersDistinct(fields);
        OwnKeeps(FieldMembers(fields));
      case _ =>
    }
  }

  lemma {:induction false} ItemsPortable(items: seq<Item>)
    requires ItemsWellFormed(items) && ItemsUnique(items)
    ensures PortableAll(ItemValues(items)) && PlainAll(ItemValues(items)) && NoProtoAll(ItemValues(items))
    decreases items, 0
  {
    hide Portable, PlainObjects, NoProto, ValueOf, WellFormed, UniqueKeys;
    if items != [] {
      ParsedIsPortable(items[0].doc);
      ItemsPortable(items[1..]);
      assert ItemValues(items)[1..] == ItemValues(items[1..]);
    }
  }

  lemma {:induction false} FieldsPortable(fields: seq<Field>)
    requires FieldsWellFormed(fields) && FieldsUnique(fields)
    ensures PortableMembers(FieldMembers(fields)) && PlainMembers(FieldMembers(fields)) && OwnValues(FieldMembers(fields))
    decreases fields, 0
  {
    hide Portable, PlainObjects, NoProto, ValueOf, WellFormed, UniqueKeys, TextOf, DecodeString;
    if fields != [] {
      assert FieldWellFormed(fields[0]) && ItemWellFormed(fields[0].item);
      ParsedIsPortable(fields[0].item.doc);
      FieldsPortable(fields[1..]);
      assert FieldMembers(fields)[1..] == FieldMembers(fields[1..]);
    }
  }

  lemma MembersDistinct(fields: seq<Field>)
    requires DistinctKeys(fields)
    ensures KeysDistinct(FieldMembers(fields))
  {
    hide TextOf, ValueOf;
    MembersLength(fields);
    var ms := FieldMembers(fields);
    forall i | 0 <= i < |ms| ensures ms[i].key == TextOf(fields[i].key) {
      MemberAt(fields, i);
    }
  }

  lemma {:induction false} MembersLength(fields: seq<Field>)
    ensures |FieldMembers(fields)| == |fields|
  {
    if fields != [] { MembersLength(fields[1..]); }
  }

  lemma {:induction false} MemberAt(fields: seq<Field>, i: nat)
    requires i < |fields| && i < |FieldMembers(fields)|
    ensures FieldMembers(fields)[i] == MemberOf(fields[i])
  {
    if i > 0 {
      MemberAt(fields[1..], i - 1);
    }
  }

  /** The values the parser can return are exactly the portable trees with distinct keys, none of them `__proto__`. */
  lemma AcceptedValues(v: Json)
    ensures Portable(v) && PlainObjects(v) && NoProto(v) <==> exists text :: ParseDocument(text) == Ok(v)
  {
    hide Portable, PlainObjects, NoProto, ParseDocument, Render, Write, WellFormed, UniqueKeys, ValueOf, RenderItem;
    if Portable(v) && PlainObjects(v) && NoProto(v) { ValueRoundTrip(v); }
    if text :| ParseDocument(text) == Ok(v) {
      AcceptsExactlyRenderings(text, v);
      var item :| ItemWellFormed(item) && UniqueKeys(item.doc) && ValueOf(item.doc) == v && RenderItem(item) == text;
      ParsedIsPortable(item.doc);
    }
  }
}
