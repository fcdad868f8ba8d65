/**
 The vocabulary of the strict JSON parser in code points: its delimiters and literals, the white space it
 skips, and the string literals it decodes (browser/src/manifest.ts, `StrictJsonParser`; RFC 8259,
 section 7).
 */
module JsonTokens {
  import opened Wrappers
  import opened Numbers
  import opened StrictJson

  /** The units of a text in the Basic Latin block. */
  function Units(s: string): Text
    requires forall i :: 0 <= i < |s| ==> s[i] < 128 as char
  {
    seq(|s|, i requires 0 <= i < |s| => s[i] as int)
  }

  lemma Vocabulary()
    ensures [QUOTE, COMMA, COLON, BACKSLASH, MINUS] == Units("\",:\\-")
    ensures [OPEN_BRACKET, CLOSE_BRACKET, OPEN_BRACE, CLOSE_BRACE] == Units("[]{}")
    ensures [ZERO, NINE] == Units("09")
    ensures TRUE_TEXT == Units("true") && FALSE_TEXT == Units("false") && NULL_TEXT == Units("null")
    ensures PROTO == Units("__proto__")
    ensures SAFE_INTEGER_MAX == 0x20_0000_0000_0000 - 1
  {
  }

  /** White space: the ASCII controls from tab to carriage return, the space, and the Unicode separators. */
  lemma SpaceUnits(u: Unit)
    ensures IsSpace(u) <==>
              u in [0x09, 0x0A, 0x0B, 0x0C, 0x0D, 0x20, 0xA0, 0x1680, 0x2000, 0x2001, 0x2002, 0x2003, 0x2004, 0x2005, 0x2006,
                    0x2007, 0x2008, 0x2009, 0x200A, 0x2028, 0x2029, 0x202F, 0x205F, 0x3000, 0xFEFF]
  {
  }

  // ---------- string literals ----------

  /** A piece of a string literal: a unit for itself, a two-unit escape, or four hexadecimal digits. */
  datatype Piece = Plain(unit: Unit) | Short(letter: Unit) | Numeric(h1: Unit, h2: Unit, h3: Unit, h4: Unit)

  /** What a letter stands for behind a backslash. */
  function ShortMeaning(letter: Unit): Option<Unit>
  {
    if letter == 0x22 then Some(0x22)
    else if letter == 0x5C then Some(0x5C)
    else if letter == 0x2F then Some(0x2F)
    else if letter == 0x62 then Some(0x08)
    else if letter == 0x66 then Some(0x0C)
    else if letter == 0x6E then Some(0x0A)
    else if letter == 0x72 then Some(0x0D)
    else if letter == 0x74 then Some(0x09)
    else None
  }

  function Hex(u: Unit): (d: Option<int>)
    ensures d.Some? ==> 0 <= d.value < 16
  {
    if 0x30 <= u <= 0x39 then Some(u - 0x30)
    else if 0x41 <= u <= 0x46 then Some(u - 0x37)
    else if 0x61 <= u <= 0x66 then Some(u - 0x57)
    else None
  }

  predicate Legal(p: Piece)
  {
    match p
    case Plain(u) => u >= 0x20 && u != 0x22 && u != 0x5C
    case Short(letter) => ShortMeaning(letter).Some?
    case Numeric(h1, h2, h3, h4) => Hex(h1).Some? && Hex(h2).Some? && Hex(h3).Some? && Hex(h4).Some?
  }

  function Spell(p: Piece): Text
  {
    match p
    case Plain(u) => [u]
    case Short(letter) => [0x5C, letter]
    case Numeric(h1, h2, h3, h4) => [0x5C, 0x75, h1, h2, h3, h4]
  }

  function Meaning(p: Piece): Unit
    requires Legal(p)
  {
    match p
    case Plain(u) => u
    case Short(letter) => ShortMeaning(letter).value
    case Numeric(h1, h2, h3, h4) => 4096 * Hex(h1).value + 256 * Hex(h2).value + 16 * Hex(h3).value + Hex(h4).value
  }

  predicate AllLegal(ps: seq<Piece>)
  {
    forall i :: 0 <= i < |ps| ==> Legal(ps[i])
  }

  function SpellAll(ps: seq<Piece>): Text
  {
    if ps == [] then [] else Spell(ps[0]) + SpellAll(ps[1..])
  }

  function MeaningAll(ps: seq<Piece>): Text
    requires AllLegal(ps)
  {
    if ps == [] then [] else [Meaning(ps[0])] + MeaningAll(ps[1..])
  }

  lemma FirstPiece(p: Piece, rest: Text)
    requires Legal(p)
    ensures DecodeString(Spell(p) + rest) == Prepend(Meaning(p), DecodeString(rest))
  {
    hide Hex;
    var body := Spell(p) + rest;
    match p {
      case Plain(_) => assert body[1..] == rest;
      case Short(_) => assert body[2..] == rest;
      case Numeric(h1, h2, h3, h4) =>
        assert body[2..] == [h1, h2, h3, h4] + rest && body[6..] == rest;
        NumericMeaning(h1, h2, h3, h4, rest);
    }
  }

  lemma NumericMeaning(h1: Unit, h2: Unit, h3: Unit, h4: Unit, rest: Text)
    requires Legal(Numeric(h1, h2, h3, h4))
    ensures HexUnit([h1, h2, h3, h4] + rest) == Some(Meaning(Numeric(h1, h2, h3, h4)))
  {
    HexAgrees(h1);
    HexAgrees(h2);
    HexAgrees(h3);
    HexAgrees(h4);
    hide Hex, HexValue;
  }

  lemma HexAgrees(u: Unit)
    ensures HexValue(u) == Hex(u)
  {
  }

  lemma {:induction false} SpelledDecodes(ps: seq<Piece>)
    requires AllLegal(ps)
    ensures DecodeString(SpellAll(ps)) == Some(MeaningAll(ps))
  {
    hide DecodeString, Meaning, Spell, Legal;
    if ps == [] {
      EmptyDecodes();
    } else {
      SpelledDecodes(ps[1..]);
      FirstPiece(ps[0], SpellAll(ps[1..]));
    }
  }

  lemma EmptyDecodes()
    ensures DecodeString([]) == Some([])
  {
  }

  lemma {:induction false} DecodedIsSpelled(body: Text) returns (ps: seq<Piece>)
    requires DecodeString(body).Some?
    ensures AllLegal(ps) && SpellAll(ps) == body
    decreases |body|
  {
    hide DecodeString, Spell, Legal;
    ps := [];
    if body != [] {
      var p := LeadingPiece(body);
      var rest := DecodedIsSpelled(body[|Spell(p)|..]);
      ps := [p] + rest;
      assert body == body[..|Spell(p)|] + body[|Spell(p)|..];
    }
  }

  lemma LeadingPiece(body: Text) returns (p: Piece)
    requires DecodeString(body).Some? && body != []
    ensures Legal(p) && 0 < |Spell(p)| <= |body| && Spell(p) == body[..|Spell(p)|]
    ensures DecodeString(body[|Spell(p)|..]).Some?
  {
    hide HexUnit, Hex, HexValue;
    if body[0] != 0x5C {
      p := Plain(body[0]);
    } else if SimpleEscape(body[1]).Some? {
      p := Short(body[1]);
    } else {
      NumericLegal(body[2..]);
      p := Numeric(body[2], body[3], body[4], body[5]);
    }
  }

  lemma NumericLegal(s: Text)
    requires HexUnit(s).Some?
    ensures |s| >= 4 && Legal(Numeric(s[0], s[1], s[2], s[3]))
  {
    HexAgrees(s[0]);
    HexAgrees(s[1]);
    HexAgrees(s[2]);
    HexAgrees(s[3]);
  }

  /** A string literal is decoded to a text exactly if it spells that text piece by piece. */
  lemma DecodesExactly(body: Text, text: Text)
    ensures DecodeString(body) == Some(text) <==> exists ps :: AllLegal(ps) && SpellAll(ps) == body && MeaningAll(ps) == text
  {
    hide DecodeString, SpellAll, MeaningAll;
    if DecodeString(body) == Some(text) {
      var ps := DecodedIsSpelled(body);
      SpelledDecodes(ps);
    }
    if ps :| AllLegal(ps) && SpellAll(ps) == body && MeaningAll(ps) == text {
      SpelledDecodes(ps);
    }
  }

  // ---------- how malformed texts are told apart ----------

  lemma RejectedTrailing()
    ensures ParseDocument(Units("1 1")) == Err(TrailingInput)
  {
    var t := Units("1 1");
    assert t == [0x31, 0x20, 0x31] && t[1..] == [0x20, 0x31] && t[1..][1..] == [0x31];
    assert ParseAtom(t).rest == t[1..];
  }

  lemma RejectedSeparator()
    ensures ParseDocument(Units("[[]1")) == Err(MissingComma)
  {
    var u, t: Text := Units("[[]1"), [0x5B, 0x5D, 0x31];
    assert u == [0x5B, 0x5B, 0x5D, 0x31] && u[1..] == t;
    assert t[1..] == [0x5D, 0x31] && t[1..][1..] == [0x31];
    assert ParseValue(t) == Yes(Arr([]), [0x31]);
    hide ParseValue;
    ElementsStep(t, []);
  }

  lemma RejectedToken()
    ensures ParseDocument(Units("x")) == Err(UnexpectedToken)
  {
    assert Units("x") == [0x78];
  }

  lemma RejectedOpenString()
    ensures ParseDocument(Units("\"")) == Err(UnterminatedString)
  {
    var t := Units("\"");
    assert t == [0x22] && t[1..] == [];
  }

  lemma RejectedEscape()
    ensures ParseDocument(Units("\"\\x\"")) == Err(InvalidString)
  {
    var t := Units("\"\\x\"");
    assert t == [0x22, 0x5C, 0x78, 0x22] && t[1..] == [0x5C, 0x78, 0x22] && t[1..][2..] == [0x22];
    assert t[1..3] == [0x5C, 0x78];
  }

  lemma RejectedKey()
    ensures ParseDocument(Units("{1")) == Err(KeyNotString)
  {
    var t := Units("{1");
    assert t == [0x7B, 0x31] && t[1..] == [0x31];
  }

  lemma RejectedColon()
    ensures ParseDocument(Units("{\"\"")) == Err(MissingColon)
  {
    var t := Units("{\"\"");
    assert t == [0x7B, 0x22, 0x22] && t[1..] == [0x22, 0x22] && t[1..][1..] == [0x22] && t[1..][2..] == [];
    assert t[1..][1..1] == [];
  }

  /** A number beyond the portable range is told apart from a token that is no number. */
  lemma RejectedNumber(s: Text)
    requires s != [] && (s[0] == 0x2D || 0x30 <= s[0] <= 0x39) && MatchNumber(s) > 0
    requires !(-0x1F_FFFF_FFFF_FFFF <= NumberValue(s[..MatchNumber(s)]) <= 0x1F_FFFF_FFFF_FFFF)
    ensures ParseDocument(s) == Err(NotPortable)
  {
    hide MatchNumber, NumberValue;
    assert SkipSpace(s) == s;
  }
}
