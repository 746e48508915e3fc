/**
 Hardening JSON text for an inline script element: six characters are replaced by their JSON escapes, and the text
 still means the same.
 */
module ScriptJson {
  import opened Wrappers

  type Code = c: int | 0 <= c <= 0x10FFFF

  type Text = seq<Code>

  const QUOTE: Code := 0x22
  const BACKSLASH: Code := 0x5C
  const LETTER_U: Code := 0x75

  predicate Unsafe(c: Code) {
    c == 0x3C || c == 0x3E || c == 0x26 || c == 0x27 || c == 0x2028 || c == 0x2029
  }

  /** The `uXXXX` of an unsafe character. */
  function Escape(c: Code): (escape: Text)
    requires Unsafe(c)
    ensures |escape| == 5 && forall e <- escape :: 0x30 <= e <= 0x75 && e != BACKSLASH && !Unsafe(e)
  {
    if c == 0x3C then [LETTER_U, 0x30, 0x30, 0x33, 0x63]
    else if c == 0x3E then [LETTER_U, 0x30, 0x30, 0x33, 0x65]
    else if c == 0x26 then [LETTER_U, 0x30, 0x30, 0x32, 0x36]
    else if c == 0x27 then [LETTER_U, 0x30, 0x30, 0x32, 0x37]
    else if c == 0x2028 then [LETTER_U, 0x32, 0x30, 0x32, 0x38]
    else [LETTER_U, 0x32, 0x30, 0x32, 0x39]
  }

  /** `_SCRIPT_UNSAFE_TRANSLATION`. */
  function Translation(c: Code): Text {
    if Unsafe(c) then [BACKSLASH] + Escape(c) else [c]
  }

  /** `str.translate`. */
  function Translated(text: Text, table: Code -> Text): Text {
    if text == [] then [] else Translated(text[..|text| - 1], table) + table(text[|text| - 1])
  }

  /** `script_safe_json_text`. */
  function ScriptSafe(text: Text): Text {
    Translated(text, Translation)
  }

  lemma {:induction false} UntranslatedStays(text: Text, table: Code -> Text)
    requires forall c <- text :: table(c) == [c]
    ensures Translated(text, table) == text
  {
    if text != [] {
      var rest := text[..|text| - 1];
      assert text[|text| - 1] in text && forall c <- rest :: c in text;
      UntranslatedStays(rest, table);
    }
  }

  // ---------------------------------------------------------------- what JSON text means

  /** A character of a string, and whether it was written as a `\u` escape. */
  datatype Unit = Unit(code: Code, escaped: bool)

  /** A character outside strings, or a decoded string. The value of a text is a function of its tokens. */
  datatype Token = Mark(c: Code) | Str(text: Text)

  datatype Lexer =
    | Outside(tokens: seq<Token>)
    | InString(tokens: seq<Token>, units: seq<Unit>)
    | AfterBackslash(tokens: seq<Token>, units: seq<Unit>)
    | InHex(tokens: seq<Token>, units: seq<Unit>, digits: nat, code: nat)
    | Invalid

  /** White space, structural characters, numbers and the letters of literal names: section 2 of RFC 8259. */
  predicate OutsideAllowed(c: Code) {
    || c == 0x20 || c == 0x09 || c == 0x0A || c == 0x0D
    || c == 0x5B || c == 0x5D || c == 0x7B || c == 0x7D || c == 0x3A || c == 0x2C
    || 0x30 <= c <= 0x39 || c == 0x2B || c == 0x2D || c == 0x2E
    || 0x61 <= c <= 0x7A || 0x41 <= c <= 0x5A
  }

  /** The two-character escapes: section 7 of RFC 8259. */
  function ShortEscape(c: Code): Option<Code> {
    if c == QUOTE || c == BACKSLASH || c == 0x2F then Some(c)
    else if c == 0x62 then Some(0x08)
    else if c == 0x66 then Some(0x0C)
    else if c == 0x6E then Some(0x0A)
    else if c == 0x72 then Some(0x0D)
    else if c == 0x74 then Some(0x09)
    else None
  }

  function HexValue(c: Code): (value: Option<nat>)
    ensures value.Some? ==> value.value < 16
  {
    if 0x30 <= c <= 0x39 then Some(c - 0x30)
    else if 0x61 <= c <= 0x66 then Some(c - 0x61 + 10)
    else if 0x41 <= c <= 0x46 then Some(c - 0x41 + 10)
    else None
  }

  predicate High(unit: Unit) {
    unit.escaped && 0xD800 <= unit.code <= 0xDBFF
  }

  predicate Low(unit: Unit) {
    unit.escaped && 0xDC00 <= unit.code <= 0xDFFF
  }

  /** An escaped surrogate pair is one character. */
  function Decoded(units: seq<Unit>): Text {
    if units == [] then []
    else if |units| >= 2 && High(units[0]) && Low(units[1]) then
      [0x10000 + (units[0].code - 0xD800) * 0x400 + (units[1].code - 0xDC00)] + Decoded(units[2..])
    else [units[0].code] + Decoded(units[1..])
  }

  function Step(s: Lexer, c: Code): Lexer {
    match s
    case Outside(tokens) =>
      if c == QUOTE then InString(tokens, [])
      else if OutsideAllowed(c) then Outside(tokens + [Mark(c)])
      else Invalid
    case InString(tokens, units) =>
      if c == QUOTE then Outside(tokens + [Str(Decoded(units))])
      else if c == BACKSLASH then AfterBackslash(tokens, units)
      else if c < 0x20 then Invalid
      else InString(tokens, units + [Unit(c, false)])
    case AfterBackslash(tokens, units) =>
      if c == LETTER_U then InHex(tokens, units, 0, 0)
      else if ShortEscape(c).Some? then InString(tokens, units + [Unit(ShortEscape(c).value, false)])
      else Invalid
    case InHex(tokens, units, digits, code) =>
      if HexValue(c).None? then Invalid
      else if digits < 3 then InHex(tokens, units, digits + 1, 16 * code + HexValue(c).value)
      else if 16 * code + HexValue(c).value > 0xFFFF then Invalid
      else InString(tokens, units + [Unit(16 * code + HexValue(c).value, true)])
    case Invalid => Invalid
  }

  function Lex(s: Lexer, text: Text): Lexer {
    if text == [] then s else Step(Lex(s, text[..|text| - 1]), text[|text| - 1])
  }

  /** The tokens of a text; none when it is not made of JSON tokens. */
  function Tokens(text: Text): Option<seq<Token>> {
    var end := Lex(Outside([]), text);
    if end.Outside? then Some(end.tokens) else None
  }

  // ---------------------------------------------------------------- escapes and what they stand for

  lemma {:induction false} LexConcat(s: Lexer, a: Text, b: Text)
    ensures Lex(s, a + b) == Lex(Lex(s, a), b)
  {
    if b == [] {
      assert a + b == a;
    } else {
      var rest := b[..|b| - 1];
      assert (a + b)[..|a + b| - 1] == a + rest;
      LexConcat(s, a, rest);
    }
  }

  predicate Hex(c: Code) {
    HexValue(c).Some?
  }

  lemma LexHex(tokens: seq<Token>, units: seq<Unit>, digits: nat, code: nat, c: Code, rest: Text)
    requires digits < 3 && Hex(c)
    ensures Lex(InHex(tokens, units, digits, code), [c] + rest)
         == Lex(InHex(tokens, units, digits + 1, 16 * code + HexValue(c).value), rest)
  {
    LexFirst(InHex(tokens, units, digits, code), c, rest);
  }

  /** Four hexadecimal digits after `\u` are one escaped unit. */
  lemma LexDigits(tokens: seq<Token>, units: seq<Unit>, a: Code, b: Code, c: Code, d: Code, code: Code)
    requires Hex(a) && Hex(b) && Hex(c) && Hex(d)
    requires code == 16 * (16 * (16 * HexValue(a).value + HexValue(b).value) + HexValue(c).value) + HexValue(d).value
    ensures Lex(InHex(tokens, units, 0, 0), [a] + ([b] + ([c] + [d]))) == InString(tokens, units + [Unit(code, true)])
  {
    var p := HexValue(a).value;
    var q := 16 * p + HexValue(b).value;
    LexHex(tokens, units, 0, 0, a, [b] + ([c] + [d]));
    LexHex(tokens, units, 1, p, b, [c] + [d]);
    LexHex(tokens, units, 2, q, c, [d]);
    LexOne(InHex(tokens, units, 3, 16 * q + HexValue(c).value), d);
  }

  lemma LexFirst(s: Lexer, c: Code, rest: Text)
    ensures Lex(s, [c] + rest) == Lex(Step(s, c), rest)
  {
    LexConcat(s, [c], rest);
    LexOne(s, c);
  }

  lemma LexOne(s: Lexer, c: Code)
    ensures Lex(s, [c]) == Step(s, c)
  {
    assert [c][..0] == [];
  }

  /** In a string an unsafe character and its escape are the same code. */
  lemma LexTranslation(tokens: seq<Token>, units: seq<Unit>, c: Code)
    requires Unsafe(c)
    ensures Lex(InString(tokens, units), Translation(c)) == InString(tokens, units + [Unit(c, true)])
  {
    var e := Escape(c);
    var digits := [e[1]] + ([e[2]] + ([e[3]] + [e[4]]));
    assert e == [LETTER_U] + digits;
    LexFirst(InString(tokens, units), BACKSLASH, e);
    LexFirst(AfterBackslash(tokens, units), LETTER_U, digits);
    LexDigits(tokens, units, e[1], e[2], e[3], e[4], c);
  }

  predicate Surrogate(c: Code) {
    0xD800 <= c <= 0xDFFF
  }

  /** The same characters, and no surrogate escaped in one and literal in the other. */
  predicate SameUnits(a: seq<Unit>, b: seq<Unit>) {
    |a| == |b| && forall i | 0 <= i < |a| ::
      a[i].code == b[i].code && (Surrogate(a[i].code) ==> a[i].escaped == b[i].escaped)
  }

  lemma {:induction false} SameUnitsDecodeAlike(a: seq<Unit>, b: seq<Unit>)
    requires SameUnits(a, b)
    ensures Decoded(a) == Decoded(b)
    decreases |a|
  {
    if a != [] {
      SameUnitsDecodeAlike(a[1..], b[1..]);
      if |a| >= 2 {
        assert High(a[0]) == High(b[0]) && Low(a[1]) == Low(b[1]);
        SameUnitsDecodeAlike(a[2..], b[2..]);
      }
    }
  }

  predicate Alike(s: Lexer, r: Lexer) {
    match s
    case Outside(tokens) => r == s
    case InString(tokens, units) => r.InString? && r.tokens == tokens && SameUnits(units, r.units)
    case AfterBackslash(tokens, units) => r.AfterBackslash? && r.tokens == tokens && SameUnits(units, r.units)
    case InHex(tokens, units, digits, code) =>
      r.InHex? && r.tokens == tokens && SameUnits(units, r.units) && r.digits == digits && r.code == code
    case Invalid => true
  }

  lemma AlikeStep(s: Lexer, r: Lexer, c: Code)
    requires Alike(s, r)
    ensures Alike(Step(s, c), Step(r, c))
  {
    if s.InString? {
      SameUnitsDecodeAlike(s.units, r.units);
    }
  }

  /** A text is valid for a grammar of tokens, and has the value the grammar gives its tokens. */
  function Decode<V>(grammar: seq<Token> -> Option<V>, text: Text): Option<V> {
    if Tokens(text).Some? then grammar(Tokens(text).value) else None
  }

  lemma TranslationIsSafe(c: Code)
    ensures forall t <- Translation(c) :: !Unsafe(t)
  {
  }

  /** None of the six characters survives, in any text. */
  lemma {:induction false} RewriteIsSafe(text: Text)
    ensures forall c <- ScriptSafe(text) :: !Unsafe(c)
  {
    if text != [] {
      RewriteIsSafe(text[..|text| - 1]);
      TranslationIsSafe(text[|text| - 1]);
    }
  }

  /** The rewrite is idempotent, and leaves exactly the texts without unsafe characters alone. */
  lemma RewriteIsIdempotent(text: Text)
    ensures ScriptSafe(ScriptSafe(text)) == ScriptSafe(text)
    ensures ScriptSafe(text) == text <==> forall c <- text :: !Unsafe(c)
  {
    RewriteIsSafe(text);
    UntranslatedStays(ScriptSafe(text), Translation);
    if forall c <- text :: !Unsafe(c) {
      UntranslatedStays(text, Translation);
    }
  }

  // ---------------------------------------------------------------- what the rewrite means

  /** Somewhere an unsafe character stands right after an escaping backslash. */
  predicate EscapesUnsafe(text: Text) {
    exists i | 0 <= i < |text| :: Unsafe(text[i]) && Lex(Outside([]), text[..i]).AfterBackslash?
  }

  /** The units of characters that stand for themselves. */
  function Literal(text: Text): seq<Unit> {
    seq(|text|, i requires 0 <= i < |text| => Unit(text[i], false))
  }

  /**
   A lexer that accepts an escaped unsafe character: it reads the six characters of its escape, backslash included,
   as they stand. Everything else it reads as JSON.
   */
  function LenientStep(s: Lexer, c: Code): Lexer {
    if s.AfterBackslash? && Unsafe(c) then InString(s.tokens, s.units + Literal(Translation(c))) else Step(s, c)
  }

  function LenientLex(s: Lexer, text: Text): Lexer {
    if text == [] then s else LenientStep(LenientLex(s, text[..|text| - 1]), text[|text| - 1])
  }

  function LenientTokens(text: Text): Option<seq<Token>> {
    var end := LenientLex(Outside([]), text);
    if end.Outside? then Some(end.tokens) else None
  }

  predicate AlikeOrBothInvalid(s: Lexer, r: Lexer) {
    Alike(s, r) && (s.Invalid? ==> r.Invalid?)
  }

  lemma {:induction false} InvalidStays(text: Text)
    ensures Lex(Invalid, text) == Invalid
  {
    if text != [] {
      InvalidStays(text[..|text| - 1]);
    }
  }

  lemma {:induction false} LexLiteral(tokens: seq<Token>, units: seq<Unit>, text: Text)
    requires forall c <- text :: c >= 0x20 && c != QUOTE && c != BACKSLASH
    ensures Lex(InString(tokens, units), text) == InString(tokens, units + Literal(text))
  {
    if text == [] {
      assert units + [] == units;
    } else {
      var rest, last := text[..|text| - 1], text[|text| - 1];
      assert last in text && forall c <- rest :: c in text;
      LexLiteral(tokens, units, rest);
      assert units + Literal(text) == units + Literal(rest) + [Unit(last, false)];
    }
  }

  /** After a backslash the escape of an unsafe character is that backslash and plain text. */
  lemma LexEscaped(tokens: seq<Token>, units: seq<Unit>, c: Code)
    requires Unsafe(c)
    ensures Lex(AfterBackslash(tokens, units), Translation(c))
         == InString(tokens, units + Literal(Translation(c)))
  {
    LexFirst(AfterBackslash(tokens, units), BACKSLASH, Escape(c));
    LexLiteral(tokens, units + [Unit(BACKSLASH, false)], Escape(c));
    assert units + Literal(Translation(c)) == units + [Unit(BACKSLASH, false)] + Literal(Escape(c));
  }

  lemma UnsafeIsLenient(s: Lexer, r: Lexer, c: Code)
    requires AlikeOrBothInvalid(s, r) && Unsafe(c)
    ensures AlikeOrBothInvalid(LenientStep(s, c), Lex(r, Translation(c)))
  {
    if s.InString? {
      LexTranslation(r.tokens, r.units, c);
    } else if s.AfterBackslash? {
      LexEscaped(r.tokens, r.units, c);
      LiteralsAreAlike(s.units, r.units, Translation(c));
    } else {
      UnsafeIsInvalid(s, r, c);
    }
  }

  /** Outside strings, and among hexadecimal digits, neither the character nor its escape is JSON. */
  lemma UnsafeIsInvalid(s: Lexer, r: Lexer, c: Code)
    requires AlikeOrBothInvalid(s, r) && Unsafe(c) && !s.InString? && !s.AfterBackslash?
    ensures Step(s, c) == Invalid == Lex(r, Translation(c))
  {
    LexFirst(r, BACKSLASH, Escape(c));
    assert Step(r, BACKSLASH) == Invalid;
    InvalidStays(Escape(c));
  }

  lemma LiteralsAreAlike(a: seq<Unit>, b: seq<Unit>, text: Text)
    requires SameUnits(a, b)
    ensures SameUnits(a + Literal(text), b + Literal(text))
  {
  }

  lemma SafeIsLenient(s: Lexer, r: Lexer, c: Code)
    requires AlikeOrBothInvalid(s, r) && !Unsafe(c)
    ensures AlikeOrBothInvalid(LenientStep(s, c), Lex(r, Translation(c)))
  {
    LexOne(r, c);
    AlikeStep(s, r, c);
  }

  lemma {:induction false} RewriteIsLenient(text: Text)
    ensures AlikeOrBothInvalid(LenientLex(Outside([]), text), Lex(Outside([]), ScriptSafe(text)))
  {
    if text != [] {
      var rest, c := text[..|text| - 1], text[|text| - 1];
      RewriteIsLenient(rest);
      LexConcat(Outside([]), ScriptSafe(rest), Translation(c));
      var s, r := LenientLex(Outside([]), rest), Lex(Outside([]), ScriptSafe(rest));
      if Unsafe(c) {
        UnsafeIsLenient(s, r, c);
      } else {
        SafeIsLenient(s, r, c);
      }
    }
  }

  /** What the rewrite of any text means, JSON or not: what the lenient lexer reads in the text itself. */
  lemma RewriteReadsLeniently(text: Text)
    ensures Tokens(ScriptSafe(text)) == LenientTokens(text)
  {
    RewriteIsLenient(text);
  }

  lemma EscapesInRestOrLast(text: Text)
    requires text != []
    ensures var rest, c := text[..|text| - 1], text[|text| - 1];
            EscapesUnsafe(text) <==> EscapesUnsafe(rest) || (Unsafe(c) && Lex(Outside([]), rest).AfterBackslash?)
  {
    var n := |text| - 1;
    assert forall i | 0 <= i < n :: text[..n][i] == text[i] && text[..n][..i] == text[..i];
  }

  /** The lenient lexer differs only on texts that escape an unsafe character, and these are not JSON. */
  lemma {:induction false} LenientUnlessEscaped(text: Text)
    ensures if EscapesUnsafe(text) then Lex(Outside([]), text) == Invalid
            else LenientLex(Outside([]), text) == Lex(Outside([]), text)
  {
    if text != [] {
      EscapesInRestOrLast(text);
      LenientUnlessEscaped(text[..|text| - 1]);
    }
  }

  /** Whatever the grammar, a valid text stays valid and keeps its value; it even keeps all its tokens. */
  lemma RewritePreservesMeaning<V>(grammar: seq<Token> -> Option<V>, text: Text)
    requires Decode(grammar, text).Some?
    ensures Decode(grammar, ScriptSafe(text)) == Decode(grammar, text)
    ensures Tokens(ScriptSafe(text)) == Tokens(text)
  {
    RewriteReadsLeniently(text);
    LenientUnlessEscaped(text);
  }

  /**
   The exact condition for any text, JSON or not: it keeps its tokens, or its lack of them, unless it escapes an
   unsafe character and is otherwise made of JSON tokens.
   */
  lemma RewriteKeepsTokensUnlessEscaped(text: Text)
    ensures EscapesUnsafe(text) ==> Tokens(text).None?
    ensures Tokens(ScriptSafe(text)) == Tokens(text) <==> !EscapesUnsafe(text) || LenientTokens(text).None?
  {
    RewriteReadsLeniently(text);
    LenientUnlessEscaped(text);
  }

  lemma {:induction false} DecodeLiteral(text: Text)
    ensures Decoded(Literal(text)) == text
  {
    if text != [] {
      assert Literal(text)[1..] == Literal(text[1..]);
      DecodeLiteral(text[1..]);
    }
  }

  lemma LenientLast(s: Lexer, rest: Text, c: Code)
    ensures LenientLex(s, rest + [c]) == LenientStep(LenientLex(s, rest), c)
  {
    assert (rest + [c])[..|rest|] == rest;
  }

  /** A string that only escapes an unsafe character is no JSON; rewritten, it is the escape, backslash included. */
  lemma InvalidEscapeBecomesValid(c: Code)
    requires Unsafe(c)
    ensures var text := [QUOTE] + [BACKSLASH] + [c] + [QUOTE];
            && Tokens(text).None?
            && Tokens(ScriptSafe(text)) == Some([Str(Translation(c))])
  {
    var begun := [QUOTE] + [BACKSLASH];
    LexOne(Outside([]), QUOTE);
    LexFirst(Outside([]), QUOTE, [BACKSLASH]);
    LexOne(InString([], []), BACKSLASH);
    EscapeIsInvalid(begun, c, [QUOTE]);
    LenientString(c);
    RewriteReadsLeniently(begun + [c] + [QUOTE]);
  }

  lemma EscapeIsInvalid(begun: Text, c: Code, rest: Text)
    requires Unsafe(c) && Lex(Outside([]), begun).AfterBackslash?
    ensures Tokens(begun + [c] + rest).None?
  {
    LexConcat(Outside([]), begun, [c]);
    LexOne(Lex(Outside([]), begun), c);
    LexConcat(Outside([]), begun + [c], rest);
    InvalidStays(rest);
  }

  lemma LenientString(c: Code)
    requires Unsafe(c)
    ensures LenientTokens([QUOTE] + [BACKSLASH] + [c] + [QUOTE]) == Some([Str(Translation(c))])
  {
    LenientLast(Outside([]), [], QUOTE);
    assert [] + [QUOTE] == [QUOTE];
    LenientLast(Outside([]), [QUOTE], BACKSLASH);
    LenientLast(Outside([]), [QUOTE] + [BACKSLASH], c);
    LenientLast(Outside([]), [QUOTE] + [BACKSLASH] + [c], QUOTE);
    assert [] + Literal(Translation(c)) == Literal(Translation(c));
    DecodeLiteral(Translation(c));
    assert [] + [Str(Translation(c))] == [Str(Translation(c))];
  }
}
