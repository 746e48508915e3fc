/**
 Exact byte accounting of bulk history responses: the size computed before serialization is the length of the
 compact JSON text in UTF-8, and the response can carry its own length.
 */
module JsonSize {
  import opened Wrappers

  /** A code point of a Python string, which may be a lone surrogate. */
  type Code = c: int | 0 <= c <= 0x10FFFF

  type Text = seq<Code>

  /** The `repr` of a finite float is plain ASCII. */
  type Repr = text: Text | forall c <- text :: c < 0x80

  newtype Byte = b: int | 0 <= b <= 255

  /** A float is its `repr`, or nothing when it is not finite. */
  datatype Json =
    | Null
    | Bool(truth: bool)
    | Str(text: Text)
    | Int(number: int)
    | Real(repr: Option<Repr>)
    | Arr(items: seq<Json>)
    | Obj(entries: seq<Entry>)
    | Unsupported

  datatype Entry = Entry(key: Key, value: Json)

  datatype Key =
    | StrKey(text: Text)
    | BoolKey(truth: bool)
    | NullKey
    | IntKey(number: int)
    | RealKey(repr: Option<Repr>)
    | BadKey

  const QUOTE: Code := 0x22
  const BACKSLASH: Code := 0x5C
  const COMMA: Text := [0x2C]
  const COLON: Text := [0x3A]
  const NULL_TEXT: Text := [0x6E, 0x75, 0x6C, 0x6C]
  const TRUE_TEXT: Text := [0x74, 0x72, 0x75, 0x65]
  const FALSE_TEXT: Text := [0x66, 0x61, 0x6C, 0x73, 0x65]

  // ---------------------------------------------------------------- UTF-8, section 3 of RFC 3629

  function EncodeCode(c: Code): Option<seq<Byte>> {
    if c < 0x80 then Some([c as Byte])
    else if c < 0x800 then Some([(0xC0 + c / 64) as Byte, Tail(c)])
    else if 0xD800 <= c <= 0xDFFF then None
    else if c < 0x10000 then Some([(0xE0 + c / 4096) as Byte, Tail(c / 64), Tail(c)])
    else Some([(0xF0 + c / 262144) as Byte, Tail(c / 4096), Tail(c / 64), Tail(c)])
  }

  function Tail(c: nat): Byte {
    (0x80 + c % 64) as Byte
  }

  function Utf8(text: Text): Option<seq<Byte>> {
    if text == [] then Some([])
    else
      var before, last := Utf8(text[..|text| - 1]), EncodeCode(text[|text| - 1]);
      if before.Some? && last.Some? then Some(before.value + last.value) else None
  }

  // ---------------------------------------------------------------- serialization, RFC 8259

  function HexDigit(n: nat): Code
    requires n < 16
  {
    if n < 10 then 0x30 + n else 0x61 + n - 10
  }

  /** Section 7 of RFC 8259, as `json.dumps` does it without `ensure_ascii`. */
  function Escaped(c: Code): Text {
    if c == QUOTE || c == BACKSLASH then [BACKSLASH, c]
    else if c == 0x08 then [BACKSLASH, 0x62]
    else if c == 0x0C then [BACKSLASH, 0x66]
    else if c == 0x0A then [BACKSLASH, 0x6E]
    else if c == 0x0D then [BACKSLASH, 0x72]
    else if c == 0x09 then [BACKSLASH, 0x74]
    else if c < 0x20 then [BACKSLASH, 0x75, 0x30, 0x30, HexDigit(c / 16), HexDigit(c % 16)]
    else [c]
  }

  function EscapedAll(text: Text): Text {
    if text == [] then [] else EscapedAll(text[..|text| - 1]) + Escaped(text[|text| - 1])
  }

  function Quoted(text: Text): Text {
    [QUOTE] + EscapedAll(text) + [QUOTE]
  }

  function Digits(n: nat): (r: Text)
    ensures |r| >= 1
    ensures forall c <- r :: 0x30 <= c <= 0x39
  {
    if n < 10 then [0x30 + n] else Digits(n / 10) + [0x30 + n % 10]
  }

  function IntText(n: int): (r: Text)
    ensures forall c <- r :: c < 0x80
  {
    if n < 0 then [0x2D] + Digits(-n) else Digits(n)
  }

  function Joined(before: Option<Text>, separator: Text, after: Option<Text>): Option<Text> {
    if before.Some? && after.Some? then Some(before.value + separator + after.value) else None
  }

  function KeyText(key: Key): Option<Text> {
    match key
    case StrKey(text) => Some(text)
    case BoolKey(truth) => Some(if truth then TRUE_TEXT else FALSE_TEXT)
    case NullKey => Some(NULL_TEXT)
    case IntKey(number) => Some(IntText(number))
    case RealKey(repr) => repr
    case BadKey => None
  }

  function Dump(value: Json): Option<Text>
    decreases value
  {
    match value
    case Null => Some(NULL_TEXT)
    case Bool(truth) => Some(if truth then TRUE_TEXT else FALSE_TEXT)
    case Str(text) => Some(Quoted(text))
    case Int(number) => Some(IntText(number))
    case Real(repr) => repr
    case Arr(items) => Joined(Some([0x5B]), [], Joined(DumpItems(items), [], Some([0x5D])))
    case Obj(entries) => Joined(Some([0x7B]), [], Joined(DumpEntries(entries), [], Some([0x7D])))
    case Unsupported => None
  }

  function DumpItems(items: seq<Json>): Option<Text>
    decreases items
  {
    if items == [] then Some([])
    else
      var last := Dump(items[|items| - 1]);
      if |items| == 1 then last else Joined(DumpItems(items[..|items| - 1]), COMMA, last)
  }

  function DumpEntry(entry: Entry): Option<Text>
    decreases entry
  {
    var key := KeyText(entry.key);
    Joined(if key.Some? then Some(Quoted(key.value)) else None, COLON, Dump(entry.value))
  }

  function DumpEntries(entries: seq<Entry>): Option<Text>
    decreases entries
  {
    if entries == [] then Some([])
    else
      var last := DumpEntry(entries[|entries| - 1]);
      if |entries| == 1 then last else Joined(DumpEntries(entries[..|entries| - 1]), COMMA, last)
  }

  /** The body of a response: the text of `json.dumps`, encoded; nothing when either step raises. */
  function Body(value: Json): Option<seq<Byte>> {
    if Dump(value).Some? then Utf8(Dump(value).value) else None
  }

  // ---------------------------------------------------------------- the size computed beforehand

  type Size = Option<nat>

  function Plus(a: Size, b: Size): Size {
    if a.Some? && b.Some? then Some(a.value + b.value) else None
  }

  function CharacterSize(c: Code): Size {
    if c == QUOTE || c == BACKSLASH || c == 0x08 || c == 0x0C || c == 0x0A || c == 0x0D || c == 0x09 then Some(2)
    else if c <= 0x1F then Some(6)
    else if EncodeCode(c).Some? then Some(|EncodeCode(c).value|)
    else None
  }

  function CharactersSize(text: Text): Size {
    if text == [] then Some(0) else Plus(CharactersSize(text[..|text| - 1]), CharacterSize(text[|text| - 1]))
  }

  function StringSize(text: Text): Size {
    Plus(Some(2), CharactersSize(text))
  }

  /** `_json_string_size`. */
  method JsonStringSize(text: Text) returns (size: Size)
    ensures size == StringSize(text)
    ensures size == Length(Some(Quoted(text)))
  {
    QuotedLength(text);
    var total: nat := 2;
    for i := 0 to |text|
      invariant Some(total) == StringSize(text[..i])
    {
      assert text[..i + 1][..i] == text[..i];
      var c := text[i];
      if c == QUOTE || c == BACKSLASH || c in [0x08, 0x0C, 0x0A, 0x0D, 0x09] {
        total := total + 2;
      } else if c <= 0x1F {
        total := total + 6;
      } else {
        var encoded := EncodeCode(c);
        if encoded.None? {
          SurrogateFails(text, i);
          return None;
        }
        total := total + |encoded.value|;
      }
    }
    assert text[..|text|] == text;
    return Some(total);
  }

  lemma {:induction false} SurrogateFails(text: Text, i: nat)
    requires i < |text| && CharacterSize(text[i]).None?
    ensures CharactersSize(text).None?
  {
    if i < |text| - 1 {
      SurrogateFails(text[..|text| - 1], i);
    }
  }

  function KeySize(key: Key): Size {
    if KeyText(key).Some? then StringSize(KeyText(key).value) else None
  }

  function Commas(count: nat): nat {
    if count > 1 then count - 1 else 0
  }

  /** `_json_value_size`. */
  function ValueSize(value: Json): Size
    decreases value
  {
    match value
    case Null => Some(4)
    case Bool(truth) => Some(if truth then 4 else 5)
    case Str(text) => StringSize(text)
    case Int(number) => Some(|IntText(number)|)
    case Real(repr) => if repr.Some? then Some(|repr.value|) else None
    case Arr(items) => Plus(Some(2 + Commas(|items|)), ItemsSize(items))
    case Obj(entries) => Plus(Some(2 + Commas(|entries|)), EntriesSize(entries))
    case Unsupported => None
  }

  function ItemsSize(items: seq<Json>): Size
    decreases items
  {
    if items == [] then Some(0) else Plus(ItemsSize(items[..|items| - 1]), ValueSize(items[|items| - 1]))
  }

  function EntrySize(entry: Entry): Size
    decreases entry
  {
    Plus(Plus(KeySize(entry.key), Some(1)), ValueSize(entry.value))
  }

  function EntriesSize(entries: seq<Entry>): Size
    decreases entries
  {
    if entries == [] then Some(0) else Plus(EntriesSize(entries[..|entries| - 1]), EntrySize(entries[|entries| - 1]))
  }

  // ---------------------------------------------------------------- the size is the length

  function Length(text: Option<Text>): Size {
    if text.Some? && Utf8(text.value).Some? then Some(|Utf8(text.value).value|) else None
  }

  lemma {:induction false} LengthOfConcat(a: Text, b: Text)
    ensures Length(Some(a + b)) == Plus(Length(Some(a)), Length(Some(b)))
  {
    if b == [] {
      assert a + b == a;
    } else {
      var rest := b[..|b| - 1];
      assert (a + b)[..|a + b| - 1] == a + rest;
      LengthOfConcat(a, rest);
    }
  }

  lemma {:induction false} LengthOfJoined(a: Option<Text>, separator: Text, b: Option<Text>)
    ensures Length(Joined(a, separator, b)) == Plus(Plus(Length(a), Length(Some(separator))), Length(b))
  {
    if a.Some? && b.Some? {
      LengthOfConcat(a.value, separator);
      LengthOfConcat(a.value + separator, b.value);
    }
  }

  lemma {:induction false} AsciiLength(text: Text)
    requires forall c <- text :: c < 0x80
    ensures Length(Some(text)) == Some(|text|)
  {
    if text != [] {
      var rest := text[..|text| - 1];
      assert text[|text| - 1] in text && forall c <- rest :: c in text;
      AsciiLength(rest);
    }
  }

  lemma {:induction false} QuotedLength(text: Text)
    ensures Length(Some(Quoted(text))) == StringSize(text)
  {
    EscapedLength(text);
    AsciiLength([QUOTE]);
    LengthOfConcat([QUOTE], EscapedAll(text));
    LengthOfConcat([QUOTE] + EscapedAll(text), [QUOTE]);
  }

  lemma {:induction false} EscapedCodeLength(c: Code)
    ensures Length(Some(Escaped(c))) == CharacterSize(c)
  {
    if Escaped(c) != [c] {
      AsciiLength(Escaped(c));
    } else {
      assert [c][..0] == [];
      assert Utf8([c]) == if EncodeCode(c).Some? then Some([] + EncodeCode(c).value) else None;
    }
  }

  lemma {:induction false} EscapedLength(text: Text)
    ensures Length(Some(EscapedAll(text))) == CharactersSize(text)
  {
    if text != [] {
      var rest, last := text[..|text| - 1], text[|text| - 1];
      EscapedLength(rest);
      EscapedCodeLength(last);
      LengthOfConcat(EscapedAll(rest), Escaped(last));
    }
  }

  lemma {:induction false} SizeIsTextLength(value: Json)
    ensures ValueSize(value) == Length(Dump(value))
    decreases value, 1
  {
    match value
    case Str(text) =>
      QuotedLength(text);
    case Arr(items) =>
      ItemsLength(items);
      ArrayLength(items);
    case Obj(entries) =>
      EntriesLength(entries);
      ObjectLength(entries);
    case _ =>
      ScalarLength(value);
  }

  lemma {:induction false} ArrayLength(items: seq<Json>)
    requires Length(DumpItems(items)) == Plus(Some(Commas(|items|)), ItemsSize(items))
    ensures ValueSize(Arr(items)) == Length(Dump(Arr(items)))
  {
    Bracketed([0x5B], DumpItems(items), [0x5D]);
    assert Length(Dump(Arr(items))) == Plus(Some(2), Length(DumpItems(items)));
    assert ValueSize(Arr(items)) == Plus(Some(2 + Commas(|items|)), ItemsSize(items));
  }

  lemma {:induction false} ObjectLength(entries: seq<Entry>)
    requires Length(DumpEntries(entries)) == Plus(Some(Commas(|entries|)), EntriesSize(entries))
    ensures ValueSize(Obj(entries)) == Length(Dump(Obj(entries)))
  {
    Bracketed([0x7B], DumpEntries(entries), [0x7D]);
    assert Length(Dump(Obj(entries))) == Plus(Some(2), Length(DumpEntries(entries)));
    assert ValueSize(Obj(entries)) == Plus(Some(2 + Commas(|entries|)), EntriesSize(entries));
  }

  /** The computed size is the length of the compact UTF-8 serialization, and both fail together. */
  lemma {:induction false} SizeIsLength(value: Json)
    ensures ValueSize(value) == if Body(value).Some? then Some(|Body(value).value|) else None
  {
    SizeIsTextLength(value);
  }

  lemma {:induction false} ScalarLength(value: Json)
    requires !value.Str? && !value.Arr? && !value.Obj?
    ensures ValueSize(value) == Length(Dump(value))
  {
    if Dump(value).Some? {
      AsciiLength(Dump(value).value);
    }
  }

  lemma {:induction false} Bracketed(left: Text, inside: Option<Text>, right: Text)
    requires |left| == |right| == 1 && left[0] < 0x80 && right[0] < 0x80
    ensures Length(Joined(Some(left), [], Joined(inside, [], Some(right)))) == Plus(Some(2), Length(inside))
  {
    LengthOfJoined(inside, [], Some(right));
    LengthOfJoined(Some(left), [], Joined(inside, [], Some(right)));
    AsciiLength(left);
    AsciiLength(right);
    AsciiLength([]);
  }

  /** One more element after at least one other. */
  lemma {:induction false} Separated(before: Option<Text>, last: Option<Text>, count: nat, size: Size)
    requires count >= 1 && Length(before) == Plus(Some(Commas(count)), size)
    ensures Length(Joined(before, COMMA, last)) == Plus(Some(Commas(count + 1)), Plus(size, Length(last)))
  {
    AsciiLength(COMMA);
    LengthOfJoined(before, COMMA, last);
  }

  lemma {:induction false} ItemsLength(items: seq<Json>)
    ensures Length(DumpItems(items)) == Plus(Some(Commas(|items|)), ItemsSize(items))
    decreases items
  {
    if items != [] {
      var rest, last := items[..|items| - 1], items[|items| - 1];
      SizeIsTextLength(last);
      if rest == [] {
        assert ItemsSize(rest) == Some(0);
      } else {
        ItemsLength(rest);
        Separated(DumpItems(rest), Dump(last), |rest|, ItemsSize(rest));
      }
    }
  }

  lemma {:induction false} EntriesLength(entries: seq<Entry>)
    ensures Length(DumpEntries(entries)) == Plus(Some(Commas(|entries|)), EntriesSize(entries))
    decreases entries
  {
    if entries != [] {
      var rest, last := entries[..|entries| - 1], entries[|entries| - 1];
      EntryLength(last);
      if rest == [] {
        assert EntriesSize(rest) == Some(0);
      } else {
        EntriesLength(rest);
        Separated(DumpEntries(rest), DumpEntry(last), |rest|, EntriesSize(rest));
      }
    }
  }

  lemma {:induction false} EntryLength(entry: Entry)
    ensures Length(DumpEntry(entry)) == EntrySize(entry)
    decreases entry
  {
    var key := KeyText(entry.key);
    SizeIsTextLength(entry.value);
    AsciiLength(COLON);
    if key.Some? {
      QuotedLength(key.value);
    }
    LengthOfJoined(if key.Some? then Some(Quoted(key.value)) else None, COLON, Dump(entry.value));
  }

  // ---------------------------------------------------------------- a response that states its own length

  function Power(n: nat): (p: nat)
    ensures p > n
  {
    if n == 0 then 1 else 10 * Power(n - 1)
  }

  /** A number has `d` digits exactly when it lies between two powers of ten. */
  lemma {:induction false} DigitCount(n: nat)
    ensures var d := |Digits(n)|; n < Power(d) && (n > 0 ==> Power(d - 1) <= n)
  {
    if n >= 10 {
      DigitCount(n / 10);
    }
  }

  lemma {:induction false} PowerGrows(a: nat, b: nat)
    requires a <= b
    ensures Power(a) <= Power(b)
  {
    if a < b {
      PowerGrows(a, b - 1);
    }
  }

  lemma {:induction false} DigitCountOf(n: nat, d: nat)
    requires d >= 1 && n < Power(d) && Power(d - 1) <= n
    ensures |Digits(n)| == d
  {
    DigitCount(n);
    var e := |Digits(n)|;
    if e < d {
      PowerGrows(e, d - 1);
    } else if e > d {
      PowerGrows(d, e - 1);
    }
  }

  /** The two-step guess of `_set_exact_response_size` is a fixed point for every size. */
  method GuessBytes(others: nat) returns (bytes: nat)
    ensures bytes == others + |Digits(bytes)|
  {
    var digits := |Digits(others + 1)|;
    bytes := others + digits;
    DigitCount(others + 1);
    OneMoreDigit(others, digits);
    if |Digits(bytes)| != digits {
      bytes := others + |Digits(bytes)|;
    }
  }

  /** Adding its digit count to a number lengthens it by at most one digit, and one more byte changes nothing. */
  lemma {:induction false} OneMoreDigit(others: nat, digits: nat)
    requires digits == |Digits(others + 1)|
    ensures var guess := others + digits;
            || |Digits(guess)| == digits
            || (|Digits(guess)| == digits + 1 && |Digits(guess + 1)| == digits + 1)
  {
    DigitCount(others + 1);
    if others + digits < Power(digits) {
      DigitCountOf(others + digits, digits);
    } else {
      JustLonger(others + digits, digits);
      JustLonger(others + digits + 1, digits);
    }
  }

  /** A number less than twice a power of ten above it has one digit more. */
  lemma {:induction false} JustLonger(n: nat, digits: nat)
    requires digits >= 1 && Power(digits) <= n < 2 * Power(digits)
    ensures |Digits(n)| == digits + 1
  {
    assert Power(digits + 1) == 10 * Power(digits);
    DigitCountOf(n, digits + 1);
  }

  /** The text of `"budget"` and of `"response_bytes"`. */
  const BUDGET := StrKey([0x62, 0x75, 0x64, 0x67, 0x65, 0x74])
  const RESPONSE_BYTES := StrKey([0x72, 0x65, 0x73, 0x70, 0x6F, 0x6E, 0x73, 0x65, 0x5F, 0x62, 0x79, 0x74, 0x65, 0x73])

  function Find(entries: seq<Entry>, key: Key): (index: Option<nat>)
    ensures index.Some? ==> index.value < |entries| && entries[index.value].key == key
  {
    if entries == [] then None
    else
      var found := Find(entries[..|entries| - 1], key);
      if found.Some? then found
      else if entries[|entries| - 1].key == key then Some(|entries| - 1)
      else None
  }

  /** Assignment to a key of a dictionary, which keeps its place or is added at the end. */
  function Assigned(entries: seq<Entry>, key: Key, value: Json): seq<Entry> {
    var found := Find(entries, key);
    if found.Some? then entries[found.value := Entry(key, value)] else entries + [Entry(key, value)]
  }

  /** The payload has a `budget` that is a dictionary. */
  predicate HasBudget(payload: seq<Entry>) {
    var found := Find(payload, BUDGET);
    found.Some? && payload[found.value].value.Obj?
  }

  function WithBytes(payload: seq<Entry>, bytes: nat): seq<Entry>
    requires HasBudget(payload)
  {
    var i := Find(payload, BUDGET).value;
    var budget := payload[i].value.entries;
    payload[i := Entry(BUDGET, Obj(Assigned(budget, RESPONSE_BYTES, Int(bytes))))]
  }

  function OthersSize(entries: seq<Entry>, i: nat): Size
    requires i < |entries|
  {
    var rest := entries[..|entries| - 1];
    if i == |rest| then EntriesSize(rest) else Plus(OthersSize(rest, i), EntrySize(entries[|rest|]))
  }

  lemma {:induction false} UpdatedSize(entries: seq<Entry>, i: nat, entry: Entry)
    requires i < |entries|
    ensures EntriesSize(entries[i := entry]) == Plus(OthersSize(entries, i), EntrySize(entry))
  {
    var n := |entries| - 1;
    var updated := entries[i := entry];
    if i == n {
      assert updated[..n] == entries[..n];
    } else {
      assert updated[..n] == entries[..n][i := entry] && updated[n] == entries[n];
      UpdatedSize(entries[..n], i, entry);
      assert EntriesSize(updated) == Plus(EntriesSize(updated[..n]), EntrySize(entries[n]));
    }
  }

  /** The sizes of everything in a dictionary but the value of one key, before and after it is assigned. */
  function AroundSize(entries: seq<Entry>, key: Key): Size {
    var found := Find(entries, key);
    Plus(Some(2 + Commas(if found.Some? then |entries| else |entries| + 1)),
         if found.Some? then OthersSize(entries, found.value) else EntriesSize(entries))
  }

  lemma {:induction false} AssignedEntries(entries: seq<Entry>, key: Key, value: Json)
    ensures ValueSize(Obj(Assigned(entries, key, value)))
         == Plus(AroundSize(entries, key), EntrySize(Entry(key, value)))
  {
    var updated, entry := Assigned(entries, key, value), Entry(key, value);
    if Find(entries, key).Some? {
      UpdatedSize(entries, Find(entries, key).value, entry);
    } else {
      assert updated[..|entries|] == entries && updated[|entries|] == entry;
    }
  }

  /** The size of a dictionary in which a key is assigned, without that key's value. */
  function OtherSize(entries: seq<Entry>, key: Key): Size {
    Plus(AroundSize(entries, key), Plus(KeySize(key), Some(1)))
  }

  lemma {:induction false} AssignedSize(entries: seq<Entry>, key: Key, value: Json)
    ensures ValueSize(Obj(Assigned(entries, key, value))) == Plus(OtherSize(entries, key), ValueSize(value))
  {
    AssignedEntries(entries, key, value);
    PlusAssociates(AroundSize(entries, key), Plus(KeySize(key), Some(1)), ValueSize(value));
  }

  lemma {:induction false} PlusAssociates(a: Size, b: Size, c: Size)
    ensures Plus(Plus(a, b), c) == Plus(a, Plus(b, c))
  {
  }

  /** The size of a payload without the digits of the length it states. */
  function OtherBytes(payload: seq<Entry>): Size
    requires HasBudget(payload)
  {
    var budget := payload[Find(payload, BUDGET).value].value.entries;
    Plus(OtherSize(payload, BUDGET), OtherSize(budget, RESPONSE_BYTES))
  }

  /** Only the digits of the stated length depend on it. */
  lemma {:induction false} BytesSize(payload: seq<Entry>, bytes: nat)
    requires HasBudget(payload)
    ensures ValueSize(Obj(WithBytes(payload, bytes))) == Plus(OtherBytes(payload), Some(|Digits(bytes)|))
  {
    var budget := payload[Find(payload, BUDGET).value].value.entries;
    var stated := Obj(Assigned(budget, RESPONSE_BYTES, Int(bytes)));
    AssignedSize(payload, BUDGET, stated);
    AssignedSize(budget, RESPONSE_BYTES, Int(bytes));
    PlusAssociates(OtherSize(payload, BUDGET), OtherSize(budget, RESPONSE_BYTES), Some(|Digits(bytes)|));
    assert WithBytes(payload, bytes) == Assigned(payload, BUDGET, stated);
    assert ValueSize(Int(bytes)) == Some(|Digits(bytes)|);
  }

  const MAX_RESPONSE_BYTES := 25_165_824

  datatype Response = Sent(body: seq<Byte>) | TooLarge(limit: nat) | Raised | AccountingMismatch

  class HistoryPayload {
    var entries: seq<Entry>

    constructor (content: seq<Entry>)
      ensures entries == content
    {
      entries := content;
    }

    /** `_set_exact_response_size`: the size returned, and stated in the budget, is that of the final payload. */
    method SetExactResponseSize() returns (size: Size)
      modifies this
      ensures size == ValueSize(Obj(entries))
      ensures entries == if !HasBudget(old(entries)) then old(entries)
                         else WithBytes(old(entries), if size.Some? then size.value else 0)
    {
      if !HasBudget(entries) {
        return ValueSize(Obj(entries));
      }
      var start := entries;
      BytesSize(start, 0);
      entries := WithBytes(start, 0);
      var zeroed := ValueSize(Obj(entries));
      if zeroed.None? { return None; }
      var withoutDigits: nat := zeroed.value - 1;
      var responseBytes := GuessBytes(withoutDigits);
      BytesSize(start, responseBytes);
      entries := WithBytes(start, responseBytes);
      return Some(responseBytes);
    }

    /** `bounded_history_json_response`: the accounting never disagrees with the body. */
    method BoundedResponse(maxBytes: nat) returns (response: Response)
      modifies this
      ensures match Body(Obj(entries))
              case None => response == Raised
              case Some(body) => response == if |body| > maxBytes then TooLarge(MAX_RESPONSE_BYTES) else Sent(body)
      ensures HasBudget(old(entries)) && Body(Obj(entries)).Some? ==>
                entries == WithBytes(old(entries), |Body(Obj(entries)).value|)
      ensures !HasBudget(old(entries)) ==> entries == old(entries)
    {
      var size := SetExactResponseSize();
      SizeIsLength(Obj(entries));
      if size.None? { return Raised; }
      if size.value > maxBytes { return TooLarge(MAX_RESPONSE_BYTES); }
      var body := Body(Obj(entries)).value;
      response := if |body| != size.value then AccountingMismatch else Sent(body);
    }
  }
}
