/** JSON values and their one-line text, as JSON.stringify writes it (RFC 8259). */
module JsonText {
  type CodeUnit = u: int | 0 <= u < 0x1_0000
  type Text = seq<CodeUnit>

  const NEWLINE: CodeUnit := 0x0A
  const QUOTE: CodeUnit := 0x22
  const BACKSLASH: CodeUnit := 0x5C

  /** What String.prototype.trim removes: WhiteSpace and LineTerminator of ECMA-262. */
  predicate IsSpace(u: CodeUnit) {
    || 0x09 <= u <= 0x0D || u == 0x20 || u == 0xA0 || u == 0x1680 || 0x2000 <= u <= 0x200A
    || u == 0x2028 || u == 0x2029 || u == 0x202F || u == 0x205F || u == 0x3000 || u == 0xFEFF
  }

  /** The first position from `i` on that is not white space. */
  function FirstInk(s: Text, i: nat): (r: nat)
    requires i <= |s|
    ensures i <= r <= |s| && (r < |s| ==> !IsSpace(s[r]))
    ensures forall k :: i <= k < r ==> IsSpace(s[k])
    decreases |s| - i
  {
    if i < |s| && IsSpace(s[i]) then FirstInk(s, i + 1) else i
  }

  /** The end of the last stretch before `j` that does not end in white space, not going below `i`. */
  function LastInk(s: Text, i: nat, j: nat): (r: nat)
    requires i <= j <= |s|
    ensures i <= r <= j && (i < r ==> !IsSpace(s[r - 1]))
    ensures forall k :: r <= k < j ==> IsSpace(s[k])
  {
    if i < j && IsSpace(s[j - 1]) then LastInk(s, i, j - 1) else j
  }

  /** What is between leading and trailing white space. */
  function Trim(s: Text): (r: Text)
    ensures r != [] ==> !IsSpace(r[0]) && !IsSpace(r[|r| - 1])
  {
    s[FirstInk(s, 0)..LastInk(s, FirstInk(s, 0), |s|)]
  }

  /** Numbers carry the text that stands for them. */
  datatype Json =
    | Null
    | Bool(value: bool)
    | Number(text: NumberText)
    | Str(chars: Text)
    | Arr(items: seq<Json>)
    | Obj(members: seq<Member>)

  datatype Member = Member(key: Text, value: Json)

  /** Digits, sign, point and exponent. */
  predicate IsNumberUnit(u: CodeUnit) {
    0x30 <= u <= 0x39 || u == 0x2B || u == 0x2D || u == 0x2E || u == 0x45 || u == 0x65
  }

  predicate IsNumberText(s: Text) {
    s != [] && forall u :: u in s ==> IsNumberUnit(u)
  }

  type NumberText = s: Text | IsNumberText(s) witness [0x30]

  function HexDigit(n: nat): CodeUnit
    requires n < 16
  {
    if n < 10 then 0x30 + n else 0x61 + n - 10
  }

  function UnicodeEscape(u: CodeUnit): Text {
    [BACKSLASH, 0x75, HexDigit(u / 0x1000), HexDigit(u / 0x100 % 16), HexDigit(u / 0x10 % 16), HexDigit(u % 16)]
  }

  /** Quotes, backslashes and control characters are escaped; so is a surrogate that stands alone. */
  function Escape(u: CodeUnit, alone: bool): Text {
    if u == QUOTE || u == BACKSLASH then [BACKSLASH, u]
    else if u == 0x08 then [BACKSLASH, 0x62]
    else if u == 0x09 then [BACKSLASH, 0x74]
    else if u == NEWLINE then [BACKSLASH, 0x6E]
    else if u == 0x0C then [BACKSLASH, 0x66]
    else if u == 0x0D then [BACKSLASH, 0x72]
    else if u < 0x20 || alone then UnicodeEscape(u)
    else [u]
  }

  predicate Leads(u: CodeUnit) {
    0xD800 <= u < 0xDC00
  }

  predicate Trails(u: CodeUnit) {
    0xDC00 <= u < 0xE000
  }

  /** Whether the unit at `i` is a surrogate without its other half. */
  predicate StandsAlone(s: Text, i: nat)
    requires i < |s|
  {
    || (Leads(s[i]) && !(i + 1 < |s| && Trails(s[i + 1])))
    || (Trails(s[i]) && !(i > 0 && Leads(s[i - 1])))
  }

  /** Every other unit stands for itself. */
  lemma EscapedExactlyWhen(s: Text, i: nat)
    requires i < |s|
    ensures Escape(s[i], StandsAlone(s, i)) != [s[i]]
            <==> || s[i] == 0x22 || s[i] == 0x5C || s[i] < 0x20
                 || (0xD800 <= s[i] < 0xDC00 && (i + 1 == |s| || s[i + 1] < 0xDC00 || s[i + 1] >= 0xE000))
                 || (0xDC00 <= s[i] < 0xE000 && (i == 0 || s[i - 1] < 0xD800 || s[i - 1] >= 0xDC00))
  {
  }

  function EscapeFrom(s: Text, i: nat): Text
    requires i <= |s|
    decreases |s| - i
  {
    if i == |s| then [] else Escape(s[i], StandsAlone(s, i)) + EscapeFrom(s, i + 1)
  }

  function QuoteText(s: Text): Text {
    [QUOTE] + EscapeFrom(s, 0) + [QUOTE]
  }

  function Stringify(j: Json): Text
    decreases j, 1
  {
    match j
    case Null => [0x6E, 0x75, 0x6C, 0x6C]
    case Bool(true) => [0x74, 0x72, 0x75, 0x65]
    case Bool(false) => [0x66, 0x61, 0x6C, 0x73, 0x65]
    case Number(text) => text
    case Str(chars) => QuoteText(chars)
    case Arr(items) => [0x5B] + StringifyItems(items) + [0x5D]
    case Obj(members) => [0x7B] + StringifyMembers(members) + [0x7D]
  }

  function StringifyItems(items: seq<Json>): Text
    decreases items, 0
  {
    if items == [] then []
    else Stringify(items[0]) + (if |items| == 1 then [] else [0x2C]) + StringifyItems(items[1..])
  }

  function StringifyMembers(members: seq<Member>): Text
    decreases members, 0
  {
    if members == [] then []
    else
      QuoteText(members[0].key) + [0x3A] + Stringify(members[0].value)
      + (if |members| == 1 then [] else [0x2C]) + StringifyMembers(members[1..])
  }

  lemma {:induction false} EscapedHasNoNewline(s: Text, i: nat)
    requires i <= |s|
    ensures NEWLINE !in EscapeFrom(s, i)
    decreases |s| - i
  {
    if i < |s| {
      EscapedHasNoNewline(s, i + 1);
    }
  }

  lemma {:induction false} NoNewlineInText(j: Json)
    ensures NEWLINE !in Stringify(j)
    decreases j, 1
  {
    match j
    case Null =>
    case Bool(_) =>
    case Number(text) =>
    case Str(chars) => EscapedHasNoNewline(chars, 0);
    case Arr(items) => NoNewlineInItems(items);
    case Obj(members) => NoNewlineInMembers(members);
  }

  lemma {:induction false} NoNewlineInItems(items: seq<Json>)
    ensures NEWLINE !in StringifyItems(items)
    decreases items, 0
  {
    if items != [] {
      NoNewlineInText(items[0]);
      NoNewlineInItems(items[1..]);
    }
  }

  lemma {:induction false} NoNewlineInMembers(members: seq<Member>)
    ensures NEWLINE !in StringifyMembers(members)
    decreases members, 0
  {
    if members != [] {
      EscapedHasNoNewline(members[0].key, 0);
      NoNewlineInText(members[0].value);
      NoNewlineInMembers(members[1..]);
    }
  }

  /** The text of a value is a line of its own that trimming leaves as it is. */
  lemma StringifyIsOneLine(j: Json)
    ensures NEWLINE !in Stringify(j)
    ensures Stringify(j) != [] && Trim(Stringify(j)) == Stringify(j)
  {
    NoNewlineInText(j);
    var s := Stringify(j);
    if j.Number? {
      assert IsNumberUnit(s[0]) && IsNumberUnit(s[|s| - 1]);
    }
    assert !IsSpace(s[0]) && !IsSpace(s[|s| - 1]);
  }
}
