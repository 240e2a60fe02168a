/** Reading JSON text without white space, as sections 3 to 7 of RFC 8259 define it. */
module JsonReader {
  import opened Wrappers
  import opened JsonText

  /** What was read and what comes after it. */
  datatype Read<+T> = Got(value: T, rest: Text) | Fail

  // ----- Strings

  function HexValue(u: CodeUnit): Option<nat> {
    if 0x30 <= u <= 0x39 then Some(u - 0x30)
    else if 0x41 <= u <= 0x46 then Some(u - 0x37)
    else if 0x61 <= u <= 0x66 then Some(u - 0x57)
    else None
  }

  /** What a backslash and one more unit stand for. */
  function ShortEscape(u: CodeUnit): Option<CodeUnit> {
    if u == 0x22 || u == 0x5C || u == 0x2F then Some(u)
    else if u == 0x62 then Some(0x08)
    else if u == 0x66 then Some(0x0C)
    else if u == 0x6E then Some(0x0A)
    else if u == 0x72 then Some(0x0D)
    else if u == 0x74 then Some(0x09)
    else None
  }

  function FourDigits(a: CodeUnit, b: CodeUnit, c: CodeUnit, d: CodeUnit): Option<CodeUnit> {
    match (HexValue(a), HexValue(b), HexValue(c), HexValue(d))
    case (Some(i), Some(j), Some(k), Some(l)) =>
      var n := 0x1000 * i + 0x100 * j + 0x10 * k + l;
      if n < 0x1_0000 then Some(n) else None
    case _ => None
  }

  function ReadUnit(s: Text): (r: Read<CodeUnit>)
    requires s != []
    ensures r.Got? ==> |r.rest| < |s|
  {
    if s[0] < 0x20 || s[0] == 0x22 then Fail
    else if s[0] != 0x5C then Got(s[0], s[1..])
    else if |s| >= 6 && s[1] == 0x75 then
      match FourDigits(s[2], s[3], s[4], s[5])
      case Some(u) => Got(u, s[6..])
      case None => Fail
    else if |s| >= 2 then
      match ShortEscape(s[1])
      case Some(u) => Got(u, s[2..])
      case None => Fail
    else Fail
  }

  /** The rest of a string after its opening quote. */
  function ReadUnits(s: Text): (r: Read<Text>)
    ensures r.Got? ==> |r.rest| < |s|
    decreases |s|
  {
    if s == [] then Fail
    else if s[0] == 0x22 then Got([], s[1..])
    else
      match ReadUnit(s)
      case Fail => Fail
      case Got(u, rest) =>
        match ReadUnits(rest)
        case Fail => Fail
        case Got(us, after) => Got([u] + us, after)
  }

  function ReadText(s: Text): (r: Read<Text>)
    ensures r.Got? ==> |r.rest| < |s|
  {
    if s != [] && s[0] == 0x22 then ReadUnits(s[1..]) else Fail
  }

  // ----- Values

  /** How many units of a number there are at the beginning. */
  function NumberLength(s: Text): (n: nat)
    ensures n <= |s| && (forall i :: 0 <= i < n ==> IsNumberUnit(s[i])) && (n < |s| ==> !IsNumberUnit(s[n]))
  {
    if s == [] || !IsNumberUnit(s[0]) then 0 else 1 + NumberLength(s[1..])
  }

  function ReadWord(s: Text, word: Text, j: Json): (r: Read<Json>)
    requires word != []
    ensures r.Got? ==> |r.rest| < |s|
  {
    if word <= s then Got(j, s[|word|..]) else Fail
  }

  function ReadNumber(s: Text): (r: Read<Json>)
    ensures r.Got? ==> |r.rest| < |s|
  {
    var n := NumberLength(s);
    if n == 0 then Fail
    else
      assert IsNumberText(s[..n]);
      Got(Number(s[..n]), s[n..])
  }

  function ReadValue(s: Text): (r: Read<Json>)
    ensures r.Got? ==> |r.rest| < |s|
    decreases |s|, 1
  {
    if s == [] then Fail
    else if s[0] == 0x6E then ReadWord(s, [0x6E, 0x75, 0x6C, 0x6C], Null)
    else if s[0] == 0x74 then ReadWord(s, [0x74, 0x72, 0x75, 0x65], Bool(true))
    else if s[0] == 0x66 then ReadWord(s, [0x66, 0x61, 0x6C, 0x73, 0x65], Bool(false))
    else if s[0] == 0x22 then
      match ReadText(s) case Got(chars, rest) => Got(Str(chars), rest) case Fail => Fail
    else if s[0] == 0x5B then
      if |s| > 1 && s[1] == 0x5D then Got(Arr([]), s[2..])
      else
        match ReadItems(s[1..]) case Got(items, rest) => Got(Arr(items), rest) case Fail => Fail
    else if s[0] == 0x7B then
      if |s| > 1 && s[1] == 0x7D then Got(Obj([]), s[2..])
      else
        match ReadMembers(s[1..]) case Got(members, rest) => Got(Obj(members), rest) case Fail => Fail
    else ReadNumber(s)
  }

  /** One or more values with commas between them, and the closing bracket. */
  function ReadItems(s: Text): (r: Read<seq<Json>>)
    ensures r.Got? ==> |r.rest| < |s|
    decreases |s|, 2
  {
    match ReadValue(s)
    case Fail => Fail
    case Got(item, rest) =>
      if rest == [] then Fail
      else if rest[0] == 0x5D then Got([item], rest[1..])
      else if rest[0] != 0x2C then Fail
      else
        match ReadItems(rest[1..]) case Got(items, after) => Got([item] + items, after) case Fail => Fail
  }

  function ReadMember(s: Text): (r: Read<Member>)
    ensures r.Got? ==> |r.rest| < |s|
    decreases |s|, 2
  {
    match ReadText(s)
    case Fail => Fail
    case Got(key, rest) =>
      if rest == [] || rest[0] != 0x3A then Fail
      else
        match ReadValue(rest[1..]) case Got(value, after) => Got(Member(key, value), after) case Fail => Fail
  }

  /** One or more members with commas between them, and the closing brace. */
  function ReadMembers(s: Text): (r: Read<seq<Member>>)
    ensures r.Got? ==> |r.rest| < |s|
    decreases |s|, 3
  {
    match ReadMember(s)
    case Fail => Fail
    case Got(member, rest) =>
      if rest == [] then Fail
      else if rest[0] == 0x7D then Got([member], rest[1..])
      else if rest[0] != 0x2C then Fail
      else
        match ReadMembers(rest[1..]) case Got(members, after) => Got([member] + members, after) case Fail => Fail
  }

  /** The value that a whole text stands for. */
  function Parse(s: Text): Option<Json> {
    match ReadValue(s)
    case Got(j, rest) => if rest == [] then Some(j) else None
    case Fail => None
  }

  // ----- What is written is read back

  lemma Regroup(a: Text, b: Text, c: Text)
    ensures a + b + c == a + (b + c)
  {
  }

  lemma HexIsRead(n: nat)
    requires n < 16
    ensures HexValue(HexDigit(n)) == Some(n)
  {
  }

  lemma Nibbles(x: CodeUnit)
    ensures x == 0x1000 * (x / 0x1000) + 0x100 * (x / 0x100 % 16) + 0x10 * (x / 0x10 % 16) + x % 16
  {
    assert x / 0x1000 == x / 0x100 / 16;
    assert x / 0x100 == x / 0x10 / 16;
  }

  lemma UnicodeEscapeIsRead(x: CodeUnit, t: Text)
    ensures ReadUnit(UnicodeEscape(x) + t) == Got(x, t)
  {
    HexIsRead(x / 0x1000);
    HexIsRead(x / 0x100 % 16);
    HexIsRead(x / 0x10 % 16);
    HexIsRead(x % 16);
    Nibbles(x);
    var e := UnicodeEscape(x);
    var s := e + t;
    assert s[0] == 0x5C && s[1] == 0x75 && s[2] == e[2] && s[3] == e[3] && s[4] == e[4] && s[5] == e[5];
    assert s[6..] == t;
  }

  lemma UnitIsRead(x: CodeUnit, alone: bool, t: Text)
    ensures ReadUnit(Escape(x, alone) + t) == Got(x, t)
    ensures (Escape(x, alone) + t)[0] != 0x22
  {
    var e := Escape(x, alone);
    var s := e + t;
    assert s[0] == e[0] && s[|e|..] == t;
    if |e| == 6 {
      UnicodeEscapeIsRead(x, t);
    } else if |e| == 2 {
      assert s[1] == e[1];
      assert ShortEscape(e[1]) == Some(x);
    }
  }

  lemma {:induction false} UnitsAreRead(a: Text, i: nat, t: Text)
    requires i <= |a|
    ensures ReadUnits(EscapeFrom(a, i) + ([0x22] + t)) == Got(a[i..], t)
    decreases |a| - i
  {
    if i == |a| {
      assert EscapeFrom(a, i) + ([0x22] + t) == [0x22] + t;
      assert ([0x22] + t)[1..] == t;
    } else {
      var alone := StandsAlone(a, i);
      Regroup(Escape(a[i], alone), EscapeFrom(a, i + 1), [0x22] + t);
      UnitIsRead(a[i], alone, EscapeFrom(a, i + 1) + ([0x22] + t));
      UnitsAreRead(a, i + 1, t);
      assert a[i..] == [a[i]] + a[i + 1..];
    }
  }

  lemma TextIsRead(a: Text, t: Text)
    ensures ReadText(QuoteText(a) + t) == Got(a, t)
  {
    var s := QuoteText(a) + t;
    Regroup([QUOTE] + EscapeFrom(a, 0), [QUOTE], t);
    Regroup([QUOTE], EscapeFrom(a, 0), [QUOTE] + t);
    assert s[1..] == EscapeFrom(a, 0) + ([0x22] + t);
    UnitsAreRead(a, 0, t);
    assert a[0..] == a;
  }

  /** What can follow a value: nothing, a comma or a closing bracket. */
  predicate Ends(t: Text) {
    t == [] || t[0] == 0x2C || t[0] == 0x5D || t[0] == 0x7D
  }

  lemma NumberIsRead(text: NumberText, t: Text)
    requires Ends(t)
    ensures ReadValue(text + t) == Got(Number(text), t)
  {
    var s := text + t;
    assert forall i :: 0 <= i < |text| ==> s[i] == text[i] && text[i] in text;
    assert t != [] ==> s[|text|] == t[0];
    assert NumberLength(s) == |text|;
    assert s[..|text|] == text && s[|text|..] == t;
  }

  /** A closing bracket, a comma or the end is no beginning of a value. */
  lemma {:induction false} ValueBegins(j: Json, t: Text)
    ensures Stringify(j) + t != [] && !Ends(Stringify(j) + t)
  {
    if j.Number? {
      assert IsNumberUnit(j.text[0]);
    }
  }

  lemma WordIsRead(word: Text, j: Json, t: Text)
    requires word != []
    ensures ReadWord(word + t, word, j) == Got(j, t)
  {
    assert (word + t)[|word|..] == t;
  }

  lemma {:induction false} ArrayIsRead(s: Text, items: seq<Json>, t: Text)
    requires s != [] && (items == [] ==> s[0] == 0x5D && s[1..] == t)
    requires items != [] ==> s[0] != 0x5D && ReadItems(s) == Got(items, t)
    ensures ReadValue([0x5B] + s) == Got(Arr(items), t)
  {
    var text := [0x5B] + s;
    assert text[0] == 0x5B && text[1] == s[0] && text[1..] == s && text[2..] == s[1..];
  }

  lemma {:induction false} ObjectIsRead(s: Text, members: seq<Member>, t: Text)
    requires s != [] && (members == [] ==> s[0] == 0x7D && s[1..] == t)
    requires members != [] ==> s[0] != 0x7D && ReadMembers(s) == Got(members, t)
    ensures ReadValue([0x7B] + s) == Got(Obj(members), t)
  {
    var text := [0x7B] + s;
    assert text[0] == 0x7B && text[1] == s[0] && text[1..] == s && text[2..] == s[1..];
  }

  lemma StringIsRead(chars: Text, t: Text)
    ensures ReadValue(QuoteText(chars) + t) == Got(Str(chars), t)
  {
    TextIsRead(chars, t);
  }

  /** The text of a value is read as the value, whatever comes after it. */
  lemma {:induction false} ValueIsRead(j: Json, t: Text)
    requires Ends(t)
    ensures ReadValue(Stringify(j) + t) == Got(j, t)
    decreases j, 1
  {
    match j
    case Null => WordIsRead([0x6E, 0x75, 0x6C, 0x6C], j, t);
    case Bool(true) => WordIsRead([0x74, 0x72, 0x75, 0x65], j, t);
    case Bool(false) => WordIsRead([0x66, 0x61, 0x6C, 0x73, 0x65], j, t);
    case Number(text) => NumberIsRead(text, t);
    case Str(chars) => StringIsRead(chars, t);
    case Arr(items) =>
      Regroup([0x5B] + StringifyItems(items), [0x5D], t);
      Regroup([0x5B], StringifyItems(items), [0x5D] + t);
      ItemsAreRead(items, t);
      ArrayIsRead(StringifyItems(items) + ([0x5D] + t), items, t);
    case Obj(members) =>
      Regroup([0x7B] + StringifyMembers(members), [0x7D], t);
      Regroup([0x7B], StringifyMembers(members), [0x7D] + t);
      MembersAreRead(members, t);
      ObjectIsRead(StringifyMembers(members) + ([0x7D] + t), members, t);
  }

  /** What stands between two items or members. */
  function Comma(last: bool): Text {
    if last then [] else [0x2C]
  }

  lemma {:induction false} OneItemIsRead(s: Text, item: Json, items: seq<Json>, tail: Text, t: Text)
    requires tail != [] && ReadValue(s) == Got(item, Comma(items == []) + tail)
    requires items == [] ==> tail[0] == 0x5D && tail[1..] == t
    requires items != [] ==> ReadItems(tail) == Got(items, t)
    ensures ReadItems(s) == Got([item] + items, t)
  {
    var rest := Comma(items == []) + tail;
    assert items == [] ==> rest == tail && [item] + items == [item];
    assert items != [] ==> rest[1..] == tail;
  }

  lemma CommaEnds(last: bool, tail: Text, close: CodeUnit)
    requires last ==> tail != [] && tail[0] == close
    requires close == 0x5D || close == 0x7D
    ensures Ends(Comma(last) + tail)
  {
  }

  lemma {:induction false} ItemsBegin(items: seq<Json>, t: Text)
    requires items != []
    ensures StringifyItems(items) + ([0x5D] + t)
            == Stringify(items[0]) + (Comma(items[1..] == []) + (StringifyItems(items[1..]) + ([0x5D] + t)))
  {
    var comma, rest := Comma(items[1..] == []), StringifyItems(items[1..]);
    Regroup(Stringify(items[0]) + comma, rest, [0x5D] + t);
    Regroup(Stringify(items[0]), comma, rest + ([0x5D] + t));
  }

  lemma {:induction false} MembersBegin(members: seq<Member>, t: Text)
    requires members != []
    ensures var text := QuoteText(members[0].key) + [0x3A] + Stringify(members[0].value);
            StringifyMembers(members) + ([0x7D] + t)
            == text + (Comma(members[1..] == []) + (StringifyMembers(members[1..]) + ([0x7D] + t)))
  {
    var text := QuoteText(members[0].key) + [0x3A] + Stringify(members[0].value);
    var comma, rest := Comma(members[1..] == []), StringifyMembers(members[1..]);
    Regroup(text + comma, rest, [0x7D] + t);
    Regroup(text, comma, rest + ([0x7D] + t));
  }

  lemma {:induction false} ItemsAreRead(items: seq<Json>, t: Text)
    ensures var s := StringifyItems(items) + ([0x5D] + t);
            && s != []
            && (items == [] ==> s[0] == 0x5D && s[1..] == t)
            && (items != [] ==> s[0] != 0x5D && ReadItems(s) == Got(items, t))
    decreases items, 0
  {
    if items == [] {
      assert StringifyItems(items) + ([0x5D] + t) == [0x5D] + t;
    } else {
      var item, rest := items[0], items[1..];
      var comma, tail := Comma(rest == []), StringifyItems(rest) + ([0x5D] + t);
      ItemsBegin(items, t);
      ItemsAreRead(rest, t);
      CommaEnds(rest == [], tail, 0x5D);
      ValueIsRead(item, comma + tail);
      ValueBegins(item, comma + tail);
      OneItemIsRead(Stringify(item) + (comma + tail), item, rest, tail, t);
      assert items == [item] + rest;
    }
  }

  lemma {:induction false} MemberIsRead(m: Member, t: Text)
    requires ReadValue(Stringify(m.value) + t) == Got(m.value, t)
    ensures ReadMember(QuoteText(m.key) + [0x3A] + Stringify(m.value) + t) == Got(m, t)
  {
    var after := Stringify(m.value) + t;
    Regroup(QuoteText(m.key) + [0x3A], Stringify(m.value), t);
    Regroup(QuoteText(m.key), [0x3A], after);
    TextIsRead(m.key, [0x3A] + after);
    assert ([0x3A] + after)[1..] == after;
  }

  lemma {:induction false} MemberBegins(m: Member, t: Text)
    ensures (QuoteText(m.key) + [0x3A] + Stringify(m.value) + t)[0] == QUOTE
  {
  }

  lemma {:induction false} OneMemberIsRead(s: Text, m: Member, members: seq<Member>, tail: Text, t: Text)
    requires tail != [] && ReadMember(s) == Got(m, Comma(members == []) + tail)
    requires members == [] ==> tail[0] == 0x7D && tail[1..] == t
    requires members != [] ==> ReadMembers(tail) == Got(members, t)
    ensures ReadMembers(s) == Got([m] + members, t)
  {
    var rest := Comma(members == []) + tail;
    assert members == [] ==> rest == tail && [m] + members == [m];
    assert members != [] ==> rest[1..] == tail;
  }

  lemma {:induction false} MembersAreRead(members: seq<Member>, t: Text)
    ensures var s := StringifyMembers(members) + ([0x7D] + t);
            && s != []
            && (members == [] ==> s[0] == 0x7D && s[1..] == t)
            && (members != [] ==> s[0] != 0x7D && ReadMembers(s) == Got(members, t))
    decreases members, 0
  {
    if members == [] {
      assert StringifyMembers(members) + ([0x7D] + t) == [0x7D] + t;
    } else {
      var m, rest := members[0], members[1..];
      var text := QuoteText(m.key) + [0x3A] + Stringify(m.value);
      var comma, tail := Comma(rest == []), StringifyMembers(rest) + ([0x7D] + t);
      MembersBegin(members, t);
      MembersAreRead(rest, t);
      CommaEnds(rest == [], tail, 0x7D);
      ValueIsRead(m.value, comma + tail);
      MemberIsRead(m, comma + tail);
      MemberBegins(m, comma + tail);
      OneMemberIsRead(text + (comma + tail), m, rest, tail, t);
      assert members == [m] + rest;
    }
  }

  /** Parsing gives back the value that was written. */
  lemma ParseRoundTrip(j: Json)
    ensures Parse(Stringify(j)) == Some(j)
  {
    assert Stringify(j) + [] == Stringify(j);
    ValueIsRead(j, []);
  }

  /** No two values have the same text. */
  lemma StringifyIsInjective(a: Json, b: Json)
    requires Stringify(a) == Stringify(b)
    ensures a == b
  {
    ParseRoundTrip(a);
    ParseRoundTrip(b);
  }
}
