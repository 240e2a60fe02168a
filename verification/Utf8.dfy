/** UTF-8 (section 3 of RFC 3629), in which text is fed to a hash. A `char` is a Unicode scalar value. */
module Utf8 {
  import opened Wrappers
  import ZipBytes

  type Byte = ZipBytes.Byte

  function EncodeChar(c: char): seq<Byte> {
    var n := c as int;
    if n < 0x80 then [n]
    else if n < 0x800 then [0xC0 + n / 0x40, 0x80 + n % 0x40]
    else if n < 0x1_0000 then [0xE0 + n / 0x1000, 0x80 + n / 0x40 % 0x40, 0x80 + n % 0x40]
    else [0xF0 + n / 0x4_0000, 0x80 + n / 0x1000 % 0x40, 0x80 + n / 0x40 % 0x40, 0x80 + n % 0x40]
  }

  function Encode(s: string): seq<Byte> {
    if s == "" then [] else EncodeChar(s[0]) + Encode(s[1..])
  }

  /** Feeding a text piece by piece is feeding it at once. */
  lemma {:induction false} EncodeConcat(a: string, b: string)
    ensures Encode(a + b) == Encode(a) + Encode(b)
    decreases |a|
  {
    if a == "" {
      assert a + b == b;
    } else {
      assert (a + b)[0] == a[0] && (a + b)[1..] == a[1..] + b;
      EncodeConcat(a[1..], b);
    }
  }

  // ----- Decoding

  /** The six bits of a continuation byte. */
  function Continuation(b: Byte): Option<nat> {
    if 0x80 <= b < 0xC0 then Some(b - 0x80) else None
  }

  function Scalar(n: nat): Option<char> {
    if n < 0xD800 || 0xE000 <= n < 0x11_0000 then Some(n as char) else None
  }

  /** The number that `count` continuation bytes from position `i` on complete, and the place after them. */
  function Continue(n: nat, b: seq<Byte>, i: nat, count: nat): Option<nat>
    requires i + count <= |b|
    decreases count
  {
    if count == 0 then Some(n)
    else
      match Continuation(b[i])
      case Some(bits) => Continue(n * 0x40 + bits, b, i + 1, count - 1)
      case None => None
  }

  /** How many bytes there are, and what bits the first one has, as the table of section 3 gives them. */
  function FirstByte(b: Byte): Option<(nat, nat)> {
    if b < 0x80 then Some((1, b))
    else if 0xC0 <= b < 0xE0 then Some((2, b - 0xC0))
    else if 0xE0 <= b < 0xF0 then Some((3, b - 0xE0))
    else if 0xF0 <= b < 0xF8 then Some((4, b - 0xF0))
    else None
  }

  /** The first character and how many bytes it takes. */
  function DecodeChar(b: seq<Byte>): (r: Option<(char, nat)>)
    ensures r.Some? ==> 0 < r.value.1 <= |b|
  {
    if b == [] || FirstByte(b[0]).None? then None
    else
      var (size, bits) := FirstByte(b[0]).value;
      if size > |b| then None
      else
        match Continue(bits, b, 1, size - 1)
        case None => None
        case Some(n) => (match Scalar(n) case Some(c) => Some((c, size)) case None => None)
  }

  function Decode(b: seq<Byte>): Option<string> {
    if b == [] then Some("")
    else
      match DecodeChar(b)
      case None => None
      case Some((c, size)) =>
        match Decode(b[size..]) case Some(s) => Some([c] + s) case None => None
  }

  lemma Digits64(n: nat)
    ensures n == n / 0x40 * 0x40 + n % 0x40
    ensures n / 0x40 == n / 0x1000 * 0x40 + n / 0x40 % 0x40
    ensures n / 0x1000 == n / 0x4_0000 * 0x40 + n / 0x1000 % 0x40
  {
    assert n / 0x1000 == n / 0x40 / 0x40;
    assert n / 0x4_0000 == n / 0x1000 / 0x40;
  }

  lemma ContinueAll(n: nat, b: seq<Byte>, e: seq<Byte>)
    requires e <= b && 1 <= |e| <= 4 && forall i :: 1 <= i < |e| ==> 0x80 <= e[i] < 0xC0
    ensures |e| == 1 ==> Continue(n, b, 1, 0) == Some(n)
    ensures |e| == 2 ==> Continue(n, b, 1, 1) == Some(n * 0x40 + (e[1] - 0x80))
    ensures |e| == 3 ==> Continue(n, b, 1, 2) == Some((n * 0x40 + (e[1] - 0x80)) * 0x40 + (e[2] - 0x80))
    ensures |e| == 4 ==>
              Continue(n, b, 1, 3)
              == Some(((n * 0x40 + (e[1] - 0x80)) * 0x40 + (e[2] - 0x80)) * 0x40 + (e[3] - 0x80))
  {
    assert forall i :: 1 <= i < |e| ==> Continuation(b[i]) == Some(e[i] - 0x80);
  }

  /** A character is decoded as itself, whatever comes after it. */
  lemma CharIsDecoded(c: char, u: seq<Byte>)
    ensures DecodeChar(EncodeChar(c) + u) == Some((c, |EncodeChar(c)|))
  {
    var e := EncodeChar(c);
    var b := e + u;
    assert b[0] == e[0];
    Digits64(c as int);
    ContinueAll(FirstByte(e[0]).value.1, b, e);
  }

  lemma {:induction false} DecodeRoundTrip(s: string)
    ensures Decode(Encode(s)) == Some(s)
    decreases |s|
  {
    if s != "" {
      var e, rest := EncodeChar(s[0]), Encode(s[1..]);
      CharIsDecoded(s[0], rest);
      assert (e + rest)[|e|..] == rest;
      DecodeRoundTrip(s[1..]);
      assert s == [s[0]] + s[1..];
    }
  }

  lemma EncodeInjective(a: string, b: string)
    requires Encode(a) == Encode(b)
    ensures a == b
  {
    DecodeRoundTrip(a);
    DecodeRoundTrip(b);
  }
}
