/** Token text as a JSON string: section 7 of RFC 8259 over UTF-8, and the writer of the command line. */
module JsonText {
  import opened Bytes
  import opened Utf8
  import opened Wrappers

  const QUOTE: Byte := 0x22
  const BACKSLASH: Byte := 0x5c

  // Reading a string ---------------------------------------------------------------------

  function HexValue(c: Byte): Option<nat> {
    if 0x30 <= c <= 0x39 then Some(c - 0x30)
    else if 0x61 <= c <= 0x66 then Some(c - 0x61 + 10)
    else if 0x41 <= c <= 0x46 then Some(c - 0x41 + 10)
    else None
  }

  /** The value of four hexadecimal digits. */
  function Hex4(a: Byte, b: Byte, c: Byte, d: Byte): Option<nat> {
    var w, x, y, z := HexValue(a), HexValue(b), HexValue(c), HexValue(d);
    if w.None? || x.None? || y.None? || z.None? then None
    else Some(w.value * 0x1000 + x.value * 0x100 + y.value * 0x10 + z.value)
  }

  /** The two-character escapes. */
  function Short(c: Byte): Option<nat> {
    if c == QUOTE || c == BACKSLASH || c == 0x2f then Some(c)
    else if c == 0x62 then Some(8)
    else if c == 0x66 then Some(12)
    else if c == 0x6e then Some(10)
    else if c == 0x72 then Some(13)
    else if c == 0x74 then Some(9)
    else None
  }

  /** The char b starts with: its code point or escaped code unit, and its length. */
  function TakeChar(b: seq<Byte>): (r: Option<(nat, nat)>)
    ensures r.Some? ==> 0 < r.value.1 <= |b|
  {
    if b == [] then None
    else if b[0] == BACKSLASH then
      if |b| >= 2 && b[1] != 0x75 then
        var e := Short(b[1]);
        if e.None? then None else Some((e.value, 2))
      else if |b| >= 6 then
        var u := Hex4(b[2], b[3], b[4], b[5]);
        if u.None? then None else Some((u.value, 6))
      else None
    else if b[0] < 0x20 || b[0] == QUOTE || CharLen(b) == 0 then None
    else Some((CodePoint(b), CharLen(b)))
  }

  /** The code points of the chars between the quotation marks, if they are all chars of the grammar. */
  function Unescape(b: seq<Byte>): Option<seq<nat>>
    decreases |b|
  {
    if b == [] then Some([])
    else
      var c := TakeChar(b);
      if c.None? then None
      else
        var rest := Unescape(b[c.value.1..]);
        if rest.None? then None else Some([c.value.0] + rest.value)
  }

  /** A JSON string whose text is the code points cps. */
  predicate IsString(b: seq<Byte>, cps: seq<nat>) {
    |b| >= 2 && b[0] == QUOTE && b[|b| - 1] == QUOTE && Unescape(b[1..|b| - 1]) == Some(cps)
  }

  // Writing one --------------------------------------------------------------------------

  function HexDigit(d: nat): Byte
    requires d < 16
  {
    if d < 10 then 0x30 + d else 0x61 + d - 10
  }

  /** What %04x writes for a byte, behind a backslash and u. */
  function UnicodeEscape(c: Byte): seq<Byte> { [BACKSLASH, 0x75, 0x30, 0x30, HexDigit(c / 16), HexDigit(c % 16)] }

  function Escaped(c: Byte, validUtf8: bool): (e: seq<Byte>)
    ensures e != []
  {
    if c == QUOTE || c == BACKSLASH then [BACKSLASH, c]
    else if c == 0x0a then [BACKSLASH, 0x6e]
    else if c == 0x0d then [BACKSLASH, 0x72]
    else if c == 0x09 then [BACKSLASH, 0x74]
    else if c < 0x20 then UnicodeEscape(c)
    else if !validUtf8 && c >= 0x80 then UnicodeEscape(c)
    else [c]
  }

  function Body(s: seq<Byte>, validUtf8: bool): seq<Byte> {
    if s == [] then [] else Escaped(s[0], validUtf8) + Body(s[1..], validUtf8)
  }

  function Literal(s: seq<Byte>, validUtf8: bool): seq<Byte> { [QUOTE] + Body(s, validUtf8) + [QUOTE] }

  lemma {:induction false} BodySplit(a: seq<Byte>, b: seq<Byte>, validUtf8: bool)
    ensures Body(a + b, validUtf8) == Body(a, validUtf8) + Body(b, validUtf8)
    decreases |a|
  {
    if a == [] {
      assert a + b == b;
    } else {
      assert (a + b)[1..] == a[1..] + b;
      BodySplit(a[1..], b, validUtf8);
    }
  }

  lemma BodySnoc(s: seq<Byte>, i: nat, validUtf8: bool)
    requires i < |s|
    ensures Body(s[..i + 1], validUtf8) == Body(s[..i], validUtf8) + Escaped(s[i], validUtf8)
  {
    assert s[..i + 1] == s[..i] + [s[i]];
    BodySplit(s[..i], [s[i]], validUtf8);
    assert [s[i]][1..] == [];
  }

  /** Writes one byte of the text. */
  method WriteByte(out: seq<Byte>, c: Byte, validUtf8: bool) returns (r: seq<Byte>)
    ensures r == out + Escaped(c, validUtf8)
  {
    if c == QUOTE || c == BACKSLASH {
      r := out + [BACKSLASH];
      r := r + [c];
    } else if c == 0x0a {
      r := out + [BACKSLASH, 0x6e];
    } else if c == 0x0d {
      r := out + [BACKSLASH, 0x72];
    } else if c == 0x09 {
      r := out + [BACKSLASH, 0x74];
    } else if c < 0x20 || (!validUtf8 && c >= 0x80) {
      r := out + UnicodeEscape(c);
    } else {
      r := out + [c];
    }
  }

  method JsonWriteString(s: seq<Byte>) returns (out: seq<Byte>)
    ensures out == Literal(s, IsUtf8(s))
  {
    var validUtf8 := JsonUtf8Valid(s);
    out := [QUOTE];
    for i := 0 to |s|
      invariant out == [QUOTE] + Body(s[..i], validUtf8)
    {
      BodySnoc(s, i, validUtf8);
      ThreeParts([QUOTE], Body(s[..i], validUtf8), Escaped(s[i], validUtf8));
      out := WriteByte(out, s[i], validUtf8);
    }
    assert s[..|s|] == s;
    out := out + [QUOTE];
  }

  // What is written is read back ------------------------------------------------------------

  lemma HexReadBack(c: Byte)
    ensures Hex4(0x30, 0x30, HexDigit(c / 16), HexDigit(c % 16)) == Some(c)
  {
    assert c == c / 16 * 16 + c % 16;
  }

  /** An escaped byte is one char with the byte's value. Unescaped bytes below 0x80 are that already. */
  lemma EscapedReadBack(c: Byte, validUtf8: bool, rest: seq<Byte>)
    requires c < 0x80 || !validUtf8
    ensures TakeChar(Escaped(c, validUtf8) + rest) == Some((c, |Escaped(c, validUtf8)|))
  {
    var b := Escaped(c, validUtf8) + rest;
    assert forall k :: 0 <= k < |Escaped(c, validUtf8)| ==> b[k] == Escaped(c, validUtf8)[k];
    HexReadBack(c);
  }

  lemma UnescapeStep(e: seq<Byte>, rest: seq<Byte>, cp: nat, cps: seq<nat>)
    requires TakeChar(e + rest) == Some((cp, |e|)) && Unescape(rest) == Some(cps)
    ensures Unescape(e + rest) == Some([cp] + cps)
  {
    assert (e + rest)[|e|..] == rest;
  }

  /** Text that is not UTF-8 is read back byte by byte. */
  lemma {:induction false} BytesReadBack(s: seq<Byte>)
    ensures Unescape(Body(s, false)) == Some(Values(s))
    decreases |s|
  {
    if s != [] {
      BytesReadBack(s[1..]);
      EscapedReadBack(s[0], false, Body(s[1..], false));
      UnescapeStep(Escaped(s[0], false), Body(s[1..], false), s[0], Values(s[1..]));
    }
  }

  function Values(s: seq<Byte>): (cps: seq<nat>)
    ensures |cps| == |s| && forall i :: 0 <= i < |s| ==> cps[i] == s[i]
  {
    if s == [] then [] else [s[0]] + Values(s[1..])
  }

  /** A byte is escaped only where a JSON string needs it or where it is no character, and briefly where it can be. */
  lemma EscapeForms(c: Byte, validUtf8: bool)
    ensures Escaped(c, validUtf8) == [c] <==> c >= 0x20 && c != QUOTE && c != BACKSLASH && (validUtf8 || c < 0x80)
    ensures |Escaped(c, validUtf8)| == 2 <==> c == QUOTE || c == BACKSLASH || c == 0x0a || c == 0x0d || c == 0x09
    ensures |Escaped(c, validUtf8)| > 2 ==> Escaped(c, validUtf8)[1] == 0x75
    ensures forall k :: 0 <= k < |Escaped(c, validUtf8)| ==> Printable(Escaped(c, validUtf8)[k], validUtf8)
  {}

  /** Not a control character, and unless the text is UTF-8 an ASCII one. */
  predicate Printable(c: Byte, validUtf8: bool) { c >= 0x20 && (validUtf8 || c < 0x80) }

  /** So the literal is one line of printable characters, and pure ASCII when the text is not UTF-8. */
  lemma {:induction false} LiteralIsPrintable(s: seq<Byte>, validUtf8: bool)
    ensures forall k :: 0 <= k < |Body(s, validUtf8)| ==> Printable(Body(s, validUtf8)[k], validUtf8)
    decreases |s|
  {
    if s != [] {
      EscapeForms(s[0], validUtf8);
      LiteralIsPrintable(s[1..], validUtf8);
    }
  }

  /** A character of several bytes goes out as it is. */
  lemma CharUnescaped(s: seq<Byte>)
    requires CharLen(s) >= 2
    ensures Body(s[..CharLen(s)], true) == s[..CharLen(s)]
  {
    var n := CharLen(s);
    assert forall k :: 0 <= k < n ==> s[k] >= 0x80;
    PlainBody(s[..n]);
  }

  lemma {:induction false} PlainBody(s: seq<Byte>)
    requires forall k :: 0 <= k < |s| ==> s[k] >= 0x80
    ensures Body(s, true) == s
    decreases |s|
  {
    if s != [] { PlainBody(s[1..]); }
  }

  lemma CharReadBack(s: seq<Byte>, rest: seq<Byte>)
    requires CharLen(s) >= 2
    ensures TakeChar(s[..CharLen(s)] + rest) == Some((CodePoint(s), CharLen(s)))
  {
    var b := s[..CharLen(s)] + rest;
    assert forall k :: 0 <= k < CharLen(s) ==> b[k] == s[k];
  }

  /** UTF-8 text is read back character by character. */
  lemma {:induction false} TextReadBack(s: seq<Byte>)
    requires IsUtf8(s)
    ensures Unescape(Body(s, true)) == Some(CodePoints(s))
    decreases |s|
  {
    if s != [] {
      var n := CharLen(s);
      var rest := Body(s[n..], true);
      TextReadBack(s[n..]);
      if n == 1 {
        EscapedReadBack(s[0], true, rest);
        UnescapeStep(Escaped(s[0], true), rest, s[0], CodePoints(s[n..]));
      } else {
        assert s == s[..n] + s[n..];
        BodySplit(s[..n], s[n..], true);
        CharUnescaped(s);
        CharReadBack(s, rest);
        UnescapeStep(s[..n], rest, CodePoint(s), CodePoints(s[n..]));
      }
    }
  }

  /** The code points that s encodes. */
  function CodePoints(s: seq<Byte>): seq<nat>
    requires IsUtf8(s)
  {
    if s == [] then [] else [CodePoint(s)] + CodePoints(s[CharLen(s)..])
  }

  lemma {:induction false} CodePointsAreDecoded(s: seq<Byte>)
    requires IsUtf8(s)
    ensures CodePoints(s) == Decode(s) && EncodeAll(Decode(s)) == s
    decreases |s|
  {
    if s != [] { CodePointsAreDecoded(s[CharLen(s)..]); }
  }

  /** The literal is always a JSON string. Its text encodes to the original bytes when they are UTF-8;
      otherwise its code points are the original bytes. */
  lemma LiteralIsString(s: seq<Byte>)
    ensures IsUtf8(s) ==> IsString(Literal(s, true), Decode(s)) && EncodeAll(Decode(s)) == s
    ensures !IsUtf8(s) ==> IsString(Literal(s, false), Values(s))
  {
    if IsUtf8(s) {
      TextReadBack(s);
      CodePointsAreDecoded(s);
      Quoted(Body(s, true));
    } else {
      BytesReadBack(s);
      Quoted(Body(s, false));
    }
  }

  lemma Quoted(body: seq<Byte>)
    ensures var b := [QUOTE] + body + [QUOTE]; b[1..|b| - 1] == body && b[0] == QUOTE && b[|b| - 1] == QUOTE && |b| >= 2
  {}
}
