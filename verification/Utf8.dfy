/** UTF-8 as section 3 and section 4 of RFC 3629 define it, and the byte checker of the command line. */
module Utf8 {
  import opened Bytes
  import opened Wrappers

  /** A Unicode scalar value. */
  type Scalar = cp: int | 0 <= cp <= 0x10_ffff && !(0xd800 <= cp <= 0xdfff)

  // Section 3: the encoding ----------------------------------------------------------------

  function Encode(cp: Scalar): (b: seq<Byte>)
    ensures 1 <= |b| <= 4
  {
    if cp < 0x80 then [cp]
    else if cp < 0x800 then [0xc0 + cp / 0x40, 0x80 + cp % 0x40]
    else if cp < 0x1_0000 then [0xe0 + cp / 0x1000, 0x80 + cp / 0x40 % 0x40, 0x80 + cp % 0x40]
    else [0xf0 + cp / 0x4_0000, 0x80 + cp / 0x1000 % 0x40, 0x80 + cp / 0x40 % 0x40, 0x80 + cp % 0x40]
  }

  function EncodeAll(cps: seq<Scalar>): seq<Byte> { if cps == [] then [] else Encode(cps[0]) + EncodeAll(cps[1..]) }

  // Section 4: the grammar -------------------------------------------------------------------

  predicate Tail(x: Byte) { 0x80 <= x <= 0xbf }

  predicate Utf8_2(b: seq<Byte>) { |b| >= 2 && 0xc2 <= b[0] <= 0xdf && Tail(b[1]) }

  predicate Utf8_3(b: seq<Byte>) {
    && |b| >= 3 && Tail(b[2])
    && ((b[0] == 0xe0 && 0xa0 <= b[1] <= 0xbf) || (0xe1 <= b[0] <= 0xec && Tail(b[1]))
        || (b[0] == 0xed && 0x80 <= b[1] <= 0x9f) || (0xee <= b[0] <= 0xef && Tail(b[1])))
  }

  predicate Utf8_4(b: seq<Byte>) {
    && |b| >= 4 && Tail(b[2]) && Tail(b[3])
    && ((b[0] == 0xf0 && 0x90 <= b[1] <= 0xbf) || (0xf1 <= b[0] <= 0xf3 && Tail(b[1]))
        || (b[0] == 0xf4 && 0x80 <= b[1] <= 0x8f))
  }

  /** The length of the character b starts with, or 0 when it starts with none. */
  function CharLen(b: seq<Byte>): (n: nat)
    ensures n <= 4 && n <= |b|
  {
    if |b| > 0 && b[0] <= 0x7f then 1
    else if Utf8_2(b) then 2
    else if Utf8_3(b) then 3
    else if Utf8_4(b) then 4
    else 0
  }

  /** b is UTF8-octets: a run of characters. */
  predicate IsUtf8(b: seq<Byte>) { b == [] || (CharLen(b) > 0 && IsUtf8(b[CharLen(b)..])) }

  function Join2(a: int, b: int): int { (a - 0xc0) * 0x40 + (b - 0x80) }
  function Join3(a: int, b: int, c: int): int { (a - 0xe0) * 0x1000 + (b - 0x80) * 0x40 + (c - 0x80) }
  function Join4(a: int, b: int, c: int, d: int): int {
    (a - 0xf0) * 0x4_0000 + (b - 0x80) * 0x1000 + (c - 0x80) * 0x40 + (d - 0x80)
  }

  /** The code point of the character b starts with. */
  function CodePoint(b: seq<Byte>): (cp: Scalar)
    requires CharLen(b) > 0
  {
    if b[0] <= 0x7f then b[0]
    else if Utf8_2(b) then Join2(b[0], b[1])
    else if Utf8_3(b) then Join3(b[0], b[1], b[2])
    else Join4(b[0], b[1], b[2], b[3])
  }

  lemma Digits1(q: int, r: nat)
    requires r < 0x40
    ensures (0x40 * q + r) / 0x40 == q && (0x40 * q + r) % 0x40 == r
  {}

  lemma Digits2(q: int, r: nat)
    requires r < 0x1000
    ensures (0x1000 * q + r) / 0x1000 == q && (0x1000 * q + r) % 0x1000 == r
  {}

  lemma Digits3(q: int, r: nat)
    requires r < 0x4_0000
    ensures (0x4_0000 * q + r) / 0x4_0000 == q && (0x4_0000 * q + r) % 0x4_0000 == r
  {}

  lemma Split2(a: int, b: int)
    requires 0x80 <= b < 0xc0
    ensures var cp := Join2(a, b); cp / 0x40 == a - 0xc0 && cp % 0x40 == b - 0x80
  {
    Digits1(a - 0xc0, b - 0x80);
  }

  lemma Split3(a: int, b: int, c: int)
    requires 0x80 <= b < 0xc0 && 0x80 <= c < 0xc0
    ensures var cp := Join3(a, b, c); cp / 0x1000 == a - 0xe0 && cp / 0x40 % 0x40 == b - 0x80 && cp % 0x40 == c - 0x80
  {
    Digits2(a - 0xe0, 0x40 * (b - 0x80) + (c - 0x80));
    Digits1(0x40 * (a - 0xe0) + (b - 0x80), c - 0x80);
    Digits1(a - 0xe0, b - 0x80);
  }

  lemma Split4(a: int, b: int, c: int, d: int)
    requires 0x80 <= b < 0xc0 && 0x80 <= c < 0xc0 && 0x80 <= d < 0xc0
    ensures var cp := Join4(a, b, c, d);
            && cp / 0x4_0000 == a - 0xf0 && cp / 0x1000 % 0x40 == b - 0x80 && cp / 0x40 % 0x40 == c - 0x80
                && cp % 0x40 == d - 0x80
  {
    Digits3(a - 0xf0, 0x1000 * (b - 0x80) + 0x40 * (c - 0x80) + (d - 0x80));
    Digits2(0x40 * (a - 0xf0) + (b - 0x80), 0x40 * (c - 0x80) + (d - 0x80));
    Digits1(0x1000 * (a - 0xf0) + 0x40 * (b - 0x80) + (c - 0x80), d - 0x80);
    Digits1(0x40 * (a - 0xf0) + (b - 0x80), c - 0x80);
    Digits1(a - 0xf0, b - 0x80);
  }

  /** Joining undoes the encoding. */
  lemma EncodedJoin(cp: Scalar)
    ensures 0x80 <= cp < 0x800 ==> cp == Join2(Encode(cp)[0], Encode(cp)[1])
    ensures 0x800 <= cp < 0x1_0000 ==> cp == Join3(Encode(cp)[0], Encode(cp)[1], Encode(cp)[2])
    ensures 0x1_0000 <= cp ==> cp == Join4(Encode(cp)[0], Encode(cp)[1], Encode(cp)[2], Encode(cp)[3])
  {
    Digits(cp);
  }

  lemma Digits(cp: nat)
    ensures cp == 0x40 * (cp / 0x40) + cp % 0x40
    ensures cp == 0x1000 * (cp / 0x1000) + 0x40 * (cp / 0x40 % 0x40) + cp % 0x40
    ensures cp == 0x4_0000 * (cp / 0x4_0000) + 0x1000 * (cp / 0x1000 % 0x40) + 0x40 * (cp / 0x40 % 0x40) + cp % 0x40
  {
    var x, y, z := cp / 0x40, cp / 0x1000, cp / 0x4_0000;
    assert y == x / 0x40 && z == y / 0x40;
  }

  lemma Shape2(cp: Scalar)
    requires 0x80 <= cp < 0x800
    ensures Utf8_2(Encode(cp))
  {}

  lemma Shape3(cp: Scalar)
    requires 0x800 <= cp < 0x1_0000
    ensures Utf8_3(Encode(cp)) && Encode(cp)[0] >= 0xe0
  {
    var y, x := cp / 0x1000, cp / 0x40 % 0x40;
    assert y == 0 ==> x >= 0x20;
    assert y == 0xd ==> x < 0x20;
  }

  lemma Shape4(cp: Scalar)
    requires 0x1_0000 <= cp
    ensures Utf8_4(Encode(cp)) && Encode(cp)[0] >= 0xf0
  {
    var z, y := cp / 0x4_0000, cp / 0x1000 % 0x40;
    assert z == 0 ==> y >= 0x10;
    assert z == 4 ==> y < 0x10;
  }

  lemma ShapeLen(e: seq<Byte>, b: seq<Byte>)
    requires e <= b && e != []
    requires match |e|
             case 1 => e[0] < 0x80
             case 2 => Utf8_2(e)
             case 3 => Utf8_3(e) && e[0] >= 0xe0
             case 4 => Utf8_4(e) && e[0] >= 0xf0
             case _ => false
    ensures CharLen(b) == |e|
  {
    assert forall k :: 0 <= k < |e| ==> b[k] == e[k];
  }

  lemma EncodedLen(cp: Scalar, b: seq<Byte>)
    requires Encode(cp) <= b
    ensures CharLen(b) == |Encode(cp)|
  {
    if 0x80 <= cp < 0x800 {
      Shape2(cp);
    } else if 0x800 <= cp < 0x1_0000 {
      Shape3(cp);
    } else if 0x1_0000 <= cp {
      Shape4(cp);
    }
    ShapeLen(Encode(cp), b);
  }

  /** The characters of the grammar are the encodings of the scalar values. */
  lemma EncodedChar(cp: Scalar, rest: seq<Byte>)
    ensures var b := Encode(cp) + rest; CharLen(b) == |Encode(cp)| && CodePoint(b) == cp && b[CharLen(b)..] == rest
  {
    var e := Encode(cp);
    EncodedLen(cp, e + rest);
    EncodedJoin(cp);
    assert forall k :: 0 <= k < |e| ==> (e + rest)[k] == e[k];
  }

  lemma Encoded2(a: Byte, b: Byte)
    requires Utf8_2([a, b])
    ensures 0x80 <= Join2(a, b) < 0x800 && Encode(Join2(a, b)) == [a, b]
  {
    Split2(a, b);
  }

  lemma Encoded3(a: Byte, b: Byte, c: Byte)
    requires Utf8_3([a, b, c])
    ensures 0x800 <= Join3(a, b, c) < 0x1_0000 && !(0xd800 <= Join3(a, b, c) <= 0xdfff)
    ensures Encode(Join3(a, b, c)) == [a, b, c]
  {
    Split3(a, b, c);
  }

  lemma Range4(a: Byte, b: Byte, c: Byte, d: Byte)
    requires Utf8_4([a, b, c, d])
    ensures 0x1_0000 <= Join4(a, b, c, d) <= 0x10_ffff
  {}

  lemma Encoded4(a: Byte, b: Byte, c: Byte, d: Byte)
    requires Utf8_4([a, b, c, d])
    ensures 0x1_0000 <= Join4(a, b, c, d) <= 0x10_ffff && Encode(Join4(a, b, c, d)) == [a, b, c, d]
  {
    Range4(a, b, c, d);
    Split4(a, b, c, d);
  }

  lemma CharIsEncoded(b: seq<Byte>)
    requires CharLen(b) > 0
    ensures b == Encode(CodePoint(b)) + b[CharLen(b)..]
  {
    var n := CharLen(b);
    if n == 2 {
      Encoded2(b[0], b[1]);
      assert b[..n] == [b[0], b[1]];
    } else if n == 3 {
      Encoded3(b[0], b[1], b[2]);
      assert b[..n] == [b[0], b[1], b[2]];
    } else if n == 4 {
      Encoded4(b[0], b[1], b[2], b[3]);
      assert b[..n] == [b[0], b[1], b[2], b[3]];
    } else {
      assert b[..n] == [b[0]];
    }
    assert b == b[..n] + b[n..];
  }

  function Decode(b: seq<Byte>): (cps: seq<Scalar>)
    requires IsUtf8(b)
    ensures EncodeAll(cps) == b
  {
    if b == [] then []
    else
      CharIsEncoded(b);
      var cps := [CodePoint(b)] + Decode(b[CharLen(b)..]);
      assert cps[1..] == Decode(b[CharLen(b)..]);
      cps
  }

  lemma {:induction false} EncodedIsUtf8(cps: seq<Scalar>)
    ensures IsUtf8(EncodeAll(cps)) && Decode(EncodeAll(cps)) == cps
  {
    if cps != [] {
      EncodedChar(cps[0], EncodeAll(cps[1..]));
      EncodedIsUtf8(cps[1..]);
      assert cps == [cps[0]] + cps[1..];
    }
  }

  // The checker ------------------------------------------------------------------------------

  /** One round of the checker for a lead byte of 0x80 or more: how many bytes follow it, if they are all right. */
  method Following(s: seq<Byte>, i: nat) returns (need: Option<nat>)
    requires 0 < i <= |s| && s[i - 1] >= 0x80
    ensures need.Some? <==> CharLen(s[i - 1..]) > 0
    ensures need.Some? ==> need.value + 1 == CharLen(s[i - 1..])
  {
    var c := s[i - 1];
    ghost var b := s[i - 1..];
    var n := 0;
    if c >= 0xc2 && c <= 0xdf { n := 1; }
    else if c >= 0xe0 && c <= 0xef { n := 2; }
    else if c >= 0xf0 && c <= 0xf4 { n := 3; }
    else { return None; }
    if i + n > |s| { return None; }
    var c1 := s[i];
    assert b[0] == c && b[1] == c1 && forall k :: 0 <= k < |b| ==> b[k] == s[i - 1 + k];
    if c == 0xe0 && c1 < 0xa0 { return None; }
    if c == 0xed && c1 >= 0xa0 { return None; }
    if c == 0xf0 && c1 < 0x90 { return None; }
    if c == 0xf4 && c1 >= 0x90 { return None; }
    for j := 0 to n
      invariant forall k :: 1 <= k <= j ==> Tail(b[k])
    {
      assert b[1 + j] == s[i + j];
      if !(0x80 <= s[i + j] < 0xc0) { return None; }
    }
    need := Some(n);
  }

  /** Accepts exactly the strings of RFC 3629. */
  method JsonUtf8Valid(s: seq<Byte>) returns (ok: bool)
    ensures ok <==> IsUtf8(s)
  {
    var i := 0;
    while i < |s|
      invariant 0 <= i <= |s| && (IsUtf8(s) <==> IsUtf8(s[i..]))
    {
      var c := s[i];
      i := i + 1;
      if c < 0x80 {
        assert s[i - 1..][1..] == s[i..];
        continue;
      }
      var need := Following(s, i);
      if need.None? { return false; }
      assert s[i - 1..][need.value + 1..] == s[i + need.value..];
      i := i + need.value;
    }
    ok := true;
  }
}
