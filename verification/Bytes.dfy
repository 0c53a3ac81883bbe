/** Bytes and fixed-width unsigned integers as they travel on the wire and in files. */
module Bytes {

  type Byte = x: int | 0 <= x < 0x100
  type U32 = x: int | 0 <= x < 0x1_0000_0000
  const U32_MAX: nat := 0xffff_ffff
  const U64_MAX: nat := 0xffff_ffff_ffff_ffff

  /** The k-th byte of a 32-bit word, least significant first. */
  function ByteOf(x: U32, k: nat): Byte
    requires k < 4
  {
    if k == 0 then x % 0x100
    else if k == 1 then x / 0x100 % 0x100
    else if k == 2 then x / 0x1_0000 % 0x100
    else x / 0x100_0000
  }

  /** The word with the given bytes, least significant first. */
  function Word(a: Byte, b: Byte, c: Byte, d: Byte): U32 {
    a as int + b as int * 0x100 + c as int * 0x1_0000 + d as int * 0x100_0000
  }

  lemma WordOfBytes(x: U32)
    ensures Word(ByteOf(x, 0), ByteOf(x, 1), ByteOf(x, 2), ByteOf(x, 3)) == x
  {
    var y := x / 0x100;
    var z := y / 0x100;
    assert x / 0x1_0000 == z && x / 0x100_0000 == z / 0x100;
    assert x == x % 0x100 + 0x100 * y && y == y % 0x100 + 0x100 * z && z == z % 0x100 + 0x100 * (z / 0x100);
  }

  lemma BytesOfWord(a: Byte, b: Byte, c: Byte, d: Byte)
    ensures var x := Word(a, b, c, d);
            ByteOf(x, 0) == a && ByteOf(x, 1) == b && ByteOf(x, 2) == c && ByteOf(x, 3) == d
  {
    var x := Word(a, b, c, d);
    assert x / 0x100 == b + c * 0x100 + d * 0x1_0000;
    assert x / 0x1_0000 == c + d * 0x100;
  }

  function Be32(x: U32): (b: seq<Byte>)
    ensures |b| == 4
  {
    [ByteOf(x, 3), ByteOf(x, 2), ByteOf(x, 1), ByteOf(x, 0)]
  }

  function Le32(x: U32): (b: seq<Byte>)
    ensures |b| == 4
  {
    [ByteOf(x, 0), ByteOf(x, 1), ByteOf(x, 2), ByteOf(x, 3)]
  }

  // Arrays of words -------------------------------------------------------------------

  /** Words in network byte order. */
  function BeWords(xs: seq<U32>): (b: seq<Byte>)
    ensures |b| == 4 * |xs|
  {
    if xs == [] then [] else Be32(xs[0]) + BeWords(xs[1..])
  }

  /** The word b starts with. */
  function BeAt(b: seq<Byte>): U32
    requires 4 <= |b|
  {
    Word(b[3], b[2], b[1], b[0])
  }

  /** The first n words of b. */
  function BePrefix(b: seq<Byte>, n: nat): (xs: seq<U32>)
    requires 4 * n <= |b|
    ensures |xs| == n
    decreases n
  {
    if n == 0 then [] else [BeAt(b)] + BePrefix(b[4..], n - 1)
  }

  lemma BeHead(x: U32, rest: seq<Byte>)
    ensures BeAt(Be32(x) + rest) == x
  {
    WordOfBytes(x);
  }

  lemma {:induction false} BeWordsRead(xs: seq<U32>, rest: seq<Byte>)
    ensures BePrefix(BeWords(xs) + rest, |xs|) == xs
  {
    if xs != [] {
      var b1 := BeWords(xs[1..]) + rest;
      assert BeWords(xs) + rest == Be32(xs[0]) + b1;
      assert (Be32(xs[0]) + b1)[4..] == b1;
      BeHead(xs[0], b1);
      BeWordsRead(xs[1..], rest);
    }
  }

  lemma BeHeadUnique(b: seq<Byte>)
    requires 4 <= |b|
    ensures b == Be32(BeAt(b)) + b[4..]
  {
    BytesOfWord(b[3], b[2], b[1], b[0]);
  }

  lemma ThreeParts(a: seq<Byte>, b: seq<Byte>, c: seq<Byte>)
    ensures a + (b + c) == a + b + c
  {}

  lemma {:induction false} BeWordsWrite(b: seq<Byte>, n: nat)
    requires 4 * n <= |b|
    ensures b == BeWords(BePrefix(b, n)) + b[4 * n..]
    decreases n
  {
    if n > 0 {
      var xs, left := BePrefix(b[4..], n - 1), b[4..][4 * (n - 1)..];
      BeHeadUnique(b);
      BeWordsWrite(b[4..], n - 1);
      ThreeParts(Be32(BeAt(b)), BeWords(xs), left);
      assert left == b[4 * n..];
      assert BePrefix(b, n)[1..] == xs;
    }
  }

  /** Words in little-endian order. */
  function LeWords(xs: seq<U32>): (b: seq<Byte>)
    ensures |b| == 4 * |xs|
  {
    if xs == [] then [] else Le32(xs[0]) + LeWords(xs[1..])
  }

  /** The word b starts with. */
  function LeAt(b: seq<Byte>): U32
    requires 4 <= |b|
  {
    Word(b[0], b[1], b[2], b[3])
  }

  /** The first n words of b. */
  function LePrefix(b: seq<Byte>, n: nat): (xs: seq<U32>)
    requires 4 * n <= |b|
    ensures |xs| == n
    decreases n
  {
    if n == 0 then [] else [LeAt(b)] + LePrefix(b[4..], n - 1)
  }

  lemma LeHead(x: U32, rest: seq<Byte>)
    ensures LeAt(Le32(x) + rest) == x
  {
    WordOfBytes(x);
  }

  lemma {:induction false} LeWordsRead(xs: seq<U32>, rest: seq<Byte>)
    ensures LePrefix(LeWords(xs) + rest, |xs|) == xs
  {
    if xs != [] {
      var b1 := LeWords(xs[1..]) + rest;
      assert LeWords(xs) + rest == Le32(xs[0]) + b1;
      assert (Le32(xs[0]) + b1)[4..] == b1;
      LeHead(xs[0], b1);
      LeWordsRead(xs[1..], rest);
    }
  }

  lemma LeHeadUnique(b: seq<Byte>)
    requires 4 <= |b|
    ensures b == Le32(LeAt(b)) + b[4..]
  {
    BytesOfWord(b[0], b[1], b[2], b[3]);
  }

  /** The same bytes cannot start with two different word arrays of one length. */
  lemma LeWordsCut(xs: seq<U32>, x: seq<Byte>, ys: seq<U32>, y: seq<Byte>)
    requires |xs| == |ys| && LeWords(xs) + x == LeWords(ys) + y
    ensures xs == ys && x == y
  {
    LeWordsRead(xs, x);
    LeWordsRead(ys, y);
    assert x == (LeWords(xs) + x)[4 * |xs|..] && y == (LeWords(ys) + y)[4 * |ys|..];
  }

  lemma {:induction false} LeWordsSplit(xs: seq<U32>, ys: seq<U32>)
    ensures LeWords(xs + ys) == LeWords(xs) + LeWords(ys)
  {
    if xs == [] {
      assert xs + ys == ys;
    } else {
      assert (xs + ys)[1..] == xs[1..] + ys;
      LeWordsSplit(xs[1..], ys);
    }
  }

  lemma CutEqual(a: seq<Byte>, ra: seq<Byte>, b: seq<Byte>, rb: seq<Byte>)
    requires |a| == |b| && a + ra == b + rb
    ensures a == b && ra == rb
  {
    assert a == (a + ra)[..|a|] && ra == (a + ra)[|a|..] && b == (b + rb)[..|b|] && rb == (b + rb)[|b|..];
  }
}
