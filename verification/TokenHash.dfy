/** The session invariant hash of the distributed runtime: an FNV-1a step over the
    little-endian bytes of the token ids, with the initial value this runtime uses. */
module TokenHash {
  import opened Wire = Bytes

  const TWO64: int := 0x1_0000_0000_0000_0000

  type U64 = x: int | 0 <= x < TWO64
  type Token = U32   // the 32-bit pattern of a C token id

  const INIT: U64 := 1469598103934665603
  const PRIME: U64 := 1099511628211
  const BYTE_BITS: nat := 8

  /** Exclusive or of the low n bits. */
  function Xor(a: nat, b: nat, n: nat): nat {
    if n == 0 then 0 else (a + b) % 2 + 2 * Xor(a / 2, b / 2, n - 1)
  }

  /** One FNV-1a step: the byte lands in the low eight bits, the product wraps at 64 bits. */
  function Absorb(h: U64, b: Byte): U64 {
    (Mix(h, b) * PRIME) % TWO64
  }

  function SpanBytes(tokens: seq<Token>): seq<Byte> {
    if tokens == [] then [] else Le32(tokens[0]) + SpanBytes(tokens[1..])
  }

  /** FNV-1a over a byte string: the reference the token loops are measured against. */
  function Fnv(h: U64, bytes: seq<Byte>): U64
    decreases |bytes|
  {
    if bytes == [] then h else Fnv(Absorb(h, bytes[0]), bytes[1..])
  }

  function UpdateSpan(h: U64, tokens: seq<Token>): U64 { Fnv(h, SpanBytes(tokens)) }

  function Prefix(tokens: seq<Token>): U64 { UpdateSpan(INIT, tokens) }

  lemma {:induction false} FnvSplit(h: U64, a: seq<Byte>, b: seq<Byte>)
    ensures Fnv(h, a + b) == Fnv(Fnv(h, a), b)
    decreases |a|
  {
    if a == [] {
      assert a + b == b;
    } else {
      assert (a + b)[1..] == a[1..] + b;
      FnvSplit(Absorb(h, a[0]), a[1..], b);
    }
  }

  lemma {:induction false} SpanBytesSplit(a: seq<Token>, b: seq<Token>)
    ensures SpanBytes(a + b) == SpanBytes(a) + SpanBytes(b)
  {
    if a == [] {
      assert a + b == b;
    } else {
      assert (a + b)[1..] == a[1..] + b;
      SpanBytesSplit(a[1..], b);
    }
  }

  /** Updating over concatenated spans composes, so a worker that hashes chunk by chunk
      agrees with a coordinator that hashes the whole prefix. */
  lemma UpdateSpanSplit(h: U64, a: seq<Token>, b: seq<Token>)
    ensures UpdateSpan(h, a + b) == UpdateSpan(UpdateSpan(h, a), b)
  {
    SpanBytesSplit(a, b);
    FnvSplit(h, SpanBytes(a), SpanBytes(b));
  }

  lemma PrefixExtends(a: seq<Token>, b: seq<Token>)
    ensures Prefix(a + b) == UpdateSpan(Prefix(a), b)
  {
    UpdateSpanSplit(INIT, a, b);
  }

  function Power2(n: nat): nat { if n == 0 then 1 else 2 * Power2(n - 1) }

  lemma {:induction false} XorUndone(a: nat, b: nat, n: nat)
    requires a < Power2(n) && b < Power2(n)
    ensures Xor(a, b, n) < Power2(n) && Xor(Xor(a, b, n), b, n) == a
  {
    if n > 0 {
      assert a / 2 < Power2(n - 1) && b / 2 < Power2(n - 1);
      XorUndone(a / 2, b / 2, n - 1);
      LowBitUndone(a, b, Xor(a / 2, b / 2, n - 1));
    }
  }

  lemma LowBitUndone(a: nat, b: nat, y: nat)
    ensures ((a + b) % 2 + 2 * y) / 2 == y
    ensures ((a + b) % 2 + 2 * y + b) % 2 == a % 2
  {}

  /** Binary digit k of a. */
  function Bit(a: nat, k: nat): nat { if k == 0 then a % 2 else Bit(a / 2, k - 1) }

  lemma Digits(low: nat, high: nat)
    requires low < 2
    ensures (low + 2 * high) / 2 == high && (low + 2 * high) % 2 == low
  {}

  lemma Parity(a: nat, b: nat)
    ensures (a + b) % 2 == if a % 2 != b % 2 then 1 else 0
  {}

  /** A bit is set when it is set in exactly one of the two. */
  lemma {:induction false} XorBits(a: nat, b: nat, n: nat, k: nat)
    requires k < n
    ensures Bit(Xor(a, b, n), k) == if Bit(a, k) != Bit(b, k) then 1 else 0
    decreases n
  {
    var low, high := (a + b) % 2, Xor(a / 2, b / 2, n - 1);
    Digits(low, high);
    if k == 0 { Parity(a, b); } else { XorBits(a / 2, b / 2, n - 1, k - 1); }
  }

  lemma ByteXorUndone(a: Byte, b: Byte)
    ensures XorByte(a, b) < 256 && XorByte(XorByte(a, b), b) == a
  {
    assert Power2(8) == 256;
    XorUndone(a, b, BYTE_BITS);
  }

  function XorByte(a: nat, b: nat): nat { Xor(a, b, BYTE_BITS) }

  lemma JoinByte(hi: nat, lo: nat)
    requires lo < 256
    ensures (hi * 256 + lo) / 256 == hi && (hi * 256 + lo) % 256 == lo
  {}

  /** The hash state with a byte folded into its low eight bits, before the product. */
  function Mix(h: U64, b: Byte): (m: U64)
    ensures m / 256 == h / 256 && m % 256 == XorByte(h % 256, b)
  {
    ByteXorUndone(h % 256, b);
    JoinByte(h / 256, XorByte(h % 256, b));
    h / 256 * 256 + XorByte(h % 256, b)
  }

  /** The prime is odd, so the wrapping product can be undone. */
  lemma ProductInjective(x: U64, y: U64)
    requires (x * PRIME) % TWO64 == (y * PRIME) % TWO64
    ensures x == y
  {
    var d := x - y;
    var q := (x * PRIME) / TWO64 - (y * PRIME) / TWO64;
    assert d * 1099511628211 == q * TWO64;
    assert d * (1099511628211 * 0xce965057aff6957b) == q * 0xce965057aff6957b * TWO64;
    assert 1099511628211 * 0xce965057aff6957b == 1 + 0xce9650590f * TWO64;
    assert d == (q * 0xce965057aff6957b - d * 0xce9650590f) * TWO64;
  }

  lemma AbsorbInjective(h1: U64, h2: U64, b: Byte)
    requires Absorb(h1, b) == Absorb(h2, b)
    ensures h1 == h2
  {
    ProductInjective(Mix(h1, b), Mix(h2, b));
    ByteXorUndone(h1 % 256, b);
    ByteXorUndone(h2 % 256, b);
  }

  lemma {:induction false} FnvInjective(h1: U64, h2: U64, bytes: seq<Byte>)
    requires Fnv(h1, bytes) == Fnv(h2, bytes)
    ensures h1 == h2
    decreases |bytes|
  {
    if bytes != [] {
      FnvInjective(Absorb(h1, bytes[0]), Absorb(h2, bytes[0]), bytes[1..]);
      AbsorbInjective(h1, h2, bytes[0]);
    }
  }

  /** For a fixed span the update is injective on 64-bit states: two frames carrying the same
      span end in the same result hash exactly when they started from the same prefix hash. */
  lemma UpdateSpanInjective(h1: U64, h2: U64, tokens: seq<Token>)
    ensures UpdateSpan(h1, tokens) == UpdateSpan(h2, tokens) <==> h1 == h2
  {
    if UpdateSpan(h1, tokens) == UpdateSpan(h2, tokens) {
      FnvInjective(h1, h2, SpanBytes(tokens));
    }
  }

  lemma CheckXor(x: nat, b: nat)
    requires x == 0x25 && b == 0x61
    ensures XorByte(x, b) == 0x44
  {
    assert Xor(0x02, 0x06, 4) == 0x04;
    assert Xor(0x12, 0x30, 7) == 0x22;
  }

  lemma CheckMix(h: U64, b: Byte)
    requires h == 0xcbf29ce484222325 && b == 0x61
    ensures Mix(h, b) == 0xcbf29ce484222344
  {
    CheckXor(h % 256, b);
  }

  lemma CheckProduct(m: U64)
    requires m == 0xcbf29ce484222344
    ensures m * PRIME % TWO64 == 0xaf63dc4c8601ec8c
  {
    assert m * 1099511628211 == 0xcbf29ce5de * TWO64 + 0xaf63dc4c8601ec8c;
  }

  /** The published check value of 64-bit FNV-1a: the letter a, from the standard offset basis. */
  lemma CheckValue()
    ensures Fnv(0xcbf29ce484222325, [0x61]) == 0xaf63dc4c8601ec8c
  {
    var h, b := 0xcbf29ce484222325, 0x61;
    CheckMix(h, b);
    CheckProduct(Mix(h, b));
    assert [b][1..] == [];
  }

  method UpdateToken(h0: U64, token: Token) returns (h: U64)
    ensures h == Fnv(h0, Le32(token))
  {
    h := h0;
    ghost var bytes := Le32(token);
    for i := 0 to 4
      invariant Fnv(h, bytes[i..]) == Fnv(h0, bytes)
    {
      assert bytes[i..][0] == ByteOf(token, i);
      assert bytes[i..][1..] == bytes[i + 1..];
      h := Absorb(h, ByteOf(token, i));
    }
  }

  method HashSpan(h0: U64, tokens: seq<Token>) returns (h: U64)
    ensures h == UpdateSpan(h0, tokens)
  {
    h := h0;
    for i := 0 to |tokens|
      invariant UpdateSpan(h, tokens[i..]) == UpdateSpan(h0, tokens)
    {
      FnvSplit(h, Le32(tokens[i]), SpanBytes(tokens[i + 1..]));
      assert tokens[i..][1..] == tokens[i + 1..];
      h := UpdateToken(h, tokens[i]);
    }
  }

  method HashPrefix(tokens: seq<Token>) returns (h: U64)
    ensures h == Prefix(tokens)
  {
    h := HashSpan(INIT, tokens);
  }
}
