/** Where every field lies in the bytes that go over the wire and into session files, read byte by byte. */
module Layouts {
  import opened Bytes
  import KvPayload
  import KvSizes
  import Relay
  import RouteBlob

  /** The 32-bit number at an offset, most significant byte first. */
  function BigEndian(b: seq<Byte>, at: nat): int
    requires at + 4 <= |b|
  {
    b[at] as int * 0x100_0000 + b[at + 1] as int * 0x1_0000 + b[at + 2] as int * 0x100 + b[at + 3] as int
  }

  /** The same, least significant byte first. */
  function LittleEndian(b: seq<Byte>, at: nat): int
    requires at + 4 <= |b|
  {
    b[at] as int + b[at + 1] as int * 0x100 + b[at + 2] as int * 0x1_0000 + b[at + 3] as int * 0x100_0000
  }

  /** The words xs stand at an offset, in network byte order. */
  ghost predicate BigAt(b: seq<Byte>, at: nat, xs: seq<U32>) {
    at + 4 * |xs| <= |b| && forall k :: 0 <= k < |xs| ==> BigEndian(b, at + 4 * k) == xs[k]
  }

  /** The words xs stand at an offset, in little-endian order. */
  ghost predicate LittleAt(b: seq<Byte>, at: nat, xs: seq<U32>) {
    at + 4 * |xs| <= |b| && forall k :: 0 <= k < |xs| ==> LittleEndian(b, at + 4 * k) == xs[k]
  }

  lemma {:induction false} BigStands(lead: seq<Byte>, xs: seq<U32>, rest: seq<Byte>)
    ensures BigAt(lead + BeWords(xs) + rest, |lead|, xs)
    decreases |xs|
  {
    if xs != [] {
      WordOfBytes(xs[0]);
      BigStands(lead + Be32(xs[0]), xs[1..], rest);
      var b := lead + BeWords(xs) + rest;
      assert b == lead + Be32(xs[0]) + BeWords(xs[1..]) + rest;
      forall k | 0 <= k < |xs| ensures BigEndian(b, |lead| + 4 * k) == xs[k] {
        if k > 0 { assert BigEndian(b, |lead| + 4 + 4 * (k - 1)) == xs[1..][k - 1]; }
      }
    }
  }

  lemma {:induction false} LittleStands(lead: seq<Byte>, xs: seq<U32>, rest: seq<Byte>)
    ensures LittleAt(lead + LeWords(xs) + rest, |lead|, xs)
    decreases |xs|
  {
    if xs != [] {
      WordOfBytes(xs[0]);
      LittleStands(lead + Le32(xs[0]), xs[1..], rest);
      var b := lead + LeWords(xs) + rest;
      assert b == lead + Le32(xs[0]) + LeWords(xs[1..]) + rest;
      forall k | 0 <= k < |xs| ensures LittleEndian(b, |lead| + 4 * k) == xs[k] {
        if k > 0 { assert LittleEndian(b, |lead| + 4 + 4 * (k - 1)) == xs[1..][k - 1]; }
      }
    }
  }

  // Route blobs -----------------------------------------------------------------------

  /** A route entry: host length, port, first and last layer and flags, then the host. */
  lemma EntryLayout(e: RouteBlob.Entry, b: seq<Byte>)
    requires b == RouteBlob.Wire().put(e)
    ensures BigAt(b, 0, [|e.host|, e.port, e.layerStart, e.layerEnd, e.flags]) && b[20..] == e.host
  {
    var w := RouteBlob.Header(e);
    BigStands([], w, e.host);
    assert [] + BeWords(w) + e.host == b;
  }

  /** A return record: kind, host length and port, then the host. */
  lemma ReturnLayout(r: RouteBlob.Return, b: seq<Byte>)
    requires b == RouteBlob.Wire().putReturn(r)
    ensures BigAt(b, 0, [r.kind, |r.host|, r.port]) && b[12..] == r.host
  {
    var w := RouteBlob.ReturnHeader(r);
    BigStands([], w, r.host);
    assert [] + BeWords(w) + r.host == b;
  }

  /** Entry i of a blob follows the bytes of the entries before it. */
  lemma BlobLayout(es: seq<RouteBlob.Entry>, i: nat, b: seq<Byte>, at: nat)
    requires i < |es| && b == RouteBlob.Wire().Blob(es) && at == |RouteBlob.Wire().Entries(es[..i])|
    ensures var e := es[i];
            && BigAt(b, at, [|e.host|, e.port, e.layerStart, e.layerEnd, e.flags])
            && at + 20 + |e.host| <= |b| && b[at + 20..at + 20 + |e.host|] == e.host
  {
    var f, e, w := RouteBlob.Wire(), es[i], RouteBlob.Header(es[i]);
    var lead, rest := f.Entries(es[..i]), f.Entries(es[i + 1..]) + f.putReturn(RouteBlob.UPSTREAM);
    assert es == es[..i] + es[i..];
    RouteBlob.EntriesSplit(f, es[..i], es[i..]);
    BigStands(lead, w, e.host + rest);
    Regroup(lead, BeWords(w), e.host, f.Entries(es[i + 1..]), f.putReturn(RouteBlob.UPSTREAM));
  }

  lemma Regroup(x: seq<Byte>, h: seq<Byte>, y: seq<Byte>, z: seq<Byte>, p: seq<Byte>)
    ensures x + ((h + y) + z) + p == x + h + (y + (z + p))
    ensures h + ((x + (y + z)) + p) == h + x + y + (z + p)
  {}

  /** A route blob ends in the record that sends results back upstream: kind 1, no host, port 0. */
  lemma BlobEnd(es: seq<RouteBlob.Entry>, b: seq<Byte>)
    requires b == RouteBlob.Wire().Blob(es)
    ensures |b| >= 12 && BigAt(b, |b| - 12, [1, 0, 0])
  {
    var w, lead := RouteBlob.ReturnHeader(RouteBlob.UPSTREAM), RouteBlob.Wire().Entries(es);
    BigStands(lead, w, []);
    assert b == lead + BeWords(w) + [];
  }

  // RESULT frames ---------------------------------------------------------------------

  /** A RESULT frame: ten header words, the telemetry records, then the payload. */
  lemma FrameLayout(b: seq<Byte>, r: Relay.Result)
    requires Relay.IsFrame(b, r)
    ensures |b| == 40 + 40 * |r.records| + |r.payload| && b[40 + 40 * |r.records|..] == r.payload
    ensures BigAt(b, 0, [r.requestHi, r.requestLo, r.hashHi, r.hashLo, r.status, r.kind,
                         |r.records|, 40 * |r.records|, |r.payload|, r.bits])
  {
    var w, rest := Relay.HeaderWords(r), Relay.RecordBytes(r.records) + r.payload;
    BigStands([], w, rest);
    assert [] + BeWords(w) + rest == b;
  }

  /** Record i of the telemetry stands at its place. */
  lemma RecordLayout(b: seq<Byte>, r: Relay.Result, i: nat)
    requires Relay.IsFrame(b, r) && i < |r.records|
    ensures BigAt(b, 40 + 40 * i, r.records[i])
  {
    var before, after := r.records[..i], r.records[i + 1..];
    var header, record := BeWords(Relay.HeaderWords(r)), BeWords(r.records[i]);
    assert r.records == before + ([r.records[i]] + after);
    Relay.RecordBytesSplit(before, [r.records[i]] + after);
    BigStands(header + Relay.RecordBytes(before), r.records[i], Relay.RecordBytes(after) + r.payload);
    Regroup(Relay.RecordBytes(before), header, record, Relay.RecordBytes(after), r.payload);
  }

  // Session files ---------------------------------------------------------------------

  /** The layout fields in the order both headers hold them. */
  function Fields(l: KvSizes.Layout): seq<U32> {
    [l.ctx, l.prefillCap, l.rawCap, l.rawWindow, l.compCap, l.tokenCount, l.nLayers, l.headDim, l.indexerHeadDim]
  }

  /** Word arrays and plain bytes one behind the other. */
  ghost predicate Stands(b: seq<Byte>, lead: seq<Byte>, xs: seq<U32>, rest: seq<Byte>) {
    b == lead + LeWords(xs) + rest
  }

  lemma StandsAt(b: seq<Byte>, lead: seq<Byte>, xs: seq<U32>, rest: seq<Byte>, at: nat)
    requires Stands(b, lead, xs, rest) && at == |lead|
    ensures LittleAt(b, at, xs)
  {
    LittleStands(lead, xs, rest);
  }

  lemma Fourth(a: seq<Byte>, b: seq<Byte>, c: seq<Byte>, d: seq<Byte>)
    ensures a + (b + (c + d)) == a + b + c + d
  {}

  /** The row counts and the tensors behind them. */
  lemma RowsLayout(b: seq<Byte>, lead: seq<Byte>, ls: seq<KvPayload.Layer>, comps: nat, indexes: nat, tensors: nat)
    requires b == lead + (LeWords(KvPayload.Comps(ls)) + (LeWords(KvPayload.Indexes(ls)) + KvPayload.Tensors(ls)))
    requires comps == |lead| && indexes == comps + 4 * |ls| && tensors == indexes + 4 * |ls|
    ensures LittleAt(b, comps, KvPayload.Comps(ls)) && LittleAt(b, indexes, KvPayload.Indexes(ls))
    ensures |b| >= tensors && b[tensors..] == KvPayload.Tensors(ls)
  {
    var c, x, t := KvPayload.Comps(ls), KvPayload.Indexes(ls), KvPayload.Tensors(ls);
    ThreeParts(lead, LeWords(c), LeWords(x) + t);
    StandsAt(b, lead, c, LeWords(x) + t, comps);
    Fourth(lead, LeWords(c), LeWords(x), t);
    StandsAt(b, lead + LeWords(c), x, t, indexes);
  }

  /** A header: its first word as bytes, and the words behind it. */
  lemma HeaderLayout(b: seq<Byte>, h: seq<U32>, first: U32, words: seq<U32>, rest: seq<Byte>)
    requires b == LeWords(h) + rest && h == [first] + words
    ensures |b| >= 4 && b[..4] == Le32(first) && LittleAt(b, 4, words)
  {
    assert h[1..] == words;
    StandsAt(b, Le32(first), words, rest, 4);
  }

  lemma Letters()
    ensures Le32(KvPayload.SESSION_MAGIC) == [0x44, 0x53, 0x56, 0x34]
    ensures Le32(KvPayload.LAYER_MAGIC) == [0x44, 0x53, 0x56, 0x4c]
  {}

  /** The bytes of the rows and tensors. */
  function Rows(ls: seq<KvPayload.Layer>): seq<Byte> {
    LeWords(KvPayload.Comps(ls)) + (LeWords(KvPayload.Indexes(ls)) + KvPayload.Tensors(ls))
  }

  /** What follows the header of a session payload. */
  lemma BodyLayout(b: seq<Byte>, head: seq<Byte>, p: KvPayload.Payload, tokens: nat, logits: nat, comps: nat,
        indexes: nat, tensors: nat)
    requires b == head + (LeWords(p.tokens) + (p.logits + Rows(p.layers)))
    requires tokens == |head| && logits == tokens + 4 * |p.tokens| && comps == logits + |p.logits|
    requires indexes == comps + 4 * |p.layers| && tensors == indexes + 4 * |p.layers|
    ensures LittleAt(b, tokens, p.tokens) && comps <= |b| && b[logits..comps] == p.logits
    ensures LittleAt(b, comps, KvPayload.Comps(p.layers)) && LittleAt(b, indexes, KvPayload.Indexes(p.layers))
    ensures |b| >= tensors && b[tensors..] == KvPayload.Tensors(p.layers)
  {
    ThreeParts(head, LeWords(p.tokens), p.logits + Rows(p.layers));
    StandsAt(b, head, p.tokens, p.logits + Rows(p.layers), tokens);
    Fourth(head, LeWords(p.tokens), p.logits, Rows(p.layers));
    RowsLayout(b, head + LeWords(p.tokens) + p.logits, p.layers, comps, indexes, tensors);
  }

  /** The bytes of a session payload are its header's and what follows them. */
  lemma PayloadParts(p: KvPayload.Payload) returns (h: seq<U32>)
    ensures h == [KvPayload.SESSION_MAGIC] + ([2] + Fields(p.layout) + [p.vocab, p.layout.rawLive])
    ensures KvPayload.Encode(p) == LeWords(h) + (LeWords(p.tokens) + (p.logits + Rows(p.layers)))
  {
    h := KvPayload.SessionHeader(p.layout, p.vocab);
    assert KvPayload.Tensors(p.layers) + [] == KvPayload.Tensors(p.layers);
  }

  /** A session payload: the letters DSV4, version 2, the layout, the vocabulary and the live rows; then the tokens, the
      logits, the row counts of all layers, and the tensors. */
  lemma PayloadLayout(p: KvPayload.Payload, b: seq<Byte>, tokens: nat, logits: nat, comps: nat, indexes: nat,
        tensors: nat)
    requires b == KvPayload.Encode(p)
    requires tokens == 52 && logits == tokens + 4 * |p.tokens| && comps == logits + |p.logits|
    requires indexes == comps + 4 * |p.layers| && tensors == indexes + 4 * |p.layers|
    ensures |b| >= tensors && b[..4] == [0x44, 0x53, 0x56, 0x34]
    ensures LittleAt(b, 4, [2] + Fields(p.layout) + [p.vocab, p.layout.rawLive])
    ensures LittleAt(b, tokens, p.tokens) && b[logits..comps] == p.logits
    ensures LittleAt(b, comps, KvPayload.Comps(p.layers)) && LittleAt(b, indexes, KvPayload.Indexes(p.layers))
    ensures b[tensors..] == KvPayload.Tensors(p.layers)
  {
    var h := PayloadParts(p);
    Letters();
    HeaderLayout(b, h, KvPayload.SESSION_MAGIC, [2] + Fields(p.layout) + [p.vocab, p.layout.rawLive],
                 LeWords(p.tokens) + (p.logits + Rows(p.layers)));
    BodyLayout(b, LeWords(h), p, tokens, logits, comps, indexes, tensors);
  }

  lemma ShardParts(l: KvSizes.Layout, lo: U32, hi: U32, ls: seq<KvPayload.Layer>) returns (h: seq<U32>)
    requires ls != [] && lo + |ls| == hi + 1
    ensures h == [KvPayload.LAYER_MAGIC] + ([1] + Fields(l) + [lo, hi, l.rawLive])
    ensures KvPayload.EncodeShard(l, lo, ls) == LeWords(h) + Rows(ls)
  {
    h := KvPayload.LayerHeader(l, lo, hi);
  }

  /** The payload of a range of layers: the letters DSVL, version 1, the layout, the first and last layer and the live
      rows; then the row counts of these layers and their tensors. */
  lemma ShardLayout(l: KvSizes.Layout, lo: U32, hi: U32, ls: seq<KvPayload.Layer>, b: seq<Byte>, comps: nat,
        indexes: nat, tensors: nat)
    requires ls != [] && lo + |ls| == hi + 1 && b == KvPayload.EncodeShard(l, lo, ls)
    requires comps == 56 && indexes == comps + 4 * |ls| && tensors == indexes + 4 * |ls|
    ensures |b| >= tensors && b[..4] == [0x44, 0x53, 0x56, 0x4c]
    ensures LittleAt(b, 4, [1] + Fields(l) + [lo, hi, l.rawLive])
    ensures LittleAt(b, comps, KvPayload.Comps(ls)) && LittleAt(b, indexes, KvPayload.Indexes(ls))
    ensures b[tensors..] == KvPayload.Tensors(ls)
  {
    var h := ShardParts(l, lo, hi, ls);
    Letters();
    HeaderLayout(b, h, KvPayload.LAYER_MAGIC, [1] + Fields(l) + [lo, hi, l.rawLive], Rows(ls));
    RowsLayout(b, LeWords(h), ls, comps, indexes, tensors);
  }

  /** The tensors of a layer stand behind those of the layers before it. */
  lemma TensorLayout(ls: seq<KvPayload.Layer>, k: nat, at: nat)
    requires k < |ls| && at == |KvPayload.Tensors(ls[..k])|
    ensures at + |ls[k].tensor| <= |KvPayload.Tensors(ls)|
    ensures KvPayload.Tensors(ls)[at..at + |ls[k].tensor|] == ls[k].tensor
  {
    assert ls == ls[..k] + ls[k..];
    KvPayload.TensorsSplit(ls[..k], ls[k..]);
  }
}
