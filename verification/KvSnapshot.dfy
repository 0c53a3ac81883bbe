/** Saving and loading a distributed session: the session payload is gathered from, or split into, the
    layer shards of whatever route exists at that moment. */
module KvSnapshot {
  import opened Bytes
  import opened KvPayload
  import opened KvShard
  import opened KvSizes
  import opened LayerRoute
  import opened Wrappers

  const INT_MAX: nat := 0x7fff_ffff

  /** A payload this engine can hold. */
  ghost predicate PayloadOk(e: Engine, p: Payload) {
    && p.layout.nLayers == e.layerCount == |p.layers| && p.vocab == e.vocab
    && RawLiveValid(e, p.layout) && LayersOk(e, p.layout, 0, p.layers)
    && |p.tokens| == p.layout.tokenCount && |p.logits| == 4 * p.vocab
  }

  predicate LayoutFits(e: Engine, ctx: nat, l: Layout) {
    l.nLayers == e.layerCount && l.ctx <= ctx && l.tokenCount < ctx && RawLiveValid(e, l)
  }

  predicate TokensFit(e: Engine, tokens: seq<U32>) {
    forall i :: 0 <= i < |tokens| ==> tokens[i] <= INT_MAX && tokens[i] < e.vocab
  }

  /** A payload this session can load. */
  ghost predicate Loadable(e: Engine, ctx: nat, p: Payload) {
    PayloadOk(e, p) && LayoutFits(e, ctx, p.layout) && TokensFit(e, p.tokens)
  }

  /** Spelled out: what a session of ctx positions on this engine can load. */
  lemma LoadableMeans(e: Engine, ctx: nat, p: Payload)
    ensures var l := p.layout;
            Loadable(e, ctx, p) <==>
              && l.nLayers == e.layerCount == |p.layers| && p.vocab == e.vocab && |p.logits| == 4 * e.vocab
              && l.ctx <= ctx && |p.tokens| == l.tokenCount < ctx
              && (forall i :: 0 <= i < |p.tokens| ==> p.tokens[i] <= 0x7fff_ffff && p.tokens[i] < e.vocab)
              && l.rawWindow > 0 && l.rawCap > 0
              && l.rawLive <= l.rawCap && l.rawLive <= l.rawWindow && l.rawLive <= l.tokenCount
              && (e.isGlm || l.rawLive == l.rawWindow || l.rawLive == l.tokenCount)
              && forall k :: 0 <= k < |p.layers| ==>
                   && p.layers[k].nComp <= l.compCap && p.layers[k].nIndex <= l.compCap
                   && e.layerBytes(l, k, p.layers[k].nComp, p.layers[k].nIndex) == Some(|p.layers[k].tensor|)
  {
    RawLiveMeans(e, p.layout);
    assert LayersOk(e, p.layout, 0, p.layers) <==>
      forall k :: 0 <= k < |p.layers| ==> LayerOk(e, p.layout, 0 + k, p.layers[k]);
  }

  /** The shard a slice of the route gets: its own layers, whatever the other slices are. */
  function ShardOf(p: Payload, s: Slice): seq<Byte>
    requires s.lo <= s.hi < |p.layers| < 0x1_0000_0000
  {
    EncodeShard(p.layout, s.lo, p.layers[s.lo..s.End()])
  }

  /** shards are what the slices at the start of the route get, in order. */
  ghost predicate StartShards(p: Payload, route: seq<Slice>, shards: seq<seq<Byte>>)
    requires |p.layers| < 0x1_0000_0000 && Covers(route, |p.layers|)
  {
    |shards| <= |route| && forall k :: 0 <= k < |shards| ==> ShardAt(p, route, shards, k)
  }

  ghost predicate ShardAt(p: Payload, route: seq<Slice>, shards: seq<seq<Byte>>, k: nat)
    requires |p.layers| < 0x1_0000_0000 && Covers(route, |p.layers|) && k < |shards| <= |route|
  {
    shards[k] == ShardOf(p, route[k])
  }

  /** shards are what the slices of the route get, in order. */
  ghost predicate AreShards(p: Payload, route: seq<Slice>, shards: seq<seq<Byte>>)
    requires |p.layers| < 0x1_0000_0000 && Covers(route, |p.layers|)
  {
    |shards| == |route| && StartShards(p, route, shards)
  }

  // Load: the part before the tensors -----------------------------------------------------

  datatype Front = Front(layout: Layout, tokens: seq<U32>, logits: seq<Byte>, comps: seq<U32>, indexes: seq<U32>,
      rest: seq<Byte>)

  function AfterHead(f: Front): seq<Byte> { LeWords(f.tokens) + AfterTokens(f) }
  function AfterTokens(f: Front): seq<Byte> { f.logits + AfterLogits(f) }
  function AfterLogits(f: Front): seq<Byte> { LeWords(f.comps) + AfterRows(f) }
  function AfterRows(f: Front): seq<Byte> { LeWords(f.indexes) + f.rest }

  ghost predicate FrontIs(e: Engine, ctx: nat, bytes: seq<Byte>, f: Front) {
    && LayoutFits(e, ctx, f.layout) && TokensFit(e, f.tokens) && |f.tokens| == f.layout.tokenCount
    && |f.logits| == 4 * e.vocab && |f.comps| == |f.indexes| == e.layerCount
    && UpTo(f.comps, f.layout.compCap) && UpTo(f.indexes, f.layout.compCap)
    && Starts(bytes, SessionHeader(f.layout, e.vocab), AfterHead(f))
  }

  lemma HeaderFields(h: seq<U32>, vocab: U32)
    requires |h| == SESSION_FIELDS
    ensures h == SessionHeader(SessionLayout(h), vocab) <==>
              h[0] == SESSION_MAGIC && h[1] == SESSION_VERSION && h[11] == vocab
    ensures forall l :: SessionLayout(SessionHeader(l, vocab)) == l
  {}

  method ReadHead(e: Engine, ctx: nat, bytes: seq<Byte>) returns (r: Option<(Layout, seq<Byte>)>)
    ensures r.Some? ==> LayoutFits(e, ctx, r.value.0) && Starts(bytes, SessionHeader(r.value.0, e.vocab), r.value.1)
    ensures forall l, rest :: LayoutFits(e, ctx, l) && Starts(bytes, SessionHeader(l, e.vocab), rest) ==>
              r == Some((l, rest))
  {
    var words := ReadWords(bytes, SESSION_FIELDS);
    if words.None? { return None; }
    var h := words.value.0;
    HeaderFields(h, e.vocab);
    if h[0] != SESSION_MAGIC || h[1] != SESSION_VERSION { return None; }
    var l := SessionLayout(h);
    if l.nLayers != e.layerCount || l.ctx > ctx || l.tokenCount >= ctx { return None; }
    if h[11] != e.vocab || !RawLiveValid(e, l) { return None; }
    return Some((l, words.value.1));
  }

  method ReadTokens(e: Engine, b: seq<Byte>, n: nat) returns (r: Option<(seq<U32>, seq<Byte>)>)
    ensures r.Some? ==> |r.value.0| == n && TokensFit(e, r.value.0) && Starts(b, r.value.0, r.value.1)
    ensures forall xs, rest :: Starts(b, xs, rest) && |xs| == n && TokensFit(e, xs) ==> r == Some((xs, rest))
  {
    r := ReadWords(b, n);
    if r.None? { return; }
    for i := 0 to n
      invariant forall k :: 0 <= k < i ==> r.value.0[k] <= INT_MAX && r.value.0[k] < e.vocab
    {
      if r.value.0[i] > INT_MAX || r.value.0[i] >= e.vocab { return None; }
    }
  }

  method ReadFront(e: Engine, ctx: nat, bytes: seq<Byte>) returns (r: Option<Front>)
    ensures r.Some? ==> FrontIs(e, ctx, bytes, r.value)
    ensures forall f :: FrontIs(e, ctx, bytes, f) ==> r == Some(f)
  {
    var head := ReadHead(e, ctx, bytes);
    if head.None? { return None; }
    var l := head.value.0;
    var tokens := ReadTokens(e, head.value.1, l.tokenCount);
    forall f | FrontIs(e, ctx, bytes, f) ensures tokens == Some((f.tokens, AfterTokens(f))) && l == f.layout {
      assert Starts(head.value.1, f.tokens, AfterTokens(f));
    }
    if tokens.None? { return None; }
    var b, n := tokens.value.1, 4 * e.vocab;
    forall f | FrontIs(e, ctx, bytes, f) ensures n <= |b| && f.logits == b[..n] && AfterLogits(f) == b[n..] {
      assert b == f.logits + AfterLogits(f);
    }
    if n > |b| { return None; }
    var rows := ReadRows(b[n..], e.layerCount, l.compCap);
    forall f | FrontIs(e, ctx, bytes, f) ensures rows == Some((f.comps, f.indexes, f.rest)) {
      assert RowsAre(b[n..], e.layerCount, l.compCap, f.comps, f.indexes, f.rest);
    }
    if rows.None? { return None; }
    r := Some(Front(l, tokens.value.0, b[..n], rows.value.0, rows.value.1, rows.value.2));
    FrontRead(e, ctx, bytes, r.value, head.value.1, b);
  }

  lemma FrontRead(e: Engine, ctx: nat, bytes: seq<Byte>, f: Front, b1: seq<Byte>, b2: seq<Byte>)
    requires LayoutFits(e, ctx, f.layout) && TokensFit(e, f.tokens) && |f.tokens| == f.layout.tokenCount
    requires |f.logits| == 4 * e.vocab
    requires Starts(bytes, SessionHeader(f.layout, e.vocab), b1) && Starts(b1, f.tokens, b2)
    requires |f.logits| <= |b2| && f.logits == b2[..|f.logits|]
    requires RowsAre(b2[|f.logits|..], e.layerCount, f.layout.compCap, f.comps, f.indexes, f.rest)
    ensures FrontIs(e, ctx, bytes, f)
  {
    assert b2 == f.logits + b2[|f.logits|..];
  }

  // Load: splitting the tensors along the route -------------------------------------------

  /** off stands for the sums that Total defines by recursion. Passing it as a function parameter, tied to the
      definition here, keeps the recursion out of the proofs below, which need nothing else of it.
      It gives where each layer starts in the tensor bytes, if the engine gives the sizes of all earlier ones. */
  ghost predicate Offsets(e: Engine, f: Front, off: nat -> Option<nat>)
    requires |f.comps| == |f.indexes|
  {
    forall k: nat {:trigger Total(e, f.layout, 0, f.comps, f.indexes, k)} :: k <= |f.comps| ==>
      off(k) == Total(e, f.layout, 0, f.comps, f.indexes, k)
  }

  /** The bytes written for the slice when its tensors are the bytes flat. */
  function SliceBytes(f: Front, s: Slice, flat: seq<Byte>): seq<Byte>
    requires s.lo <= s.hi < |f.comps| == |f.indexes| < 0x1_0000_0000
  {
    LeWords(LayerHeader(f.layout, s.lo, s.hi))
    + (LeWords(f.comps[s.lo..s.End()]) + (LeWords(f.indexes[s.lo..s.End()]) + flat))
  }

  /** The shard of slice s: its header, row counts and its own piece of the tensor bytes. */
  ghost predicate IsSliceShard(off: nat -> Option<nat>, f: Front, s: Slice, shard: seq<Byte>)
    requires s.lo <= s.hi < |f.comps| == |f.indexes| < 0x1_0000_0000
  {
    off(s.lo).Some? && off(s.End()).Some? && IsPiece(f, s, shard, off(s.lo).value, off(s.End()).value)
  }

  ghost predicate IsPiece(f: Front, s: Slice, shard: seq<Byte>, a: nat, b: nat)
    requires s.lo <= s.hi < |f.comps| == |f.indexes| < 0x1_0000_0000
  {
    a <= b <= |f.rest| && shard == SliceBytes(f, s, f.rest[a..b])
  }

  /** The tensors of the first k layers are there. */
  ghost predicate Fits(off: nat -> Option<nat>, f: Front, k: nat) { off(k).Some? && off(k).value <= |f.rest| }

  lemma FitsEarlier(e: Engine, off: nat -> Option<nat>, f: Front, k: nat, n: nat)
    requires k <= n <= |f.comps| == |f.indexes| && Offsets(e, f, off)
    ensures Fits(off, f, n) ==> Fits(off, f, k)
  {
    assert off(k) == Total(e, f.layout, 0, f.comps, f.indexes, k)
           && off(n) == Total(e, f.layout, 0, f.comps, f.indexes, n);
    if Fits(off, f, n) { TotalGrows(e, f.layout, 0, f.comps, f.indexes, k, n); }
  }

  lemma NextOffset(e: Engine, off: nat -> Option<nat>, f: Front, k: nat)
    requires k < |f.comps| == |f.indexes| && Offsets(e, f, off)
    ensures var size := e.layerBytes(f.layout, k, f.comps[k], f.indexes[k]);
            off(k + 1) == if off(k).None? || size.None? then None else Some(off(k).value + size.value)
  {
    assert off(k) == Total(e, f.layout, 0, f.comps, f.indexes, k);
    assert off(k + 1) == Total(e, f.layout, 0, f.comps, f.indexes, k + 1);
  }

  lemma MoveOn(all: seq<Byte>, a: nat, b: nat, n: nat)
    requires a <= b && b + n <= |all|
    ensures all[a..b] + all[b..][..n] == all[a..b + n] && all[b..][n..] == all[b + n..]
  {}

  /** Writes the header and row counts of a slice and moves its tensors over, layer by layer. */
  method PrepareShard(e: Engine, f: Front, s: Slice, rest: seq<Byte>, ghost off: nat -> Option<nat>, ghost used: nat)
      returns (r: Option<(seq<Byte>, seq<Byte>)>, ghost end: nat)
    requires s.lo <= s.hi < |f.comps| == |f.indexes| < 0x1_0000_0000 && used <= |f.rest| && rest == f.rest[used..]
    requires Offsets(e, f, off) && off(s.lo) == Some(used)
    ensures r.Some? <==> Fits(off, f, s.End())
    ensures r.Some? ==> IsSliceShard(off, f, s, r.value.0) && off(s.End()) == Some(end) && end <= |f.rest|
    ensures r.Some? ==> r.value.1 == f.rest[end..]
  {
    var flat: seq<Byte>, left := [], rest;
    end := used;
    for il := s.lo to s.End()
      invariant off(il) == Some(end) && used <= end <= |f.rest| && flat == f.rest[used..end] && left == f.rest[end..]
    {
      FitsEarlier(e, off, f, il + 1, s.End());
      NextOffset(e, off, f, il);
      var size := e.layerBytes(f.layout, il, f.comps[il], f.indexes[il]);
      if size.None? || |left| < size.value { return None, end; }
      MoveOn(f.rest, used, end, size.value);
      flat, left := flat + left[..size.value], left[size.value..];
      end := end + size.value;
    }
    r := Some((SliceBytes(f, s, flat), left));
  }

  /** The first shards of the route, in order. */
  ghost predicate Sent(off: nat -> Option<nat>, f: Front, route: seq<Slice>, sent: seq<seq<Byte>>)
    requires |f.comps| == |f.indexes| < 0x1_0000_0000 && Covers(route, |f.comps|)
  {
    |sent| <= |route| && forall k :: 0 <= k < |sent| ==> SentAt(off, f, route, sent, k)
  }

  ghost predicate SentAt(off: nat -> Option<nat>, f: Front, route: seq<Slice>, sent: seq<seq<Byte>>, k: nat)
    requires |f.comps| == |f.indexes| < 0x1_0000_0000 && Covers(route, |f.comps|) && k < |sent| <= |route|
  {
    IsSliceShard(off, f, route[k], sent[k])
  }

  /** The session or worker at place k of the route takes its shard. */
  predicate Takes(accept: (nat, seq<Byte>) -> bool, k: nat, shard: seq<Byte>) { accept(k, shard) }

  ghost predicate Accepted(accept: (nat, seq<Byte>) -> bool, sent: seq<seq<Byte>>) {
    forall k :: 0 <= k < |sent| ==> Takes(accept, k, sent[k])
  }

  /** Nothing is sent after a refused shard. */
  ghost predicate StopsAtRefusal(accept: (nat, seq<Byte>) -> bool, sent: seq<seq<Byte>>) {
    forall k :: 0 <= k < |sent| - 1 ==> Takes(accept, k, sent[k])
  }

  ghost predicate LastRefused(accept: (nat, seq<Byte>) -> bool, sent: seq<seq<Byte>>) {
    sent != [] && !Takes(accept, |sent| - 1, sent[|sent| - 1])
  }

  lemma AcceptedMore(accept: (nat, seq<Byte>) -> bool, sent: seq<seq<Byte>>, shard: seq<Byte>)
    requires Accepted(accept, sent)
    ensures Accepted(accept, sent + [shard]) <==> Takes(accept, |sent|, shard)
    ensures StopsAtRefusal(accept, sent) && StopsAtRefusal(accept, sent + [shard])
    ensures LastRefused(accept, sent + [shard]) <==> !Takes(accept, |sent|, shard)
  {
    assert (sent + [shard])[|sent|] == shard && forall k :: 0 <= k < |sent| ==> (sent + [shard])[k] == sent[k];
  }

  /** Which shards go out for a readable front: the slices' shards in route order, none after a refused one, and
      all of them unless one is refused or the tensors of the next slice are not all there. */
  ghost predicate Delivers(off: nat -> Option<nat>, f: Front, route: seq<Slice>, accept: (nat, seq<Byte>) -> bool,
      sent: seq<seq<Byte>>)
    requires |f.comps| == |f.indexes| < 0x1_0000_0000 && Covers(route, |f.comps|)
  {
    && Sent(off, f, route, sent) && StopsAtRefusal(accept, sent)
    && (|sent| < |route| ==> LastRefused(accept, sent) || !Fits(off, f, route[|sent|].End()))
  }

  /** The first layer not sent after k slices. */
  function NextLayer(route: seq<Slice>, k: nat): nat
    requires k <= |route|
  {
    if k == 0 then 0 else route[k - 1].End()
  }

  /** The shards of the first slices are sent and rest is what follows their tensors. */
  ghost predicate Progress(off: nat -> Option<nat>, f: Front, route: seq<Slice>, sent: seq<seq<Byte>>, used: nat,
        rest: seq<Byte>)
    requires |f.comps| == |f.indexes| < 0x1_0000_0000 && Covers(route, |f.comps|)
  {
    Sent(off, f, route, sent) && off(NextLayer(route, |sent|)) == Some(used) && used <= |f.rest|
        && rest == f.rest[used..]
  }

  lemma NextStarts(route: seq<Slice>, n: nat, k: nat)
    requires Covers(route, n) && k < |route|
    ensures NextLayer(route, k) == route[k].lo <= route[k].hi < n && NextLayer(route, k + 1) == route[k].End()
  {
    assert k > 0 ==> Joins(route, k);
  }

  lemma SentMore(off: nat -> Option<nat>, f: Front, route: seq<Slice>, sent: seq<seq<Byte>>, shard: seq<Byte>)
    requires |f.comps| == |f.indexes| < 0x1_0000_0000 && Covers(route, |f.comps|)
    requires Sent(off, f, route, sent) && |sent| < |route| && IsSliceShard(off, f, route[|sent|], shard)
    ensures Sent(off, f, route, sent + [shard])
  {
    var more := sent + [shard];
    forall k | 0 <= k < |more| ensures SentAt(off, f, route, more, k) {
      if k < |sent| { assert SentAt(off, f, route, sent, k) && more[k] == sent[k]; }
    }
  }

  method SendNext(e: Engine, f: Front, route: seq<Slice>, rest: seq<Byte>, ghost sent: seq<seq<Byte>>, s: Slice,
      ghost off: nat -> Option<nat>, ghost used: nat)
      returns (r: Option<(seq<Byte>, seq<Byte>)>, ghost end: nat)
    requires |f.comps| == |f.indexes| < 0x1_0000_0000 && Covers(route, |f.comps|) && Offsets(e, f, off)
    requires Progress(off, f, route, sent, used, rest) && |sent| < |route| && s == route[|sent|]
    ensures r.Some? ==> Progress(off, f, route, sent + [r.value.0], end, r.value.1)
    ensures r.None? ==> Sent(off, f, route, sent) && !Fits(off, f, route[|sent|].End())
  {
    NextStarts(route, |f.comps|, |sent|);
    r, end := PrepareShard(e, f, s, rest, off, used);
    if r.Some? {
      SentMore(off, f, route, sent, r.value.0);
      assert |sent + [r.value.0]| == |sent| + 1;
    }
  }

  /** Sends every slice its shard until one is refused or the bytes run out. accept says whether the
      session or worker at that place of the route takes the shard. */
  method Distribute(e: Engine, f: Front, route: seq<Slice>, accept: (nat, seq<Byte>) -> bool,
        ghost off: nat -> Option<nat>)
      returns (ok: bool, sent: seq<seq<Byte>>, rest: seq<Byte>)
    requires |f.comps| == |f.indexes| < 0x1_0000_0000 && Covers(route, |f.comps|) && Offsets(e, f, off)
             && off(0) == Some(0)
    ensures Delivers(off, f, route, accept, sent)
    ensures ok <==> |sent| == |route| && Accepted(accept, sent)
    ensures ok ==> Fits(off, f, |f.comps|) && rest == f.rest[off(|f.comps|).value..]
  {
    sent, rest := [], f.rest;
    ghost var used := 0;
    assert NextLayer(route, 0) == 0;
    for k := 0 to |route|
      invariant |sent| == k && Progress(off, f, route, sent, used, rest) && Accepted(accept, sent)
    {
      var shard, end := SendNext(e, f, route, rest, sent, route[k], off, used);
      if shard.None? {
        assert StopsAtRefusal(accept, sent);
        return false, sent, rest;
      }
      AcceptedMore(accept, sent, shard.value.0);
      sent, used := sent + [shard.value.0], end;
      if !Takes(accept, k, shard.value.0) { return false, sent, rest; }
      rest := shard.value.1;
    }
    assert StopsAtRefusal(accept, sent) && NextLayer(route, |sent|) == |f.comps|;
    return true, sent, rest;
  }

  // Load ------------------------------------------------------------------------------------

  /** bytes are a loadable payload and some trailing bytes. */
  ghost predicate Reads(e: Engine, ctx: nat, bytes: seq<Byte>, p: Payload, tail: seq<Byte>) {
    Loadable(e, ctx, p) && bytes == EncodeWith(p, tail)
  }

  function FrontOf(p: Payload, tail: seq<Byte>): Front {
    Front(p.layout, p.tokens, p.logits, Comps(p.layers), Indexes(p.layers), Tensors(p.layers) + tail)
  }

  lemma FrontOfPayload(e: Engine, ctx: nat, bytes: seq<Byte>, p: Payload, tail: seq<Byte>)
    requires Reads(e, ctx, bytes, p, tail)
    ensures FrontIs(e, ctx, bytes, FrontOf(p, tail))
  {
    CountsUpTo(e, p.layout, 0, p.layers);
  }

  lemma OffsetIs(e: Engine, off: nat -> Option<nat>, p: Payload, tail: seq<Byte>, k: nat)
    requires Offsets(e, FrontOf(p, tail), off) && LayersOk(e, p.layout, 0, p.layers) && k <= |p.layers|
    ensures off(k) == Some(|Tensors(p.layers[..k])|)
  {
    CutFits(e, p.layout, 0, p.layers[..k]);
    TotalOfPrefix(e, p.layout, 0, Comps(p.layers), Indexes(p.layers), k);
    CountsOf(p.layers, 0, k);
    assert Comps(p.layers)[..k] == Comps(p.layers[..k]) && Indexes(p.layers)[..k] == Indexes(p.layers[..k]);
  }

  lemma TensorSlice(ls: seq<Layer>, tail: seq<Byte>, lo: nat, hi: nat)
    requires lo <= hi <= |ls|
    ensures var a, b := |Tensors(ls[..lo])|, |Tensors(ls[..hi])|;
            a <= b <= |Tensors(ls)| && (Tensors(ls) + tail)[a..b] == Tensors(ls[lo..hi])
  {
    TensorsSplit(ls[..lo], ls[lo..hi]);
    TensorsSplit(ls[..hi], ls[hi..]);
    ThreeSlices(ls, lo, hi);
    Middle(Tensors(ls[..lo]), Tensors(ls[lo..hi]), Tensors(ls[hi..]), tail);
  }

  lemma ThreeSlices<T>(s: seq<T>, lo: nat, hi: nat)
    requires lo <= hi <= |s|
    ensures s[..hi] == s[..lo] + s[lo..hi] && s == s[..hi] + s[hi..]
  {}

  lemma Middle<T>(x: seq<T>, y: seq<T>, z: seq<T>, tail: seq<T>)
    ensures (x + y + z + tail)[|x|..|x + y|] == y
  {}

  lemma SliceBytesAre(p: Payload, tail: seq<Byte>, s: Slice)
    requires s.lo <= s.hi < |p.layers| < 0x1_0000_0000
    ensures SliceBytes(FrontOf(p, tail), s, Tensors(p.layers[s.lo..s.End()])) == ShardOf(p, s)
  {
    CountsOf(p.layers, s.lo, s.End());
  }

  lemma SliceShardIs(e: Engine, off: nat -> Option<nat>, p: Payload, tail: seq<Byte>, s: Slice, shard: seq<Byte>)
    requires s.lo <= s.hi < |p.layers| < 0x1_0000_0000 && LayersOk(e, p.layout, 0, p.layers)
    requires Offsets(e, FrontOf(p, tail), off) && IsSliceShard(off, FrontOf(p, tail), s, shard)
    ensures shard == ShardOf(p, s)
  {
    OffsetIs(e, off, p, tail, s.lo);
    OffsetIs(e, off, p, tail, s.End());
    PieceIs(p, tail, s, shard);
  }

  lemma PieceIs(p: Payload, tail: seq<Byte>, s: Slice, shard: seq<Byte>)
    requires s.lo <= s.hi < |p.layers| < 0x1_0000_0000
    requires IsPiece(FrontOf(p, tail), s, shard, |Tensors(p.layers[..s.lo])|, |Tensors(p.layers[..s.End()])|)
    ensures shard == ShardOf(p, s)
  {
    TensorSlice(p.layers, tail, s.lo, s.End());
    SliceBytesAre(p, tail, s);
  }

  lemma SentAreShards(e: Engine, off: nat -> Option<nat>, p: Payload, tail: seq<Byte>, route: seq<Slice>,
        sent: seq<seq<Byte>>)
    requires |p.layers| < 0x1_0000_0000 && Covers(route, |p.layers|) && LayersOk(e, p.layout, 0, p.layers)
    requires Offsets(e, FrontOf(p, tail), off) && Sent(off, FrontOf(p, tail), route, sent)
    ensures StartShards(p, route, sent)
  {
    forall k | 0 <= k < |sent| ensures ShardAt(p, route, sent, k) {
      assert SentAt(off, FrontOf(p, tail), route, sent, k);
      SliceShardIs(e, off, p, tail, route[k], sent[k]);
    }
  }

  lemma WholeFits(e: Engine, off: nat -> Option<nat>, p: Payload, tail: seq<Byte>)
    requires Offsets(e, FrontOf(p, tail), off) && LayersOk(e, p.layout, 0, p.layers)
    ensures off(|p.layers|) == Some(|Tensors(p.layers)|) && Fits(off, FrontOf(p, tail), |p.layers|)
  {
    OffsetIs(e, off, p, tail, |p.layers|);
    assert p.layers[..|p.layers|] == p.layers;
  }

  /** Of a complete payload everything is delivered unless a shard is refused. */
  lemma DeliveredPayload(e: Engine, off: nat -> Option<nat>, p: Payload, tail: seq<Byte>, route: seq<Slice>,
      accept: (nat, seq<Byte>) -> bool, sent: seq<seq<Byte>>)
    requires |p.layers| < 0x1_0000_0000 && Covers(route, |p.layers|) && LayersOk(e, p.layout, 0, p.layers)
    requires Offsets(e, FrontOf(p, tail), off) && Delivers(off, FrontOf(p, tail), route, accept, sent)
    ensures StartShards(p, route, sent) && StopsAtRefusal(accept, sent)
    ensures Accepted(accept, sent) ==> AreShards(p, route, sent)
  {
    SentAreShards(e, off, p, tail, route, sent);
    WholeFits(e, off, p, tail);
    if |sent| < |route| { FitsEarlier(e, off, FrontOf(p, tail), route[|sent|].End(), |p.layers|); }
  }

  /** A complete front is a payload with trailing bytes. */
  lemma PayloadOf(e: Engine, ctx: nat, bytes: seq<Byte>, f: Front, t: nat) returns (p: Payload)
    requires FrontIs(e, ctx, bytes, f) && Total(e, f.layout, 0, f.comps, f.indexes, |f.comps|) == Some(t)
             && t <= |f.rest|
    ensures Reads(e, ctx, bytes, p, f.rest[t..]) && f == FrontOf(p, f.rest[t..])
  {
    var ls := CutExists(e, f.layout, 0, f.comps, f.indexes, f.rest[..t]);
    assert f.rest == f.rest[..t] + f.rest[t..];
    p := Payload(f.layout, e.vocab, f.tokens, f.logits, ls);
  }

  /** What a load does with the bytes of p and a tail: the shards go out in route order until one is
      refused; it succeeds when all are taken and nothing is left, which is noticed only afterwards. */
  ghost predicate Loads(p: Payload, tail: seq<Byte>, route: seq<Slice>, accept: (nat, seq<Byte>) -> bool,
      ok: bool, sent: seq<seq<Byte>>, tokens: seq<U32>, logits: seq<Byte>)
    requires |p.layers| < 0x1_0000_0000 && Covers(route, |p.layers|)
  {
    && StartShards(p, route, sent) && StopsAtRefusal(accept, sent)
        && (Accepted(accept, sent) ==> AreShards(p, route, sent))
    && (ok <==> Accepted(accept, sent) && tail == [])
    && (ok ==> tokens == p.tokens && logits == p.logits)
  }

  ghost function TensorOffsets(e: Engine, f: Front): nat -> Option<nat> {
    (k: nat) => if k <= |f.comps| == |f.indexes| then Total(e, f.layout, 0, f.comps, f.indexes, k) else None
  }

  /** Loads a session file. A readable front is followed by deliveries even when the file is cut short or too
      long; without one nothing is sent. */
  method LoadPayload(e: Engine, ctx: nat, local: Slice, hops: seq<Slice>, bytes: seq<Byte>,
        accept: (nat, seq<Byte>) -> bool)
      returns (ok: bool, sent: seq<seq<Byte>>, tokens: seq<U32>, logits: seq<Byte>, ghost loaded: Payload)
    ensures ok ==> Covers([local] + hops, e.layerCount) && Reads(e, ctx, bytes, loaded, [])
    ensures !Covers([local] + hops, e.layerCount) || (forall f :: !FrontIs(e, ctx, bytes, f)) ==> sent == []
    ensures Covers([local] + hops, e.layerCount) ==>
              forall f :: FrontIs(e, ctx, bytes, f) ==> Delivers(TensorOffsets(e, f), f, [local] + hops, accept, sent)
    ensures Covers([local] + hops, e.layerCount) ==>
              forall p, tail :: Reads(e, ctx, bytes, p, tail) ==>
                    Loads(p, tail, [local] + hops, accept, ok, sent, tokens, logits)
  {
    ok, sent, tokens, logits := false, [], [], [];
    loaded := Payload(Layout(0, 0, 0, 0, 0, 0, 0, 0, 0, 0), 0, [], [], []);
    var route := [local] + hops;
    var covers := KvRouteValidate(e.layerCount, local, hops);
    if !covers { return; }
    var front := ReadFront(e, ctx, bytes);
    forall p, tail | Reads(e, ctx, bytes, p, tail) ensures front == Some(FrontOf(p, tail)) {
      FrontOfPayload(e, ctx, bytes, p, tail);
    }
    if front.None? { return; }
    var f := front.value;
    ghost var off := TensorOffsets(e, f);
    var rest: seq<Byte>;
    ok, sent, rest := Distribute(e, f, route, accept, off);
    forall p, tail | Reads(e, ctx, bytes, p, tail)
      ensures StartShards(p, route, sent) && (Accepted(accept, sent) ==> AreShards(p, route, sent))
      ensures f == FrontOf(p, tail) && (ok ==> rest == tail)
    {
      DeliveredPayload(e, off, p, tail, route, accept, sent);
      WholeFits(e, off, p, tail);
      assert (Tensors(p.layers) + tail)[|Tensors(p.layers)|..] == tail;
    }
    ok := ok && rest == [];
    if ok {
      loaded := PayloadOf(e, ctx, bytes, f, off(|f.comps|).value);
      tokens, logits := f.tokens, f.logits;
    }
  }
}
