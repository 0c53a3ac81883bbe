/** Saving: the shards of the current route are parsed, checked against each other and gathered into
    one session payload. Together with loading this makes the payload independent of the route. */
module KvSave {
  import opened Bytes
  import opened KvPayload
  import opened KvShard
  import opened KvSizes
  import opened KvSnapshot
  import opened LayerRoute
  import opened Wrappers

  /** p is a payload made of this session's tokens and logits and of the layers in the shards. */
  ghost predicate Gathers(e: Engine, tokens: seq<U32>, logits: seq<Byte>, route: seq<Slice>, shards: seq<seq<Byte>>,
        p: Payload)
    requires Covers(route, e.layerCount)
  {
    PayloadOk(e, p) && p.tokens == tokens && p.logits == logits && AreShards(p, route, shards)
  }

  lemma ShardIsSlice(e: Engine, p: Payload, s: Slice, known: Option<Layout>)
    requires PayloadOk(e, p) && s.lo <= s.hi < |p.layers| && (known.Some? ==> known.value == p.layout)
    ensures ShardIs(e, known, ShardOf(p, s), s.lo, s.hi, p.layout, p.layers[s.lo..s.End()])
  {
    var ls := p.layers[s.lo..s.End()];
    forall k | 0 <= k < |ls| ensures LayerOk(e, p.layout, s.lo + k, ls[k]) {
      assert LayerOk(e, p.layout, 0 + (s.lo + k), p.layers[s.lo + k]);
    }
  }

  /** shard is the payload of the layers of slice s among the gathered ones. */
  ghost predicate FromLayers(l: Layout, layers: seq<Layer>, s: Slice, shard: seq<Byte>) {
    s.lo <= s.hi < |layers| < 0x1_0000_0000 && shard == EncodeShard(l, s.lo, layers[s.lo..s.End()])
  }

  ghost predicate FromAt(l: Layout, layers: seq<Layer>, route: seq<Slice>, shards: seq<seq<Byte>>, j: nat)
    requires j < |route| == |shards|
  {
    FromLayers(l, layers, route[j], shards[j])
  }

  /** The layers gathered from the first k shards. */
  ghost predicate Gathered(e: Engine, l: Layout, layers: seq<Layer>, route: seq<Slice>, shards: seq<seq<Byte>>, k: nat)
    requires Covers(route, e.layerCount) && k <= |route| == |shards|
  {
    && |layers| == NextLayer(route, k) && LayersOk(e, l, 0, layers)
    && forall j :: 0 <= j < k ==> FromAt(l, layers, route, shards, j)
  }

  lemma FromMoreLayers(l: Layout, layers: seq<Layer>, ls: seq<Layer>, s: Slice, shard: seq<Byte>)
    requires FromLayers(l, layers, s, shard) && |layers + ls| < 0x1_0000_0000
    ensures FromLayers(l, layers + ls, s, shard)
  {
    assert (layers + ls)[s.lo..s.End()] == layers[s.lo..s.End()];
  }

  lemma LayersConcat(e: Engine, l: Layout, a: seq<Layer>, b: seq<Layer>)
    requires LayersOk(e, l, 0, a) && LayersOk(e, l, |a|, b)
    ensures LayersOk(e, l, 0, a + b)
  {
    forall i | 0 <= i < |a + b| ensures LayerOk(e, l, 0 + i, (a + b)[i]) {
      if i < |a| { assert LayerOk(e, l, 0 + i, a[i]); }
      else { assert LayerOk(e, l, |a| + (i - |a|), b[i - |a|]); }
    }
  }

  lemma GatheredMore(e: Engine, l: Layout, layers: seq<Layer>, route: seq<Slice>, shards: seq<seq<Byte>>, k: nat,
        ls: seq<Layer>)
    requires Covers(route, e.layerCount) && k < |route| == |shards| && Gathered(e, l, layers, route, shards, k)
    requires |ls| == route[k].hi - route[k].lo + 1 && LayersOk(e, l, |layers|, ls) && |layers| == route[k].lo
    requires |layers + ls| < 0x1_0000_0000 && shards[k] == EncodeShard(l, route[k].lo, ls)
    ensures Gathered(e, l, layers + ls, route, shards, k + 1)
  {
    LayersConcat(e, l, layers, ls);
    forall j | 0 <= j < k ensures FromAt(l, layers + ls, route, shards, j) {
      assert FromAt(l, layers, route, shards, j);
      FromMoreLayers(l, layers, ls, route[j], shards[j]);
    }
    assert (layers + ls)[|layers|..|layers + ls|] == ls;
    assert FromAt(l, layers + ls, route, shards, k);
  }

  lemma Concatenated(e: Engine, a: seq<Layer>, b: seq<Layer>)
    ensures Comps(a + b) == Comps(a) + Comps(b) && Indexes(a + b) == Indexes(a) + Indexes(b)
    ensures Tensors(a + b) == Tensors(a) + Tensors(b)
  {
    TensorsSplit(a, b);
  }

  lemma Written(p: Payload)
    ensures LeWords(SessionHeader(p.layout, p.vocab)) + LeWords(p.tokens) + p.logits
            + LeWords(Comps(p.layers)) + LeWords(Indexes(p.layers)) + Tensors(p.layers) == Encode(p)
  {
    var t := Tensors(p.layers);
    var x := LeWords(Indexes(p.layers));
    var c := LeWords(Comps(p.layers));
    var h, w := LeWords(SessionHeader(p.layout, p.vocab)), LeWords(p.tokens);
    assert t + [] == t;
    Assoc(h, w, p.logits, c, x, t);
  }

  lemma Assoc(h: seq<Byte>, w: seq<Byte>, g: seq<Byte>, c: seq<Byte>, x: seq<Byte>, t: seq<Byte>)
    ensures h + w + g + c + x + t == h + (w + (g + (c + (x + t))))
  {}

  /** One of the payloads to be gathered agrees with what is parsed so far. */
  ghost predicate Agrees(known: Option<Layout>, layers: seq<Layer>, p: Payload) {
    (known.Some? ==> known.value == p.layout) && layers <= p.layers
  }

  lemma PrefixGrows(layers: seq<Layer>, all: seq<Layer>, lo: nat, hi: nat)
    requires layers <= all && |layers| == lo <= hi < |all|
    ensures layers + all[lo..hi + 1] <= all
  {
    assert layers + all[lo..hi + 1] == all[..hi + 1];
  }

  lemma ShardNotEmpty(l: Layout, lo: U32, ls: seq<Layer>)
    requires ls != [] && lo + |ls| <= 0x1_0000_0000
    ensures EncodeShard(l, lo, ls) != []
  {}

  lemma AgreesMore(e: Engine, p: Payload, route: seq<Slice>, shards: seq<seq<Byte>>, k: nat, known: Option<Layout>,
        layers: seq<Layer>)
    requires Covers(route, e.layerCount) && PayloadOk(e, p) && AreShards(p, route, shards) && k < |route|
    requires |layers| == NextLayer(route, k) && Agrees(known, layers, p)
    ensures ShardIs(e, known, shards[k], route[k].lo, route[k].hi, p.layout, p.layers[route[k].lo..route[k].End()])
    ensures shards[k] != [] && layers + p.layers[route[k].lo..route[k].End()] <= p.layers
  {
    assert k > 0 ==> Joins(route, k);
    var s := route[k];
    assert ShardAt(p, route, shards, k);
    ShardIsSlice(e, p, s, known);
    ShardNotEmpty(p.layout, s.lo, p.layers[s.lo..s.End()]);
    PrefixGrows(layers, p.layers, s.lo, s.hi);
  }

  /** p's layers are those in the shards. */
  ghost predicate Matches(e: Engine, route: seq<Slice>, shards: seq<seq<Byte>>, p: Payload)
    requires Covers(route, e.layerCount)
  {
    PayloadOk(e, p) && AreShards(p, route, shards)
  }

  /** What is gathered from the first k shards: nothing is known before the first one. */
  ghost predicate Collected(e: Engine, known: Option<Layout>, layers: seq<Layer>, route: seq<Slice>,
        shards: seq<seq<Byte>>, k: nat)
    requires Covers(route, e.layerCount) && k <= |route| == |shards|
  {
    && (k == 0 <==> known.None?) && |layers| == NextLayer(route, k)
    && (known.Some? ==> Gathered(e, known.value, layers, route, shards, k) && LayoutOk(e, known.value, 0, None))
  }

  lemma CollectedMore(e: Engine, known: Option<Layout>, layers: seq<Layer>, route: seq<Slice>,
        shards: seq<seq<Byte>>, k: nat, l: Layout, ls: seq<Layer>)
    requires Covers(route, e.layerCount) && k < |route| == |shards| && Collected(e, known, layers, route, shards, k)
    requires ShardIs(e, known, shards[k], route[k].lo, route[k].hi, l, ls)
    ensures Collected(e, Some(l), layers + ls, route, shards, k + 1)
  {
    assert k > 0 ==> Joins(route, k);
    if k == 0 { assert layers == [] && Gathered(e, l, layers, route, shards, 0); }
    GatheredMore(e, l, layers, route, shards, k, ls);
  }

  /** The parser's answer for shard k and what it says about the payloads it may come from. */
  method ParseNext(e: Engine, route: seq<Slice>, shards: seq<seq<Byte>>, k: nat, known: Option<Layout>,
        ghost layers: seq<Layer>)
      returns (r: Option<Shard>, ghost ls: seq<Layer>)
    requires Covers(route, e.layerCount) && k < |route| == |shards| && |shards[k]| <= U64_MAX
    requires Collected(e, known, layers, route, shards, k)
    ensures r.Some? ==> Collected(e, Some(r.value.layout), layers + ls, route, shards, k + 1)
    ensures r.Some? ==> r.value == Shard(r.value.layout, Comps(ls), Indexes(ls), Tensors(ls))
    ensures forall p :: Matches(e, route, shards, p) && Agrees(known, layers, p) ==>
              r.Some? && Agrees(Some(r.value.layout), layers + ls, p)
  {
    r, ls := ParseShard(e, shards[k], route[k].lo, route[k].hi, known);
    forall p | Matches(e, route, shards, p) && Agrees(known, layers, p)
      ensures shards[k] != [] && r.Some? && Agrees(Some(r.value.layout), layers + ls, p)
    {
      AgreesMore(e, p, route, shards, k, known, layers);
    }
    if shards[k] == [] { return None, ls; }
    if r.Some? { CollectedMore(e, known, layers, route, shards, k, r.value.layout, ls); }
  }

  /** Parses the shards and collects row counts and tensors. */
  method GatherShards(e: Engine, route: seq<Slice>, shards: seq<seq<Byte>>)
      returns (r: Option<Shard>, ghost layers: seq<Layer>)
    requires Covers(route, e.layerCount) && |shards| == |route| && forall k :: 0 <= k < |shards| ==>
               |shards[k]| <= U64_MAX
    ensures r.Some? ==> Collected(e, Some(r.value.layout), layers, route, shards, |route|)
    ensures r.Some? ==> r.value == Shard(r.value.layout, Comps(layers), Indexes(layers), Tensors(layers))
    ensures forall p :: Matches(e, route, shards, p) ==> r.Some? && Agrees(Some(r.value.layout), layers, p)
  {
    var known: Option<Layout> := None;
    var comps: seq<U32>, indexes: seq<U32>, flat: seq<Byte> := [], [], [];
    layers := [];
    for k := 0 to |route|
      invariant Collected(e, known, layers, route, shards, k)
      invariant comps == Comps(layers) && indexes == Indexes(layers) && flat == Tensors(layers)
      invariant forall p :: Matches(e, route, shards, p) ==> Agrees(known, layers, p)
    {
      var shard, ls := ParseNext(e, route, shards, k, known, layers);
      if shard.None? { return None, layers; }
      Concatenated(e, layers, ls);
      known, layers := Some(shard.value.layout), layers + ls;
      comps, indexes, flat := comps + shard.value.comps, indexes + shard.value.indexes, flat + shard.value.tensors;
    }
    r := Some(Shard(known.value, comps, indexes, flat));
  }

  lemma SavedIs(e: Engine, route: seq<Slice>, shards: seq<seq<Byte>>, p: Payload, saved: Payload)
    requires Covers(route, e.layerCount) && Matches(e, route, shards, p) && Agrees(Some(saved.layout), saved.layers, p)
    requires |saved.layers| == e.layerCount && saved.vocab == e.vocab && saved.tokens == p.tokens
             && saved.logits == p.logits
    ensures saved == p
  {
    assert saved.layers == p.layers;
  }

  lemma SavedGathers(e: Engine, route: seq<Slice>, shards: seq<seq<Byte>>, p: Payload)
    requires Covers(route, e.layerCount) && |shards| == |route|
    requires Collected(e, Some(p.layout), p.layers, route, shards, |route|)
    requires p.vocab == e.vocab && |p.tokens| == p.layout.tokenCount && |p.logits| == 4 * p.vocab
    ensures Matches(e, route, shards, p)
  {
    forall j | 0 <= j < |route| ensures ShardAt(p, route, shards, j) {
      assert FromAt(p.layout, p.layers, route, shards, j);
    }
  }

  /** Gathers the shards that the session and the workers returned. It succeeds exactly when they are the
      shards of one payload with the session's tokens and logits, and writes that payload. */
  method SavePayload(e: Engine, tokens: seq<U32>, logits: seq<Byte>, local: Slice, hops: seq<Slice>,
        shards: seq<seq<Byte>>)
      returns (r: Option<seq<Byte>>, ghost saved: Payload)
    requires |logits| == 4 * e.vocab && |shards| == |[local] + hops| && forall k :: 0 <= k < |shards| ==>
               |shards[k]| <= U64_MAX
    ensures r.Some? ==> Covers([local] + hops, e.layerCount) && r.value == Encode(saved)
    ensures r.Some? ==> Gathers(e, tokens, logits, [local] + hops, shards, saved)
    ensures Covers([local] + hops, e.layerCount) ==>
              forall p :: Gathers(e, tokens, logits, [local] + hops, shards, p) ==> r == Some(Encode(p))
  {
    saved := Payload(Layout(0, 0, 0, 0, 0, 0, 0, 0, 0, 0), 0, [], [], []);
    var route := [local] + hops;
    var covers := KvRouteValidate(e.layerCount, local, hops);
    if !covers { return None, saved; }
    var gathered, layers := GatherShards(e, route, shards);
    if gathered.None? {
      assert forall p :: Gathers(e, tokens, logits, route, shards, p) ==> Matches(e, route, shards, p);
      return None, saved;
    }
    var all := gathered.value;
    saved := Payload(all.layout, e.vocab, tokens, logits, layers);
    forall p | Gathers(e, tokens, logits, route, shards, p) ensures p == saved {
      assert Matches(e, route, shards, p);
      SavedIs(e, route, shards, p, saved);
    }
    if all.layout.tokenCount != |tokens| { return None, saved; }
    Written(saved);
    SavedGathers(e, route, shards, saved);
    r := Some(LeWords(SessionHeader(all.layout, e.vocab)) + LeWords(tokens) + logits
              + LeWords(all.comps) + LeWords(all.indexes) + all.tensors);
  }
}
