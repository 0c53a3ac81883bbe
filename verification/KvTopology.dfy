/** Session files do not depend on the cluster: what a payload means for each layer, and the payload
    gathered again later, are the same for every route. */
module KvTopology {
  import opened Bytes
  import opened KvPayload
  import opened KvSave
  import opened KvShard
  import opened KvSizes
  import opened KvSnapshot
  import opened LayerRoute
  import opened Wrappers

  /** A shard can be parsed in one way only. */
  lemma ShardUnique(e: Engine, bytes: seq<Byte>, lo: U32, hi: U32, l: Layout, a: seq<Layer>, m: Layout, b: seq<Layer>)
    requires ShardIs(e, None, bytes, lo, hi, l, a) && ShardIs(e, None, bytes, lo, hi, m, b)
    ensures l == m && a == b
  {
    LeWordsCut(LayerHeader(l, lo, hi), AfterHeader(a), LayerHeader(m, lo, hi), AfterHeader(b));
    KvShard.HeaderFields(LayerHeader(l, lo, hi), lo, hi);
    LeWordsCut(Comps(a), AfterComps(a), Comps(b), AfterComps(b));
    LeWordsCut(Indexes(a), Tensors(a), Indexes(b), Tensors(b));
    assert Tensors(a) + [] == Tensors(b) + [];
    TensorsUnique(e, l, lo, a, [], b, []);
  }

  /** Whatever the slice around it, a layer is delivered with the same row counts and tensor bytes. */
  lemma LayerIsRouteIndependent(e: Engine, p: Payload, s: Slice, il: nat, l: Layout, ls: seq<Layer>)
    requires PayloadOk(e, p) && s.lo <= il <= s.hi < |p.layers|
    requires ShardIs(e, None, ShardOf(p, s), s.lo, s.hi, l, ls)
    ensures l == p.layout && ls[il - s.lo] == p.layers[il]
  {
    ShardIsSlice(e, p, s, None);
    ShardUnique(e, ShardOf(p, s), s.lo, s.hi, l, ls, p.layout, p.layers[s.lo..s.End()]);
  }

  /** Every layer lies in a slice of the route. */
  lemma {:induction false} SliceOf(route: seq<Slice>, n: nat, il: nat, k: nat) returns (j: nat)
    requires Covers(route, n) && k < |route| && il <= route[k].hi
    ensures j <= k && route[j].lo <= il <= route[j].hi
    decreases k
  {
    j := k;
    if il < route[k].lo {
      assert k > 0 ==> Joins(route, k);
      j := SliceOf(route, n, il, k - 1);
    }
  }

  lemma SameSliceSameLayer(e: Engine, p: Payload, q: Payload, s: Slice, il: nat)
    requires PayloadOk(e, p) && PayloadOk(e, q) && s.lo <= il <= s.hi < e.layerCount && ShardOf(p, s) == ShardOf(q, s)
    ensures p.layout == q.layout && p.layers[il] == q.layers[il]
  {
    ShardIsSlice(e, q, s, None);
    LayerIsRouteIndependent(e, p, s, il, q.layout, q.layers[s.lo..s.End()]);
  }

  lemma SameShard(p: Payload, q: Payload, route: seq<Slice>, shards: seq<seq<Byte>>, j: nat)
    requires |p.layers| == |q.layers| < 0x1_0000_0000 && Covers(route, |p.layers|) && j < |route|
    requires AreShards(p, route, shards) && AreShards(q, route, shards)
    ensures ShardOf(p, route[j]) == ShardOf(q, route[j])
  {
    assert ShardAt(p, route, shards, j) && ShardAt(q, route, shards, j);
  }

  lemma LayerDetermined(e: Engine, p: Payload, q: Payload, route: seq<Slice>, shards: seq<seq<Byte>>, il: nat)
    requires Covers(route, e.layerCount) && Matches(e, route, shards, p) && Matches(e, route, shards, q)
             && il < e.layerCount
    ensures p.layout == q.layout && p.layers[il] == q.layers[il]
  {
    var j := SliceOf(route, e.layerCount, il, |route| - 1);
    SameShard(p, q, route, shards, j);
    SameSliceSameLayer(e, p, q, route[j], il);
  }

  /** The shards of a route determine layout and layers. */
  lemma ShardsDeterminePayload(e: Engine, p: Payload, q: Payload, route: seq<Slice>, shards: seq<seq<Byte>>)
    requires Covers(route, e.layerCount) && Matches(e, route, shards, p) && Matches(e, route, shards, q)
    ensures p.layout == q.layout && p.layers == q.layers
  {
    LayerDetermined(e, p, q, route, shards, 0);
    forall il | 0 <= il < |p.layers| ensures p.layers[il] == q.layers[il] {
      LayerDetermined(e, p, q, route, shards, il);
    }
  }

  lemma SameShards(p: Payload, q: Payload, route: seq<Slice>, shards: seq<seq<Byte>>)
    requires |p.layers| < 0x1_0000_0000 && Covers(route, |p.layers|) && p.layout == q.layout && p.layers == q.layers
    requires AreShards(q, route, shards)
    ensures AreShards(p, route, shards)
  {
    forall k | 0 <= k < |route| ensures ShardAt(p, route, shards, k) {
      assert ShardAt(q, route, shards, k);
    }
  }

  lemma LoadedMatches(e: Engine, ctx: nat, bytes: seq<Byte>, p: Payload, accept: (nat, seq<Byte>) -> bool,
      route: seq<Slice>, sent: seq<seq<Byte>>, tokens: seq<U32>, logits: seq<Byte>)
    requires Reads(e, ctx, bytes, p, []) && Covers(route, e.layerCount)
    requires Loads(p, [], route, accept, true, sent, tokens, logits)
    ensures Matches(e, route, sent, p) && bytes == Encode(p) && tokens == p.tokens && logits == p.logits
  {}

  /** Topology neutrality: a file loaded along one route and saved along any other is the same file.
      held is what the machines of the first route hold after its shards were loaded. */
  lemma TopologyNeutral(e: Engine, ctx: nat, bytes: seq<Byte>, p: Payload, accept: (nat, seq<Byte>) -> bool,
      route: seq<Slice>, sent: seq<seq<Byte>>, tokens: seq<U32>, logits: seq<Byte>, held: Payload,
      later: seq<Slice>, shards: seq<seq<Byte>>, saved: Payload)
    requires Reads(e, ctx, bytes, p, []) && Covers(route, e.layerCount) && Covers(later, e.layerCount)
    requires Loads(p, [], route, accept, true, sent, tokens, logits)
    requires Matches(e, route, sent, held) && AreShards(held, later, shards)
    ensures Gathers(e, tokens, logits, later, shards, p)
    ensures Gathers(e, tokens, logits, later, shards, saved) ==> Encode(saved) == bytes
  {
    LoadedMatches(e, ctx, bytes, p, accept, route, sent, tokens, logits);
    ShardsDeterminePayload(e, p, held, route, sent);
    SameShards(p, held, later, shards);
    if Gathers(e, tokens, logits, later, shards, saved) { SavedIsLoaded(e, p, saved, later, shards); }
  }

  lemma SavedIsLoaded(e: Engine, p: Payload, saved: Payload, route: seq<Slice>, shards: seq<seq<Byte>>)
    requires Covers(route, e.layerCount) && Matches(e, route, shards, p) && Matches(e, route, shards, saved)
    requires saved.tokens == p.tokens && saved.logits == p.logits
    ensures saved == p
  {
    ShardsDeterminePayload(e, p, saved, route, shards);
  }

  /** A file is the encoding of one payload only. */
  lemma PayloadUnique(e: Engine, ctx: nat, bytes: seq<Byte>, p: Payload, t: seq<Byte>, q: Payload, u: seq<Byte>)
    requires Reads(e, ctx, bytes, p, t) && Reads(e, ctx, bytes, q, u)
    ensures p == q && t == u
  {
    FrontOfPayload(e, ctx, bytes, p, t);
    FrontOfPayload(e, ctx, bytes, q, u);
    var f, g := FrontOf(p, t), FrontOf(q, u);
    LeWordsCut(SessionHeader(f.layout, e.vocab), AfterHead(f), SessionHeader(g.layout, e.vocab), AfterHead(g));
    KvSnapshot.HeaderFields(SessionHeader(f.layout, e.vocab), e.vocab);
    LeWordsCut(f.tokens, AfterTokens(f), g.tokens, AfterTokens(g));
    CutEqual(f.logits, AfterLogits(f), g.logits, AfterLogits(g));
    LeWordsCut(f.comps, AfterRows(f), g.comps, AfterRows(g));
    LeWordsCut(f.indexes, f.rest, g.indexes, g.rest);
    TensorsUnique(e, p.layout, 0, p.layers, t, q.layers, u);
  }

  /** Header, tokens, logits, row counts and the engine's tensor sizes. */
  ghost function FileSize(e: Engine, p: Payload): nat
    requires PayloadOk(e, p)
  {
    var tensors := Total(e, p.layout, 0, Comps(p.layers), Indexes(p.layers), |p.layers|);
    4 * SESSION_FIELDS + 4 * p.layout.tokenCount + 4 * p.vocab + 8 * p.layout.nLayers
    + if tensors.Some? then tensors.value else 0
  }

  /** Nothing remains after a load exactly when the file has that size. */
  lemma NothingRemains(e: Engine, ctx: nat, bytes: seq<Byte>, p: Payload, tail: seq<Byte>)
    requires Reads(e, ctx, bytes, p, tail)
    ensures tail == [] <==> |bytes| == FileSize(e, p)
  {
    CutFits(e, p.layout, 0, p.layers);
    assert |bytes| == FileSize(e, p) + |tail|;
  }
}
