/** The parser that the coordinator runs over every layer shard before it becomes part of a session payload. */
module KvShard {
  import opened Bytes
  import opened KvPayload
  import opened KvSizes
  import opened Wrappers

  datatype Shard = Shard(layout: Layout, comps: seq<U32>, indexes: seq<U32>, tensors: seq<Byte>)

  predicate LayoutOk(e: Engine, l: Layout, hi: U32, known: Option<Layout>) {
    hi < l.nLayers && l.nLayers == e.layerCount && RawLiveValid(e, l) && (known.Some? ==> known.value == l)
  }

  /** bytes are the payload of exactly the layers lo..hi, in a layout the session can use. */
  ghost predicate ShardIs(e: Engine, known: Option<Layout>, bytes: seq<Byte>, lo: U32, hi: U32, l: Layout,
        ls: seq<Layer>) {
    && lo <= hi && |ls| == hi - lo + 1
    && LayoutOk(e, l, hi, known) && LayersOk(e, l, lo, ls) && bytes == EncodeShard(l, lo, ls)
  }

  /** Spelled out: the range, the model, the live rows, the layout known from other shards, and every layer's row counts
      and tensor size. */
  lemma ShardMeans(e: Engine, known: Option<Layout>, bytes: seq<Byte>, lo: U32, hi: U32, l: Layout, ls: seq<Layer>)
    ensures ShardIs(e, known, bytes, lo, hi, l, ls) <==>
              && lo <= hi < l.nLayers == e.layerCount && |ls| == hi - lo + 1 && bytes == EncodeShard(l, lo, ls)
              && l.rawWindow > 0 && l.rawCap > 0
              && l.rawLive <= l.rawCap && l.rawLive <= l.rawWindow && l.rawLive <= l.tokenCount
              && (e.isGlm || l.rawLive == l.rawWindow || l.rawLive == l.tokenCount)
              && (known == None || known == Some(l))
              && forall k :: 0 <= k < |ls| ==>
                   && ls[k].nComp <= l.compCap && ls[k].nIndex <= l.compCap
                   && e.layerBytes(l, lo + k, ls[k].nComp, ls[k].nIndex) == Some(|ls[k].tensor|)
  {
    RawLiveMeans(e, l);
    assert LayersOk(e, l, lo, ls) <==> forall k :: 0 <= k < |ls| ==> LayerOk(e, l, lo + k, ls[k]);
  }

  lemma HeaderFields(h: seq<U32>, lo: U32, hi: U32)
    requires |h| == LAYER_FIELDS
    ensures h == LayerHeader(LayerLayout(h), lo, hi) <==>
              h[0] == LAYER_MAGIC && h[1] == LAYER_VERSION && h[11] == lo && h[12] == hi
    ensures forall l :: LayerLayout(LayerHeader(l, lo, hi)) == l
  {}

  method ReadHeader(e: Engine, bytes: seq<Byte>, lo: U32, hi: U32, known: Option<Layout>)
      returns (r: Option<(Layout, seq<Byte>)>)
    ensures r.Some? ==>
              lo <= hi && LayoutOk(e, r.value.0, hi, known) && Starts(bytes, LayerHeader(r.value.0, lo, hi), r.value.1)
    ensures forall l, rest :: lo <= hi && LayoutOk(e, l, hi, known) && Starts(bytes, LayerHeader(l, lo, hi), rest) ==>
              r == Some((l, rest))
  {
    var words := ReadWords(bytes, LAYER_FIELDS);
    if words.None? { return None; }
    var h := words.value.0;
    HeaderFields(h, lo, hi);
    if h[0] != LAYER_MAGIC || h[1] != LAYER_VERSION { return None; }
    var got := LayerLayout(h);
    if h[11] != lo || h[12] != hi || lo > hi || hi >= got.nLayers { return None; }
    if got.nLayers != e.layerCount || !RawLiveValid(e, got) { return None; }
    if known.Some? && known.value != got { return None; }
    return Some((got, words.value.1));
  }

  method ReadCounts(b: seq<Byte>, n: nat, cap: U32) returns (r: Option<(seq<U32>, seq<Byte>)>)
    ensures r.Some? ==> |r.value.0| == n && UpTo(r.value.0, cap) && Starts(b, r.value.0, r.value.1)
    ensures forall xs, rest :: Starts(b, xs, rest) && |xs| == n && UpTo(xs, cap) ==> r == Some((xs, rest))
  {
    r := ReadWords(b, n);
    if r.None? { return; }
    for i := 0 to n
      invariant forall k :: 0 <= k < i ==> r.value.0[k] <= cap
    {
      if r.value.0[i] > cap { return None; }
    }
  }

  ghost predicate RowsAre(b: seq<Byte>, n: nat, cap: U32, comps: seq<U32>, indexes: seq<U32>, rest: seq<Byte>) {
    && |comps| == |indexes| == n && UpTo(comps, cap) && UpTo(indexes, cap)
    && Starts(b, comps, LeWords(indexes) + rest)
  }

  /** Reads the two row counts of every layer. */
  method ReadRows(b: seq<Byte>, n: nat, cap: U32) returns (r: Option<(seq<U32>, seq<U32>, seq<Byte>)>)
    ensures r.Some? ==> RowsAre(b, n, cap, r.value.0, r.value.1, r.value.2)
    ensures forall cs, xs, rest :: RowsAre(b, n, cap, cs, xs, rest) ==> r == Some((cs, xs, rest))
  {
    var comps := ReadCounts(b, n, cap);
    if comps.None? { return None; }
    var indexes := ReadCounts(comps.value.1, n, cap);
    forall cs, xs, rest | RowsAre(b, n, cap, cs, xs, rest) ensures cs == comps.value.0 && indexes == Some((xs, rest)) {
      assert Starts(comps.value.1, xs, rest);
    }
    if indexes.None? { return None; }
    r := Some((comps.value.0, indexes.value.0, indexes.value.1));
  }

  /** Adds up the layer sizes and compares: true exactly when the bytes can be cut into these layers. */
  method TensorsFit(e: Engine, l: Layout, lo: U32, comps: seq<U32>, indexes: seq<U32>, flat: seq<Byte>)
      returns (ok: bool)
    requires |comps| == |indexes| && |flat| <= U64_MAX
    ensures ok <==> Total(e, l, lo, comps, indexes, |comps|) == Some(|flat|)
  {
    var expected: nat := 0;
    for i := 0 to |comps|
      invariant Total(e, l, lo, comps, indexes, i) == Some(expected)
    {
      if Total(e, l, lo, comps, indexes, |comps|).Some? { TotalGrows(e, l, lo, comps, indexes, i + 1, |comps|); }
      var size := e.layerBytes(l, lo + i, comps[i], indexes[i]);
      if size.None? || expected + size.value > U64_MAX { return false; }
      expected := expected + size.value;
    }
    ok := |flat| == expected;
  }

  method CutRows(e: Engine, l: Layout, lo: U32, comps: seq<U32>, indexes: seq<U32>, flat: seq<Byte>)
      returns (ok: bool, ghost ls: seq<Layer>)
    requires |comps| == |indexes| && UpTo(comps, l.compCap) && UpTo(indexes, l.compCap) && |flat| <= U64_MAX
    ensures ok ==> CutBy(e, l, lo, comps, indexes, flat, ls)
    ensures forall ls' :: CutBy(e, l, lo, comps, indexes, flat, ls') ==> ok && ls' == ls
  {
    ls := [];
    ok := TensorsFit(e, l, lo, comps, indexes, flat);
    forall ls' | CutBy(e, l, lo, comps, indexes, flat, ls') ensures ok { CutFits(e, l, lo, ls'); }
    if !ok { return; }
    ls := CutExists(e, l, lo, comps, indexes, flat);
    forall ls' | CutBy(e, l, lo, comps, indexes, flat, ls') ensures ls' == ls {
      TensorsUnique(e, l, lo, ls, [], ls', []);
    }
  }

  /** Accepts exactly the payloads of layers lo..hi, and takes them apart. */
  method ParseShard(e: Engine, bytes: seq<Byte>, lo: U32, hi: U32, known: Option<Layout>)
      returns (r: Option<Shard>, ghost ls: seq<Layer>)
    requires |bytes| <= U64_MAX
    ensures r.Some? <==> exists l, ls' :: ShardIs(e, known, bytes, lo, hi, l, ls')
    ensures r.Some? ==> ShardIs(e, known, bytes, lo, hi, r.value.layout, ls)
    ensures r.Some? ==> r.value == Shard(r.value.layout, Comps(ls), Indexes(ls), Tensors(ls))
    ensures forall l, ls' :: ShardIs(e, known, bytes, lo, hi, l, ls') ==> r.Some? && l == r.value.layout && ls' == ls
  {
    ls := [];
    var head := ReadHeader(e, bytes, lo, hi, known);
    forall l, ls' | ShardIs(e, known, bytes, lo, hi, l, ls') ensures head == Some((l, AfterHeader(ls'))) {
      assert Starts(bytes, LayerHeader(l, lo, hi), AfterHeader(ls'));
    }
    if head.None? { return None, ls; }
    var l, n := head.value.0, hi - lo + 1;
    var rows := ReadRows(head.value.1, n, l.compCap);
    forall ls' | ShardIs(e, known, bytes, lo, hi, l, ls')
      ensures rows == Some((Comps(ls'), Indexes(ls'), Tensors(ls')))
    {
      CountsUpTo(e, l, lo, ls');
      assert RowsAre(head.value.1, n, l.compCap, Comps(ls'), Indexes(ls'), Tensors(ls'));
    }
    if rows.None? { return None, ls; }
    var (cs, xs, flat) := rows.value;
    var ok;
    ok, ls := CutRows(e, l, lo, cs, xs, flat);
    forall ls' | ShardIs(e, known, bytes, lo, hi, l, ls') ensures CutBy(e, l, lo, cs, xs, flat, ls') {}
    if !ok { return None, ls; }
    assert ShardIs(e, known, bytes, lo, hi, l, ls);
    r := Some(Shard(l, cs, xs, flat));
  }

  function AfterHeader(ls: seq<Layer>): seq<Byte> { LeWords(Comps(ls)) + AfterComps(ls) }

  function AfterComps(ls: seq<Layer>): seq<Byte> { LeWords(Indexes(ls)) + Tensors(ls) }
}
