/** The saved forms of a session's KV state: the DSV4 payload of a whole session and the DSVL payload
    of a range of layers, with the parser of the latter. */
module KvPayload {
  import opened Bytes
  import opened KvSizes
  import opened Wrappers

  const SESSION_MAGIC: U32 := 0x3456_5344
  const SESSION_VERSION: U32 := 2
  const SESSION_FIELDS: nat := 13
  const LAYER_MAGIC: U32 := 0x4c56_5344
  const LAYER_VERSION: U32 := 1
  const LAYER_FIELDS: nat := 14

  /** The engine a payload is for. layerBytes gives the tensor size of one layer (see LayerSize). */
  datatype Engine = Engine(layerCount: U32, vocab: U32, isGlm: bool, layerBytes: (Layout, nat, U32, U32) -> Option<nat>)

  /** One layer: its compressed and indexer row counts and its tensors. */
  datatype Layer = Layer(nComp: U32, nIndex: U32, tensor: seq<Byte>)

  datatype Payload = Payload(layout: Layout, vocab: U32, tokens: seq<U32>, logits: seq<Byte>, layers: seq<Layer>)

  predicate RawLiveValid(e: Engine, l: Layout) {
    var maxLive := if l.tokenCount < l.rawWindow then l.tokenCount else l.rawWindow;
    && l.rawWindow != 0 && l.rawCap != 0 && l.rawLive <= l.rawCap
    && if e.isGlm then l.rawLive <= maxLive else l.rawLive == maxLive
  }

  /** Live rows: no more than the cap, the window or the tokens there are; unless the model is a GLM, as many as the
      window and the tokens allow. */
  lemma RawLiveMeans(e: Engine, l: Layout)
    ensures RawLiveValid(e, l) <==>
              && l.rawWindow > 0 && l.rawCap > 0
              && l.rawLive <= l.rawCap && l.rawLive <= l.rawWindow && l.rawLive <= l.tokenCount
              && (e.isGlm || l.rawLive == l.rawWindow || l.rawLive == l.tokenCount)
  {}

  // Encodings ---------------------------------------------------------------------------

  function SessionHeader(l: Layout, vocab: U32): (h: seq<U32>)
    ensures |h| == SESSION_FIELDS
  {
    [SESSION_MAGIC, SESSION_VERSION, l.ctx, l.prefillCap, l.rawCap, l.rawWindow, l.compCap, l.tokenCount,
     l.nLayers, l.headDim, l.indexerHeadDim, vocab, l.rawLive]
  }

  function SessionLayout(h: seq<U32>): Layout
    requires |h| == SESSION_FIELDS
  {
    Layout(h[2], h[3], h[4], h[5], h[6], h[7], h[8], h[9], h[10], h[12])
  }

  function LayerHeader(l: Layout, lo: U32, hi: U32): (h: seq<U32>)
    ensures |h| == LAYER_FIELDS
  {
    [LAYER_MAGIC, LAYER_VERSION, l.ctx, l.prefillCap, l.rawCap, l.rawWindow, l.compCap, l.tokenCount,
     l.nLayers, l.headDim, l.indexerHeadDim, lo, hi, l.rawLive]
  }

  function LayerLayout(h: seq<U32>): Layout
    requires |h| == LAYER_FIELDS
  {
    Layout(h[2], h[3], h[4], h[5], h[6], h[7], h[8], h[9], h[10], h[13])
  }

  function Comps(ls: seq<Layer>): seq<U32> { seq(|ls|, k requires 0 <= k < |ls| => ls[k].nComp) }

  function Indexes(ls: seq<Layer>): seq<U32> { seq(|ls|, k requires 0 <= k < |ls| => ls[k].nIndex) }

  function Tensors(ls: seq<Layer>): seq<Byte> { if ls == [] then [] else ls[0].tensor + Tensors(ls[1..]) }

  /** A session payload followed by tail. */
  function EncodeWith(p: Payload, tail: seq<Byte>): seq<Byte> {
    LeWords(SessionHeader(p.layout, p.vocab))
    + (LeWords(p.tokens) + (p.logits
        + (LeWords(Comps(p.layers)) + (LeWords(Indexes(p.layers)) + (Tensors(p.layers) + tail)))))
  }

  function Encode(p: Payload): seq<Byte> { EncodeWith(p, []) }

  /** The payload of layers lo to lo + |ls| - 1. */
  function EncodeShard(l: Layout, lo: U32, ls: seq<Layer>): seq<Byte>
    requires ls != [] && lo + |ls| <= 0x1_0000_0000
  {
    LeWords(LayerHeader(l, lo, lo + |ls| - 1)) + (LeWords(Comps(ls)) + (LeWords(Indexes(ls)) + Tensors(ls)))
  }

  /** The layers from lo on have legal row counts and tensors of the size the engine asks for. */
  ghost predicate LayersOk(e: Engine, l: Layout, lo: nat, ls: seq<Layer>) {
    forall k :: 0 <= k < |ls| ==> LayerOk(e, l, lo + k, ls[k])
  }

  predicate LayerOk(e: Engine, l: Layout, at: nat, y: Layer) {
    y.nComp <= l.compCap && y.nIndex <= l.compCap && e.layerBytes(l, at, y.nComp, y.nIndex) == Some(|y.tensor|)
  }

  // Splitting tensors -------------------------------------------------------------------

  lemma {:induction false} TensorsSplit(a: seq<Layer>, b: seq<Layer>)
    ensures Tensors(a + b) == Tensors(a) + Tensors(b)
  {
    if a == [] {
      assert a + b == b;
    } else {
      assert (a + b)[1..] == a[1..] + b;
      TensorsSplit(a[1..], b);
    }
  }

  lemma RestOk(e: Engine, l: Layout, lo: nat, ls: seq<Layer>)
    requires LayersOk(e, l, lo, ls) && ls != []
    ensures LayerOk(e, l, lo, ls[0]) && LayersOk(e, l, lo + 1, ls[1..])
  {
    forall k | 0 <= k < |ls| - 1 ensures LayerOk(e, l, lo + 1 + k, ls[1..][k]) {
      assert LayerOk(e, l, lo + (k + 1), ls[k + 1]);
    }
    assert LayerOk(e, l, lo + 0, ls[0]);
  }

  /** Layers with the same row counts lie in the bytes in one way only. */
  lemma {:induction false} TensorsUnique(e: Engine, l: Layout, lo: nat, a: seq<Layer>, ta: seq<Byte>, b: seq<Layer>,
        tb: seq<Byte>)
    requires LayersOk(e, l, lo, a) && LayersOk(e, l, lo, b) && |a| == |b| && Comps(a) == Comps(b)
             && Indexes(a) == Indexes(b)
    requires Tensors(a) + ta == Tensors(b) + tb
    ensures a == b && ta == tb
    decreases |a|
  {
    if a == [] {
      assert ta == Tensors(a) + ta && tb == Tensors(b) + tb;
    } else {
      SameCounts(a, b, 0);
      RestOk(e, l, lo, a);
      RestOk(e, l, lo, b);
      var ra, rb := Tensors(a[1..]) + ta, Tensors(b[1..]) + tb;
      assert Tensors(a) + ta == a[0].tensor + ra && Tensors(b) + tb == b[0].tensor + rb;
      CutEqual(a[0].tensor, ra, b[0].tensor, rb);
      assert Comps(a[1..]) == Comps(a)[1..] && Comps(b[1..]) == Comps(b)[1..];
      assert Indexes(a[1..]) == Indexes(a)[1..] && Indexes(b[1..]) == Indexes(b)[1..];
      TensorsUnique(e, l, lo + 1, a[1..], ta, b[1..], tb);
      assert a == [a[0]] + a[1..] && b == [b[0]] + b[1..];
    }
  }

  lemma SameCounts(a: seq<Layer>, b: seq<Layer>, k: nat)
    requires k < |a| == |b| && Comps(a) == Comps(b) && Indexes(a) == Indexes(b)
    ensures a[k].nComp == b[k].nComp && a[k].nIndex == b[k].nIndex
  {
    assert Comps(a)[k] == Comps(b)[k] && Indexes(a)[k] == Indexes(b)[k];
  }

  // Layer sizes from row counts ------------------------------------------------------------

  predicate UpTo(xs: seq<U32>, cap: U32) { forall k :: 0 <= k < |xs| ==> xs[k] <= cap }

  /** The tensor bytes of the first n layers from lo on, if the engine gives every size. */
  ghost function Total(e: Engine, l: Layout, lo: nat, comps: seq<U32>, indexes: seq<U32>, n: nat): Option<nat>
    requires n <= |comps| == |indexes|
    decreases n
  {
    if n == 0 then Some(0)
    else
      var before := Total(e, l, lo, comps, indexes, n - 1);
      var size := e.layerBytes(l, lo + n - 1, comps[n - 1], indexes[n - 1]);
      if before.None? || size.None? then None else Some(before.value + size.value)
  }

  lemma {:induction false} TotalGrows(e: Engine, l: Layout, lo: nat, comps: seq<U32>, indexes: seq<U32>, k: nat, n: nat)
    requires k <= n <= |comps| == |indexes| && Total(e, l, lo, comps, indexes, n).Some?
    ensures Total(e, l, lo, comps, indexes, k).Some?
    ensures Total(e, l, lo, comps, indexes, k).value <= Total(e, l, lo, comps, indexes, n).value
    decreases n
  {
    if k < n { TotalGrows(e, l, lo, comps, indexes, k, n - 1); }
  }

  /** ls are the layers from lo on with these row counts, and flat is their tensors. */
  ghost predicate CutBy(e: Engine, l: Layout, lo: nat, comps: seq<U32>, indexes: seq<U32>, flat: seq<Byte>,
        ls: seq<Layer>) {
    |ls| == |comps| && LayersOk(e, l, lo, ls) && Comps(ls) == comps && Indexes(ls) == indexes && flat == Tensors(ls)
  }

  lemma LastTensor(init: seq<Layer>, y: Layer)
    ensures Tensors(init + [y]) == Tensors(init) + y.tensor
    ensures Comps(init + [y]) == Comps(init) + [y.nComp] && Indexes(init + [y]) == Indexes(init) + [y.nIndex]
  {
    TensorsSplit(init, [y]);
    assert Tensors([y]) == y.tensor;
  }

  lemma LastOk(e: Engine, l: Layout, lo: nat, ls: seq<Layer>, init: seq<Layer>, y: Layer)
    requires ls == init + [y]
    ensures LayersOk(e, l, lo, ls) <==> LayersOk(e, l, lo, init) && LayerOk(e, l, lo + |init|, y)
  {
    assert ls[|init|] == y && forall k :: 0 <= k < |init| ==> init[k] == ls[k];
  }

  lemma CutMore(e: Engine, l: Layout, lo: nat, comps: seq<U32>, indexes: seq<U32>, flat: seq<Byte>,
        init: seq<Layer>, y: Layer)
    requires CutBy(e, l, lo, comps, indexes, flat, init) && LayerOk(e, l, lo + |init|, y)
    ensures CutBy(e, l, lo, comps + [y.nComp], indexes + [y.nIndex], flat + y.tensor, init + [y])
  {
    LastTensor(init, y);
    LastOk(e, l, lo, init + [y], init, y);
  }

  /** Bytes of the total size can be cut into layers with these row counts. */
  lemma {:induction false} CutExists(e: Engine, l: Layout, lo: nat, comps: seq<U32>, indexes: seq<U32>, flat: seq<Byte>)
      returns (ls: seq<Layer>)
    requires |comps| == |indexes| && UpTo(comps, l.compCap) && UpTo(indexes, l.compCap)
    requires Total(e, l, lo, comps, indexes, |comps|) == Some(|flat|)
    ensures CutBy(e, l, lo, comps, indexes, flat, ls)
    decreases |comps|
  {
    if comps == [] { return []; }
    var n := |comps| - 1;
    var c, x := comps[..n], indexes[..n];
    TotalOfPrefix(e, l, lo, comps, indexes, n);
    var t := Total(e, l, lo, comps, indexes, n).value;
    var init := CutExists(e, l, lo, c, x, flat[..t]);
    var y := Layer(comps[n], indexes[n], flat[t..]);
    CutMore(e, l, lo, c, x, flat[..t], init, y);
    SplitAt(comps, n);
    SplitAt(indexes, n);
    SplitAt(flat, t);
    ls := init + [y];
  }

  lemma SplitAt<T>(s: seq<T>, k: nat)
    requires k <= |s|
    ensures s == s[..k] + s[k..] && (k + 1 == |s| ==> s[k..] == [s[k]])
  {}

  lemma {:induction false} TotalOfPrefix(e: Engine, l: Layout, lo: nat, comps: seq<U32>, indexes: seq<U32>, n: nat)
    requires n <= |comps| == |indexes|
    ensures Total(e, l, lo, comps[..n], indexes[..n], n) == Total(e, l, lo, comps, indexes, n)
    decreases n
  {
    if n > 0 {
      TotalOfPrefix(e, l, lo, comps, indexes, n - 1);
      assert comps[..n][..n - 1] == comps[..n - 1] && indexes[..n][..n - 1] == indexes[..n - 1];
      TotalOfPrefix(e, l, lo, comps[..n], indexes[..n], n - 1);
    }
  }

  lemma CountsOf(ls: seq<Layer>, a: nat, b: nat)
    requires a <= b <= |ls|
    ensures Comps(ls)[a..b] == Comps(ls[a..b]) && Indexes(ls)[a..b] == Indexes(ls[a..b])
  {}

  lemma CountsUpTo(e: Engine, l: Layout, lo: nat, ls: seq<Layer>)
    requires LayersOk(e, l, lo, ls)
    ensures UpTo(Comps(ls), l.compCap) && UpTo(Indexes(ls), l.compCap)
  {
    forall k | 0 <= k < |ls| ensures Comps(ls)[k] <= l.compCap && Indexes(ls)[k] <= l.compCap {
      assert LayerOk(e, l, lo + k, ls[k]);
    }
  }

  lemma TotalOneMore(e: Engine, l: Layout, lo: nat, comps: seq<U32>, indexes: seq<U32>, c: U32, x: U32, bytes: nat)
    requires |comps| == |indexes| && Total(e, l, lo, comps, indexes, |comps|) == Some(bytes)
    requires e.layerBytes(l, lo + |comps|, c, x).Some?
    ensures Total(e, l, lo, comps + [c], indexes + [x], |comps| + 1)
            == Some(bytes + e.layerBytes(l, lo + |comps|, c, x).value)
  {
    TotalOfPrefix(e, l, lo, comps + [c], indexes + [x], |comps|);
    assert (comps + [c])[..|comps|] == comps && (indexes + [x])[..|comps|] == indexes;
  }

  /** Layers of the right sizes take the total. */
  lemma {:induction false} CutFits(e: Engine, l: Layout, lo: nat, ls: seq<Layer>)
    requires LayersOk(e, l, lo, ls)
    ensures Total(e, l, lo, Comps(ls), Indexes(ls), |ls|) == Some(|Tensors(ls)|)
    decreases |ls|
  {
    if ls != [] {
      var n := |ls| - 1;
      var init := ls[..n];
      SplitAt(ls, n);
      LastTensor(init, ls[n]);
      LastOk(e, l, lo, ls, init, ls[n]);
      CutFits(e, l, lo, init);
      TotalOneMore(e, l, lo, Comps(init), Indexes(init), ls[n].nComp, ls[n].nIndex, |Tensors(init)|);
    }
  }

  // Reading words -----------------------------------------------------------------------

  ghost predicate Starts(b: seq<Byte>, xs: seq<U32>, rest: seq<Byte>) { b == LeWords(xs) + rest }

  /** Takes n words off the front, one after the other. */
  method ReadWords(b: seq<Byte>, n: nat) returns (r: Option<(seq<U32>, seq<Byte>)>)
    ensures r.Some? <==> 4 * n <= |b|
    ensures r.Some? ==> |r.value.0| == n && Starts(b, r.value.0, r.value.1)
    ensures forall xs, rest :: Starts(b, xs, rest) && |xs| == n ==> r == Some((xs, rest))
  {
    var xs: seq<U32>, rest := [], b;
    for i := 0 to n
      invariant |xs| == i && Starts(b, xs, rest)
    {
      if |rest| < 4 { return None; }
      LeHeadUnique(rest);
      LeWordsSplit(xs, [LeAt(rest)]);
      assert LeWords([LeAt(rest)]) == Le32(LeAt(rest));
      xs, rest := xs + [LeAt(rest)], rest[4..];
    }
    forall ys, y | Starts(b, ys, y) && |ys| == n ensures ys == xs && y == rest {
      LeWordsCut(ys, y, xs, rest);
    }
    return Some((xs, rest));
  }
}
