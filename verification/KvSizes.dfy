/** Byte counts of one layer's saved tensors, computed with overflow-checked 64-bit arithmetic. */
module KvSizes {
  import opened Bytes
  import opened Wrappers

  /** The layout fields every shard of a snapshot must agree on. */
  datatype Layout = Layout(
    ctx: U32, prefillCap: U32, rawCap: U32, rawWindow: U32, compCap: U32, tokenCount: U32,
    nLayers: U32, headDim: U32, indexerHeadDim: U32, rawLive: U32)

  /** What the engine says about the model: the compression ratio of each layer, or for GLM models the
      byte count itself, taken from layer, live rows, head dimensions and row counts. */
  datatype Model = Model(isGlm: bool, ratio: nat -> U32, glmBytes: (nat, U32, U32, U32, U32, U32) -> Option<nat>)

  function CheckedMul(a: nat, b: nat): Option<nat> { if a * b <= U64_MAX then Some(a * b) else None }

  function CheckedAdd(a: nat, b: nat): Option<nat> { if a + b <= U64_MAX then Some(a + b) else None }

  /** Rows of 32-bit floats. */
  function RowBytes(rows: nat, dim: nat): nat { rows * dim * 4 }

  /** The compressor's running state: coff times coff blocks of ratio rows. */
  function StateSize(ratio: nat, dim: nat): nat {
    var coff := if ratio == 4 then 2 else 1;
    coff * dim * coff * ratio * 4
  }

  /** The size of one layer: raw rows; with compression the compressed rows and two states; at ratio 4
      the indexer rows and their two states as well. */
  function ExactSize(l: Layout, ratio: nat, nComp: nat, nIndex: nat): nat {
    var raw := RowBytes(l.rawLive, l.headDim);
    var compressed := RowBytes(nComp, l.headDim) + 2 * StateSize(ratio, l.headDim);
    var indexed := RowBytes(nIndex, l.indexerHeadDim) + 2 * StateSize(ratio, l.indexerHeadDim);
    raw + (if ratio == 0 then 0 else compressed) + (if ratio == 4 then indexed else 0)
  }

  /** In closed form: four bytes a float; compression keeps two states of ratio rows beside the compressed rows, which
      at ratio 4 take 32 rows, for the attention and again for the indexer. */
  lemma SizeIs(l: Layout, ratio: nat, nComp: nat, nIndex: nat)
    ensures var attention, indexer := 4 * l.headDim as int, 4 * l.indexerHeadDim as int;
            ExactSize(l, ratio, nComp, nIndex)
            == if ratio == 0 then attention * l.rawLive
               else if ratio == 4 then attention * (l.rawLive + nComp + 32) + indexer * (nIndex + 32)
               else attention * (l.rawLive + nComp + 2 * ratio)
  {
    if ratio != 4 {
      assert StateSize(ratio, l.headDim) == 1 * l.headDim * 1 * ratio * 4 == 4 * (l.headDim * ratio);
      Factor(l.headDim, l.rawLive, nComp, ratio);
    }
  }

  lemma Factor(d: nat, raw: nat, comp: nat, ratio: nat)
    ensures 4 * d * (raw + comp + 2 * ratio) == raw * d * 4 + comp * d * 4 + 2 * (4 * (d * ratio))
  {}

  /** The byte count of a layer, if the engine gives one that fits 64 bits. */
  function LayerSize(m: Model, l: Layout, layer: nat, nComp: U32, nIndex: U32): Option<nat> {
    if m.isGlm then m.glmBytes(layer, l.rawLive, l.headDim, l.indexerHeadDim, nComp, nIndex)
    else var exact := ExactSize(l, m.ratio(layer), nComp, nIndex);
         if exact <= U64_MAX then Some(exact) else None
  }

  lemma Grows(a: nat, b: nat)
    requires b > 0
    ensures a <= a * b
  {}

  /** A product computed factor by factor overflows exactly when the whole product does. */
  method StateBytes(ratio: U32, dim: U32) returns (r: Option<nat>)
    requires ratio != 0
    ensures r == if StateSize(ratio, dim) <= U64_MAX then Some(StateSize(ratio, dim)) else None
  {
    var coff := if ratio == 4 then 2 else 1;
    Grows(coff * dim, coff);
    Grows(coff * dim * coff, ratio);
    Grows(coff * dim * coff * ratio, 4);
    var tmp := CheckedMul(coff, dim);
    if tmp.None? { return None; }
    tmp := CheckedMul(tmp.value, coff);
    if tmp.None? { return None; }
    tmp := CheckedMul(tmp.value, ratio);
    if tmp.None? { return None; }
    r := CheckedMul(tmp.value, 4);
  }

  method AddRows(bytes: nat, rows: U32, dim: U32) returns (r: Option<nat>)
    ensures r == if bytes + RowBytes(rows, dim) <= U64_MAX then Some(bytes + RowBytes(rows, dim)) else None
  {
    Grows(rows * dim, 4);
    var tmp := CheckedMul(rows, dim);
    if tmp.None? { return None; }
    tmp := CheckedMul(tmp.value, 4);
    if tmp.None? { return None; }
    r := CheckedAdd(bytes, tmp.value);
  }

  method AddStates(bytes: nat, ratio: U32, dim: U32) returns (r: Option<nat>)
    requires ratio != 0
    ensures var total := bytes + 2 * StateSize(ratio, dim); r == if total <= U64_MAX then Some(total) else None
  {
    var state := StateBytes(ratio, dim);
    if state.None? { return None; }
    r := CheckedAdd(bytes, state.value);
    if r.None? { return None; }
    r := CheckedAdd(r.value, state.value);
  }

  /** Fails exactly when the engine does or the true size does not fit 64 bits; otherwise it is the true size. */
  method LayerTensorBytes(m: Model, l: Layout, layer: nat, nComp: U32, nIndex: U32) returns (r: Option<nat>)
    ensures r == LayerSize(m, l, layer, nComp, nIndex)
    ensures m.isGlm ==> r == m.glmBytes(layer, l.rawLive, l.headDim, l.indexerHeadDim, nComp, nIndex)
    ensures !m.isGlm ==>
              var n := ExactSize(l, m.ratio(layer), nComp, nIndex); r == if n <= U64_MAX then Some(n) else None
  {
    if m.isGlm { return m.glmBytes(layer, l.rawLive, l.headDim, l.indexerHeadDim, nComp, nIndex); }
    r := AddRows(0, l.rawLive, l.headDim);
    if r.None? { return; }
    var ratio := m.ratio(layer);
    if ratio != 0 {
      r := AddRows(r.value, nComp, l.headDim);
      if r.None? { return; }
      r := AddStates(r.value, ratio, l.headDim);
      if r.None? { return; }
      if ratio == 4 {
        r := AddRows(r.value, nIndex, l.indexerHeadDim);
        if r.None? { return; }
        r := AddStates(r.value, ratio, l.indexerHeadDim);
      }
    }
  }
}
