/** Activation payloads: narrowed in bounded chunks on the way out, widened element by element on arrival. */
module Activations {
  import opened Bytes
  import F = Fp8
  import opened Half
  import opened Wrappers

  const CHUNK: nat := 0x10_0000

  /** The elementwise map. */
  function Map<S, T>(xs: seq<S>, f: S -> T): (r: seq<T>)
    ensures |r| == |xs| && forall i :: 0 <= i < |xs| ==> r[i] == f(xs[i])
  {
    seq(|xs|, i requires 0 <= i < |xs| => f(xs[i]))
  }

  /** Narrows src through a buffer of at most CHUNK values and writes the buffer out each time. */
  method WriteNarrow<S, T(0)>(src: seq<S>, narrow: S -> T) returns (wire: seq<T>)
    ensures wire == Map(src, narrow)
  {
    wire := [];
    if |src| == 0 { return; }
    var cap := if |src| < CHUNK then |src| else CHUNK;
    var buf := new T[cap];
    var done := 0;
    while done < |src|
      invariant 0 <= done <= |src| && wire == Map(src[..done], narrow)
    {
      var n := if |src| - done > cap then cap else |src| - done;
      for i := 0 to n
        invariant forall k :: 0 <= k < i ==> buf[k] == narrow(src[done + k])
      {
        buf[i] := narrow(src[done + i]);
      }
      wire := wire + buf[..n];
      done := done + n;
    }
    assert src[..done] == src;
  }

  /** Checks the size and widens every 16-bit value; units are the 16-bit values in wireBytes bytes. */
  method Decode16(units: seq<U16>, wireBytes: nat) returns (r: Option<seq<U32>>)
    requires |units| == wireBytes / 2
    ensures r.Some? <==> wireBytes % 2 == 0 && |units| * 4 <= U32_MAX
    ensures r.Some? ==> Widened(units, r.value)
  {
    if wireBytes % 2 != 0 { return None; }
    var values := wireBytes / 2;
    if values * 4 > U32_MAX { return None; }
    var dst: seq<U32> := [];
    for i := 0 to values
      invariant |dst| == i && Widened(units[..i], dst)
    {
      var bits := F16ToF32(units[i]);
      dst := dst + [bits];
    }
    assert units[..values] == units;
    r := Some(dst);
  }

  /** out are f32 values equal to the f16 values units. */
  ghost predicate Widened(units: seq<U16>, out: seq<U32>) {
    |out| == |units| && forall i :: 0 <= i < |units| ==> DecodesTo(units[i], out[i])
  }

  method Decode8(codes: seq<int>) returns (r: Option<seq<F.Float>>)
    requires forall i :: 0 <= i < |codes| ==> 0 <= codes[i] < 0x100
    ensures r.Some? <==> |codes| * 4 <= U32_MAX
    ensures r.Some? ==> |r.value| == |codes| && forall i :: 0 <= i < |codes| ==> r.value[i] == F.Decode(codes[i])
  {
    if |codes| * 4 > U32_MAX { return None; }
    var dst: seq<F.Float> := [];
    for i := 0 to |codes|
      invariant |dst| == i && forall k :: 0 <= k < i ==> dst[k] == F.Decode(codes[k])
    {
      dst := dst + [F.Decode(codes[i])];
    }
    r := Some(dst);
  }

  /** out stands for the f16 nearest to x, with the sign of x. */
  ghost predicate Arrived(x: U32, out: U32) {
    Neg32(out) == Neg32(x) && exists code: nat :: NearestEven(Value32(x), code, Grid(UNIT)) && SameValue(code, out)
  }

  lemma OneArrives(x: U32, out: U32)
    requires Finite32(x) && DecodesTo(F32ToF16(x), out)
    ensures Arrived(x, out)
  {
    RoundsToNearestEven(x);
    assert NearestEven(Value32(x), Magnitude16(F32ToF16(x)), Grid(UNIT)) && SameValue(Magnitude16(F32ToF16(x)), out);
  }

  /** What arrives at 16 bits: every finite value is the f16 nearest to the one sent, and sending what
      arrived once more changes nothing. */
  lemma Arrives16(src: seq<U32>, out: seq<U32>)
    requires Widened(Map(src, F32ToF16), out)
    ensures forall i :: 0 <= i < |src| && Finite32(src[i]) ==>
              Arrived(src[i], out[i])
    ensures (forall i :: 0 <= i < |src| ==> !IsNan32(src[i])) ==> Map(out, F32ToF16) == Map(src, F32ToF16)
  {
    forall i | 0 <= i < |src| && Finite32(src[i])
      ensures Arrived(src[i], out[i])
    {
      OneArrives(src[i], out[i]);
    }
    forall i | 0 <= i < |src| && !IsNan32(src[i]) ensures F32ToF16(out[i]) == F32ToF16(src[i]) {
      if Finite32(src[i]) { RoundsToNearestEven(src[i]); } else { SpecialsKept(src[i]); }
      RoundTrip(F32ToF16(src[i]), out[i]);
    }
  }

  /** What arrives at 8 bits: within a sixteenth or one subnormal step, with the sign kept. */
  lemma Arrives8(src: seq<F.Float>, i: nat)
    requires i < |src| && src[i].Finite? && src[i].mag <= 240.0
    ensures var sent := Map(src, F.Encode)[i];
            && 0 <= sent < 0x100 && F.Decode(sent).neg == src[i].neg
            && F.Abs(F.Decode(sent).mag - src[i].mag) <= F.Tolerance(src[i].mag)
  {
    F.DecodedError(src[i]);
  }
}
