/** The layer packer: one greedy pass over the entries in forward order, and why no other contiguous
    placement keeps more of them on the GPUs. */
module LayerPack {
  import opened Wrappers

  const MAX_GPUS: int := 16
  const CPU: int := -1

  datatype Config = Config(gpuBudget: seq<nat>, nGpus: int)

  // Placements --------------------------------------------------------------------------

  /** Devices in the order they fill up; the CPU comes last. */
  function Rank(d: int, gpus: nat): int { if d == CPU then gpus else d }

  /** Bytes that the entries put on device d. */
  function Used(bytes: seq<nat>, place: seq<int>, d: int): nat
    requires |place| <= |bytes|
  {
    if place == [] then 0
    else
      var n := |place| - 1;
      Used(bytes, place[..n], d) + if place[n] == d then bytes[n] else 0
  }

  /** Devices exist, never go back, and no GPU is over budget. */
  ghost predicate Feasible(bytes: seq<nat>, budget: seq<nat>, place: seq<int>)
    requires |place| <= |bytes|
  {
    && (forall e :: 0 <= e < |place| ==> place[e] == CPU || 0 <= place[e] < |budget|)
    && (forall e, f :: 0 <= e < f < |place| ==> Rank(place[e], |budget|) <= Rank(place[f], |budget|))
    && (forall d :: 0 <= d < |budget| ==> Used(bytes, place, d) <= budget[d])
  }

  // Greedy ------------------------------------------------------------------------------

  /** The first device from d on that still has room. */
  function Fit(b: nat, d: nat, left: seq<nat>): (r: nat)
    requires d <= |left|
    ensures d <= r <= |left| && (r < |left| ==> b <= left[r])
    ensures forall j :: d <= j < r ==> b > left[j]
    decreases |left| - d
  {
    if d == |left| || b <= left[d] then d else Fit(b, d + 1, left)
  }

  /** The device in use and the room left after the first n entries. */
  function State(bytes: seq<nat>, budget: seq<nat>, n: nat): (s: (nat, seq<nat>))
    requires n <= |bytes|
    ensures s.0 <= |s.1| == |budget|
  {
    if n == 0 then (0, budget)
    else
      var s := State(bytes, budget, n - 1);
      var d := Fit(bytes[n - 1], s.0, s.1);
      (d, if d < |budget| then s.1[d := s.1[d] - bytes[n - 1]] else s.1)
  }

  function DeviceOf(d: nat, gpus: nat): int { if d < gpus then d else CPU }

  /** What the greedy pass assigns to the first n entries. */
  function Greedy(bytes: seq<nat>, budget: seq<nat>, n: nat): (place: seq<int>)
    requires n <= |bytes|
    ensures |place| == n
  {
    if n == 0 then [] else Greedy(bytes, budget, n - 1) + [DeviceOf(State(bytes, budget, n).0, |budget|)]
  }

  /** The pass itself, with its error codes; only the first nEntries slots are written. */
  method ComputeLayerPlacement(entryBytes: Option<seq<nat>>, nEntries: int, cfg: Option<Config>,
        deviceForEntry: array?<int>)
      returns (code: int)
    requires entryBytes.Some? ==> nEntries <= |entryBytes.value|
    requires deviceForEntry != null ==> nEntries <= deviceForEntry.Length
    requires cfg.Some? ==> |cfg.value.gpuBudget| == MAX_GPUS
    modifies deviceForEntry
    ensures code == if entryBytes.None? || cfg.None? || deviceForEntry == null then 1
                    else if nEntries < 0 then 2
                    else if cfg.value.nGpus < 0 || cfg.value.nGpus > MAX_GPUS then 3 else 0
    ensures code != 0 && deviceForEntry != null ==> deviceForEntry[..] == old(deviceForEntry[..])
    ensures code == 0 ==>
              deviceForEntry[..]
              == Greedy(entryBytes.value, cfg.value.gpuBudget[..cfg.value.nGpus], nEntries)
                 + old(deviceForEntry[nEntries..])
  {
    if entryBytes.None? || cfg.None? || deviceForEntry == null { return 1; }
    if nEntries < 0 { return 2; }
    var n, bytes := cfg.value.nGpus, entryBytes.value;
    if n < 0 || n > MAX_GPUS { return 3; }
    var budget := new nat[n];
    for d := 0 to n
      invariant forall j :: 0 <= j < d ==> budget[j] == cfg.value.gpuBudget[j]
      invariant deviceForEntry[..] == old(deviceForEntry[..])
    {
      budget[d] := cfg.value.gpuBudget[d];
    }
    assert budget[..] == cfg.value.gpuBudget[..n];
    Pack(bytes, nEntries, budget, deviceForEntry);
    return 0;
  }

  /** The pass over the entries; budget is its own copy. */
  method Pack(bytes: seq<nat>, nEntries: nat, budget: array<nat>, deviceForEntry: array<int>)
    requires nEntries <= |bytes| && nEntries <= deviceForEntry.Length
    modifies budget, deviceForEntry
    ensures deviceForEntry[..] == Greedy(bytes, old(budget[..]), nEntries) + old(deviceForEntry[nEntries..])
  {
    ghost var caps, was := budget[..], deviceForEntry[..];
    ghost var placed: seq<int> := [];
    var d: nat := 0;
    for e := 0 to nEntries
      invariant PassedTo(bytes, caps, e, d, budget[..], placed) && deviceForEntry[..] == placed + was[e..]
    {
      ghost var start, left := d, budget[..];
      d := PlaceEntry(bytes[e], e, d, budget, deviceForEntry);
      PassStep(bytes, caps, e, start, left, d, placed);
      Overwritten(placed, was, e, DeviceOf(d, |caps|));
      placed := placed + [DeviceOf(d, |caps|)];
    }
  }

  lemma Overwritten(placed: seq<int>, was: seq<int>, e: nat, x: int)
    requires |placed| == e < |was|
    ensures (placed + was[e..])[e := x] == placed + [x] + was[e + 1..]
  {}

  /** One entry: it takes its bytes off the first device with room, or goes to the CPU. */
  method PlaceEntry(b: nat, e: nat, start: nat, budget: array<nat>, deviceForEntry: array<int>) returns (d: nat)
    requires start <= budget.Length && e < deviceForEntry.Length
    modifies budget, deviceForEntry
    ensures d == Fit(b, start, old(budget[..]))
    ensures budget[..] == if d < budget.Length then old(budget[..])[d := old(budget[d]) - b] else old(budget[..])
    ensures deviceForEntry[..] == old(deviceForEntry[..])[e := DeviceOf(d, budget.Length)]
  {
    d := Advance(b, start, budget);
    if d < budget.Length {
      deviceForEntry[e] := d;
      budget[d] := budget[d] - b;
    } else {
      deviceForEntry[e] := CPU;
    }
  }

  /** After e entries the greedy pass is at device d, with this room left and these placements made. */
  ghost predicate PassedTo(bytes: seq<nat>, caps: seq<nat>, e: nat, d: nat, left: seq<nat>, placed: seq<int>)
    requires e <= |bytes|
  {
    State(bytes, caps, e) == (d, left) && placed == Greedy(bytes, caps, e)
  }

  lemma PassStep(bytes: seq<nat>, caps: seq<nat>, e: nat, start: nat, left: seq<nat>, d: nat, placed: seq<int>)
    requires e < |bytes| && PassedTo(bytes, caps, e, start, left, placed) && start <= |left| == |caps|
             && d == Fit(bytes[e], start, left)
    ensures PassedTo(bytes, caps, e + 1, d, if d < |caps| then left[d := left[d] - bytes[e]] else left,
                     placed + [DeviceOf(d, |caps|)])
  {}

  /** Advances until the device can hold the entry, or no device is left. An exact fit stays. */
  method Advance(b: nat, start: nat, budget: array<nat>) returns (d: nat)
    requires start <= budget.Length
    ensures d == Fit(b, start, budget[..])
  {
    d := start;
    while d < budget.Length && b > budget[d]
      invariant start <= d <= budget.Length && Fit(b, start, budget[..]) == Fit(b, d, budget[..])
    {
      d := d + 1;
    }
  }

  // Feasibility ---------------------------------------------------------------------------

  lemma UsedSnoc(bytes: seq<nat>, place: seq<int>, x: int, d: int)
    requires |place| < |bytes|
    ensures Used(bytes, place + [x], d) == Used(bytes, place, d) + if x == d then bytes[|place|] else 0
  {
    assert (place + [x])[..|place|] == place;
  }

  /** A GPU's room plus what was put on it is its budget, and a device not reached is untouched. */
  lemma {:induction false} Account(bytes: seq<nat>, budget: seq<nat>, n: nat, d: nat)
    requires n <= |bytes| && d < |budget|
    ensures var s := State(bytes, budget, n);
            s.1[d] + Used(bytes, Greedy(bytes, budget, n), d) == budget[d] && (s.0 < d ==> s.1[d] == budget[d])
    decreases n
  {
    if n > 0 {
      Account(bytes, budget, n - 1, d);
      UsedSnoc(bytes, Greedy(bytes, budget, n - 1), DeviceOf(State(bytes, budget, n).0, |budget|), d);
    }
  }

  lemma {:induction false} StateGrows(bytes: seq<nat>, budget: seq<nat>, m: nat, n: nat)
    requires m <= n <= |bytes|
    ensures State(bytes, budget, m).0 <= State(bytes, budget, n).0
    ensures Greedy(bytes, budget, m) == Greedy(bytes, budget, n)[..m]
    decreases n
  {
    if m < n {
      StateGrows(bytes, budget, m, n - 1);
      assert Greedy(bytes, budget, n)[..m] == Greedy(bytes, budget, n - 1)[..m];
    }
  }

  lemma GreedyAt(bytes: seq<nat>, budget: seq<nat>, n: nat, e: nat)
    requires e < n <= |bytes|
    ensures Greedy(bytes, budget, n)[e] == DeviceOf(State(bytes, budget, e + 1).0, |budget|)
  {
    StateGrows(bytes, budget, e + 1, n);
    assert Greedy(bytes, budget, n)[..e + 1][e] == Greedy(bytes, budget, e + 1)[e];
  }

  lemma RanksRise(d: nat, later: nat, gpus: nat)
    requires d <= later <= gpus
    ensures Rank(DeviceOf(d, gpus), gpus) <= Rank(DeviceOf(later, gpus), gpus)
    ensures DeviceOf(d, gpus) == CPU ==> DeviceOf(later, gpus) == CPU
  {}

  lemma GreedyRises(bytes: seq<nat>, budget: seq<nat>, n: nat, e: nat, f: nat, x: int, y: int)
    requires e < f < n <= |bytes| && x == Greedy(bytes, budget, n)[e] && y == Greedy(bytes, budget, n)[f]
    ensures Rank(x, |budget|) <= Rank(y, |budget|) && (x == CPU ==> y == CPU)
  {
    GreedyAt(bytes, budget, n, e);
    GreedyAt(bytes, budget, n, f);
    StateGrows(bytes, budget, e + 1, f + 1);
    RanksRise(State(bytes, budget, e + 1).0, State(bytes, budget, f + 1).0, |budget|);
  }

  /** The greedy placement is feasible, and only a suffix of the entries is on the CPU. */
  lemma GreedyIsFeasible(bytes: seq<nat>, budget: seq<nat>)
    ensures Feasible(bytes, budget, Greedy(bytes, budget, |bytes|))
    ensures forall e, f :: 0 <= e < f < |bytes| && Greedy(bytes, budget, |bytes|)[e] == CPU ==>
              Greedy(bytes, budget, |bytes|)[f] == CPU
  {
    var n := |bytes|;
    var place := Greedy(bytes, budget, n);
    forall e | 0 <= e < n ensures place[e] == CPU || 0 <= place[e] < |budget| { GreedyAt(bytes, budget, n, e); }
    forall e, f | 0 <= e < f < n
      ensures Rank(place[e], |budget|) <= Rank(place[f], |budget|) && (place[e] == CPU ==> place[f] == CPU)
    {
      GreedyRises(bytes, budget, n, e, f, place[e], place[f]);
    }
    forall d: nat | d < |budget| ensures Used(bytes, place, d) <= budget[d] { Account(bytes, budget, n, d); }
  }

  // Optimality ----------------------------------------------------------------------------

  /** The device a placement has reached with its first n entries. */
  function Reached(place: seq<int>, n: nat, gpus: nat): int
    requires n <= |place|
  {
    if n == 0 then 0 else Rank(place[n - 1], gpus)
  }

  /** Greedy has used up no more than the other placement: an earlier device, or no more of the same one. */
  ghost predicate Ahead(bytes: seq<nat>, budget: seq<nat>, other: seq<int>, n: nat)
    requires n <= |other| <= |bytes|
  {
    var s := State(bytes, budget, n);
    var q := Reached(other, n, |budget|);
    s.0 < q || (s.0 == q && (s.0 < |budget| ==> s.1[s.0] + Used(bytes, other[..n], q) >= budget[s.0]))
  }

  lemma {:induction false} UsedGrows(bytes: seq<nat>, place: seq<int>, m: nat, d: int)
    requires m <= |place| <= |bytes|
    ensures Used(bytes, place[..m], d) <= Used(bytes, place, d)
    decreases |place|
  {
    if m < |place| {
      var n := |place| - 1;
      UsedGrows(bytes, place[..n], m, d);
      assert place[..n][..m] == place[..m];
    } else {
      assert place[..m] == place;
    }
  }

  /** The exchange step: where the other placement finds room, greedy finds it no later. */
  lemma StaysAhead(bytes: seq<nat>, budget: seq<nat>, other: seq<int>, n: nat)
    requires n < |other| <= |bytes| && Feasible(bytes, budget, other) && Ahead(bytes, budget, other, n)
             && other[n] != CPU
    ensures Ahead(bytes, budget, other, n + 1)
  {
    var s, q := State(bytes, budget, n), other[n];
    if q < |budget| { Account(bytes, budget, n, q); }
    assert other[..n + 1][..n] == other[..n];
    assert Used(bytes, other[..n + 1], q) == Used(bytes, other[..n], q) + bytes[n];
    UsedGrows(bytes, other, n + 1, q);
    assert Reached(other, n, |budget|) <= q by {
      if n > 0 { assert Rank(other[n - 1], |budget|) <= Rank(other[n], |budget|); }
    }
    assert s.0 <= q && bytes[n] <= s.1[q];
  }

  lemma {:induction false} AlwaysAhead(bytes: seq<nat>, budget: seq<nat>, other: seq<int>, n: nat)
    requires n <= |other| <= |bytes| && Feasible(bytes, budget, other) && forall e :: 0 <= e < n ==> other[e] != CPU
    ensures Ahead(bytes, budget, other, n)
    decreases n
  {
    if n > 0 {
      AlwaysAhead(bytes, budget, other, n - 1);
      StaysAhead(bytes, budget, other, n - 1);
    }
  }

  /** Optimality: whatever feasible placement keeps the first k entries on GPUs, greedy keeps them there too. */
  lemma GreedyIsOptimal(bytes: seq<nat>, budget: seq<nat>, other: seq<int>, k: nat)
    requires |other| == |bytes| && k <= |bytes| && Feasible(bytes, budget, other) && forall e :: 0 <= e < k ==>
               other[e] != CPU
    ensures forall e :: 0 <= e < k ==> Greedy(bytes, budget, |bytes|)[e] != CPU
  {
    forall e | 0 <= e < k ensures Greedy(bytes, budget, |bytes|)[e] != CPU {
      AlwaysAhead(bytes, budget, other, e + 1);
      GreedyAt(bytes, budget, |bytes|, e);
    }
  }
}
