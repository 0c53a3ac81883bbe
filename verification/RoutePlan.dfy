/** The coordinator's route plan: the first chain of workers in route order, written as route entries
    and as the blob that every worker on the way checks and reads again. */
module RoutePlan {
  import opened Bytes
  import opened LayerRoute
  import opened RouteBlob
  import opened RouteSearch

  datatype Error = NotFromLayerZero | Missing(layer: nat) | BadHost | TooLarge
  datatype Result<+T> = Ok(value: T) | Err(error: Error)

  datatype Plan = Plan(entries: seq<Entry>, blob: seq<Byte>)

  datatype Coordinator = Coordinator(
    nLayers: nat, localStart: nat, localEnd: nat, localHasOutput: bool, localCanOutputHead: bool)
  {
    predicate Valid() { localStart <= localEnd < nLayers <= U32_MAX }

    /** The local slice does everything, so the plan has no hops. */
    predicate Alone() { localEnd + 1 == nLayers && (localHasOutput || localCanOutputHead) }

    function Search(ws: seq<Worker>): Problem
      requires Valid()
    {
      Problem(ws, localCanOutputHead, nLayers - 1)
    }
  }

  /** The registry as the search sees it: HELLO-checked workers in route order, hosts from C strings. */
  ghost predicate Registry(ws: seq<Worker>, nLayers: nat) {
    && Sorted(ws)
    && forall i :: 0 <= i < |ws| ==> Registered(ws[i], nLayers) && 0 !in ws[i].host && |ws[i].host| <= U32_MAX
  }

  function EntryOf(w: Worker): Entry
    requires w.layerEnd <= U32_MAX && w.layerStart <= w.layerEnd && w.port <= 65535 && |w.host| <= U32_MAX
  {
    Entry(w.host, w.port, w.layerStart, w.layerEnd, if w.hasOutput then OUTPUT_LOGITS else 0)
  }

  /** Entry e names worker w: where it is, its layers, and whether it is asked for logits. */
  ghost predicate Names(e: Entry, w: Worker) {
    && e.host == w.host && e.port == w.port && e.layerStart == w.layerStart && e.layerEnd == w.layerEnd
    && e.flags <= OUTPUT_LOGITS && (e.flags == OUTPUT_LOGITS <==> w.hasOutput)
  }

  /** es are the entries of the workers that chain c names. */
  ghost predicate Lists(ws: seq<Worker>, c: seq<nat>, es: seq<Entry>, nLayers: nat)
    requires Registry(ws, nLayers) && nLayers <= U32_MAX
  {
    |es| == |c| && forall k :: 0 <= k < |c| ==> c[k] < |ws| && Names(es[k], ws[c[k]])
  }

  /** c is the first chain in route order. */
  ghost predicate FirstChain(p: Problem, next: nat, c: seq<nat>) {
    IsChain(p, next, c) && forall d: seq<nat> :: IsChain(p, next, d) ==> Before(c, d)
  }

  ghost predicate Sized(f: Format) {
    (forall e: Entry :: |f.put(e)| == FIXED + |e.host|) && |f.putReturn(UPSTREAM)| == 4 * RETURN_WORDS
  }

  lemma WireIsSized()
    ensures Sized(Wire())
  {}

  method AppendBlob(f: Format, blob: seq<Byte>, e: Entry) returns (r: Result<seq<Byte>>)
    requires Sized(f) && |blob| <= U32_MAX
    ensures r.Ok? <==> 0 < |e.host| < NI_MAXHOST && |blob + f.put(e)| <= U32_MAX
    ensures r.Ok? ==> r.value == blob + f.put(e)
    ensures r.Err? ==> r.error == if 0 < |e.host| < NI_MAXHOST then TooLarge else BadHost
  {
    var hostLen := |e.host|;
    if hostLen == 0 || hostLen >= NI_MAXHOST { return Err(BadHost); }
    var add := FIXED + hostLen;
    if add > U32_MAX || |blob| > U32_MAX - add { return Err(TooLarge); }
    return Ok(blob + f.put(e));
  }

  method AppendReturnUpstream(f: Format, blob: seq<Byte>) returns (r: Result<seq<Byte>>)
    requires Sized(f) && |blob| <= U32_MAX
    ensures r == if |blob + f.putReturn(UPSTREAM)| <= U32_MAX then Ok(blob + f.putReturn(UPSTREAM)) else Err(TooLarge)
  {
    var add := 4 * RETURN_WORDS;
    if |blob| > U32_MAX - add { return Err(TooLarge); }
    return Ok(blob + f.putReturn(UPSTREAM));
  }

  lemma {:induction false} EntriesGrow(f: Format, es: seq<Entry>, k: nat)
    requires k <= |es|
    ensures |f.Entries(es[..k])| <= |f.Entries(es)|
  {
    assert es == es[..k] + es[k..];
    EntriesSplit(f, es[..k], es[k..]);
  }

  /** Writes the entries of the chain one after the other. */
  method Emit(f: Format, ws: seq<Worker>, c: seq<nat>, ghost es: seq<Entry>, nLayers: nat) returns (r: Result<Plan>)
    requires nLayers <= U32_MAX && Registry(ws, nLayers) && Lists(ws, c, es, nLayers) && Sized(f) && c != []
    ensures r.Ok? <==> HostsOk(es) && |f.Blob(es)| <= U32_MAX
    ensures r.Ok? ==> r.value == Plan(es, f.Blob(es))
    ensures r.Err? ==> r.error == BadHost || r.error == TooLarge
    ensures r.Err? && r.error == BadHost ==> !HostsOk(es)
    ensures r.Err? && r.error == TooLarge ==> |f.Blob(es)| > U32_MAX
  {
    var entries: seq<Entry> := [];
    var blob: seq<Byte> := [];
    for i := 0 to |c|
      invariant entries == es[..i] && blob == f.Entries(es[..i]) && |blob| <= U32_MAX && HostsOk(es[..i])
    {
      var entry := EntryOf(ws[c[i]]);
      assert es[..i + 1] == es[..i] + [entry];
      EntriesSplit(f, es[..i], [entry]);
      assert f.Entries([entry]) == f.put(entry);
      EntriesGrow(f, es, i + 1);
      entries := entries + [entry];
      var next := AppendBlob(f, blob, entry);
      if next.Err? { return Err(next.error); }
      blob := next.value;
    }
    assert es[..|c|] == es;
    var whole := AppendReturnUpstream(f, blob);
    if whole.Err? { return Err(whole.error); }
    return Ok(Plan(entries, whole.value));
  }

  /** The outcome of writing the entries es. */
  ghost predicate Serialised(f: Format, es: seq<Entry>, r: Result<Plan>) {
    match r
    case Ok(plan) => HostsOk(es) && |f.Blob(es)| <= U32_MAX && plan == Plan(es, f.Blob(es))
    case Err(e) => (e == BadHost && !HostsOk(es)) || (e == TooLarge && |f.Blob(es)| > U32_MAX)
  }

  /** What planning owes for the hops behind the local slice: with no chain it names the furthest layer
      any acceptable workers reach, otherwise it serialises the first chain in route order. */
  ghost predicate Planned(f: Format, p: Problem, next: nat, nLayers: nat, r: Result<Plan>)
    requires nLayers <= U32_MAX && Registry(p.ws, nLayers)
  {
    if NoChain(p, next) then
      r.Err? && r.error.Missing? && Furthest(p, next, r.error.layer)
    else
      exists chain, es :: FirstChain(p, next, chain) && Lists(p.ws, chain, es, nLayers) && Serialised(f, es, r)
  }

  lemma ChainLists(p: Problem, next: nat, chain: seq<nat>, nLayers: nat) returns (es: seq<Entry>)
    requires p.Valid() && p.last + 1 == nLayers <= U32_MAX && Registry(p.ws, nLayers) && IsChain(p, next, chain)
    ensures chain != [] && Lists(p.ws, chain, es, nLayers)
  {
    ChainIsContiguous(p, next, chain);
    es := seq(|chain|, k requires 0 <= k < |chain| => EntryOf(p.ws[chain[k]]));
  }

  method PlanHops(f: Format, p: Problem, next: nat, nLayers: nat) returns (r: Result<Plan>)
    requires p.Valid() && p.last + 1 == nLayers <= U32_MAX && Registry(p.ws, nLayers) && Sized(f)
    ensures Planned(f, p, next, nLayers, r)
  {
    var path := new nat[|p.ws|];
    var found, pathLen, missing := SearchWorkers(p, next, path, 0, next);
    if !found {
      RaisedFromStart(p, next, missing);
      return Err(Missing(missing));
    }
    var chain := path[0..pathLen];
    ghost var es := ChainLists(p, next, chain, nLayers);
    r := Emit(f, p.ws, chain, es, nLayers);
    assert FirstChain(p, next, chain) && Serialised(f, es, r);
  }

  method BuildRoutePlan(f: Format, c: Coordinator, ws: seq<Worker>) returns (r: Result<Plan>)
    requires c.Valid() && Registry(ws, c.nLayers) && Sized(f)
    ensures c.localStart != 0 ==> r == Err(NotFromLayerZero)
    ensures c.localStart == 0 && c.Alone() ==> r == Ok(Plan([], []))
    ensures c.localStart == 0 && !c.Alone() ==> Planned(f, c.Search(ws), c.localEnd + 1, c.nLayers, r)
  {
    var last := c.nLayers - 1;
    if c.localStart != 0 { return Err(NotFromLayerZero); }
    if c.localEnd == last && (c.localHasOutput || c.localCanOutputHead) { return Ok(Plan([], [])); }
    r := PlanHops(f, c.Search(ws), c.localEnd + 1, c.nLayers);
  }

  /** The layer slices of the local machine and of every hop. */
  function Slices(c: Coordinator, es: seq<Entry>): seq<Slice> {
    [Slice(c.localStart, c.localEnd)] + seq(|es|, k requires 0 <= k < |es| => Slice(es[k].layerStart, es[k].layerEnd))
  }

  /** Entry i can be read off the blob, and it is entry i of the plan. */
  ghost predicate ReadsBack(f: Format, blob: seq<Byte>, es: seq<Entry>, i: nat)
    requires i < |es|
  {
    exists tail, read :: StartsWith(f, blob, read, tail) && |read| == i + 1 && read[i] == es[i]
  }

  lemma BlobReadsBack(f: Format, es: seq<Entry>, i: nat)
    requires i < |es| && HostsOk(es)
    ensures ReadsBack(f, f.Blob(es), es, i)
  {
    var read, more := es[..i + 1], es[i + 1..];
    assert es == read + more;
    EntriesSplit(f, read, more);
    assert StartsWith(f, f.Blob(es), read, f.Entries(more) + f.putReturn(UPSTREAM));
  }

  lemma RouteOfChain(p: Problem, next: nat, chain: seq<nat>, es: seq<Entry>, nLayers: nat)
    requires p.Valid() && p.last + 1 == nLayers <= U32_MAX && Registry(p.ws, nLayers)
    requires IsChain(p, next, chain) && Lists(p.ws, chain, es, nLayers) && HostsOk(es)
    ensures RouteOk(es, nLayers) && es != [] && es[0].layerStart == next && es[|es| - 1].layerEnd + 1 == nLayers
    ensures forall i :: 0 <= i < |es| - 1 ==> es[i].flags == 0
    ensures es[|es| - 1].flags == OUTPUT_LOGITS || p.localHead
  {
    ChainIsContiguous(p, next, chain);
    ChainIsRoute(p, next, chain);
    assert Serves(p, chain, |chain| - 1);
    forall k | 0 <= k < |es| ensures EntryOk(es[k], nLayers) {
      assert Registered(p.ws[chain[k]], nLayers);
    }
  }

  lemma SlicesCover(c: Coordinator, es: seq<Entry>)
    requires c.Valid() && c.localStart == 0 && RouteOk(es, c.nLayers) && es != []
    requires es[0].layerStart == c.localEnd + 1 && es[|es| - 1].layerEnd + 1 == c.nLayers
    ensures Covers(Slices(c, es), c.nLayers)
  {
    var route := Slices(c, es);
    forall k | 0 < k < |route| ensures Joins(route, k) {
      assert route[k] == Slice(es[k - 1].layerStart, es[k - 1].layerEnd);
      assert k > 1 ==> route[k - 1] == Slice(es[k - 2].layerStart, es[k - 2].layerEnd);
    }
  }

  /** What the workers on a route and the snapshot code make of a plan: the whole blob is valid, entry i read
      off it is plan entry i, the results go upstream, the hops follow the local slice and each other to the last
      layer, so the slices cover the model, and only the last hop can carry the logits flag. If it does not, the
      coordinator can run the output head. */
  ghost predicate IsAccepted(f: Format, c: Coordinator, plan: Plan) {
    var es := plan.entries;
    && Represents(f, plan.blob, es, |es|, c.nLayers)
    && (forall i :: 0 <= i < |es| ==> ReadsBack(f, plan.blob, es, i))
    && EndsIn(f, plan.blob, es, UPSTREAM)
    && Covers(Slices(c, es), c.nLayers)
    && es != [] && es[0].layerStart == c.localEnd + 1 && es[|es| - 1].layerEnd + 1 == c.nLayers
    && (forall i :: 0 < i < |es| ==> es[i].layerStart == es[i - 1].layerEnd + 1)
    && (forall i :: 0 <= i < |es| - 1 ==> es[i].flags == 0)
    && (es[|es| - 1].flags == OUTPUT_LOGITS || c.localCanOutputHead)
  }

  lemma ChainIsAccepted(f: Format, c: Coordinator, ws: seq<Worker>, chain: seq<nat>, es: seq<Entry>)
    requires c.Valid() && c.localStart == 0 && Registry(ws, c.nLayers)
    requires IsChain(c.Search(ws), c.localEnd + 1, chain) && Lists(ws, chain, es, c.nLayers) && HostsOk(es)
    ensures IsAccepted(f, c, Plan(es, f.Blob(es)))
  {
    RouteOfChain(c.Search(ws), c.localEnd + 1, chain, es, c.nLayers);
    SlicesCover(c, es);
    forall i | 0 <= i < |es| ensures ReadsBack(f, f.Blob(es), es, i) { BlobReadsBack(f, es, i); }
  }

  /** Every plan with hops that the planner makes is accepted. */
  lemma PlanIsAccepted(f: Format, c: Coordinator, ws: seq<Worker>, r: Result<Plan>)
    requires c.Valid() && c.localStart == 0 && Registry(ws, c.nLayers)
    requires Planned(f, c.Search(ws), c.localEnd + 1, c.nLayers, r) && r.Ok?
    ensures IsAccepted(f, c, r.value)
  {
    var p, next := c.Search(ws), c.localEnd + 1;
    var chain, es :| FirstChain(p, next, chain) && Lists(p.ws, chain, es, c.nLayers) && Serialised(f, es, r);
    ChainIsAccepted(f, c, ws, chain, es);
  }

  /** The hops of every plan are the workers of the first chain in route order, host, port and layers, and exactly the
      ones with an output head are asked for logits. */
  lemma PlanNamesWorkers(f: Format, c: Coordinator, ws: seq<Worker>, r: Result<Plan>) returns (chain: seq<nat>)
    requires c.Valid() && c.localStart == 0 && Registry(ws, c.nLayers)
    requires Planned(f, c.Search(ws), c.localEnd + 1, c.nLayers, r) && r.Ok?
    ensures FirstChain(c.Search(ws), c.localEnd + 1, chain) && |chain| == |r.value.entries|
    ensures forall k :: 0 <= k < |chain| ==>
              && chain[k] < |ws|
              && r.value.entries[k].host == ws[chain[k]].host && r.value.entries[k].port == ws[chain[k]].port
              && r.value.entries[k].layerStart == ws[chain[k]].layerStart
              && r.value.entries[k].layerEnd == ws[chain[k]].layerEnd
              && r.value.entries[k].flags == if ws[chain[k]].hasOutput then 1 else 0
  {
    var es;
    chain, es :| FirstChain(c.Search(ws), c.localEnd + 1, chain)
        && Lists(ws, chain, es, c.nLayers) && Serialised(f, es, r);
    assert forall k :: 0 <= k < |chain| ==> Names(es[k], ws[chain[k]]);
  }

  /** The planner with the format in use: its plans are accepted, or it makes none. */
  method BuildWirePlan(c: Coordinator, ws: seq<Worker>) returns (r: Result<Plan>)
    requires c.Valid() && Registry(ws, c.nLayers)
    ensures c.localStart != 0 ==> r == Err(NotFromLayerZero)
    ensures c.localStart == 0 && c.localEnd + 1 == c.nLayers && (c.localHasOutput || c.localCanOutputHead) ==>
              r == Ok(Plan([], []))
    ensures c.localStart == 0 && !c.Alone() && r.Ok? ==> IsAccepted(Wire(), c, r.value)
    ensures c.localStart == 0 && !c.Alone() ==> Planned(Wire(), c.Search(ws), c.localEnd + 1, c.nLayers, r)
  {
    WireIsSized();
    r := BuildRoutePlan(Wire(), c, ws);
    if c.localStart == 0 && !c.Alone() && r.Ok? { PlanIsAccepted(Wire(), c, ws, r); }
  }
}
