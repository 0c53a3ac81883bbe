/** Layer ranges of a distributed route: the coordinator's own slice followed by the workers'. */
module LayerRoute {

  datatype Slice = Slice(lo: nat, hi: nat)
  {
    /** The first layer after the slice. */
    function End(): nat { hi + 1 }
  }

  /** The slices start at layer 0, each begins where the previous one ended, and the last ends at the last layer. */
  ghost predicate Covers(route: seq<Slice>, nLayers: nat) {
    && route != [] && route[0].lo == 0 && route[|route| - 1].hi + 1 == nLayers
    && (forall k :: 0 <= k < |route| ==> route[k].lo <= route[k].hi < nLayers)
    && (forall k :: 0 < k < |route| ==> Joins(route, k))
  }

  ghost predicate Joins(route: seq<Slice>, k: nat)
    requires 0 < k < |route|
  {
    route[k].lo == route[k - 1].hi + 1
  }

  /** The check made before a snapshot is saved or loaded. */
  method KvRouteValidate(nLayers: nat, local: Slice, hops: seq<Slice>) returns (ok: bool)
    ensures ok <==> Covers([local] + hops, nLayers)
  {
    if nLayers == 0 || local.lo != 0 || local.hi >= nLayers { return false; }
    var prev := local.hi;
    ghost var route := [local] + hops;
    for i := 0 to |hops|
      invariant prev == route[i].hi
      invariant forall k :: 0 <= k <= i ==> route[k].lo <= route[k].hi < nLayers
      invariant forall k :: 0 < k <= i ==> Joins(route, k)
    {
      assert route[i + 1] == hops[i] && (Covers(route, nLayers) ==> Joins(route, i + 1));
      if hops[i].lo != prev + 1 || hops[i].hi < hops[i].lo || hops[i].hi >= nLayers { return false; }
      prev := hops[i].hi;
    }
    ok := prev + 1 == nLayers;
  }
}
