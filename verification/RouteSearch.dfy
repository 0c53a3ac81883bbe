/** Route planning: the backtracking search over the registry of workers, sorted in route order. */
module RouteSearch {
  import opened Bytes

  datatype Worker = Worker(layerStart: nat, layerEnd: nat, hasOutput: bool, hasHidden: bool, host: seq<Byte>, port: nat)

  /** What the HELLO checks leave a registered worker. */
  predicate Registered(w: Worker, nLayers: nat) {
    && w.layerStart <= w.layerEnd < nLayers
    && (w.hasOutput ==> w.layerEnd + 1 == nLayers)
    && 0 < w.port <= 65535
  }

  /** Route order: earlier start first, then output heads, then the longer slice. */
  function RouteCmp(a: Worker, b: Worker): int {
    if a.layerStart < b.layerStart then -1
    else if a.layerStart > b.layerStart then 1
    else if a.hasOutput != b.hasOutput then (if a.hasOutput then -1 else 1)
    else if a.layerEnd > b.layerEnd then -1
    else if a.layerEnd < b.layerEnd then 1
    else 0
  }

  predicate Sorted(ws: seq<Worker>) {
    forall i, k :: 0 <= i < k < |ws| ==> RouteCmp(ws[i], ws[k]) <= 0
  }

  /** The comparison is a total preorder: earlier start, then output heads, then the longer slice; workers that are
      alike in all three are equal. */
  lemma OrderIs(a: Worker, b: Worker)
    ensures RouteCmp(a, b) == -RouteCmp(b, a) && -1 <= RouteCmp(a, b) <= 1
    ensures RouteCmp(a, b) < 0 <==>
              || a.layerStart < b.layerStart
              || (a.layerStart == b.layerStart && a.hasOutput && !b.hasOutput)
              || (a.layerStart == b.layerStart && a.hasOutput == b.hasOutput && a.layerEnd > b.layerEnd)
    ensures RouteCmp(a, b) == 0 <==>
              a.layerStart == b.layerStart && a.hasOutput == b.hasOutput && a.layerEnd == b.layerEnd
  {}

  /** Any registry can be put in route order. */
  lemma {:induction false} SortedExists(ws: seq<Worker>) returns (s: seq<Worker>)
    ensures Sorted(s) && multiset(s) == multiset(ws)
    decreases |ws|
  {
    if ws == [] { return []; }
    var rest := SortedExists(ws[1..]);
    var i := PlaceFor(rest, ws[0], |rest|);
    s := rest[..i] + [ws[0]] + rest[i..];
    InsertedSorted(rest, ws[0], i, s);
    assert ws == [ws[0]] + ws[1..] && rest == rest[..i] + rest[i..];
  }

  lemma InsertedSorted(s: seq<Worker>, w: Worker, i: nat, r: seq<Worker>)
    requires Sorted(s) && i <= |s| && r == s[..i] + [w] + s[i..]
    requires (forall k :: 0 <= k < i ==> RouteCmp(s[k], w) <= 0) && forall k :: i <= k < |s| ==> RouteCmp(w, s[k]) <= 0
    ensures Sorted(r)
  {
    forall a, b | 0 <= a < b < |r| ensures RouteCmp(r[a], r[b]) <= 0 {
      assert r[a] == if a < i then s[a] else if a == i then w else s[a - 1];
      assert r[b] == if b < i then s[b] else if b == i then w else s[b - 1];
    }
  }

  /** Where w goes among the first n. */
  lemma {:induction false} PlaceFor(s: seq<Worker>, w: Worker, n: nat) returns (i: nat)
    requires Sorted(s) && n <= |s| && forall k :: n <= k < |s| ==> RouteCmp(w, s[k]) <= 0
    ensures i <= |s| && (forall k :: 0 <= k < i ==> RouteCmp(s[k], w) <= 0)
    ensures forall k :: i <= k < |s| ==> RouteCmp(w, s[k]) <= 0
    decreases n
  {
    if n == 0 || RouteCmp(s[n - 1], w) <= 0 { return n; }
    i := PlaceFor(s, w, n - 1);
  }

  /** Can this worker take part in a route to the last layer? */
  predicate CandidateOk(localHead: bool, w: Worker, last: nat) {
    var needsHidden := w.layerEnd < last || !w.hasOutput;
    !(needsHidden && !w.hasHidden) && !(w.layerEnd >= last && !w.hasOutput && !localHead)
  }

  datatype Problem = Problem(ws: seq<Worker>, localHead: bool, last: nat)
  {
    ghost predicate Valid() {
      Sorted(ws) && forall i :: 0 <= i < |ws| ==> Registered(ws[i], last + 1)
    }

    predicate Fits(i: nat, next: nat)
      requires i < |ws|
    {
      ws[i].layerStart == next && CandidateOk(localHead, ws[i], last)
    }
  }

  /** c lists the indices of acceptable workers that take over layer next, each where the previous
      one ended, until one reaches the last layer. */
  ghost predicate IsChain(p: Problem, next: nat, c: seq<nat>)
    decreases |c|
  {
    && c != [] && c[0] < |p.ws| && p.Fits(c[0], next)
    && if p.ws[c[0]].layerEnd >= p.last then |c| == 1 else IsChain(p, p.ws[c[0]].layerEnd + 1, c[1..])
  }

  ghost predicate NoChain(p: Problem, next: nat) { forall c: seq<nat> :: !IsChain(p, next, c) }

  /** Index order on chains, which on the sorted registry is route order. */
  predicate Before(a: seq<nat>, b: seq<nat>)
  {
    if a == [] then true
    else if b == [] then false
    else a[0] < b[0] || (a[0] == b[0] && Before(a[1..], b[1..]))
  }

  /** Acceptable workers lead from next to layer f without reaching the last layer. */
  ghost predicate Leads(p: Problem, next: nat, f: nat, via: seq<nat>)
    decreases |via|
  {
    if via == [] then f == next
    else && via[0] < |p.ws| && p.Fits(via[0], next) && p.ws[via[0]].layerEnd < p.last
         && Leads(p, p.ws[via[0]].layerEnd + 1, f, via[1..])
  }

  ghost predicate Reaches(p: Problem, next: nat, f: nat) { exists via: seq<nat> :: Leads(p, next, f, via) }

  /** f is the furthest layer that acceptable workers reach from next. */
  ghost predicate Furthest(p: Problem, next: nat, f: nat) {
    Reaches(p, next, f) && forall g: nat :: Reaches(p, next, g) ==> g <= f
  }

  /** No chain and no frontier beyond the bound starts with a worker below index i. */
  ghost predicate Explored(p: Problem, next: nat, i: nat, bound: nat) {
    && (forall c: seq<nat> :: IsChain(p, next, c) ==> c[0] >= i)
    && (forall f: nat, via: seq<nat> :: Leads(p, next, f, via) && via != [] && via[0] < i ==> f <= bound)
  }

  lemma ExtendReach(p: Problem, next: nat, i: nat, f: nat)
    requires i < |p.ws| && p.Fits(i, next) && p.ws[i].layerEnd < p.last && Reaches(p, p.ws[i].layerEnd + 1, f)
    ensures Reaches(p, next, f)
  {
    var via :| Leads(p, p.ws[i].layerEnd + 1, f, via);
    assert ([i] + via)[1..] == via;
    assert Leads(p, next, f, [i] + via);
  }

  lemma SkipIndex(p: Problem, next: nat, i: nat, bound: nat)
    requires i < |p.ws| && Explored(p, next, i, bound) && !p.Fits(i, next)
    ensures Explored(p, next, i + 1, bound)
  {}

  lemma ExploredChild(p: Problem, next: nat, i: nat, bound: nat, child: nat)
    requires i < |p.ws| && Explored(p, next, i, bound) && p.Fits(i, next) && p.ws[i].layerEnd < p.last
    requires NoChain(p, p.ws[i].layerEnd + 1) && Furthest(p, p.ws[i].layerEnd + 1, child)
    ensures Explored(p, next, i + 1, if child > bound then child else bound)
  {
    var next' := p.ws[i].layerEnd + 1;
    forall c: seq<nat> | IsChain(p, next, c) ensures c[0] >= i + 1 {
      assert !IsChain(p, next', c[1..]);
    }
    forall f: nat, via: seq<nat> | Leads(p, next, f, via) && via != [] && via[0] < i + 1
      ensures f <= if child > bound then child else bound
    {
      if via[0] == i {
        assert Leads(p, next', f, via[1..]);
        assert Reaches(p, next', f);
      }
    }
  }

  lemma ChainsStartSorted(p: Problem, next: nat, i: nat, bound: nat)
    requires p.Valid() && Explored(p, next, i, bound) && i <= |p.ws|
    requires i < |p.ws| ==> p.ws[i].layerStart > next
    ensures Explored(p, next, |p.ws|, bound)
  {
    forall k | i <= k < |p.ws| ensures !p.Fits(k, next) {
      assert i < k ==> RouteCmp(p.ws[i], p.ws[k]) <= 0;
    }
  }

  /** missing raised to the furthest layer reached from next. */
  ghost predicate Raised(p: Problem, next: nat, missing: nat, m: nat) {
    missing <= m && exists f: nat :: Furthest(p, next, f) && m == if f > missing then f else missing
  }

  lemma RaisedFromStart(p: Problem, next: nat, m: nat)
    requires Raised(p, next, next, m)
    ensures Furthest(p, next, m)
  {
    assert Leads(p, next, next, []);
    assert Reaches(p, next, next);
  }

  /** There is room for one more entry below every worker that starts at or after next. */
  ghost predicate RoomFor(p: Problem, next: nat, len: nat) {
    forall i :: 0 <= i < |p.ws| && p.ws[i].layerStart >= next ==> len <= i
  }

  /** The search. It writes the chain it finds after the first pathLen entries of path; missing is
      raised to the furthest layer it reached when there is no chain. */
  method SearchWorkers(p: Problem, next: nat, path: array<nat>, pathLen: nat, missing: nat)
      returns (found: bool, newLen: nat, newMissing: nat)
    requires p.Valid() && pathLen <= path.Length && |p.ws| <= path.Length && RoomFor(p, next, pathLen)
    modifies path
    ensures path[..pathLen] == old(path[..pathLen])
    ensures found <==> !NoChain(p, next)
    ensures found ==> pathLen < newLen <= path.Length && IsChain(p, next, path[pathLen..newLen])
    ensures found ==> forall c: seq<nat> :: IsChain(p, next, c) ==> Before(path[pathLen..newLen], c)
    ensures !found ==> newLen == pathLen
    ensures !found && next <= missing ==> Raised(p, next, missing, newMissing)
    decreases if next <= p.last then p.last - next + 1 else 0, 1
  {
    var len, sawStart := pathLen, false;
    var miss: nat := missing;
    ghost var far: nat := next;
    assert Leads(p, next, next, []);
    var i := 0;
    while i < |p.ws|
      invariant 0 <= i <= |p.ws| && len == pathLen
      invariant path[..pathLen] == old(path[..pathLen])
      invariant Explored(p, next, i, far) && Reaches(p, next, far) && next <= far
      invariant next <= missing ==> miss == if far > missing then far else missing
    {
      var w := p.ws[i];
      if w.layerStart > next { break; }
      if !p.Fits(i, next) { SkipIndex(p, next, i, far); }
      if w.layerStart == next {
        sawStart := true;
        if CandidateOk(p.localHead, w, p.last) {
          var ok, childLen, childMissing := TryWorker(p, next, i, path, len);
          if ok {
            assert path[..len] == old(path[..pathLen]);
            FirstFound(p, next, i, far, path[len..childLen]);
            return true, childLen, miss;
          }
          ExploredChild(p, next, i, far, childMissing);
          ExtendReach(p, next, i, childMissing);
          if childMissing > far { far := childMissing; }
          if childMissing > miss { miss := childMissing; }
        }
      }
      i := i + 1;
    }
    if i < |p.ws| { ChainsStartSorted(p, next, i, far); }
    FarIsFurthest(p, next, far);
    if !sawStart && next > miss { miss := next; }
    return false, len, miss;
  }

  /** One candidate: it is put on the path and, unless it reaches the last layer, the search goes on from its end. */
  method TryWorker(p: Problem, next: nat, i: nat, path: array<nat>, pathLen: nat)
      returns (found: bool, newLen: nat, childMissing: nat)
    requires p.Valid() && pathLen <= path.Length && |p.ws| <= path.Length && RoomFor(p, next, pathLen)
    requires i < |p.ws| && p.Fits(i, next)
    modifies path
    ensures path[..pathLen] == old(path[..pathLen])
    ensures found ==> pathLen < newLen <= path.Length && path[pathLen] == i && IsChain(p, next, path[pathLen..newLen])
    ensures found ==> forall c: seq<nat> :: IsChain(p, next, c) && c[0] == i ==> Before(path[pathLen..newLen], c)
    ensures !found ==>
              && p.ws[i].layerEnd < p.last && NoChain(p, p.ws[i].layerEnd + 1)
              && Furthest(p, p.ws[i].layerEnd + 1, childMissing)
    decreases if next <= p.last then p.last - next + 1 else 0, 0
  {
    var w := p.ws[i];
    path[pathLen] := i;
    var len := pathLen + 1;
    ghost var before := path[..len];
    assert before == old(path[..pathLen]) + [i];
    if w.layerEnd >= p.last {
      assert path[pathLen..len] == [i];
      return true, len, 0;
    }
    forall k | 0 <= k < |p.ws| && p.ws[k].layerStart >= w.layerEnd + 1 ensures len <= k {
      assert k < i ==> RouteCmp(p.ws[k], p.ws[i]) <= 0;
    }
    found, newLen, childMissing := SearchWorkers(p, w.layerEnd + 1, path, len, w.layerEnd + 1);
    assert path[..pathLen] == before[..pathLen];
    assert path[pathLen] == before[pathLen];
    if found {
      PathHead(path, pathLen, newLen);
      ChainFound(p, next, i, path[len..newLen]);
    } else {
      RaisedFromStart(p, w.layerEnd + 1, childMissing);
    }
  }

  lemma PathHead(path: array<nat>, a: nat, b: nat)
    requires a < b <= path.Length
    ensures path[a..b] == [path[a]] + path[a + 1..b]
  {}

  lemma FirstFound(p: Problem, next: nat, i: nat, bound: nat, chain: seq<nat>)
    requires Explored(p, next, i, bound) && IsChain(p, next, chain) && chain[0] == i
    requires forall c: seq<nat> :: IsChain(p, next, c) && c[0] == i ==> Before(chain, c)
    ensures !NoChain(p, next) && forall c: seq<nat> :: IsChain(p, next, c) ==> Before(chain, c)
  {
    forall c: seq<nat> | IsChain(p, next, c) ensures Before(chain, c) {
      assert c[0] >= i;
    }
  }

  lemma ChainFound(p: Problem, next: nat, i: nat, rest: seq<nat>)
    requires i < |p.ws| && p.Fits(i, next) && p.ws[i].layerEnd < p.last
    requires IsChain(p, p.ws[i].layerEnd + 1, rest)
    requires forall c: seq<nat> :: IsChain(p, p.ws[i].layerEnd + 1, c) ==> Before(rest, c)
    ensures IsChain(p, next, [i] + rest)
    ensures forall c: seq<nat> :: IsChain(p, next, c) && c[0] == i ==> Before([i] + rest, c)
  {
    assert ([i] + rest)[1..] == rest;
  }

  lemma FarIsFurthest(p: Problem, next: nat, far: nat)
    requires Explored(p, next, |p.ws|, far) && Reaches(p, next, far) && next <= far
    ensures Furthest(p, next, far) && NoChain(p, next)
  {
    forall g: nat | Reaches(p, next, g) ensures g <= far {
      var via :| Leads(p, next, g, via);
    }
  }

  /** Where two chains first differ, the earlier one holds the worker that route order puts first. */
  lemma {:induction false} BeforeIsRouteOrder(p: Problem, a: seq<nat>, b: seq<nat>, k: nat)
    requires p.Valid() && Before(a, b) && k < |a| && k < |b| && a[..k] == b[..k] && a[k] != b[k]
    requires b[k] < |p.ws|
    ensures a[k] < b[k] && RouteCmp(p.ws[a[k]], p.ws[b[k]]) <= 0
  {
    if k > 0 {
      assert a[0] == a[..k][0] == b[..k][0] == b[0];
      assert a[1..][..k - 1] == a[..k][1..] == b[..k][1..] == b[1..][..k - 1];
      BeforeIsRouteOrder(p, a[1..], b[1..], k - 1);
    }
  }

  /** A chain is a contiguous route: each worker starts where the previous one ended, only the last
      one reaches the last layer, and only that one can carry the output head. */
  lemma {:induction false} ChainIsContiguous(p: Problem, next: nat, c: seq<nat>)
    requires p.Valid() && IsChain(p, next, c)
    ensures forall k :: 0 <= k < |c| ==> c[k] < |p.ws| && CandidateOk(p.localHead, p.ws[c[k]], p.last)
    ensures p.ws[c[0]].layerStart == next && p.ws[c[|c| - 1]].layerEnd == p.last
    ensures forall k :: 0 < k < |c| ==> p.ws[c[k]].layerStart == p.ws[c[k - 1]].layerEnd + 1
    ensures forall k :: 0 <= k < |c| - 1 ==> p.ws[c[k]].layerEnd < p.last && !p.ws[c[k]].hasOutput
    decreases |c|
  {
    if p.ws[c[0]].layerEnd < p.last {
      var d := c[1..];
      ChainIsContiguous(p, p.ws[c[0]].layerEnd + 1, d);
      assert forall k :: 0 < k < |c| ==> c[k] == d[k - 1];
    }
  }

  /** Place k of a route: every worker but the last hands its hidden state on, and the last one, at the last layer,
      has the output head or hands its hidden state to a coordinator that can run the head. */
  ghost predicate Serves(p: Problem, c: seq<nat>, k: nat)
    requires k < |c| && c[k] < |p.ws|
  {
    var w := p.ws[c[k]];
    if k + 1 < |c| then w.layerEnd < p.last && w.hasHidden
    else w.layerEnd == p.last && (w.hasOutput || (w.hasHidden && p.localHead))
  }

  /** Worker k takes over where the one before it ended, the first one at next. */
  ghost predicate TakesOver(p: Problem, next: nat, c: seq<nat>, k: nat)
    requires k < |c| && forall i :: 0 <= i < |c| ==> c[i] < |p.ws|
  {
    p.ws[c[k]].layerStart == if k == 0 then next else p.ws[c[k - 1]].layerEnd + 1
  }

  /** A route through the registry, said place by place. */
  ghost predicate IsRoute(p: Problem, next: nat, c: seq<nat>) {
    && c != [] && (forall k :: 0 <= k < |c| ==> c[k] < |p.ws|)
    && forall k :: 0 <= k < |c| ==> TakesOver(p, next, c, k) && Serves(p, c, k)
  }

  lemma RouteTail(p: Problem, next: nat, c: seq<nat>)
    requires c != [] && (forall k :: 0 <= k < |c| ==> c[k] < |p.ws|) && |c| > 1
    ensures IsRoute(p, next, c) <==>
              TakesOver(p, next, c, 0) && Serves(p, c, 0) && IsRoute(p, p.ws[c[0]].layerEnd + 1, c[1..])
  {
    var d, next' := c[1..], p.ws[c[0]].layerEnd + 1;
    assert forall k :: 0 <= k < |d| ==> d[k] == c[k + 1];
    if IsRoute(p, next, c) {
      forall k | 0 <= k < |d| ensures TakesOver(p, next', d, k) && Serves(p, d, k) {
        assert TakesOver(p, next, c, k + 1) && Serves(p, c, k + 1);
      }
    }
    if TakesOver(p, next, c, 0) && Serves(p, c, 0) && IsRoute(p, next', d) {
      forall k | 0 <= k < |c| ensures TakesOver(p, next, c, k) && Serves(p, c, k) {
        if k > 0 { assert TakesOver(p, next', d, k - 1) && Serves(p, d, k - 1); }
      }
    }
  }

  /** The chains the search looks for are exactly these routes. */
  lemma {:induction false} ChainIsRoute(p: Problem, next: nat, c: seq<nat>)
    requires p.Valid()
    ensures IsChain(p, next, c) <==> IsRoute(p, next, c)
    decreases |c|
  {
    if |c| == 1 && c[0] < |p.ws| {
      assert Registered(p.ws[c[0]], p.last + 1);
      assert IsRoute(p, next, c) <==> TakesOver(p, next, c, 0) && Serves(p, c, 0);
    } else if |c| > 1 && c[0] < |p.ws| {
      var next' := p.ws[c[0]].layerEnd + 1;
      ChainIsRoute(p, next', c[1..]);
      if forall k :: 0 <= k < |c| ==> c[k] < |p.ws| {
        RouteTail(p, next, c);
      } else {
        assert !IsRoute(p, next', c[1..]) by {
          var k :| 0 <= k < |c| && c[k] >= |p.ws|;
          assert c[1..][k - 1] == c[k];
        }
      }
    }
  }

  lemma FirstTail(p: Problem, next: nat, c: seq<nat>)
    requires IsChain(p, next, c) && |c| > 1 && forall d: seq<nat> :: IsChain(p, next, d) ==> Before(c, d)
    ensures var next' := p.ws[c[0]].layerEnd + 1;
            IsChain(p, next', c[1..]) && forall d: seq<nat> :: IsChain(p, next', d) ==> Before(c[1..], d)
  {
    var next' := p.ws[c[0]].layerEnd + 1;
    forall d: seq<nat> | IsChain(p, next', d) ensures Before(c[1..], d) {
      assert ([c[0]] + d)[1..] == d;
      assert IsChain(p, next, [c[0]] + d);
    }
  }

  /** At every place of the first chain no other worker from which a route leads on is preferable: none with an
      output head when the chosen one has none, and none with a longer slice when they are alike in that. */
  lemma {:induction false} FirstChainPrefers(p: Problem, next: nat, c: seq<nat>, k: nat, e: seq<nat>)
    requires p.Valid() && IsChain(p, next, c) && k < |c| && c[k] < |p.ws|
    requires forall d: seq<nat> :: IsChain(p, next, d) ==> Before(c, d)
    requires IsChain(p, p.ws[c[k]].layerStart, e)
    ensures var chosen, other := p.ws[c[k]], p.ws[e[0]];
            && (other.hasOutput ==> chosen.hasOutput)
            && (other.hasOutput == chosen.hasOutput ==> other.layerEnd <= chosen.layerEnd)
    decreases k
  {
    if k == 0 {
      assert Before(c, e);
      assert c[0] < e[0] ==> RouteCmp(p.ws[c[0]], p.ws[e[0]]) <= 0;
    } else {
      FirstTail(p, next, c);
      FirstChainPrefers(p, p.ws[c[0]].layerEnd + 1, c[1..], k - 1, e);
    }
  }

  /** Workers that lead on without reaching the last layer hand their hidden state on, one after the other. */
  lemma {:induction false} LeadsMeans(p: Problem, next: nat, f: nat, via: seq<nat>)
    requires p.Valid() && Leads(p, next, f, via)
    ensures forall k :: 0 <= k < |via| ==> via[k] < |p.ws| && p.ws[via[k]].hasHidden && p.ws[via[k]].layerEnd < p.last
    ensures via == [] ==> f == next
    ensures via != [] ==> p.ws[via[0]].layerStart == next && f == p.ws[via[|via| - 1]].layerEnd + 1
    ensures forall k :: 0 < k < |via| ==> p.ws[via[k]].layerStart == p.ws[via[k - 1]].layerEnd + 1
    decreases |via|
  {
    if via != [] {
      var rest := via[1..];
      LeadsMeans(p, p.ws[via[0]].layerEnd + 1, f, rest);
      assert forall k :: 0 < k < |via| ==> via[k] == rest[k - 1];
    }
  }
}
