/** How a prompt span is cut into WORK frames: chunk boundaries, contiguous request ids and
    the chain of prefix hashes that ties consecutive frames together. */
module PrefillPlan {
  import opened TokenHash

  datatype Work = Work(requestId: nat, pos: nat, tokens: seq<Token>, prefixHash: U64, resultHash: U64,
                       reset: bool, ackOnly: bool)

  datatype Span = Span(prompt: seq<Token>, start: nat, n: nat, cap: nat, firstRequest: nat,
                       resetFirst: bool, ackEnabled: bool)
  {
    ghost predicate Valid() { 0 < n && 0 < cap && start + n <= |prompt| }

    function End(): nat { start + n }

    function Count(): nat
      requires 0 < cap
    {
      (n + cap - 1) / cap
    }

    /** Position where chunk i begins; the boundary after the last chunk is the span end. */
    function Bound(i: nat): nat { start + if i * cap < n then i * cap else n }

    function HashAt(i: nat): U64
      requires Valid()
    {
      Prefix(prompt[..Bound(i)])
    }

    function Frame(i: nat): Work
      requires Valid()
    {
      Work(firstRequest + i, Bound(i), prompt[Bound(i)..Bound(i + 1)], HashAt(i), HashAt(i + 1),
           resetFirst && i == 0, ackEnabled && Bound(i + 1) < End())
    }

    lemma BoundStep(i: nat)
      requires Valid()
      ensures Bound(i) <= Bound(i + 1) <= End()
      ensures Bound(i + 1) == Bound(i) + if End() - Bound(i) < cap then End() - Bound(i) else cap
      ensures i < Count() <==> Bound(i) < End()
    {
      assert (i + 1) * cap == i * cap + cap;
      DivisionBound(i, n, cap);
    }

    lemma FirstBound(i: nat)
      requires Valid()
      ensures Bound(i) == start <==> i == 0
    {
      assert i > 0 ==> i * cap >= cap;
    }

    lemma Ends()
      requires Valid()
      ensures Bound(0) == start && Bound(Count()) == End() && 0 < Count()
    {
      DivisionBound(0, n, cap);
      DivisionBound(Count(), n, cap);
    }

    /** A chunk holds as many tokens as the cap allows and is left of the span. Only the first frame resets, if a
        reset is asked for, and exactly the inner ones ask for a bare acknowledgement, if that is enabled. */
    lemma FrameIs(i: nat)
      requires Valid() && i < Count()
      ensures var w := Frame(i);
              && w.requestId == firstRequest + i && w.pos == start + i * cap
              && 0 < |w.tokens| <= cap && (i + 1 < Count() ==> |w.tokens| == cap)
              && w.pos + |w.tokens| <= |prompt| && w.tokens == prompt[w.pos..w.pos + |w.tokens|]
              && w.prefixHash == Prefix(prompt[..w.pos]) && w.resultHash == Prefix(prompt[..w.pos + |w.tokens|])
              && (w.reset <==> resetFirst && i == 0) && (w.ackOnly <==> ackEnabled && i + 1 < Count())
    {
      BoundStep(i);
      BoundStep(i + 1);
      DivisionBound(i, n, cap);
      DivisionBound(i + 1, n, cap);
      assert (i + 1) * cap == i * cap + cap;
    }

    /** The unsigned 32-bit arithmetic on positions never wraps: a prompt length is a signed int and only spans
        longer than the chunk cap are pipelined. */
    lemma NoWrap(k: nat)
      requires Valid() && |prompt| < 0x8000_0000 && cap < n && k <= Count()
      ensures n + cap - 1 < 0x1_0000_0000 && k * cap < 0x1_0000_0000
      ensures start + (if k * cap < n then k * cap else n) == Bound(k) < 0x8000_0000
    {
      if 0 < k {
        DivisionBound(k - 1, n, cap);
        assert k * cap == (k - 1) * cap + cap;
      }
    }

    /** Consecutive frames chain: each one ends on the hash the next one starts from. */
    lemma FrameChains(i: nat)
      requires Valid()
      ensures Frame(i).resultHash == UpdateSpan(Frame(i).prefixHash, Frame(i).tokens)
      ensures Frame(i + 1).prefixHash == Frame(i).resultHash
      ensures prompt[..Bound(i)] + Frame(i).tokens == prompt[..Bound(i + 1)]
    {
      BoundStep(i);
      assert prompt[..Bound(i)] + prompt[Bound(i)..Bound(i + 1)] == prompt[..Bound(i + 1)];
      PrefixExtends(prompt[..Bound(i)], prompt[Bound(i)..Bound(i + 1)]);
    }
  }

  /** The per-chunk hashes the result reader expects, computed once by walking the span. */
  method ExpectedHashes(span: Span) returns (hashes: seq<U64>)
    requires span.Valid()
    ensures |hashes| == span.Count() && forall i :: 0 <= i < |hashes| ==> hashes[i] == span.HashAt(i + 1)
  {
    var h := HashPrefix(span.prompt[..span.start]);
    span.Ends();
    var pos := span.start;
    hashes := [];
    for i := 0 to span.Count()
      invariant |hashes| == i && pos == span.Bound(i) && h == span.HashAt(i)
      invariant forall k :: 0 <= k < i ==> hashes[k] == span.HashAt(k + 1)
    {
      span.BoundStep(i);
      span.FrameChains(i);
      var remaining := span.End() - pos;
      var chunk := if remaining < span.cap then remaining else span.cap;
      h := HashSpan(h, span.prompt[pos..pos + chunk]);
      hashes := hashes + [h];
      pos := pos + chunk;
    }
  }

  lemma DivisionBound(i: nat, n: nat, cap: nat)
    requires 0 < cap
    ensures i < (n + cap - 1) / cap <==> i * cap < n
  {
    var q, r := (n + cap - 1) / cap, (n + cap - 1) % cap;
    assert n + cap - 1 == q * cap + r;
    if i < q {
      assert i * cap <= (q - 1) * cap;
    } else {
      assert i * cap >= q * cap;
    }
  }
}
