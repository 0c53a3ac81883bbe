/** No request is lost inside a worker, and none is answered that it was not given: in every reachable state,
    failures included, each request taken from the prefetch queue is in hand, waits in the pending queue, or has
    been answered upstream. */
module PrefillLedger {
  import opened Forwarder
  import opened PrefillPlan
  import opened PrefillPipeline
  import opened PrefillSafety
  import WS = WorkerSession

  predicate InHand(h: Hop, id: nat) { h.hand != Free && h.hand.w.requestId == id }

  predicate Accounted(h: Hop, id: nat) { id in h.answered || InHand(h, id) || Has(h.pending, id) }

  /** The books of one worker; up is what was sent to it. */
  ghost predicate BooksOk(h: Hop, up: set<nat>) {
    && h.answered <= h.taken <= up
    && (forall id :: id in h.taken ==> Accounted(h, id))
    && (h.hand != Free ==> h.hand.w.requestId in h.taken)
    && (h.hand.Tracked? ==> h.hand.w.requestId in h.answered || Has(h.pending, h.hand.w.requestId))
    && (forall p :: p in h.pending ==> p.id in h.taken)
    && (forall r :: r in h.replies ==> r.requestId in h.answered)
  }

  ghost predicate BooksAt(c: Config, hops: seq<Hop>, sent: nat, j: nat)
    requires j < |hops|
  {
    BooksOk(hops[j], Up(c, hops, sent, j))
  }

  ghost predicate AllBooksOk(c: Config, hops: seq<Hop>, sent: nat) {
    forall j :: 0 <= j < |hops| ==> BooksAt(c, hops, sent, j)
  }

  lemma ReplaceBooks(c: Config, hops: seq<Hop>, sent: nat, j: nat, h: Hop)
    requires AllBooksOk(c, hops, sent) && j < |hops| && hops[j].evaluated <= h.evaluated
    requires BooksOk(h, Up(c, hops, sent, j))
    ensures AllBooksOk(c, hops[j := h], sent)
  {
    var hops' := hops[j := h];
    forall i | 0 <= i < |hops'| ensures BooksAt(c, hops', sent, i) {
      if i != j { assert BooksAt(c, hops, sent, i); }
    }
  }

  lemma MoreSentBooks(c: Config, hops: seq<Hop>, sent: nat)
    requires AllBooksOk(c, hops, sent)
    ensures AllBooksOk(c, hops, sent + 1)
  {
    var more := sent + 1;
    forall i | 0 <= i < |hops| ensures BooksAt(c, hops, more, i) {
      assert BooksAt(c, hops, sent, i);
    }
  }

  // Queue facts -----------------------------------------------------------------------

  lemma HasMore(q: seq<Request>, p: Request, id: nat)
    ensures Has(q + [p], id) <==> Has(q, id) || p.id == id
  {
    if Has(q, id) {
      var k :| 0 <= k < |q| && q[k].id == id;
      assert (q + [p])[k].id == id;
    }
    if p.id == id { assert (q + [p])[|q|].id == id; }
  }

  lemma HasTail(q: seq<Request>, id: nat)
    requires q != []
    ensures Has(q, id) <==> q[0].id == id || Has(q[1..], id)
  {
    if Has(q[1..], id) {
      var k :| 0 <= k < |q[1..]| && q[1..][k].id == id;
      assert q[k + 1].id == id;
    }
    if Has(q, id) && q[0].id != id {
      var k :| 0 <= k < |q| && q[k].id == id;
      assert q[1..][k - 1].id == id;
    }
  }

  lemma {:induction false} HasWithout(q: seq<Request>, id: nat, other: nat)
    requires other != id
    ensures Has(Without(q, id), other) <==> Has(q, other)
  {
    if q != [] {
      HasTail(q, other);
      if q[0].id != id {
        HasWithout(q[1..], id, other);
        HasTail([q[0]] + Without(q[1..], id), other);
        assert ([q[0]] + Without(q[1..], id))[1..] == Without(q[1..], id);
      }
    }
  }

  // Every action keeps the books ------------------------------------------------------

  lemma ReplyKeepsBooks(h: Hop, h': Hop, r: Result, id: nat, up: set<nat>)
    requires BooksOk(h, up) && id in h.taken && r.requestId == id
    requires h'.taken == h.taken && h'.answered == h.answered && h'.replies == h.replies && h'.hand == Free
    requires h.hand != Free ==> h.hand.w.requestId == id
    requires forall p :: p in h'.pending ==> p in h.pending
    requires forall x :: Has(h.pending, x) ==> x == id || Has(h'.pending, x)
    ensures BooksOk(h'.Reply(r), up)
  {
    var after := h'.Reply(r);
    forall x | x in after.taken ensures Accounted(after, x) {
      assert Accounted(h, x);
    }
  }

  lemma WorkerKeepsBooks(c: Config, j: nat, h: Hop, a: Action, up: set<nat>, last: set<nat>)
    requires HopOk(c, j, h, up, last) && BooksOk(h, up) && WorkerEnabled(c, h, a)
    requires a.Receive? || a.PopJob? || a.Evaluate? || (a.TrackRequest? && a.j == j) || (a.ReplyUpstream? && a.j == j)
    ensures BooksOk(WorkerStep(c, j, h, a), up)
  {
    var h' := WorkerStep(c, j, h, a);
    if a.PopJob? {
      assert h.jobs[0] in h.jobs;
      forall x | x in h'.taken ensures Accounted(h', x) {
        assert x in h.taken ==> Accounted(h, x);
      }
    } else if a.Receive? {
      forall x | x in h'.taken ensures Accounted(h', x) {
        assert Accounted(h, x);
      }
    } else if a.Evaluate? {
      EvalKeepsBooks(h, WS.ProcessWork(c.limits, h.session, h.hand.w, a.e), up);
    } else if a.TrackRequest? && h.relaying {
      var p := Request(h.hand.w.requestId, j, 0);
      HasMore(h.pending, p, h.hand.w.requestId);
      forall x | x in h'.taken ensures Accounted(h', x) {
        assert Accounted(h, x);
        HasMore(h.pending, p, x);
      }
    } else {
      var r := if a.TrackRequest? then ErrorResult(h.hand.w.requestId)
               else Result(h.hand.w.requestId, h.hand.w.resultHash, true, KindFor(c, h.hand.w), [j]);
      var relayed := if a.TrackRequest? then h.relayed else h.relayed + 1;
      ReplyKeepsBooks(h, h.(hand := Free, relayed := relayed), r, h.hand.w.requestId, up);
    }
  }

  lemma EvalKeepsBooks(h: Hop, r: (WS.State, WS.Reply), up: set<nat>)
    requires BooksOk(h, up) && h.hand.Popped?
    ensures BooksOk(AfterEval(h, r), up)
  {
    var w := h.hand.w;
    if r.1 == WS.Evaluated {
      forall x | x in h.taken ensures Accounted(AfterEval(h, r), x) {
        assert Accounted(h, x);
      }
    } else {
      ReplyKeepsBooks(h, h.(session := r.0, hand := Free), ErrorResult(w.requestId), w.requestId, up);
    }
  }

  lemma RelayKeepsBooks(h: Hop, r: Result, up: set<nat>)
    requires BooksOk(h, up)
    ensures BooksOk(RelayStep(h, r), up)
  {
    var h' := RelayStep(h, r);
    if h.pending != [] {
      assert h.pending[0] in h.pending;
      forall x | x in h'.taken ensures Accounted(h', x) {
        assert Accounted(h, x);
        HasTail(h.pending, x);
      }
      if h.hand.Tracked? { HasTail(h.pending, h.hand.w.requestId); }
    } else {
      forall x | x in h'.taken ensures Accounted(h', x) {
        assert Accounted(h, x);
      }
    }
  }

  lemma ForwardKeepsBooks(h: Hop, up: set<nat>)
    requires BooksOk(h, up) && h.hand.Tracked?
    ensures BooksOk(h.(hand := Free), up)
    ensures var id := h.hand.w.requestId;
            BooksOk(h.(hand := Free, pending := Without(h.pending, id)).Reply(ErrorResult(id)), up)
  {
    var id := h.hand.w.requestId;
    forall x | x in h.taken ensures Accounted(h.(hand := Free), x) {
      assert Accounted(h, x);
    }
    forall x | Has(h.pending, x) && x != id ensures Has(Without(h.pending, id), x) {
      HasWithout(h.pending, id, x);
    }
    ReplyKeepsBooks(h, h.(hand := Free, pending := Without(h.pending, id)), ErrorResult(id), id, up);
  }

  lemma TakeKeepsBooks(h: Hop, up: set<nat>)
    requires BooksOk(h, up) && h.replies != []
    ensures BooksOk(h.(replies := h.replies[1..]), up)
  {
    var h' := h.(replies := h.replies[1..]);
    forall x | x in h'.taken ensures Accounted(h', x) {
      assert Accounted(h, x);
    }
  }

  lemma ArriveKeepsBooks(h: Hop, w: Work, up: set<nat>)
    requires BooksOk(h, up)
    ensures BooksOk(h.(inbox := h.inbox + [w]), up)
  {
    var h' := h.(inbox := h.inbox + [w]);
    forall x | x in h'.taken ensures Accounted(h', x) {
      assert Accounted(h, x);
    }
  }

  lemma HopKeepsBooks(c: Config, s: State, a: Action)
    requires Inv(c, s) && AllBooksOk(c, s.hops, s.feed.sent) && Enabled(c, s, a) && OnWorker(a)
    ensures AllBooksOk(c, Apply(c, s, a).hops, s.feed.sent)
  {
    var j := a.j;
    assert BooksAt(c, s.hops, s.feed.sent, j) && HopAt(c, s.hops, s.feed.sent, j);
    WorkerKeepsInv(c, s, j, a);
    WorkerKeepsBooks(c, j, s.hops[j], a, Up(c, s.hops, s.feed.sent, j), Last(s.hops));
    ReplaceBooks(c, s.hops, s.feed.sent, j, WorkerStep(c, j, s.hops[j], a));
  }

  lemma RelayActionKeepsBooks(c: Config, s: State, j: nat)
    requires Inv(c, s) && AllBooksOk(c, s.hops, s.feed.sent) && Enabled(c, s, Relay(j))
    ensures AllBooksOk(c, DoRelay(s, j).hops, s.feed.sent)
  {
    var down := s.hops[j + 1];
    assert BooksAt(c, s.hops, s.feed.sent, j) && BooksAt(c, s.hops, s.feed.sent, j + 1);
    RelayKeepsBooks(s.hops[j], down.replies[0], Up(c, s.hops, s.feed.sent, j));
    TakeKeepsBooks(down, Up(c, s.hops, s.feed.sent, j + 1));
    var hops1 := s.hops[j := RelayStep(s.hops[j], down.replies[0])];
    ReplaceBooks(c, s.hops, s.feed.sent, j, hops1[j]);
    ReplaceBooks(c, hops1, s.feed.sent, j + 1, down.(replies := down.replies[1..]));
  }

  lemma ForwardActionKeepsBooks(c: Config, s: State, j: nat, forwardOk: bool)
    requires Inv(c, s) && AllBooksOk(c, s.hops, s.feed.sent) && Enabled(c, s, ForwardFrame(j, forwardOk))
    ensures AllBooksOk(c, DoForward(s, j, forwardOk).hops, s.feed.sent)
  {
    var h := s.hops[j];
    assert BooksAt(c, s.hops, s.feed.sent, j) && BooksAt(c, s.hops, s.feed.sent, j + 1);
    ForwardKeepsBooks(h, Up(c, s.hops, s.feed.sent, j));
    ReplaceBooks(c, s.hops, s.feed.sent, j, DoForward(s, j, forwardOk).hops[j]);
    if forwardOk {
      ArriveKeepsBooks(s.hops[j + 1], h.hand.w, Up(c, s.hops, s.feed.sent, j + 1));
      var hops1 := s.hops[j := h.(hand := Free)];
      ReplaceBooks(c, hops1, s.feed.sent, j + 1, s.hops[j + 1].(inbox := s.hops[j + 1].inbox + [h.hand.w]));
    }
  }

  lemma SendKeepsBooks(c: Config, s: State, a: Action)
    requires Inv(c, s) && AllBooksOk(c, s.hops, s.feed.sent) && Enabled(c, s, a) && OnFeed(a)
    ensures AllBooksOk(c, Apply(c, s, a).hops, Apply(c, s, a).feed.sent)
  {
    if a.SendFrame? && a.sendOk {
      var w := s.feed.ring.slots[s.feed.sender.slot].value;
      MoreSentBooks(c, s.hops, s.feed.sent);
      assert BooksAt(c, s.hops, s.feed.sent + 1, 0);
      ArriveKeepsBooks(s.hops[0], w, Up(c, s.hops, s.feed.sent + 1, 0));
      ReplaceBooks(c, s.hops, s.feed.sent + 1, 0, s.hops[0].(inbox := s.hops[0].inbox + [w]));
    }
  }

  lemma StepKeepsBooks(c: Config, s: State, a: Action)
    requires Inv(c, s) && AllBooksOk(c, s.hops, s.feed.sent) && Enabled(c, s, a)
    ensures AllBooksOk(c, Apply(c, s, a).hops, Apply(c, s, a).feed.sent)
  {
    if OnFeed(a) {
      SendKeepsBooks(c, s, a);
    } else if OnWorker(a) {
      HopKeepsBooks(c, s, a);
    } else if a.Relay? {
      RelayActionKeepsBooks(c, s, a.j);
    } else if a.ForwardFrame? {
      ForwardActionKeepsBooks(c, s, a.j, a.forwardOk);
    } else if a.ReadResult? {
      assert BooksAt(c, s.hops, s.feed.sent, 0);
      TakeKeepsBooks(s.hops[0], Up(c, s.hops, s.feed.sent, 0));
      ReplaceBooks(c, s.hops, s.feed.sent, 0, s.hops[0].(replies := s.hops[0].replies[1..]));
    }
  }

  lemma {:induction false} RunKeepsBooks(c: Config, sessions: seq<WS.State>, states: seq<State>, actions: seq<Action>,
        n: nat)
    requires c.Valid() && c.Planned() && IsRun(c, sessions, states, actions) && n < |states|
    ensures AllBooksOk(c, states[n].hops, states[n].feed.sent)
  {
    if n == 0 {
      forall j | 0 <= j < |sessions| ensures BooksAt(c, states[0].hops, states[0].feed.sent, j) {}
    } else {
      RunKeepsBooks(c, sessions, states, actions, n - 1);
      RunKeepsInv(c, sessions, states, actions, n - 1);
      assert IsStep(c, states[n - 1], actions[n - 1], states[n]);
      StepKeepsBooks(c, states[n - 1], actions[n - 1]);
    }
  }

  /** In every state of every interleaving: a request a worker took from its prefetch queue is being worked on, waits
      for its reply from downstream, or was answered upstream; and only requests that were taken are answered. */
  lemma NoRequestIsLost(c: Config, sessions: seq<WS.State>, states: seq<State>, actions: seq<Action>, n: nat, j: nat)
    requires c.Valid() && c.Planned() && IsRun(c, sessions, states, actions) && n < |states| && j < c.hops
    ensures |states[n].hops| == c.hops
    ensures var h := states[n].hops[j];
            && (forall id :: id in h.taken ==>
                  || id in h.answered
                  || (h.hand != Free && h.hand.w.requestId == id)
                  || (exists k :: 0 <= k < |h.pending| && h.pending[k].id == id))
            && h.answered <= h.taken && forall r :: r in h.replies ==> r.requestId in h.answered
  {
    RunKeepsBooks(c, sessions, states, actions, n);
    RunKeepsInv(c, sessions, states, actions, n);
    var h := states[n].hops[j];
    assert BooksAt(c, states[n].hops, states[n].feed.sent, j);
    assert forall id :: id in h.taken ==> Accounted(h, id);
  }
}
