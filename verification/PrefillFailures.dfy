/** What failures do to a run: a worker's session goes through exactly the frames its worker evaluated, a stopped
    feed sends nothing more, and a closed relay stays closed. */
module PrefillFailures {
  import opened Forwarder
  import opened PrefillPipeline
  import opened PrefillPlan
  import opened PrefillSafety
  import opened SenderRing
  import WS = WorkerSession

  // Sessions --------------------------------------------------------------------------

  /** The engine calls on worker j's session in the first n steps, with the frame each one was given. */
  function EventsOf(states: seq<State>, actions: seq<Action>, j: nat, n: nat): seq<WS.Event>
    requires n <= |actions| < |states|
  {
    if n == 0 then []
    else EventsOf(states, actions, j, n - 1) + EventAt(states[n - 1], actions[n - 1], j)
  }

  function EventAt(s: State, a: Action, j: nat): seq<WS.Event> {
    if a.Evaluate? && a.j == j < |s.hops| && s.hops[j].hand.Popped? then [WS.WorkFrame(s.hops[j].hand.w, a.e)] else []
  }

  lemma {:induction false} RunSplit(l: WS.Limits, s: WS.State, a: seq<WS.Event>, b: seq<WS.Event>)
    ensures WS.Run(l, s, a + b) == WS.Run(l, WS.Run(l, s, a), b)
    decreases |a|
  {
    if a == [] {
      assert a + b == b;
    } else {
      assert (a + b)[1..] == a[1..] + b;
      RunSplit(l, WS.Step(l, s, a[0]).0, a[1..], b);
    }
  }

  /** Only an evaluation touches a session, and it does to it what the frame and the engine's answer say. The worker
      goes on with a frame its engine evaluated; any other one it answers at once, with an error. */
  lemma SessionStep(c: Config, s: State, a: Action, s': State, j: nat)
    requires IsStep(c, s, a, s') && j < c.hops
    ensures |s'.hops| == c.hops
    ensures s'.hops[j].session == WS.Run(c.limits, s.hops[j].session, EventAt(s, a, j))
    ensures a.Evaluate? && a.j == j ==>
              && s.hops[j].hand.Popped?
              && var w := s.hops[j].hand.w;
                 if WS.ProcessWork(c.limits, s.hops[j].session, w, a.e).1 == WS.Evaluated
                 then s'.hops[j].hand == Computed(w) && s'.hops[j].replies == s.hops[j].replies
                 else s'.hops[j].hand == Free
                      && s'.hops[j].replies == s.hops[j].replies + [Result(w.requestId, 0, false, Ack, [])]
  {
    if a.Evaluate? && a.j == j { assert EventAt(s, a, j)[1..] == []; }
  }

  /** Worker j's session after n steps is what the frames it evaluated by then made of the one it started with. */
  ghost predicate SessionIsRun(c: Config, first: WS.State, states: seq<State>, actions: seq<Action>, n: nat, j: nat)
    requires n <= |actions| < |states|
  {
    && j < |states[n].hops| == c.hops
    && states[n].hops[j].session == WS.Run(c.limits, first, EventsOf(states, actions, j, n))
  }

  lemma SessionMore(c: Config, first: WS.State, states: seq<State>, actions: seq<Action>, k: nat, j: nat)
    requires k < |actions| < |states| && SessionIsRun(c, first, states, actions, k, j)
    requires IsStep(c, states[k], actions[k], states[k + 1])
    ensures SessionIsRun(c, first, states, actions, k + 1, j)
  {
    SessionStep(c, states[k], actions[k], states[k + 1], j);
    RunSplit(c.limits, first, EventsOf(states, actions, j, k), EventAt(states[k], actions[k], j));
  }

  /** So it is in every state of every interleaving. */
  lemma {:induction false} SessionsAreRuns(c: Config, sessions: seq<WS.State>, states: seq<State>, actions: seq<Action>,
        n: nat, j: nat)
    requires c.Valid() && c.Planned() && IsRun(c, sessions, states, actions) && n < |states| && j < c.hops
    ensures SessionIsRun(c, sessions[j], states, actions, n, j)
    decreases n
  {
    if n > 0 {
      var k := n - 1;
      SessionsAreRuns(c, sessions, states, actions, k, j);
      assert IsStep(c, states[k], actions[k], states[k + 1]);
      SessionMore(c, sessions[j], states, actions, k, j);
    }
  }

  /** So a trusted hash is the hash of the timeline in every worker, whatever fails. */
  lemma SessionsStaySound(c: Config, sessions: seq<WS.State>, states: seq<State>, actions: seq<Action>, n: nat, j: nat)
    requires c.Valid() && c.Planned() && IsRun(c, sessions, states, actions) && n < |states| && j < c.hops
    requires WS.Sound(sessions[j])
    ensures |states[n].hops| == c.hops && WS.Sound(states[n].hops[j].session)
  {
    SessionsAreRuns(c, sessions, states, actions, n, j);
    WS.RunKeepsSound(c.limits, sessions[j], EventsOf(states, actions, j, n));
  }

  // The sending side ------------------------------------------------------------------

  /** Frames that are sent or being written. */
  function Written(f: Feed): nat { f.sent + if f.sender.Sending? then 1 else 0 }

  /** What stops the sending side: a failure of the local slice, a failed send, or the end of the reader before
      everything is submitted. Then nothing more is submitted and no other frame is taken from the ring. */
  lemma StopStep(c: Config, s: State, a: Action, s': State)
    requires IsStep(c, s, a, s')
    ensures s.feed.ring.stop ==>
              s'.feed.ring.stop && s'.feed.submitted == s.feed.submitted && Written(s'.feed) <= Written(s.feed)
    ensures s.feed.sent <= s'.feed.sent
    ensures !s.feed.ring.stop && s'.feed.ring.stop <==>
              && !s.feed.ring.stop
              && (a == FillSlot(false) || a == SendFrame(false)
                  || (a == CheckWindow && s.feed.pos < c.span.End() && s.reader.done))
  {}

  /** After a stop no run submits another chunk, and at most the frame being written still goes out. */
  lemma {:induction false} StoppedSendsNoMore(c: Config, sessions: seq<WS.State>, states: seq<State>,
        actions: seq<Action>, m: nat, n: nat)
    requires c.Valid() && c.Planned() && IsRun(c, sessions, states, actions) && m <= n < |states|
    requires states[m].feed.ring.stop
    ensures states[n].feed.ring.stop && states[n].feed.submitted == states[m].feed.submitted
    ensures states[m].feed.sent <= states[n].feed.sent <= Written(states[n].feed) <= Written(states[m].feed)
    decreases n
  {
    if m < n {
      var k := n - 1;
      StoppedSendsNoMore(c, sessions, states, actions, m, k);
      assert IsStep(c, states[k], actions[k], states[k + 1]);
      StopStep(c, states[k], actions[k], states[n]);
    }
  }

  // The relays ------------------------------------------------------------------------

  /** A relay closes on a reply nobody waits for or that answers another request than the oldest one, and on
      nothing else. Closed, it forwards no reply and takes in no request. */
  lemma RelayCloses(c: Config, s: State, a: Action, s': State, j: nat)
    requires IsStep(c, s, a, s') && j + 1 < c.hops
    ensures |s'.hops| == c.hops
    ensures s.hops[j].relaying && !s'.hops[j].relaying <==>
              && s.hops[j].relaying && a == Relay(j)
              && (s.hops[j].pending == [] || s.hops[j + 1].replies[0].requestId != s.hops[j].pending[0].id)
    ensures !s.hops[j].relaying ==>
              && !s'.hops[j].relaying && s'.hops[j].relayed == s.hops[j].relayed
              && forall p :: p in s'.hops[j].pending ==> p in s.hops[j].pending
  {}

  /** The queue after its first request with the id, if there is one, is taken out. */
  ghost predicate TakenOut(q: seq<Request>, id: nat, rest: seq<Request>) {
    if Has(q, id) then
      exists k ::
        0 <= k < |q| && q[k].id == id && (forall i :: 0 <= i < k ==> q[i].id != id) && rest == q[..k] + q[k + 1..]
    else rest == q
  }

  lemma FirstWith(q: seq<Request>, id: nat, k: nat) returns (first: nat)
    requires k < |q| && q[k].id == id
    ensures first <= k && q[first].id == id && forall i :: 0 <= i < first ==> q[i].id != id
    decreases k
  {
    first := k;
    if i :| 0 <= i < k && q[i].id == id { first := FirstWith(q, id, i); }
  }

  lemma WithoutTakesOut(q: seq<Request>, id: nat)
    ensures TakenOut(q, id, Without(q, id))
  {
    if Has(q, id) {
      var k :| 0 <= k < |q| && q[k].id == id;
      var first := FirstWith(q, id, k);
      WithoutAt(q, id, first);
    } else {
      WithoutAbsent(q, id);
    }
  }

  /** A frame that is forwarded arrives behind the others downstream and its request stays pending. One that cannot be
      is answered with an error, and its request waits no longer. */
  lemma ForwardStep(c: Config, s: State, j: nat, forwardOk: bool, s': State)
    requires IsStep(c, s, ForwardFrame(j, forwardOk), s')
    ensures j + 1 < |s.hops| == |s'.hops| && s.hops[j].hand.Tracked? && s'.hops[j].hand == Free
    ensures var h, w, down := s.hops[j], s.hops[j].hand.w, s.hops[j + 1];
            if forwardOk
            then s'.hops[j] == h.(hand := Free) && s'.hops[j + 1] == down.(inbox := down.inbox + [w])
            else s'.hops[j + 1] == down && TakenOut(h.pending, w.requestId, s'.hops[j].pending)
                 && s'.hops[j].replies == h.replies + [Result(w.requestId, 0, false, Ack, [])]
  {
    WithoutTakesOut(s.hops[j].pending, s.hops[j].hand.w.requestId);
  }

  lemma {:induction false} ClosedRelayStaysClosed(c: Config, sessions: seq<WS.State>, states: seq<State>,
        actions: seq<Action>, m: nat, n: nat, j: nat)
    requires c.Valid() && c.Planned() && IsRun(c, sessions, states, actions) && m <= n < |states| && j + 1 < c.hops
    requires |states[m].hops| == c.hops && !states[m].hops[j].relaying
    ensures |states[n].hops| == c.hops && !states[n].hops[j].relaying
    ensures states[n].hops[j].relayed == states[m].hops[j].relayed
    ensures forall p :: p in states[n].hops[j].pending ==> p in states[m].hops[j].pending
    decreases n
  {
    if m < n {
      var k := n - 1;
      ClosedRelayStaysClosed(c, sessions, states, actions, m, k, j);
      assert IsStep(c, states[k], actions[k], states[k + 1]);
      RelayCloses(c, states[k], actions[k], states[n], j);
    }
  }
}
