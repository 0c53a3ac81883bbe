/** Progress of pipelined prefill when nothing fails: the hash checks all pass, no interleaving
    gets stuck before the end, every run is finite, and at the end every worker holds the span. */
module PrefillProgress {
  import opened TokenHash
  import opened PrefillPlan
  import opened Forwarder
  import opened PrefillPipeline
  import opened PrefillSafety
  import WS = WorkerSession

  /** Actions in which no engine call, local evaluation or send fails. */
  predicate Benign(a: Action) {
    match a
    case FillSlot(localOk) => localOk
    case SendFrame(sendOk) => sendOk
    case ForwardFrame(_, forwardOk) => forwardOk
    case Evaluate(_, e) => e == WS.Engine(true, WS.Succeeds)
    case _ => true
  }

  // Flow: every queue holds the consecutive chunks between two counters --------------

  /** Frames a hop has evaluated, handed on, and entered in its pending queue. */
  function Evaluated(h: Hop): int { h.popped - if h.hand.Popped? then 1 else 0 }
  function Passed(h: Hop): int { h.popped - if h.hand == Free then 0 else 1 }
  function Entered(h: Hop): int { Passed(h) + if h.hand.Tracked? then 1 else 0 }

  function Answer(c: Config, j: nat, i: nat): Result
    requires i < |c.plan|
  {
    Result(c.plan[i].requestId, c.plan[i].resultHash, true, KindFor(c, c.plan[i]), Trail(c.hops, j))
  }

  function Answers(c: Config, j: nat, lo: nat, hi: nat): (q: seq<Result>)
    requires lo <= hi <= |c.plan|
    ensures |q| == hi - lo
  {
    seq(hi - lo, k requires 0 <= k < hi - lo => Answer(c, j, lo + k))
  }

  function Waits(c: Config, j: nat, lo: nat, hi: nat): (q: seq<Request>)
    requires lo <= hi <= |c.plan|
    ensures |q| == hi - lo
  {
    seq(hi - lo, k requires 0 <= k < hi - lo => Request(c.plan[lo + k].requestId, j, 0))
  }

  /** The worker's session is ready for frame n of the span. */
  ghost predicate OnTrack(c: Config, session: WS.State, n: nat) {
    && WS.Fits(c.limits, c.span) && WS.Ready(session, c.span, n)
    && (0 < n ==> session == WS.Before(c.span, n))
  }

  /** Queues of a hop that received frames 0..arrived and whose replies up to taken were consumed. */
  ghost predicate FlowQueues(c: Config, j: nat, h: Hop, arrived: nat, taken: nat) {
    && taken <= h.relayed <= Passed(h) <= h.popped <= h.received <= arrived <= |c.plan|
    && h.inbox == c.plan[h.received..arrived]
    && h.jobs == c.plan[h.popped..h.received]
    && (h.hand != Free ==> 0 < h.popped && h.hand.w == c.plan[h.popped - 1])
    && h.replies == Answers(c, j, taken, h.relayed)
    && h.relaying
    && (j + 1 == c.hops ==> h.relayed == Passed(h) && !h.hand.Tracked?)
    && (j + 1 < c.hops ==> h.pending == Waits(c, j, h.relayed, Entered(h)))
  }

  function Arrived(hops: seq<Hop>, sent: nat, j: nat): int
    requires j < |hops|
  {
    if j == 0 then sent else Passed(hops[j - 1])
  }

  function Taken(hops: seq<Hop>, completed: nat, j: nat): nat
    requires j < |hops|
  {
    if j == 0 then completed else hops[j - 1].relayed
  }

  ghost predicate FlowHop(c: Config, j: nat, h: Hop, arrived: int, taken: nat) {
    0 <= arrived && FlowQueues(c, j, h, arrived, taken)
  }

  ghost predicate FlowAt(c: Config, hops: seq<Hop>, sent: nat, completed: nat, j: nat)
    requires j < |hops|
  {
    FlowHop(c, j, hops[j], Arrived(hops, sent, j), Taken(hops, completed, j))
  }

  ghost predicate HopsFlow(c: Config, hops: seq<Hop>, sent: nat, completed: nat) {
    0 < |hops| == c.hops && forall j {:trigger FlowAt(c, hops, sent, completed, j)} :: 0 <= j < |hops| ==>
          FlowAt(c, hops, sent, completed, j)
  }

  ghost predicate EndsFlow(c: Config, f: Feed, rd: Reader) {
    && !f.ring.stop && f.producer != Stopped
    && (f.producer == Finished ==> f.submitted == |c.plan|) && (f.ring.done <==> f.producer == Finished)
    && (f.sender == Exited ==> f.ring.done && f.ring.queued == 0)
    && !rd.failed && (rd.done <==> rd.completed == |c.plan|)
  }

  /** Each worker's session with the number of frames it has evaluated. */
  function Marks(hops: seq<Hop>): (m: seq<(WS.State, int)>)
    ensures |m| == |hops|
  {
    seq(|hops|, j requires 0 <= j < |hops| => (hops[j].session, Evaluated(hops[j])))
  }

  ghost predicate SessionsFlow(c: Config, marks: seq<(WS.State, int)>) {
    forall j :: 0 <= j < |marks| ==> 0 <= marks[j].1 && OnTrack(c, marks[j].0, marks[j].1)
  }

  ghost predicate Flow(c: Config, s: State) {
    && Inv(c, s) && HopsFlow(c, s.hops, s.feed.sent, s.reader.completed) && EndsFlow(c, s.feed, s.reader)
    && SessionsFlow(c, Marks(s.hops))
  }

  // Flow is kept -----------------------------------------------------------------

  /** A change in one hop that passes nothing on and relays nothing. */
  lemma ReplaceFlow(c: Config, hops: seq<Hop>, sent: nat, completed: nat, j: nat, h: Hop)
    requires HopsFlow(c, hops, sent, completed) && j < c.hops
    requires FlowHop(c, j, h, Arrived(hops, sent, j), Taken(hops, completed, j))
    requires j + 1 < c.hops ==> Passed(h) == Passed(hops[j]) && h.relayed == hops[j].relayed
    ensures HopsFlow(c, hops[j := h], sent, completed)
  {
    var hops' := hops[j := h];
    forall i | 0 <= i < c.hops ensures FlowAt(c, hops', sent, completed, i) {
      assert FlowAt(c, hops, sent, completed, i);
    }
  }

  /** A change in two neighbours, of which the lower passes nothing on and relays nothing. */
  lemma ReplaceFlowPair(c: Config, hops: seq<Hop>, sent: nat, completed: nat, j: nat, h: Hop, down: Hop)
    requires HopsFlow(c, hops, sent, completed) && j + 1 < c.hops
    requires FlowHop(c, j, h, Arrived(hops, sent, j), Taken(hops, completed, j))
    requires FlowHop(c, j + 1, down, Passed(h), h.relayed)
    requires Passed(down) == Passed(hops[j + 1]) && down.relayed == hops[j + 1].relayed
    ensures HopsFlow(c, hops[j := h][j + 1 := down], sent, completed)
  {
    var hops' := hops[j := h][j + 1 := down];
    forall i | 0 <= i < c.hops ensures FlowAt(c, hops', sent, completed, i) {
      assert FlowAt(c, hops, sent, completed, i);
    }
  }

  /** A change at the first hop together with what was sent to it or taken from it. */
  lemma ReplaceFlowFirst(c: Config, hops: seq<Hop>, sent: nat, completed: nat, h: Hop, sent': nat, completed': nat)
    requires HopsFlow(c, hops, sent, completed)
    requires FlowHop(c, 0, h, sent', completed') && Passed(h) == Passed(hops[0]) && h.relayed == hops[0].relayed
    ensures HopsFlow(c, hops[0 := h], sent', completed')
  {
    var hops' := hops[0 := h];
    forall i | 0 <= i < c.hops ensures FlowAt(c, hops', sent', completed', i) {
      assert FlowAt(c, hops, sent, completed, i);
    }
  }

  lemma AnswersExtend(c: Config, j: nat, lo: nat, hi: nat)
    requires lo <= hi < |c.plan|
    ensures Answers(c, j, lo, hi + 1) == Answers(c, j, lo, hi) + [Answer(c, j, hi)]
  {}

  lemma FrameEvaluates(c: Config, session: WS.State, n: nat, next: nat, w: Work)
    requires c.Planned() && n < |c.plan| && OnTrack(c, session, n) && next == n + 1 && w == c.plan[n]
    ensures var r := WS.ProcessWork(c.limits, session, w, WS.Engine(true, WS.Succeeds));
            r.1 == WS.Evaluated && OnTrack(c, r.0, next)
  {
    WS.ReplayStep(c.limits, session, c.span, n);
  }

  lemma ReceiveFlow(c: Config, j: nat, h: Hop, arrived: int, taken: nat)
    requires FlowHop(c, j, h, arrived, taken) && WorkerEnabled(c, h, Receive(j))
    ensures FlowHop(c, j, WorkerStep(c, j, h, Receive(j)), arrived, taken)
  {}

  lemma PopFlow(c: Config, j: nat, h: Hop, arrived: int, taken: nat)
    requires FlowHop(c, j, h, arrived, taken) && WorkerEnabled(c, h, PopJob(j))
    ensures FlowHop(c, j, WorkerStep(c, j, h, PopJob(j)), arrived, taken)
  {}

  lemma TrackFlow(c: Config, j: nat, h: Hop, arrived: int, taken: nat)
    requires FlowHop(c, j, h, arrived, taken) && WorkerEnabled(c, h, TrackRequest(j))
    ensures FlowHop(c, j, WorkerStep(c, j, h, TrackRequest(j)), arrived, taken) && h.relaying
  {
    assert WorkerStep(c, j, h, TrackRequest(j)).pending == Waits(c, j, h.relayed, Entered(h) + 1);
  }

  lemma QueueFlow(c: Config, j: nat, h: Hop, a: Action, arrived: int, taken: nat)
    requires FlowHop(c, j, h, arrived, taken) && WorkerEnabled(c, h, a)
    requires a == Receive(j) || a == PopJob(j) || a == TrackRequest(j)
    ensures var h' := WorkerStep(c, j, h, a);
            && FlowHop(c, j, h', arrived, taken) && Passed(h') == Passed(h) && h'.relayed == h.relayed
            && h'.session == h.session && Evaluated(h') == Evaluated(h)
  {
    if a.Receive? {
      ReceiveFlow(c, j, h, arrived, taken);
    } else if a.PopJob? {
      PopFlow(c, j, h, arrived, taken);
    } else {
      TrackFlow(c, j, h, arrived, taken);
    }
  }

  lemma EvalFlow(c: Config, j: nat, h: Hop, r: (WS.State, WS.Reply), arrived: int, taken: nat)
    requires FlowHop(c, j, h, arrived, taken) && h.hand.Popped? && r.1 == WS.Evaluated
    ensures var h' := AfterEval(h, r);
            FlowHop(c, j, h', arrived, taken) && Passed(h') == Passed(h) && h'.relayed == h.relayed
  {}

  lemma ReplyFlow(c: Config, j: nat, h: Hop, arrived: int, taken: nat)
    requires FlowHop(c, j, h, arrived, taken) && WorkerEnabled(c, h, ReplyUpstream(j))
    ensures var h' := WorkerStep(c, j, h, ReplyUpstream(j));
            FlowHop(c, j, h', arrived, taken) && h'.session == h.session && Evaluated(h') == Evaluated(h)
  {
    assert Trail(c.hops, j) == [j];
    AnswersExtend(c, j, taken, h.relayed);
  }

  lemma WorkerKeepsQueues(c: Config, hops: seq<Hop>, sent: nat, completed: nat, j: nat, a: Action)
    requires HopsFlow(c, hops, sent, completed) && j < c.hops && WorkerEnabled(c, hops[j], a)
    requires OnWorker(a) && !a.Evaluate? && a.j == j
    ensures HopsFlow(c, hops[j := WorkerStep(c, j, hops[j], a)], sent, completed)
    ensures Marks(hops[j := WorkerStep(c, j, hops[j], a)]) == Marks(hops)
  {
    assert FlowAt(c, hops, sent, completed, j);
    if a.ReplyUpstream? {
      ReplyFlow(c, j, hops[j], Arrived(hops, sent, j), Taken(hops, completed, j));
    } else {
      QueueFlow(c, j, hops[j], a, Arrived(hops, sent, j), Taken(hops, completed, j));
    }
    ReplaceFlow(c, hops, sent, completed, j, WorkerStep(c, j, hops[j], a));
  }

  lemma EvalKeepsFlow(c: Config, hops: seq<Hop>, sent: nat, completed: nat, j: nat, r: (WS.State, WS.Reply))
    requires HopsFlow(c, hops, sent, completed) && j < c.hops && hops[j].hand.Popped? && SessionsFlow(c, Marks(hops))
    requires r.1 == WS.Evaluated && OnTrack(c, r.0, hops[j].popped)
    ensures HopsFlow(c, hops[j := AfterEval(hops[j], r)], sent, completed)
    ensures SessionsFlow(c, Marks(hops[j := AfterEval(hops[j], r)]))
  {
    assert FlowAt(c, hops, sent, completed, j);
    EvalFlow(c, j, hops[j], r, Arrived(hops, sent, j), Taken(hops, completed, j));
    ReplaceFlow(c, hops, sent, completed, j, AfterEval(hops[j], r));
    assert Marks(hops[j := AfterEval(hops[j], r)]) == Marks(hops)[j := (r.0, hops[j].popped)];
  }

  /** A worker that is on track evaluates the next frame: none of its checks refuses it. */
  lemma NextFrameEvaluates(c: Config, hops: seq<Hop>, sent: nat, completed: nat, j: nat)
    requires c.Planned() && HopsFlow(c, hops, sent, completed) && SessionsFlow(c, Marks(hops))
    requires j < c.hops && hops[j].hand.Popped?
    ensures var r := WS.ProcessWork(c.limits, hops[j].session, hops[j].hand.w, WS.Engine(true, WS.Succeeds));
            r.1 == WS.Evaluated && OnTrack(c, r.0, hops[j].popped)
  {
    assert FlowAt(c, hops, sent, completed, j);
    assert Marks(hops)[j] == (hops[j].session, hops[j].popped - 1);
    FrameEvaluates(c, hops[j].session, hops[j].popped - 1, hops[j].popped, hops[j].hand.w);
  }

  lemma TakeReplyFlow(c: Config, j: nat, h: Hop, arrived: int, taken: nat)
    requires FlowHop(c, j, h, arrived, taken) && h.replies != []
    ensures taken < |c.plan| && h.replies[0] == Answer(c, j, taken) && taken < h.relayed
    ensures FlowHop(c, j, h.(replies := h.replies[1..]), arrived, taken + 1)
  {
    assert Answers(c, j, taken, h.relayed)[1..] == Answers(c, j, taken + 1, h.relayed);
  }

  lemma RelayFlow(c: Config, j: nat, h: Hop, arrived: int, taken: nat)
    requires FlowHop(c, j, h, arrived, taken) && j + 1 < c.hops && h.relayed < Passed(h)
    ensures var h' := RelayStep(h, Answer(c, j + 1, h.relayed));
            && FlowHop(c, j, h', arrived, taken) && h'.relayed == h.relayed + 1 && Passed(h') == Passed(h)
            && h'.session == h.session && Evaluated(h') == Evaluated(h)
  {
    var h' := RelayStep(h, Answer(c, j + 1, h.relayed));
    assert h.pending[0] == Request(c.plan[h.relayed].requestId, j, 0);
    assert Trail(c.hops, j) == Trail(c.hops, j + 1) + [j];
    AnswersExtend(c, j, taken, h.relayed);
    assert h'.pending == Waits(c, j, h.relayed + 1, Entered(h));
  }

  lemma SameMarks(hops: seq<Hop>, j: nat, h: Hop, down: Hop)
    requires j + 1 < |hops| && h.session == hops[j].session && down.session == hops[j + 1].session
    requires Evaluated(h) == Evaluated(hops[j]) && Evaluated(down) == Evaluated(hops[j + 1])
    ensures Marks(hops[j := h][j + 1 := down]) == Marks(hops)
  {}

  /** What a relayed reply does to the two workers around the channel it comes from. */
  lemma RelayBetween(c: Config, j: nat, h: Hop, down: Hop, arrived: int, taken: nat)
    requires FlowHop(c, j, h, arrived, taken) && FlowHop(c, j + 1, down, Passed(h), h.relayed)
    requires j + 1 < c.hops && down.replies != []
    ensures var h' := RelayStep(h, down.replies[0]);
            && FlowHop(c, j, h', arrived, taken)
            && FlowHop(c, j + 1, down.(replies := down.replies[1..]), Passed(h'), h'.relayed)
            && h'.session == h.session && Evaluated(h') == Evaluated(h) && HopWork(h') == HopWork(h) + 1
  {
    TakeReplyFlow(c, j + 1, down, Passed(h), h.relayed);
    RelayFlow(c, j, h, arrived, taken);
  }

  lemma RelayPair(c: Config, hops: seq<Hop>, sent: nat, completed: nat, j: nat)
    requires HopsFlow(c, hops, sent, completed) && j + 1 < c.hops && hops[j].relaying && hops[j + 1].replies != []
    ensures var h' := RelayStep(hops[j], hops[j + 1].replies[0]);
            && FlowHop(c, j, h', Arrived(hops, sent, j), Taken(hops, completed, j))
            && FlowHop(c, j + 1, hops[j + 1].(replies := hops[j + 1].replies[1..]), Passed(h'), h'.relayed)
            && h'.session == hops[j].session && Evaluated(h') == Evaluated(hops[j])
                && HopWork(h') == HopWork(hops[j]) + 1
  {
    assert FlowAt(c, hops, sent, completed, j);
    assert FlowAt(c, hops, sent, completed, j + 1);
    RelayBetween(c, j, hops[j], hops[j + 1], Arrived(hops, sent, j), Taken(hops, completed, j));
  }

  lemma RelayKeepsFlow(c: Config, s: State, j: nat)
    requires HopsFlow(c, s.hops, s.feed.sent, s.reader.completed) && Enabled(c, s, Relay(j))
    ensures HopsFlow(c, DoRelay(s, j).hops, s.feed.sent, s.reader.completed)
    ensures Marks(DoRelay(s, j).hops) == Marks(s.hops)
  {
    var h, down := RelayStep(s.hops[j], s.hops[j + 1].replies[0]),
        s.hops[j + 1].(replies := s.hops[j + 1].replies[1..]);
    RelayPair(c, s.hops, s.feed.sent, s.reader.completed, j);
    ReplaceFlowPair(c, s.hops, s.feed.sent, s.reader.completed, j, h, down);
    SameMarks(s.hops, j, h, down);
  }

  lemma ArriveFlow(c: Config, j: nat, h: Hop, arrived: int, taken: nat)
    requires FlowHop(c, j, h, arrived, taken) && arrived < |c.plan|
    ensures FlowHop(c, j, h.(inbox := h.inbox + [c.plan[arrived]]), arrived + 1, taken)
  {}

  lemma PassFlow(c: Config, j: nat, h: Hop, arrived: int, taken: nat)
    requires FlowHop(c, j, h, arrived, taken) && h.hand.Tracked?
    ensures FlowHop(c, j, h.(hand := Free), arrived, taken) && Passed(h.(hand := Free)) == Passed(h) + 1
    ensures 0 <= Passed(h) < |c.plan| && h.hand.w == c.plan[Passed(h)]
  {}

  lemma ForwardPair(c: Config, hops: seq<Hop>, sent: nat, completed: nat, j: nat)
    requires HopsFlow(c, hops, sent, completed) && j + 1 < c.hops && hops[j].hand.Tracked?
    ensures var h, down := hops[j].(hand := Free), hops[j + 1].(inbox := hops[j + 1].inbox + [hops[j].hand.w]);
            && FlowHop(c, j, h, Arrived(hops, sent, j), Taken(hops, completed, j))
                && FlowHop(c, j + 1, down, Passed(h), h.relayed)
            && Evaluated(h) == Evaluated(hops[j]) && Evaluated(down) == Evaluated(hops[j + 1])
  {
    assert FlowAt(c, hops, sent, completed, j);
    assert FlowAt(c, hops, sent, completed, j + 1);
    PassFlow(c, j, hops[j], Arrived(hops, sent, j), Taken(hops, completed, j));
    ArriveFlow(c, j + 1, hops[j + 1], Passed(hops[j]), hops[j].relayed);
  }

  lemma ForwardKeepsFlow(c: Config, s: State, j: nat)
    requires HopsFlow(c, s.hops, s.feed.sent, s.reader.completed) && Enabled(c, s, ForwardFrame(j, true))
    ensures HopsFlow(c, DoForward(s, j, true).hops, s.feed.sent, s.reader.completed)
    ensures Marks(DoForward(s, j, true).hops) == Marks(s.hops)
  {
    var h, down := s.hops[j].(hand := Free), s.hops[j + 1].(inbox := s.hops[j + 1].inbox + [s.hops[j].hand.w]);
    ForwardPair(c, s.hops, s.feed.sent, s.reader.completed, j);
    ReplaceFlowPair(c, s.hops, s.feed.sent, s.reader.completed, j, h, down);
    SameMarks(s.hops, j, h, down);
  }

  lemma ReadKeepsFlow(c: Config, s: State)
    requires c.Valid() && HopsFlow(c, s.hops, s.feed.sent, s.reader.completed) && Enabled(c, s, ReadResult)
    ensures AcceptsResult(c, s.reader, s.hops[0].replies[0])
    ensures HopsFlow(c, DoRead(c, s).hops, s.feed.sent, s.reader.completed + 1)
    ensures Marks(DoRead(c, s).hops) == Marks(s.hops)
  {
    assert FlowAt(c, s.hops, s.feed.sent, s.reader.completed, 0);
    TakeReplyFlow(c, 0, s.hops[0], s.feed.sent, s.reader.completed);
    ReplaceFlowFirst(c, s.hops, s.feed.sent, s.reader.completed, DoRead(c, s).hops[0], s.feed.sent,
        s.reader.completed + 1);
  }

  lemma SendKeepsFlow(c: Config, hops: seq<Hop>, sent: nat, completed: nat)
    requires HopsFlow(c, hops, sent, completed) && sent < |c.plan|
    ensures HopsFlow(c, hops[0 := hops[0].(inbox := hops[0].inbox + [c.plan[sent]])], sent + 1, completed)
    ensures Marks(hops[0 := hops[0].(inbox := hops[0].inbox + [c.plan[sent]])]) == Marks(hops)
  {
    assert FlowAt(c, hops, sent, completed, 0);
    ArriveFlow(c, 0, hops[0], sent, completed);
    ReplaceFlowFirst(c, hops, sent, completed, hops[0].(inbox := hops[0].inbox + [c.plan[sent]]), sent + 1, completed);
  }

  lemma FeedKeepsEnds(c: Config, f: Feed, rd: Reader, a: Action)
    requires FeedOk(c, f, rd.completed) && EndsFlow(c, f, rd) && FeedEnabled(c, f, rd, a) && Benign(a)
    requires rd.completed <= f.submitted
    ensures EndsFlow(c, FeedStep(c, f, rd, a), rd)
    ensures a.SendFrame? || FeedStep(c, f, rd, a).sent == f.sent
  {}

  lemma FeedInStep(c: Config, s: State, a: Action)
    requires Flow(c, s) && OnFeed(a) && FeedEnabled(c, s.feed, s.reader, a) && Benign(a)
    ensures EndsFlow(c, FeedStep(c, s.feed, s.reader, a), s.reader)
    ensures a.SendFrame? || FeedStep(c, s.feed, s.reader, a).sent == s.feed.sent
  {
    Staircase(c, s);
    FeedKeepsEnds(c, s.feed, s.reader, a);
  }

  lemma SendActionKeepsFlow(c: Config, s: State)
    requires Flow(c, s) && Enabled(c, s, SendFrame(true)) && Inv(c, Apply(c, s, SendFrame(true)))
    ensures Flow(c, Apply(c, s, SendFrame(true)))
  {
    FeedInStep(c, s, SendFrame(true));
    NextFrameSent(c, s.feed);
    SendKeepsFlow(c, s.hops, s.feed.sent, s.reader.completed);
  }

  lemma FeedActionKeepsFlow(c: Config, s: State, a: Action)
    requires Flow(c, s) && Enabled(c, s, a) && Benign(a) && OnFeed(a) && Inv(c, Apply(c, s, a))
    ensures Flow(c, Apply(c, s, a))
  {
    if a.SendFrame? {
      SendActionKeepsFlow(c, s);
    } else {
      FeedInStep(c, s, a);
    }
  }

  lemma WorkerActionKeepsFlow(c: Config, s: State, a: Action)
    requires c.Planned() && Flow(c, s) && Enabled(c, s, a) && Benign(a) && OnWorker(a) && Inv(c, Apply(c, s, a))
    ensures Flow(c, Apply(c, s, a))
  {
    if a.Evaluate? {
      NextFrameEvaluates(c, s.hops, s.feed.sent, s.reader.completed, a.j);
      EvalKeepsFlow(c, s.hops, s.feed.sent, s.reader.completed, a.j,
                    WS.ProcessWork(c.limits, s.hops[a.j].session, s.hops[a.j].hand.w, a.e));
    } else {
      WorkerKeepsQueues(c, s.hops, s.feed.sent, s.reader.completed, a.j, a);
    }
  }

  lemma ReadActionKeepsFlow(c: Config, s: State)
    requires Flow(c, s) && Enabled(c, s, ReadResult) && Inv(c, DoRead(c, s))
    ensures Flow(c, DoRead(c, s))
  {
    ReadKeepsFlow(c, s);
  }

  lemma StepKeepsFlow(c: Config, s: State, a: Action)
    requires c.Planned() && Flow(c, s) && Enabled(c, s, a) && Benign(a)
    ensures Flow(c, Apply(c, s, a))
  {
    StepKeepsInv(c, s, a);
    if OnFeed(a) {
      FeedActionKeepsFlow(c, s, a);
    } else if OnWorker(a) {
      WorkerActionKeepsFlow(c, s, a);
    } else if a.Relay? {
      RelayKeepsFlow(c, s, a.j);
    } else if a.ForwardFrame? {
      ForwardKeepsFlow(c, s, a.j);
    } else if a.ReadResult? {
      ReadActionKeepsFlow(c, s);
    }
  }

  // Nothing gets stuck ---------------------------------------------------------------

  /** The whole span has been accepted and reported, and both coordinator threads are done. */
  predicate Complete(c: Config, s: State) {
    && s.reader.completed == |c.plan| && s.reader.reported == |c.plan|
    && s.feed.producer == Finished && s.feed.sender == Exited
  }

  predicate Can(c: Config, s: State, a: Action)
    requires |s.hops| == c.hops
  {
    Enabled(c, s, a) && Benign(a)
  }

  /** Either some relay can act at or below hop j, or no reply is in flight there. */
  lemma {:induction false} FindRelay(c: Config, s: State, j: nat) returns (found: bool, a: Action)
    requires HopsFlow(c, s.hops, s.feed.sent, s.reader.completed) && j < c.hops
    requires s.hops[j].relayed == s.reader.completed
    ensures found ==> Can(c, s, a)
    ensures !found ==> s.hops[c.hops - 1].relayed == s.reader.completed
    ensures !found ==> forall i :: j <= i < c.hops ==> s.hops[i].relayed == s.reader.completed
    decreases c.hops - j
  {
    a := ReportProgress;
    if j + 1 == c.hops { return false, a; }
    assert FlowAt(c, s.hops, s.feed.sent, s.reader.completed, j);
    assert FlowAt(c, s.hops, s.feed.sent, s.reader.completed, j + 1);
    if s.hops[j + 1].replies != [] { return true, Relay(j); }
    found, a := FindRelay(c, s, j + 1);
  }

  /** A hop that has passed on everything answered so far can act, or nothing more has reached it. */
  lemma HopActsOrStarves(c: Config, s: State, j: nat) returns (found: bool, a: Action)
    requires HopsFlow(c, s.hops, s.feed.sent, s.reader.completed) && j < c.hops && c.Valid()
    requires s.hops[j].relayed == s.reader.completed == Passed(s.hops[j])
    ensures found ==> Can(c, s, a)
    ensures !found ==> Arrived(s.hops, s.feed.sent, j) == s.reader.completed
  {
    assert FlowAt(c, s.hops, s.feed.sent, s.reader.completed, j);
    var h := s.hops[j];
    found := true;
    if h.hand.Popped? { a := Evaluate(j, WS.Engine(true, WS.Succeeds)); }
    else if h.hand.Computed? { a := if j + 1 == c.hops then ReplyUpstream(j) else TrackRequest(j); }
    else if h.hand.Tracked? { a := ForwardFrame(j, true); }
    else if h.jobs != [] { a := PopJob(j); }
    else if h.inbox != [] { a := Receive(j); }
    else { found, a := false, ReportProgress; }
  }

  lemma {:induction false} FindWorker(c: Config, s: State, j: nat) returns (found: bool, a: Action)
    requires HopsFlow(c, s.hops, s.feed.sent, s.reader.completed) && j < c.hops && c.Valid()
    requires forall i :: 0 <= i < c.hops ==> s.hops[i].relayed == s.reader.completed
    requires Passed(s.hops[j]) == s.reader.completed
    ensures found ==> Can(c, s, a)
    ensures !found ==> s.feed.sent == s.reader.completed
    decreases j
  {
    found, a := HopActsOrStarves(c, s, j);
    if !found && 0 < j {
      found, a := FindWorker(c, s, j - 1);
    }
  }

  lemma FindFeed(c: Config, s: State) returns (a: Action)
    requires c.Valid() && |s.hops| == c.hops && FeedOk(c, s.feed, s.reader.completed) && EndsFlow(c, s.feed, s.reader)
    requires s.reader.reported <= s.reader.completed <= s.feed.sent
    requires s.reader.completed < |c.plan| ==> s.feed.sent == s.reader.completed
    requires !Complete(c, s)
    ensures Can(c, s, a)
  {
    var f := s.feed;
    if f.sender.Sending? { NextFrameSent(c, f); return SendFrame(true); }
    if f.sender == Sent { return ReleaseSlot; }
    if f.sender == Waiting && (f.ring.queued > 0 || f.ring.done) { return TakeSlot; }
    if f.producer == AtWindow { return CheckWindow; }
    if f.producer == AtAcquire { return AcquireSlot; }
    if f.producer.Filling? { return FillSlot(true); }
    if f.producer == AtEnqueue { return EnqueueSlot; }
    return ReportProgress;
  }

  /** No deadlock: every unfinished state of a failure-free run has an enabled action. */
  lemma NoDeadlock(c: Config, s: State) returns (a: Action)
    requires Flow(c, s) && !Complete(c, s)
    ensures Can(c, s, a)
  {
    Staircase(c, s);
    if s.reader.completed < |c.plan| {
      assert FlowAt(c, s.hops, s.feed.sent, s.reader.completed, 0);
      if s.hops[0].replies != [] { return ReadResult; }
      var found: bool;
      found, a := FindRelay(c, s, 0);
      if found { return; }
      assert FlowAt(c, s.hops, s.feed.sent, s.reader.completed, c.hops - 1);
      found, a := FindWorker(c, s, c.hops - 1);
      if found { return; }
    }
    a := FindFeed(c, s);
  }

  // Every run ends -----------------------------------------------------------------------

  function HandDebt(h: Hand): nat {
    match h case Free => 0 case Popped(_) => 3 case Computed(_) => 2 case Tracked(_) => 1
  }

  function HopWork(h: Hop): int { h.received + 4 * h.popped - HandDebt(h.hand) + h.relayed }

  function HopsWork(hops: seq<Hop>): int { if hops == [] then 0 else HopWork(hops[0]) + HopsWork(hops[1..]) }

  function FeedWork(f: Feed): int {
    4 * f.submitted + 3 * f.sent
    + (match f.producer case AtWindow => 0 case AtAcquire => 1 case Filling(_) => 2 case AtEnqueue => 3
                        case Finished => 1 case Stopped => 0)
    + (match f.sender case Waiting => 0 case Sending(_) => 1 case Sent => -1 case Exited => 1)
  }

  /** Work done so far: every action of a failure-free run adds to it. */
  function WorkDone(s: State): int {
    FeedWork(s.feed) + HopsWork(s.hops) + s.reader.completed + s.reader.reported
  }

  function WorkBound(c: Config): nat { 9 * |c.plan| + 2 + 6 * |c.plan| * c.hops }

  lemma {:induction false} HopsWorkUpdate(hops: seq<Hop>, j: nat, h: Hop)
    requires j < |hops|
    ensures HopsWork(hops[j := h]) == HopsWork(hops) - HopWork(hops[j]) + HopWork(h)
  {
    if j == 0 {
      assert hops[0 := h][1..] == hops[1..];
    } else {
      assert hops[j := h][1..] == hops[1..][j - 1 := h];
      HopsWorkUpdate(hops[1..], j - 1, h);
    }
  }

  lemma {:induction false} HopsWorkBounded(hops: seq<Hop>, n: nat)
    requires forall j :: 0 <= j < |hops| ==> HopWork(hops[j]) <= 6 * n
    ensures HopsWork(hops) <= 6 * n * |hops|
  {
    if hops != [] {
      HopsWorkBounded(hops[1..], n);
      assert 6 * n * |hops| == 6 * n * |hops[1..]| + 6 * n;
    }
  }

  lemma WorkIsBounded(c: Config, s: State)
    requires Flow(c, s)
    ensures WorkDone(s) <= WorkBound(c)
  {
    forall j | 0 <= j < c.hops ensures HopWork(s.hops[j]) <= 6 * |c.plan| {
      assert FlowAt(c, s.hops, s.feed.sent, s.reader.completed, j);
    }
    HopsWorkBounded(s.hops, |c.plan|);
  }

  lemma WorkerWorks(c: Config, hops: seq<Hop>, j: nat, a: Action)
    requires j < |hops| && WorkerEnabled(c, hops[j], a) && OnWorker(a)
    requires a.TrackRequest? ==> hops[j].relaying
    requires a.Evaluate? ==> WS.ProcessWork(c.limits, hops[j].session, hops[j].hand.w, a.e).1 == WS.Evaluated
    ensures HopsWork(hops[j := WorkerStep(c, j, hops[j], a)]) > HopsWork(hops)
  {
    HopsWorkUpdate(hops, j, WorkerStep(c, j, hops[j], a));
  }

  lemma NeighboursWork(hops: seq<Hop>, j: nat, h: Hop, down: Hop)
    requires j + 1 < |hops|
    ensures HopsWork(hops[j := h][j + 1 := down])
            == HopsWork(hops) - HopWork(hops[j]) + HopWork(h) - HopWork(hops[j + 1]) + HopWork(down)
  {
    HopsWorkUpdate(hops, j, h);
    HopsWorkUpdate(hops[j := h], j + 1, down);
  }

  lemma RelayWorks(c: Config, s: State, j: nat)
    requires HopsFlow(c, s.hops, s.feed.sent, s.reader.completed) && Enabled(c, s, Relay(j))
    ensures HopsWork(DoRelay(s, j).hops) > HopsWork(s.hops)
  {
    var h, down := s.hops[j], s.hops[j + 1];
    RelayPair(c, s.hops, s.feed.sent, s.reader.completed, j);
    NeighboursWork(s.hops, j, RelayStep(h, down.replies[0]), down.(replies := down.replies[1..]));
  }

  lemma ForwardWorks(c: Config, s: State, j: nat)
    requires |s.hops| == c.hops && Enabled(c, s, ForwardFrame(j, true))
    ensures HopsWork(DoForward(s, j, true).hops) > HopsWork(s.hops)
  {
    var h, down := s.hops[j], s.hops[j + 1];
    NeighboursWork(s.hops, j, h.(hand := Free), down.(inbox := down.inbox + [h.hand.w]));
  }

  lemma FeedWorks(c: Config, f: Feed, rd: Reader, a: Action)
    requires FeedOk(c, f, rd.completed) && EndsFlow(c, f, rd) && FeedEnabled(c, f, rd, a) && Benign(a)
    requires rd.completed <= f.submitted
    ensures FeedWork(FeedStep(c, f, rd, a)) > FeedWork(f)
  {}

  lemma SendWorks(c: Config, s: State)
    requires Flow(c, s) && Enabled(c, s, SendFrame(true))
    ensures HopsWork(Apply(c, s, SendFrame(true)).hops) == HopsWork(s.hops)
  {
    NextFrameSent(c, s.feed);
    HopsWorkUpdate(s.hops, 0, s.hops[0].(inbox := s.hops[0].inbox + [c.plan[s.feed.sent]]));
  }

  lemma FeedActionWorks(c: Config, s: State, a: Action)
    requires Flow(c, s) && Enabled(c, s, a) && Benign(a) && OnFeed(a)
    ensures WorkDone(Apply(c, s, a)) > WorkDone(s)
  {
    Staircase(c, s);
    FeedWorks(c, s.feed, s.reader, a);
    if a.SendFrame? { SendWorks(c, s); }
  }

  /** Termination measure: every benign action of a flowing state adds to the bounded work. */
  lemma StepWorks(c: Config, s: State, a: Action)
    requires c.Planned() && Flow(c, s) && Enabled(c, s, a) && Benign(a)
    ensures WorkDone(Apply(c, s, a)) > WorkDone(s)
  {
    if OnFeed(a) {
      FeedActionWorks(c, s, a);
    } else if OnWorker(a) {
      assert FlowAt(c, s.hops, s.feed.sent, s.reader.completed, a.j);
      if a.Evaluate? {
        NextFrameEvaluates(c, s.hops, s.feed.sent, s.reader.completed, a.j);
      }
      WorkerWorks(c, s.hops, a.j, a);
    } else if a.Relay? {
      RelayWorks(c, s, a.j);
    } else if a.ForwardFrame? {
      ForwardWorks(c, s, a.j);
    } else if a.ReadResult? {
      ReadKeepsFlow(c, s);
      HopsWorkUpdate(s.hops, 0, DoRead(c, s).hops[0]);
    }
  }

  // Whole runs --------------------------------------------------------------------------

  /** Workers that can take the span: it starts with a reset, or they already hold its prefix. */
  ghost predicate Prepared(c: Config, sessions: seq<WS.State>) {
    |sessions| == c.hops && forall j :: 0 <= j < |sessions| ==> OnTrack(c, sessions[j], 0)
  }

  ghost predicate IsBenignRun(c: Config, sessions: seq<WS.State>, states: seq<State>, actions: seq<Action>)
    requires c.Valid() && c.Planned()
  {
    Prepared(c, sessions) && IsRun(c, sessions, states, actions) && forall i :: 0 <= i < |actions| ==>
          Benign(actions[i])
  }

  lemma StartFlow(c: Config, sessions: seq<WS.State>)
    requires c.Valid() && c.Planned() && Prepared(c, sessions)
    ensures Flow(c, Start(c, sessions)) && WorkDone(Start(c, sessions)) == 0
  {
    StartInv(c, sessions);
    var s := Start(c, sessions);
    forall j | 0 <= j < c.hops ensures FlowAt(c, s.hops, 0, 0, j) {}
    assert Marks(s.hops) == seq(|sessions|, j requires 0 <= j < |sessions| => (sessions[j], 0));
    IdleHopsWork(s.hops);
  }

  lemma {:induction false} IdleHopsWork(hops: seq<Hop>)
    requires forall j :: 0 <= j < |hops| ==> HopWork(hops[j]) == 0
    ensures HopsWork(hops) == 0
  {
    if hops != [] {
      IdleHopsWork(hops[1..]);
    }
  }

  lemma BenignStepFlows(c: Config, s: State, a: Action, s': State)
    requires c.Planned() && Flow(c, s) && IsStep(c, s, a, s') && Benign(a)
    ensures Flow(c, s') && WorkDone(s') > WorkDone(s)
  {
    StepKeepsFlow(c, s, a);
    StepWorks(c, s, a);
  }

  lemma {:induction false} BenignRunFlows(c: Config, sessions: seq<WS.State>, states: seq<State>,
        actions: seq<Action>, n: nat)
    requires c.Valid() && c.Planned() && IsBenignRun(c, sessions, states, actions) && n < |states|
    ensures Flow(c, states[n]) && WorkDone(states[n]) >= n
  {
    if n == 0 {
      StartFlow(c, sessions);
    } else {
      var m := n - 1;
      BenignRunFlows(c, sessions, states, actions, m);
      assert IsStep(c, states[m], actions[m], states[m + 1]);
      BenignStepFlows(c, states[m], actions[m], states[n]);
    }
  }

  /** Every failure-free run is finite: no interleaving takes more than WorkBound actions. */
  lemma BenignRunsEnd(c: Config, sessions: seq<WS.State>, states: seq<State>, actions: seq<Action>)
    requires c.Valid() && c.Planned() && IsBenignRun(c, sessions, states, actions)
    ensures |actions| <= WorkBound(c)
  {
    BenignRunFlows(c, sessions, states, actions, |actions|);
    WorkIsBounded(c, states[|actions|]);
  }

  /** In a finished state every worker's session is exactly the prompt up to the span end, and the
      progress reported runs over the chunk boundaries up to that end. */
  lemma CompleteIsCorrect(c: Config, s: State)
    requires c.Planned() && Flow(c, s) && Complete(c, s)
    ensures forall j :: 0 <= j < c.hops ==>
              s.hops[j].session == WS.State(Prefix(c.span.prompt[..c.span.End()]), true, c.span.prompt[..c.span.End()])
    ensures s.reader.emitted == Progress(c, |c.plan|) && s.reader.emitted[|c.plan| - 1] == c.span.End()
    ensures !s.reader.failed && s.reader.finalKind == if c.finalLogits then Logits else HiddenState
  {
    c.span.Ends();
    ProgressRises(c, |c.plan|);
    forall j | 0 <= j < c.hops ensures s.hops[j].session == WS.Before(c.span, |c.plan|) {
      AnsweredMeansEvaluated(c, s, j);
      assert Marks(s.hops)[j] == (s.hops[j].session, Evaluated(s.hops[j]));
    }
  }

  lemma {:induction false} AnsweredMeansEvaluated(c: Config, s: State, j: nat)
    requires HopsFlow(c, s.hops, s.feed.sent, s.reader.completed) && j < c.hops && s.reader.completed == |c.plan|
    ensures s.hops[j].relayed == |c.plan| == Evaluated(s.hops[j])
  {
    assert FlowAt(c, s.hops, s.feed.sent, s.reader.completed, j);
    if 0 < j {
      AnsweredMeansEvaluated(c, s, j - 1);
    }
  }

  /** No action that succeeds is enabled. */
  ghost predicate Stuck(c: Config, s: State) {
    |s.hops| == c.hops && forall a :: !Can(c, s, a)
  }

  lemma StuckIsComplete(c: Config, s: State)
    requires Flow(c, s) && Stuck(c, s)
    ensures Complete(c, s)
  {
    if !Complete(c, s) {
      var a := NoDeadlock(c, s);
    }
  }

  /** A failure-free run that can go no further has finished: every worker holds the prompt up to
      the span end and progress was reported up to it. */
  lemma StuckRunsAreComplete(c: Config, sessions: seq<WS.State>, states: seq<State>, actions: seq<Action>, s: State)
    requires c.Valid() && c.Planned() && IsBenignRun(c, sessions, states, actions)
    requires s == states[|actions|] && Stuck(c, s)
    ensures Complete(c, s) && s.reader.emitted == Progress(c, |c.plan|)
    ensures forall j :: 0 <= j < c.hops ==> s.hops[j].session.timeline == c.span.prompt[..c.span.End()]
  {
    BenignRunFlows(c, sessions, states, actions, |actions|);
    StuckIsComplete(c, s);
    CompleteIsCorrect(c, s);
  }
}
