/** Safety of pipelined prefill in every reachable state of every interleaving, with failing
    engines, lost forwards and mismatched replies included. */
module PrefillSafety {
  import opened PrefillPlan
  import opened SenderRing
  import opened Forwarder
  import opened PrefillPipeline
  import WS = WorkerSession
  import opened Wrappers

  // Invariant ---------------------------------------------------------------

  /** Request ids of the first n chunks. */
  function Ids(c: Config, n: nat): set<nat> { set k | c.First() <= k < c.First() + n && IsId(c, k) }

  /** Says nothing of its own: it gives the comprehension above a term to be instantiated by. */
  predicate IsId(c: Config, k: nat) { c.First() <= k }

  /** A frame is the one the plan assigns to its request id, and that request is in the given set. */
  ghost predicate FrameOk(c: Config, w: Work, among: set<nat>) {
    && w.requestId in among && c.First() <= w.requestId < c.First() + |c.plan|
    && w == c.plan[w.requestId - c.First()]
  }

  ghost predicate FramesOk(c: Config, q: seq<Work>, among: set<nat>) { forall w :: w in q ==> FrameOk(c, w, among) }

  /** Telemetry trail of a reply as it leaves hop j: the last hop's record first. */
  function Trail(hops: nat, j: nat): seq<nat>
    decreases hops - j
  {
    if j + 1 >= hops then [j] else Trail(hops, j + 1) + [j]
  }

  /** The kind of reply a frame is owed: a bare acknowledgement exactly when it asks for one, otherwise logits
      when the last worker has the output head and the hidden state when it has not. */
  predicate KindAgrees(c: Config, w: Work, kind: Kind) {
    match kind
    case Ack => w.ackOnly
    case Logits => !w.ackOnly && c.finalLogits
    case HiddenState => !w.ackOnly && !c.finalLogits
  }

  /** A successful reply leaving hop j: its request was evaluated by the last worker, it carries the
      planned hash, the kind its frame is owed, and one telemetry record per hop it passed. */
  ghost predicate ReplyOk(c: Config, j: nat, last: set<nat>, r: Result) {
    && r.requestId in last && c.First() <= r.requestId < c.First() + |c.plan|
    && var w := c.plan[r.requestId - c.First()];
       r.hash == w.resultHash && r.ok && KindAgrees(c, w, r.kind) && r.trail == Trail(c.hops, j)
  }

  ghost predicate RepliesOk(c: Config, j: nat, q: seq<Result>, last: set<nat>) {
    forall r :: r in q && r.ok ==> ReplyOk(c, j, last, r)
  }

  ghost predicate HopOk(c: Config, j: nat, h: Hop, up: set<nat>, last: set<nat>) {
    && FramesOk(c, h.inbox, up) && FramesOk(c, h.jobs, up) && |h.jobs| <= c.prefetch
    && (h.hand != Free ==> FrameOk(c, h.hand.w, up))
    && (h.hand.Computed? || h.hand.Tracked? ==> h.hand.w.requestId in h.evaluated)
    && h.evaluated <= up
    && RepliesOk(c, j, h.replies, last)
    && (forall p :: p in h.pending ==> p.hop == j) && |h.pending| <= c.forward
  }

  /** What the frames arriving at hop j have already passed: the wire, or the previous worker's engine. */
  function Up(c: Config, hops: seq<Hop>, sent: nat, j: nat): set<nat>
    requires j < |hops|
  {
    if j == 0 then Ids(c, sent) else hops[j - 1].evaluated
  }

  function Last(hops: seq<Hop>): set<nat>
    requires hops != []
  {
    hops[|hops| - 1].evaluated
  }

  ghost predicate HopAt(c: Config, hops: seq<Hop>, sent: nat, j: nat)
    requires j < |hops|
  {
    HopOk(c, j, hops[j], Up(c, hops, sent, j), Last(hops))
  }

  ghost predicate HopsOk(c: Config, hops: seq<Hop>, sent: nat) {
    0 < |hops| == c.hops && forall j {:trigger HopAt(c, hops, sent, j)} :: 0 <= j < |hops| ==> HopAt(c, hops, sent, j)
  }

  /** The oldest chunk still in the ring. */
  function Released(f: Feed): int { f.sent - (if f.sender == Sent then 1 else 0) }

  /** The ring holds the frames released..submitted in chunk order. */
  ghost predicate RingOk(c: Config, f: Feed) {
    && f.ring.Ok() && |f.ring.slots| == c.slots
    && 0 <= Released(f) && Released(f) + f.ring.queued == f.submitted <= |c.plan|
    && var q := f.ring.Queue();
       forall k :: 0 <= k < |q| ==> q[k] == Some(c.plan[Released(f) + k])
  }

  ghost predicate SenderOk(f: Feed) {
    && (f.sender.Sending? || f.sender == Sent ==> f.ring.queued > 0)
    && (f.sender.Sending? ==> f.sender.slot == f.ring.head)
  }

  predicate Preparing(p: Producer) { p == AtAcquire || p.Filling? || p == AtEnqueue }

  ghost predicate ProducerOk(c: Config, f: Feed, completed: nat) {
    && f.submitted <= |c.plan| && f.submitted <= completed + c.window
    && f.requestId == c.First() + f.submitted
    && (f.submitted < |c.plan| ==> f.pos == c.plan[f.submitted].pos && f.nextHash == c.plan[f.submitted].prefixHash)
    && (f.submitted < |c.plan| <==> f.pos < c.span.End())
    && (Preparing(f.producer) ==> f.submitted < completed + c.window && f.submitted < |c.plan|)
    && (f.producer.Filling? || f.producer == AtEnqueue ==> f.ring.queued < |f.ring.slots|)
    && (f.producer.Filling? ==> f.producer.slot == f.ring.tail)
    && (f.producer == AtEnqueue ==> f.ring.tail < |f.ring.slots| && f.submitted < |c.plan|
                                    && f.ring.slots[f.ring.tail] == Some(c.plan[f.submitted]))
  }

  ghost predicate FeedOk(c: Config, f: Feed, completed: nat) {
    FeedSane(c, f) && RingOk(c, f) && SenderOk(f) && ProducerOk(c, f, completed)
  }

  function Progress(c: Config, n: nat): (p: seq<nat>)
    ensures |p| == n
  {
    if n == 0 then [] else Progress(c, n - 1) + [ProgressAt(c, n)]
  }

  ghost predicate ReaderOk(c: Config, rd: Reader, last: set<nat>) {
    && rd.completed <= |c.plan| && Ids(c, rd.completed) <= last
    && rd.reported <= rd.completed && rd.emitted == Progress(c, rd.reported)
    && (rd.completed == |c.plan| ==> rd.finalKind == if c.finalLogits then Logits else HiddenState)
    && (rd.done <==> rd.failed || rd.completed == |c.plan|)
  }

  ghost predicate Inv(c: Config, s: State) {
    && c.Valid() && HopsOk(c, s.hops, s.feed.sent)
    && FeedOk(c, s.feed, s.reader.completed)
    && ReaderOk(c, s.reader, Last(s.hops))
  }

  // Preservation: the feed --------------------------------------------------------

  lemma BuiltFrameIsPlanned(c: Config, f: Feed)
    requires c.Planned() && f.submitted < |c.plan| && f.requestId == c.First() + f.submitted
    requires f.pos == c.plan[f.submitted].pos && f.nextHash == c.plan[f.submitted].prefixHash
    ensures f.pos < c.span.End() <= |c.span.prompt| && BuildFrame(c, f) == c.plan[f.submitted]
  {
    c.span.BoundStep(f.submitted);
    c.span.FirstBound(f.submitted);
  }

  lemma FillKeepsFeed(c: Config, f: Feed, rd: Reader, localOk: bool, w: Work)
    requires FeedOk(c, f, rd.completed) && FeedEnabled(c, f, rd, FillSlot(localOk))
    requires w == BuildFrame(c, f) == c.plan[f.submitted]
    ensures FeedOk(c, FeedStep(c, f, rd, FillSlot(localOk)), rd.completed)
  {
    FillIsExclusive(f.ring, w);
    SameQueue(f.ring, f.ring.Cancel());
  }

  /** The position and hash the producer carries to its next chunk are those the plan gives it. */
  ghost predicate Chained(c: Config, i: nat)
    requires i < |c.plan|
  {
    var w := c.plan[i];
    && (i + 1 < |c.plan| ==> c.plan[i + 1].pos == w.pos + |w.tokens| && c.plan[i + 1].prefixHash == w.resultHash)
    && (i + 1 < |c.plan| <==> w.pos + |w.tokens| < c.span.End())
  }

  lemma PlanIsChained(c: Config, i: nat)
    requires c.Planned() && i < |c.plan|
    ensures Chained(c, i)
  {
    c.span.BoundStep(i);
    c.span.BoundStep(i + 1);
    c.span.FrameChains(i);
    assert c.plan[i] == c.span.Frame(i);
    assert i + 1 < |c.plan| ==> c.plan[i + 1] == c.span.Frame(i + 1);
  }

  lemma EnqueueKeepsFeed(c: Config, f: Feed, rd: Reader)
    requires FeedOk(c, f, rd.completed) && FeedEnabled(c, f, rd, EnqueueSlot) && Chained(c, f.submitted)
    ensures FeedOk(c, FeedStep(c, f, rd, EnqueueSlot), rd.completed)
  {
    if f.ring.stop {
      SameQueue(f.ring, f.ring.Cancel());
    } else {
      PublishAppends(f.ring);
    }
  }

  lemma ReleaseKeepsFeed(c: Config, f: Feed, rd: Reader)
    requires FeedOk(c, f, rd.completed) && FeedEnabled(c, f, rd, ReleaseSlot)
    ensures FeedOk(c, FeedStep(c, f, rd, ReleaseSlot), rd.completed)
  {
    ReleaseDropsOldest(f.ring);
  }

  /** The frame the sender writes next is always the next chunk: WORK frames leave in chunk order, once each. */
  lemma NextFrameSent(c: Config, f: Feed)
    requires RingOk(c, f) && SenderOk(f) && f.sender.Sending?
    ensures f.sent < f.submitted <= |c.plan|
    ensures f.sender.slot < |f.ring.slots| && f.ring.slots[f.sender.slot] == Some(c.plan[f.sent])
  {
    assert f.ring.Queue()[0] == f.ring.slots[f.ring.SlotOf(0)];
  }

  lemma SendKeepsFeed(c: Config, f: Feed, rd: Reader, sendOk: bool)
    requires FeedOk(c, f, rd.completed) && FeedEnabled(c, f, rd, SendFrame(sendOk))
    ensures FeedOk(c, FeedStep(c, f, rd, SendFrame(sendOk)), rd.completed)
  {
    NextFrameSent(c, f);
    SameQueue(f.ring, f.ring.SendFailed());
  }

  lemma CheckKeepsFeed(c: Config, f: Feed, rd: Reader)
    requires FeedOk(c, f, rd.completed) && FeedEnabled(c, f, rd, CheckWindow)
    ensures FeedOk(c, FeedStep(c, f, rd, CheckWindow), rd.completed)
  {
    SameQueue(f.ring, f.ring.Cancel());
    SameQueue(f.ring, f.ring.Finish());
  }

  lemma WaitKeepsFeed(c: Config, f: Feed, rd: Reader, a: Action)
    requires FeedOk(c, f, rd.completed) && FeedEnabled(c, f, rd, a) && (a.AcquireSlot? || a.TakeSlot?)
    ensures FeedOk(c, FeedStep(c, f, rd, a), rd.completed)
  {
    SameQueue(f.ring, f.ring.Cancel());
  }

  lemma FeedStepKeepsFeed(c: Config, f: Feed, rd: Reader, a: Action)
    requires c.Planned() && FeedOk(c, f, rd.completed) && FeedEnabled(c, f, rd, a)
    ensures FeedOk(c, FeedStep(c, f, rd, a), rd.completed)
  {
    if a.FillSlot? {
      BuiltFrameIsPlanned(c, f);
      FillKeepsFeed(c, f, rd, a.localOk, BuildFrame(c, f));
    } else if a.EnqueueSlot? {
      PlanIsChained(c, f.submitted);
      EnqueueKeepsFeed(c, f, rd);
    } else if a.CheckWindow? {
      CheckKeepsFeed(c, f, rd);
    } else if a.ReleaseSlot? {
      ReleaseKeepsFeed(c, f, rd);
    } else if a.SendFrame? {
      SendKeepsFeed(c, f, rd, a.sendOk);
    } else {
      WaitKeepsFeed(c, f, rd, a);
    }
  }

  // Preservation: the workers -------------------------------------------------------

  lemma HopMonotone(c: Config, j: nat, h: Hop, up: set<nat>, last: set<nat>, up': set<nat>, last': set<nat>)
    requires HopOk(c, j, h, up, last) && up <= up' && last <= last'
    ensures HopOk(c, j, h, up', last')
  {}

  /** Replacing one hop by another that is fine in its place, and has evaluated no less, keeps the chain. */
  lemma ReplaceHop(c: Config, hops: seq<Hop>, sent: nat, j: nat, h: Hop)
    requires HopsOk(c, hops, sent) && j < c.hops && hops[j].evaluated <= h.evaluated
    requires HopOk(c, j, h, Up(c, hops, sent, j), if j == c.hops - 1 then h.evaluated else Last(hops))
    ensures HopsOk(c, hops[j := h], sent) && Last(hops) <= Last(hops[j := h])
  {
    var hops' := hops[j := h];
    forall i | 0 <= i < c.hops ensures HopAt(c, hops', sent, i) {
      if i != j {
        assert HopAt(c, hops, sent, i);
        HopMonotone(c, i, hops[i], Up(c, hops, sent, i), Last(hops), Up(c, hops', sent, i), Last(hops'));
      }
    }
  }

  lemma MoreSent(c: Config, hops: seq<Hop>, sent: nat)
    requires HopsOk(c, hops, sent)
    ensures HopsOk(c, hops, sent + 1)
  {
    var sent' := sent + 1;
    forall i | 0 <= i < c.hops ensures HopAt(c, hops, sent', i) {
      assert HopAt(c, hops, sent, i);
      HopMonotone(c, i, hops[i], Up(c, hops, sent, i), Last(hops), Up(c, hops, sent', i), Last(hops));
    }
  }

  lemma SendKeepsHops(c: Config, hops: seq<Hop>, sent: nat, w: Work)
    requires c.Valid() && HopsOk(c, hops, sent) && sent < |c.plan| && w == c.plan[sent]
    ensures HopsOk(c, hops[0 := hops[0].(inbox := hops[0].inbox + [w])], sent + 1)
    ensures Last(hops) <= Last(hops[0 := hops[0].(inbox := hops[0].inbox + [w])])
  {
    MoreSent(c, hops, sent);
    assert HopAt(c, hops, sent + 1, 0);
    assert w.requestId in Ids(c, sent + 1);
    ReplaceHop(c, hops, sent + 1, 0, hops[0].(inbox := hops[0].inbox + [w]));
  }

  lemma QueueHop(c: Config, j: nat, h: Hop, a: Action, up: set<nat>, last: set<nat>)
    requires HopOk(c, j, h, up, last) && WorkerEnabled(c, h, a) && (a.Receive? || a.PopJob? || a.TrackRequest?)
    ensures HopOk(c, j, WorkerStep(c, j, h, a), up, last)
    ensures WorkerStep(c, j, h, a).evaluated == h.evaluated
  {}

  lemma EvalHop(c: Config, j: nat, h: Hop, r: (WS.State, WS.Reply), up: set<nat>, last: set<nat>)
    requires HopOk(c, j, h, up, last) && h.hand.Popped?
    requires j + 1 == c.hops ==> last == h.evaluated
    ensures h.evaluated <= AfterEval(h, r).evaluated
    ensures HopOk(c, j, AfterEval(h, r), up, if j + 1 == c.hops then AfterEval(h, r).evaluated else last)
  {}

  lemma ReplyHop(c: Config, j: nat, h: Hop, up: set<nat>)
    requires HopOk(c, j, h, up, h.evaluated) && WorkerEnabled(c, h, ReplyUpstream(j))
    ensures HopOk(c, j, WorkerStep(c, j, h, ReplyUpstream(j)), up, h.evaluated)
  {
    var h' := WorkerStep(c, j, h, ReplyUpstream(j));
    assert ReplyOk(c, j, h.evaluated, h'.replies[|h.replies|]);
  }

  lemma WorkerKeepsHops(c: Config, hops: seq<Hop>, sent: nat, j: nat, a: Action)
    requires HopsOk(c, hops, sent) && j < c.hops && WorkerEnabled(c, hops[j], a)
    requires a.Receive? || a.PopJob? || a.Evaluate? || (a.TrackRequest? && a.j == j) || (a.ReplyUpstream? && a.j == j)
    ensures HopsOk(c, hops[j := WorkerStep(c, j, hops[j], a)], sent)
    ensures Last(hops) <= Last(hops[j := WorkerStep(c, j, hops[j], a)])
  {
    assert HopAt(c, hops, sent, j);
    if a.Evaluate? {
      EvalHop(c, j, hops[j], WS.ProcessWork(c.limits, hops[j].session, hops[j].hand.w, a.e), Up(c, hops, sent, j),
          Last(hops));
    } else if a.ReplyUpstream? {
      ReplyHop(c, j, hops[j], Up(c, hops, sent, j));
    } else {
      QueueHop(c, j, hops[j], a, Up(c, hops, sent, j), Last(hops));
    }
    ReplaceHop(c, hops, sent, j, WorkerStep(c, j, hops[j], a));
  }

  lemma DropReply(c: Config, hops: seq<Hop>, sent: nat, j: nat)
    requires HopsOk(c, hops, sent) && j < c.hops && hops[j].replies != []
    ensures HopsOk(c, hops[j := hops[j].(replies := hops[j].replies[1..])], sent)
    ensures hops[j].replies[0].ok ==> ReplyOk(c, j, Last(hops), hops[j].replies[0])
    ensures Last(hops) == Last(hops[j := hops[j].(replies := hops[j].replies[1..])])
  {
    assert HopAt(c, hops, sent, j);
    assert hops[j].replies[0] in hops[j].replies;
    ReplaceHop(c, hops, sent, j, hops[j].(replies := hops[j].replies[1..]));
  }

  lemma RelayHop(c: Config, j: nat, h: Hop, r: Result, up: set<nat>, last: set<nat>)
    requires HopOk(c, j, h, up, last) && (r.ok ==> ReplyOk(c, j + 1, last, r)) && j + 1 < c.hops
    ensures HopOk(c, j, RelayStep(h, r), up, last)
  {
    if h.pending != [] && r.ok && r.requestId == h.pending[0].id {
      assert h.pending[0] in h.pending;
      assert ReplyOk(c, j, last, RelayStep(h, r).replies[|h.replies|]);
    }
  }

  lemma RelayKeepsInv(c: Config, s: State, j: nat)
    requires Inv(c, s) && Enabled(c, s, Relay(j))
    ensures Inv(c, DoRelay(s, j))
  {
    var r := s.hops[j + 1].replies[0];
    var hops1 := s.hops[j + 1 := s.hops[j + 1].(replies := s.hops[j + 1].replies[1..])];
    DropReply(c, s.hops, s.feed.sent, j + 1);
    assert HopAt(c, hops1, s.feed.sent, j);
    RelayHop(c, j, hops1[j], r, Up(c, hops1, s.feed.sent, j), Last(hops1));
    ReplaceHop(c, hops1, s.feed.sent, j, RelayStep(hops1[j], r));
    assert DoRelay(s, j).hops == hops1[j := RelayStep(hops1[j], r)];
  }

  lemma {:induction false} WithoutNoLonger(q: seq<Request>, id: nat)
    ensures |Without(q, id)| <= |q|
  {
    if q != [] && q[0].id != id {
      WithoutNoLonger(q[1..], id);
    }
  }

  lemma ForwardKeepsInv(c: Config, s: State, j: nat, forwardOk: bool)
    requires Inv(c, s) && Enabled(c, s, ForwardFrame(j, forwardOk))
    ensures Inv(c, DoForward(s, j, forwardOk))
  {
    var h, w := s.hops[j], s.hops[j].hand.w;
    assert HopAt(c, s.hops, s.feed.sent, j) && HopAt(c, s.hops, s.feed.sent, j + 1);
    if forwardOk {
      var hops1 := s.hops[j := h.(hand := Free)];
      ReplaceHop(c, s.hops, s.feed.sent, j, h.(hand := Free));
      ReplaceHop(c, hops1, s.feed.sent, j + 1, hops1[j + 1].(inbox := hops1[j + 1].inbox + [w]));
    } else {
      WithoutNoLonger(h.pending, w.requestId);
      ReplaceHop(c, s.hops, s.feed.sent, j, DoForward(s, j, false).hops[j]);
    }
  }

  lemma {:induction false} EvaluatedChain(c: Config, hops: seq<Hop>, sent: nat, lo: nat, hi: nat)
    requires HopsOk(c, hops, sent) && lo <= hi < c.hops
    ensures hops[hi].evaluated <= hops[lo].evaluated <= Ids(c, sent)
    decreases hi
  {
    assert HopAt(c, hops, sent, hi);
    if 0 < hi {
      EvaluatedChain(c, hops, sent, if lo < hi then lo else hi - 1, hi - 1);
    }
  }

  lemma ReadKeepsInv(c: Config, s: State)
    requires Inv(c, s) && Enabled(c, s, ReadResult)
    ensures Inv(c, DoRead(c, s))
  {
    var r := s.hops[0].replies[0];
    DropReply(c, s.hops, s.feed.sent, 0);
    if AcceptsResult(c, s.reader, r) {
      assert Ids(c, s.reader.completed + 1) == Ids(c, s.reader.completed) + {r.requestId};
    }
  }

  // Preservation: every action --------------------------------------------------------

  lemma StartInv(c: Config, sessions: seq<WS.State>)
    requires c.Valid() && c.Planned() && |sessions| == c.hops
    ensures Inv(c, Start(c, sessions))
  {
    c.span.Ends();
    c.span.BoundStep(0);
    assert c.plan[0] == c.span.Frame(0);
    var s := Start(c, sessions);
    forall j | 0 <= j < c.hops ensures HopAt(c, s.hops, 0, j) {}
  }

  predicate OnFeed(a: Action) {
    a.CheckWindow? || a.AcquireSlot? || a.FillSlot? || a.EnqueueSlot? || a.TakeSlot? || a.SendFrame? || a.ReleaseSlot?
  }

  predicate OnWorker(a: Action) {
    a.Receive? || a.PopJob? || a.Evaluate? || a.TrackRequest? || a.ReplyUpstream?
  }

  lemma FeedKeepsInv(c: Config, s: State, a: Action)
    requires c.Planned() && Inv(c, s) && Enabled(c, s, a) && OnFeed(a) && !a.SendFrame?
    ensures Inv(c, Apply(c, s, a))
  {
    FeedStepKeepsFeed(c, s.feed, s.reader, a);
    assert FeedStep(c, s.feed, s.reader, a).sent == s.feed.sent;
  }

  lemma SendKeepsInv(c: Config, s: State, a: Action)
    requires c.Planned() && Inv(c, s) && Enabled(c, s, a) && a.SendFrame?
    ensures Inv(c, Apply(c, s, a))
  {
    FeedStepKeepsFeed(c, s.feed, s.reader, a);
    NextFrameSent(c, s.feed);
    SendKeepsHops(c, s.hops, s.feed.sent, c.plan[s.feed.sent]);
  }

  lemma WorkerKeepsInv(c: Config, s: State, j: nat, a: Action)
    requires Inv(c, s) && Enabled(c, s, a) && OnWorker(a) && j == a.j
    ensures Apply(c, s, a) == s.(hops := s.hops[j := WorkerStep(c, j, s.hops[j], a)])
    ensures Inv(c, Apply(c, s, a))
  {
    WorkerKeepsHops(c, s.hops, s.feed.sent, j, a);
  }

  lemma StepKeepsInv(c: Config, s: State, a: Action)
    requires c.Planned() && Inv(c, s) && Enabled(c, s, a)
    ensures Inv(c, Apply(c, s, a))
  {
    if a.SendFrame? {
      SendKeepsInv(c, s, a);
    } else if OnFeed(a) {
      FeedKeepsInv(c, s, a);
    } else if OnWorker(a) {
      WorkerKeepsInv(c, s, a.j, a);
    } else if a.Relay? {
      RelayKeepsInv(c, s, a.j);
    } else if a.ForwardFrame? {
      ForwardKeepsInv(c, s, a.j, a.forwardOk);
    } else if a.ReadResult? {
      ReadKeepsInv(c, s);
    }
  }

  // What every run keeps ---------------------------------------------------------

  /** A run: states related by enabled actions, from a start with any worker sessions. */
  ghost predicate IsRun(c: Config, sessions: seq<WS.State>, states: seq<State>, actions: seq<Action>)
    requires c.Valid() && c.Planned()
  {
    && |sessions| == c.hops && |states| == |actions| + 1 && states[0] == Start(c, sessions)
    && forall i :: 0 <= i < |actions| ==> IsStep(c, states[i], actions[i], states[i + 1])
  }

  ghost predicate IsStep(c: Config, s: State, a: Action, s': State) {
    |s.hops| == c.hops && FeedSane(c, s.feed) && c.Valid() && Enabled(c, s, a) && s' == Apply(c, s, a)
  }

  lemma {:induction false} RunKeepsInv(c: Config, sessions: seq<WS.State>, states: seq<State>, actions: seq<Action>,
        n: nat)
    requires c.Valid() && c.Planned() && IsRun(c, sessions, states, actions) && n < |states|
    ensures Inv(c, states[n])
  {
    if n == 0 {
      StartInv(c, sessions);
    } else {
      RunKeepsInv(c, sessions, states, actions, n - 1);
      assert IsStep(c, states[n - 1], actions[n - 1], states[n]);
      StepKeepsInv(c, states[n - 1], actions[n - 1]);
    }
  }

  /** The staircase, as sets of request ids and as counts: what the reader accepted was evaluated by
      the last worker, which evaluated nothing its upstream had not, down to the wire; what was sent
      was submitted, and no more than one window beyond what was accepted. */
  ghost predicate IsStaircase(c: Config, s: State) {
    && 0 < |s.hops| == c.hops
    && Ids(c, s.reader.completed) <= s.hops[c.hops - 1].evaluated
    && (forall lo, hi {:trigger s.hops[lo], s.hops[hi]} :: 0 <= lo <= hi < c.hops ==>
          s.hops[hi].evaluated <= s.hops[lo].evaluated <= Ids(c, s.feed.sent))
    && (forall j :: 0 <= j < c.hops ==> s.reader.completed <= |s.hops[j].evaluated| <= s.feed.sent)
    && s.feed.sent <= s.feed.submitted <= s.reader.completed + c.window
  }

  lemma Staircase(c: Config, s: State)
    requires Inv(c, s)
    ensures IsStaircase(c, s)
  {
    forall lo, hi | 0 <= lo <= hi < c.hops
      ensures s.hops[hi].evaluated <= s.hops[lo].evaluated <= Ids(c, s.feed.sent)
    {
      EvaluatedChain(c, s.hops, s.feed.sent, lo, hi);
    }
    forall j | 0 <= j < c.hops ensures s.reader.completed <= |s.hops[j].evaluated| <= s.feed.sent {
      EvaluatedChain(c, s.hops, s.feed.sent, j, c.hops - 1);
      IdsCount(c, s.reader.completed);
      IdsCount(c, s.feed.sent);
      SubsetCount(Ids(c, s.reader.completed), s.hops[j].evaluated);
      SubsetCount(s.hops[j].evaluated, Ids(c, s.feed.sent));
    }
  }

  /** The staircase holds in every state of every interleaving. */
  lemma RunsAreStaircases(c: Config, sessions: seq<WS.State>, states: seq<State>, actions: seq<Action>)
    requires c.Valid() && c.Planned() && IsRun(c, sessions, states, actions)
    ensures forall n :: 0 <= n < |states| ==> IsStaircase(c, states[n])
  {
    forall n | 0 <= n < |states| ensures IsStaircase(c, states[n]) {
      RunKeepsInv(c, sessions, states, actions, n);
      Staircase(c, states[n]);
    }
  }

  lemma {:induction false} IdsCount(c: Config, n: nat)
    ensures |Ids(c, n)| == n
  {
    if n == 0 {
      assert Ids(c, 0) == {};
    } else {
      IdsCount(c, n - 1);
      assert Ids(c, n) == Ids(c, n - 1) + {c.First() + n - 1};
    }
  }

  lemma {:induction false} SubsetCount(a: set<nat>, b: set<nat>)
    requires a <= b
    ensures |a| <= |b|
    decreases a
  {
    if a != {} {
      var x :| x in a;
      SubsetCount(a - {x}, b - {x});
    }
  }

  /** The reply the reader accepts for chunk i carries request id first+i and the planned hash of chunk i, every
      worker has evaluated chunks 0..i, and the reply passed every hop exactly once. It is a bare acknowledgement
      exactly when the frame asked for one, never for the last chunk; otherwise it brings logits from a route with
      an output head and the hidden state from one without. */
  ghost predicate AcceptedInStep(c: Config, s: State, r: Result) {
    var i := s.reader.completed;
    && |s.hops| == c.hops && i < |c.plan|
    && r.requestId == c.First() + i && r.hash == c.plan[i].resultHash && r.trail == Trail(c.hops, 0)
    && (r.kind == Ack <==> c.plan[i].ackOnly)
    && (r.kind == Logits <==> !c.plan[i].ackOnly && c.finalLogits)
    && (r.kind == HiddenState <==> !c.plan[i].ackOnly && !c.finalLogits)
    && (i + 1 == |c.plan| ==> r.kind != Ack)
    && forall j :: 0 <= j < c.hops ==> Ids(c, i + 1) <= s.hops[j].evaluated
  }

  lemma AcceptedChunkWasEvaluatedEverywhere(c: Config, s: State)
    requires Inv(c, s) && Enabled(c, s, ReadResult)
    requires AcceptsResult(c, s.reader, s.hops[0].replies[0])
    ensures AcceptedInStep(c, s, s.hops[0].replies[0])
  {
    var i, r := s.reader.completed, s.hops[0].replies[0];
    DropReply(c, s.hops, s.feed.sent, 0);
    assert Ids(c, i + 1) == Ids(c, i) + {r.requestId};
    forall j | 0 <= j < c.hops ensures Ids(c, i + 1) <= s.hops[j].evaluated {
      EvaluatedChain(c, s.hops, s.feed.sent, j, c.hops - 1);
    }
  }

  /** So it is whenever a step of any run lets the reader accept a reply. */
  lemma RunsAcceptInStep(c: Config, sessions: seq<WS.State>, states: seq<State>, actions: seq<Action>, n: nat)
    requires c.Valid() && c.Planned() && IsRun(c, sessions, states, actions) && n < |actions| && actions[n].ReadResult?
    requires states[n + 1].reader.completed > states[n].reader.completed
    ensures states[n].hops != [] && states[n].hops[0].replies != []
    ensures AcceptedInStep(c, states[n], states[n].hops[0].replies[0])
  {
    RunKeepsInv(c, sessions, states, actions, n);
    assert IsStep(c, states[n], actions[n], states[n + 1]);
    AcceptedChunkWasEvaluatedEverywhere(c, states[n]);
  }

  /** The reader takes a reply exactly when it reports success for the next chunk: hash and kind are then right. */
  lemma AcceptsExactly(c: Config, s: State)
    requires Inv(c, s) && Enabled(c, s, ReadResult)
    ensures var r := s.hops[0].replies[0];
            AcceptsResult(c, s.reader, r) <==> r.ok && r.requestId == c.First() + s.reader.completed
  {
    DropReply(c, s.hops, s.feed.sent, 0);
  }

  /** Whatever reply arrives, planned or not: the reader takes it exactly when it reports success for the next chunk,
      with the planned hash, and is of a kind it can use. An acknowledgement will not do for the last chunk, nor a
      hidden state on a route with an output head. Any other reply makes it fail. */
  lemma ReaderChecks(c: Config, rd: Reader, r: Result)
    ensures AcceptsResult(c, rd, r) <==>
              && rd.completed < |c.plan| && r.ok && r.requestId == c.First() + rd.completed
              && r.hash == c.plan[rd.completed].resultHash
              && !(r.kind == Ack && rd.completed + 1 == |c.plan|) && !(r.kind == HiddenState && c.finalLogits)
    ensures var after := ReadStep(c, rd, r);
            if AcceptsResult(c, rd, r)
            then after.completed == rd.completed + 1 && after.failed == rd.failed
                 && (after.done <==> rd.completed + 1 == |c.plan|)
            else after.completed == rd.completed && after.failed && after.done
  {}

  /** In no run does the reader finish on anything but the result the coordinator needs: logits from a route with an
      output head, the hidden state from one without. */
  lemma RunsFinishOnAResult(c: Config, sessions: seq<WS.State>, states: seq<State>, actions: seq<Action>, n: nat)
    requires c.Valid() && c.Planned() && IsRun(c, sessions, states, actions) && n < |states|
    requires states[n].reader.completed == |c.plan|
    ensures states[n].reader.finalKind == if c.finalLogits then Logits else HiddenState
    ensures !states[n].reader.failed ==> states[n].reader.done
  {
    RunKeepsInv(c, sessions, states, actions, n);
  }

  /** A failed reader stays failed and accepts nothing more; it fails on a reply that reports an error or answers
      another request than the next one, and on no other. */
  lemma ReaderStep(c: Config, s: State, a: Action, s': State)
    requires Inv(c, s) && IsStep(c, s, a, s')
    ensures s.reader.failed ==> s'.reader.failed && s'.reader.completed == s.reader.completed
    ensures s.reader.completed <= s'.reader.completed <= s.reader.completed + 1
    ensures !s.reader.failed && s'.reader.failed <==>
              a.ReadResult?
              && (s.hops[0].replies[0].ok ==> s.hops[0].replies[0].requestId != c.First() + s.reader.completed)
  {
    if a.ReadResult? { AcceptsExactly(c, s); }
  }

  lemma RunReaderStep(c: Config, sessions: seq<WS.State>, states: seq<State>, actions: seq<Action>, k: nat)
    requires c.Valid() && c.Planned() && IsRun(c, sessions, states, actions) && k < |actions|
    ensures states[k].reader.failed ==>
              states[k + 1].reader.failed && states[k + 1].reader.completed == states[k].reader.completed
  {
    RunKeepsInv(c, sessions, states, actions, k);
    assert IsStep(c, states[k], actions[k], states[k + 1]);
    ReaderStep(c, states[k], actions[k], states[k + 1]);
  }

  /** Once the reader has failed, no run accepts another chunk. */
  lemma {:induction false} FailureIsFinal(c: Config, sessions: seq<WS.State>, states: seq<State>, actions: seq<Action>,
        m: nat, n: nat)
    requires c.Valid() && c.Planned() && IsRun(c, sessions, states, actions) && m <= n < |states|
    requires states[m].reader.failed
    ensures states[n].reader.failed && states[n].reader.completed == states[m].reader.completed
    decreases n
  {
    if m < n {
      var k := n - 1;
      FailureIsFinal(c, sessions, states, actions, m, k);
      RunReaderStep(c, sessions, states, actions, k);
    }
  }

  lemma {:induction false} TrailLists(hops: nat, j: nat)
    requires j < hops
    ensures |Trail(hops, j)| == hops - j
    ensures forall k :: 0 <= k < hops - j ==> Trail(hops, j)[k] == hops - 1 - k
    decreases hops - j
  {
    if j + 1 < hops {
      TrailLists(hops, j + 1);
    }
  }

  /** The producer fills its slot outside the lock while the sender reads another one. */
  lemma SlotsAreExclusive(c: Config, s: State)
    requires Inv(c, s) && s.feed.producer.Filling? && s.feed.sender.Sending?
    ensures s.feed.producer.slot != s.feed.sender.slot
    ensures s.feed.producer.slot == (s.feed.ring.head + s.feed.ring.queued) % |s.feed.ring.slots|
  {
    WrapIsMod(s.feed.ring.head + s.feed.ring.queued, |s.feed.ring.slots|);
  }

  /** The producer waits exactly while a full window is unanswered with more to submit and the reader going on, or
      while the ring is full; the sender exactly while nothing is queued and more may come. */
  lemma WaitsExactly(c: Config, s: State)
    requires Inv(c, s)
    ensures s.feed.producer == AtWindow ==>
              (!Enabled(c, s, CheckWindow) <==>
                 && s.feed.submitted == s.reader.completed + c.window && s.feed.submitted < |c.plan|
                 && !s.reader.done)
    ensures s.feed.producer == AtAcquire ==>
              (!Enabled(c, s, AcquireSlot) <==> s.feed.ring.queued == c.slots && !s.feed.ring.stop)
    ensures s.feed.sender == Waiting ==>
              (!Enabled(c, s, TakeSlot) <==> s.feed.ring.Queue() == [] && !s.feed.ring.done && !s.feed.ring.stop)
  {}

  /** Chunk number sent is exactly the frame that goes on the wire next, so WORK frames leave in
      chunk order and each chunk at most once. */
  lemma SendsInChunkOrder(c: Config, s: State)
    requires Inv(c, s) && Enabled(c, s, SendFrame(true))
    ensures s.feed.sent < |c.plan|
    ensures Apply(c, s, SendFrame(true)).hops[0].inbox == s.hops[0].inbox + [c.plan[s.feed.sent]]
    ensures Apply(c, s, SendFrame(true)).feed.sent == s.feed.sent + 1
  {
    NextFrameSent(c, s.feed);
  }

  /** Reported progress rises strictly to the span end. */
  lemma {:induction false} ProgressRises(c: Config, n: nat)
    requires c.Valid() && c.Planned() && n <= |c.plan|
    ensures forall k :: 0 <= k < n ==> Progress(c, n)[k] == c.span.Bound(k + 1)
    ensures forall k :: 0 < k < n ==> Progress(c, n)[k - 1] < Progress(c, n)[k]
    ensures n == |c.plan| ==> Progress(c, n)[n - 1] == c.span.End()
  {
    if n > 0 {
      ProgressRises(c, n - 1);
      c.span.BoundStep(n - 1);
      assert ProgressAt(c, n) == c.span.Bound(n);
    }
    if n == |c.plan| {
      c.span.Ends();
    }
  }
}
