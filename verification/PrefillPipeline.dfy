/** Pipelined prefill as a state machine: a producer and a sender thread share a slot ring, a
    chain of workers each receives, evaluates, forwards and relays over FIFO channels, and a
    result reader paces the producer through the flow window. Every action is one region the
    program runs under one lock, or one channel operation; a thread that never acts again is a
    thread whose connection closed. */
module PrefillPipeline {
  import opened TokenHash
  import opened PrefillPlan
  import opened SenderRing
  import opened Forwarder
  import WS = WorkerSession
  import opened Wrappers

  /** plan holds the frame of every chunk of the span; the reader takes its expected hashes from it. */
  datatype Config = Config(span: Span, plan: seq<Work>, hops: nat, window: nat, slots: nat, prefetch: nat, forward: nat,
                           finalLogits: bool, limits: WS.Limits)
  {
    ghost predicate Valid() {
      && 0 < hops && 0 < window && 0 < slots && 0 < prefetch && 0 < forward && 0 < |plan|
      && (forall i :: 0 <= i < |plan| ==> plan[i].requestId == First() + i)
      && (forall i :: 0 <= i < |plan| && plan[i].ackOnly ==> i + 1 < |plan|)
    }

    /** The plan is the one the span prescribes. */
    ghost predicate Planned() {
      span.Valid() && |plan| == span.Count() && forall i :: 0 <= i < |plan| ==> plan[i] == span.Frame(i)
    }

    function First(): nat { span.firstRequest }

    /** A plan prescribed by a span has contiguous request ids and asks only inner chunks for an acknowledgement. */
    lemma PlannedIsValid()
      requires Planned() && 0 < hops && 0 < window && 0 < slots && 0 < prefetch && 0 < forward
      ensures Valid()
    {
      span.Ends();
      forall i | 0 <= i < |plan| ensures plan[i].requestId == First() + i && (plan[i].ackOnly ==> i + 1 < |plan|) {
        assert plan[i] == span.Frame(i);
        span.BoundStep(i + 1);
      }
    }
  }

  datatype Kind = Ack | HiddenState | Logits

  /** A RESULT frame; trail lists the hops whose telemetry records it carries, in wire order. */
  datatype Result = Result(requestId: nat, hash: U64, ok: bool, kind: Kind, trail: seq<nat>)

  datatype Hand = Free | Popped(w: Work) | Computed(w: Work) | Tracked(w: Work)

  /** evaluated, taken and answered are histories: the requests the engine evaluated, those taken from the prefetch
      queue, and those a reply of any kind was sent upstream for. */
  datatype Hop = Hop(inbox: seq<Work>, jobs: seq<Work>, hand: Hand, pending: seq<Request>, replies: seq<Result>,
                     session: WS.State, relaying: bool, evaluated: set<nat>, taken: set<nat>, answered: set<nat>,
                     received: nat, popped: nat, relayed: nat)
  {
    function Reply(r: Result): Hop { this.(replies := replies + [r], answered := answered + {r.requestId}) }
  }

  datatype Producer = AtWindow | AtAcquire | Filling(slot: nat) | AtEnqueue | Finished | Stopped
  datatype Sender = Waiting | Sending(slot: nat) | Sent | Exited

  /** The coordinator's sending side: producer, slot ring and sender thread. */
  datatype Feed = Feed(producer: Producer, pos: nat, nextHash: U64, requestId: nat, submitted: nat,
                       ring: Ring, sender: Sender, sent: nat)

  /** The result reader and the progress it lets the producer report; finalKind is the kind of the last chunk's
      result, once there is one. */
  datatype Reader = Reader(completed: nat, done: bool, failed: bool, reported: nat, emitted: seq<nat>, finalKind: Kind)

  datatype State = State(feed: Feed, hops: seq<Hop>, reader: Reader)

  datatype Action =
    | CheckWindow | AcquireSlot | FillSlot(localOk: bool) | EnqueueSlot | ReportProgress
    | TakeSlot | SendFrame(sendOk: bool) | ReleaseSlot
    | Receive(j: nat) | PopJob(j: nat) | Evaluate(j: nat, e: WS.Engine)
    | TrackRequest(j: nat) | ForwardFrame(j: nat, forwardOk: bool) | ReplyUpstream(j: nat) | Relay(j: nat)
    | ReadResult

  function NewHop(session: WS.State): Hop {
    Hop([], [], Free, [], [], session, true, {}, {}, {}, 0, 0, 0)
  }

  function Start(c: Config, sessions: seq<WS.State>): State
    requires c.span.start <= |c.span.prompt|
  {
    State(Feed(AtWindow, c.span.start, Prefix(c.span.prompt[..c.span.start]), c.First(), 0, Empty(c.slots), Waiting, 0),
          seq(|sessions|, i requires 0 <= i < |sessions| => NewHop(sessions[i])),
          Reader(0, false, false, 0, [], Ack))
  }

  // Actions -----------------------------------------------------------------

  predicate FeedEnabled(c: Config, f: Feed, r: Reader, a: Action) {
    match a
    case CheckWindow =>
      f.producer == AtWindow && (f.pos >= c.span.End() || r.done || f.submitted < r.completed + c.window)
    case AcquireSlot => f.producer == AtAcquire && f.ring.CanAcquire()
    case FillSlot(_) => f.producer.Filling? && f.producer.slot < |f.ring.slots| && f.pos < c.span.End()
        && f.submitted < |c.plan|
    case EnqueueSlot => f.producer == AtEnqueue && f.ring.tail < |f.ring.slots| && f.ring.slots[f.ring.tail].Some?
    case TakeSlot => f.sender == Waiting && f.ring.CanTake()
    case SendFrame(_) => f.sender.Sending? && f.sender.slot < |f.ring.slots| && f.ring.slots[f.sender.slot].Some?
    case ReleaseSlot => f.sender == Sent && 0 < f.ring.queued
    case _ => false
  }

  predicate WorkerEnabled(c: Config, h: Hop, a: Action) {
    match a
    case Receive(_) => h.inbox != [] && |h.jobs| < c.prefetch
    case PopJob(_) => h.hand == Free && h.jobs != []
    case Evaluate(_, _) => h.hand.Popped?
    case TrackRequest(j) => j + 1 < c.hops && h.hand.Computed? && (!h.relaying || |h.pending| < c.forward)
    case ReplyUpstream(j) => j + 1 == c.hops && h.hand.Computed?
    case _ => false
  }

  predicate Enabled(c: Config, s: State, a: Action)
    requires |s.hops| == c.hops
  {
    match a
    case ReportProgress => s.feed.producer in {AtWindow, Finished} && s.reader.reported < s.reader.completed
    case ForwardFrame(j, _) => j + 1 < c.hops && s.hops[j].hand.Tracked?
    case Relay(j) => j + 1 < c.hops && s.hops[j].relaying && s.hops[j + 1].replies != []
    case ReadResult => !s.reader.done && 0 < c.hops && s.hops[0].replies != []
    case Receive(j) => j < c.hops && WorkerEnabled(c, s.hops[j], a)
    case PopJob(j) => j < c.hops && WorkerEnabled(c, s.hops[j], a)
    case Evaluate(j, _) => j < c.hops && WorkerEnabled(c, s.hops[j], a)
    case TrackRequest(j) => j < c.hops && WorkerEnabled(c, s.hops[j], a)
    case ReplyUpstream(j) => j < c.hops && WorkerEnabled(c, s.hops[j], a)
    case _ => 0 < c.hops && FeedEnabled(c, s.feed, s.reader, a)
  }

  /** The frame the producer puts in its slot, from its own running position and hash. */
  function BuildFrame(c: Config, f: Feed): Work
    requires f.pos <= c.span.End() <= |c.span.prompt| && f.submitted < |c.plan|
  {
    var remaining := c.span.End() - f.pos;
    var chunk := if remaining < c.span.cap then remaining else c.span.cap;
    Work(f.requestId, f.pos, c.span.prompt[f.pos..f.pos + chunk], f.nextHash, c.plan[f.submitted].resultHash,
         c.span.resetFirst && f.pos == c.span.start, c.span.ackEnabled && f.pos + chunk < c.span.End())
  }

  /** Progress the producer reports for its k-th completed chunk. */
  function ProgressAt(c: Config, k: nat): nat {
    var rel := if k * c.span.cap > c.span.n then c.span.n else k * c.span.cap;
    if c.span.start + rel > |c.span.prompt| then |c.span.prompt| else c.span.start + rel
  }

  function KindFor(c: Config, w: Work): Kind {
    if w.ackOnly then Ack else if c.finalLogits then Logits else HiddenState
  }

  function ErrorResult(requestId: nat): Result { Result(requestId, 0, false, Ack, []) }

  function StopAll(f: Feed): Feed { f.(producer := Stopped, ring := f.ring.Cancel()) }

  /** What the feed needs to be defined. */
  ghost predicate FeedSane(c: Config, f: Feed) { c.span.End() <= |c.span.prompt| && 0 < |f.ring.slots| }

  /** The producer and sender threads; the slot is filled through the index acquired earlier. */
  function FeedStep(c: Config, f: Feed, r: Reader, a: Action): Feed
    requires FeedSane(c, f) && FeedEnabled(c, f, r, a)
  {
    if a.CheckWindow? then
      if f.pos >= c.span.End() then f.(producer := Finished, ring := f.ring.Finish())
      else if r.done then StopAll(f)
      else f.(producer := AtAcquire)
    else if a.AcquireSlot? then
      var slot := f.ring.Acquire();
      if slot.None? then StopAll(f) else f.(producer := Filling(slot.value))
    else if a.FillSlot? then
      if !a.localOk then StopAll(f)
      else f.(producer := AtEnqueue, ring := f.ring.(slots := f.ring.slots[f.producer.slot := Some(BuildFrame(c, f))]))
    else if a.EnqueueSlot? then
      var w := f.ring.slots[f.ring.tail].value;
      if f.ring.stop then StopAll(f)
      else f.(producer := AtWindow, ring := f.ring.Publish(), requestId := f.requestId + 1,
          submitted := f.submitted + 1,
              nextHash := w.resultHash, pos := f.pos + |w.tokens|)
    else if a.TakeSlot? then
      var slot := f.ring.Take();
      if slot.None? then f.(sender := Exited) else f.(sender := Sending(slot.value))
    else if a.SendFrame? then
      if a.sendOk then f.(sender := Sent, sent := f.sent + 1)
      else f.(sender := Exited, ring := f.ring.SendFailed())
    else
      f.(sender := Waiting, ring := f.ring.Release())
  }

  /** A refused or failed frame is answered with an error. */
  function AfterEval(h: Hop, r: (WS.State, WS.Reply)): Hop
    requires h.hand.Popped?
  {
    var w := h.hand.w;
    if r.1 == WS.Evaluated then h.(session := r.0, hand := Computed(w), evaluated := h.evaluated + {w.requestId})
    else h.(session := r.0, hand := Free).Reply(ErrorResult(w.requestId))
  }

  /** A worker action on its own queues and session. */
  function WorkerStep(c: Config, j: nat, h: Hop, a: Action): Hop
    requires WorkerEnabled(c, h, a)
  {
    if a.Receive? then
      h.(inbox := h.inbox[1..], jobs := h.jobs + [h.inbox[0]], received := h.received + 1)
    else if a.PopJob? then
      h.(jobs := h.jobs[1..], hand := Popped(h.jobs[0]), popped := h.popped + 1,
         taken := h.taken + {h.jobs[0].requestId})
    else
      var w := h.hand.w;
      if a.Evaluate? then AfterEval(h, WS.ProcessWork(c.limits, h.session, w, a.e))
      else if a.TrackRequest? then
        if !h.relaying then h.(hand := Free).Reply(ErrorResult(w.requestId))
        else h.(hand := Tracked(w), pending := h.pending + [Request(w.requestId, j, 0)])
      else
        h.(hand := Free, relayed := h.relayed + 1)
        .Reply(Result(w.requestId, w.resultHash, true, KindFor(c, w), [j]))
  }

  /** The relay thread takes one reply from downstream: it answers the oldest pending request, and
      a reply that does not match closes the forwarder. */
  function RelayStep(h: Hop, r: Result): Hop {
    if h.pending == [] then h.(relaying := false)
    else
      var oldest := h.pending[0];
      if r.requestId != oldest.id then
        h.(pending := h.pending[1..], relaying := false).Reply(ErrorResult(oldest.id))
      else
        h.(pending := h.pending[1..], relayed := h.relayed + 1).Reply(r.(trail := r.trail + [oldest.hop]))
  }

  function DoRelay(s: State, j: nat): State
    requires j + 1 < |s.hops| && s.hops[j + 1].replies != []
  {
    var down := s.hops[j + 1];
    s.(hops := s.hops[j := RelayStep(s.hops[j], down.replies[0])][j + 1 := down.(replies := down.replies[1..])])
  }

  /** A frame that cannot be sent is taken back out of the pending queue and answered with an error. */
  function DoForward(s: State, j: nat, forwardOk: bool): State
    requires j + 1 < |s.hops| && s.hops[j].hand.Tracked?
  {
    var h, w := s.hops[j], s.hops[j].hand.w;
    if !forwardOk then
      s.(hops := s.hops[j :=
           h.(hand := Free, pending := Without(h.pending, w.requestId)).Reply(ErrorResult(w.requestId))])
    else
      var down := s.hops[j + 1];
      s.(hops := s.hops[j := h.(hand := Free)][j + 1 := down.(inbox := down.inbox + [w])])
  }

  /** Checks the reader makes before it counts a chunk as completed. */
  predicate AcceptsResult(c: Config, rd: Reader, r: Result) {
    var final := rd.completed + 1 == |c.plan|;
    && rd.completed < |c.plan|
    && r.ok
    && r.requestId == c.First() + rd.completed
    && r.hash == c.plan[rd.completed].resultHash
    && (r.kind == Logits || (!c.finalLogits && r.kind == HiddenState) || (!final && r.kind == Ack))
  }

  function ReadStep(c: Config, rd: Reader, r: Result): Reader {
    if AcceptsResult(c, rd, r)
    then
      var final := rd.completed + 1 == |c.plan|;
      rd.(completed := rd.completed + 1, done := final, finalKind := if final then r.kind else rd.finalKind)
    else rd.(done := true, failed := true)
  }

  function DoRead(c: Config, s: State): State
    requires 0 < |s.hops| && s.hops[0].replies != []
  {
    s.(hops := s.hops[0 := s.hops[0].(replies := s.hops[0].replies[1..])],
       reader := ReadStep(c, s.reader, s.hops[0].replies[0]))
  }

  function DoSend(s: State, feed: Feed, w: Work): State
    requires 0 < |s.hops|
  {
    s.(feed := feed, hops := s.hops[0 := s.hops[0].(inbox := s.hops[0].inbox + [w])])
  }

  function Report(c: Config, rd: Reader): Reader {
    rd.(reported := rd.reported + 1, emitted := rd.emitted + [ProgressAt(c, rd.reported + 1)])
  }

  function Apply(c: Config, s: State, a: Action): State
    requires |s.hops| == c.hops && FeedSane(c, s.feed) && Enabled(c, s, a)
  {
    match a
    case ReportProgress => s.(reader := Report(c, s.reader))
    case Relay(j) => DoRelay(s, j)
    case ForwardFrame(j, forwardOk) => DoForward(s, j, forwardOk)
    case ReadResult => DoRead(c, s)
    case Receive(j) => s.(hops := s.hops[j := WorkerStep(c, j, s.hops[j], a)])
    case PopJob(j) => s.(hops := s.hops[j := WorkerStep(c, j, s.hops[j], a)])
    case Evaluate(j, _) => s.(hops := s.hops[j := WorkerStep(c, j, s.hops[j], a)])
    case TrackRequest(j) => s.(hops := s.hops[j := WorkerStep(c, j, s.hops[j], a)])
    case ReplyUpstream(j) => s.(hops := s.hops[j := WorkerStep(c, j, s.hops[j], a)])
    case SendFrame(sendOk) =>
      var feed := FeedStep(c, s.feed, s.reader, a);
      if sendOk then DoSend(s, feed, s.feed.ring.slots[s.feed.sender.slot].value) else s.(feed := feed)
    case _ => s.(feed := FeedStep(c, s.feed, s.reader, a))
  }
}
