/** The worker side of a session: the stored prefix hash, its validity flag and the engine's
    token timeline, through WORK, RESET, failed evaluation and snapshot restore. */
module WorkerSession {
  import opened TokenHash
  import opened PrefillPlan

  /** What the worker was started with. */
  datatype Limits = Limits(ctxSize: nat, vocab: nat)

  /** How the engine answers; a failed call may leave any timeline behind, a failed reset leaves it as it was. */
  datatype EngineCall = Succeeds | Fails(left: seq<Token>)
  datatype Engine = Engine(resetOk: bool, call: EngineCall)

  datatype Reply =
    | Evaluated
    | NoTokens | SpanExceedsContext | TokenOutsideVocabulary | HashMetadataMismatch
    | ResetFailed | PrefixMismatch | EngineFailed
    | Restored | RestoreRefused

  datatype State = State(tokenHash: U64, valid: bool, timeline: seq<Token>)

  /** The stored hash, when it is trusted, is the hash of the timeline. */
  ghost predicate Sound(s: State) { s.valid ==> s.tokenHash == Prefix(s.timeline) }

  /** A session entry is allocated zeroed. */
  const FRESH := State(0, false, [])

  predicate TokenOk(l: Limits, t: Token) { t <= 0x7fff_ffff && t < l.vocab }

  /** Checks made on the frame alone, before any session is touched. */
  function FrameCheck(l: Limits, w: Work): Reply {
    if w.tokens == [] then NoTokens
    else if w.pos > l.ctxSize || |w.tokens| > l.ctxSize - w.pos then SpanExceedsContext
    else if exists t :: t in w.tokens && !TokenOk(l, t) then TokenOutsideVocabulary
    else if UpdateSpan(w.prefixHash, w.tokens) != w.resultHash then HashMetadataMismatch
    else Evaluated
  }

  /** Session state once a reset or a lazy rehash has made the stored hash current. */
  function Refreshed(s: State, w: Work): State {
    if w.reset then State(INIT, true, [])
    else if !s.valid then State(Prefix(s.timeline), true, s.timeline)
    else s
  }

  function ProcessWork(l: Limits, s: State, w: Work, e: Engine): (State, Reply) {
    var check := FrameCheck(l, w);
    if check != Evaluated then (s, check)
    else if w.reset && !e.resetOk then (s, ResetFailed)
    else
      var s1 := Refreshed(s, w);
      if s1.tokenHash != w.prefixHash then (s1, PrefixMismatch)
      else match e.call
        case Succeeds => (State(w.resultHash, true, s1.timeline + w.tokens), Evaluated)
        case Fails(left) => (State(s1.tokenHash, false, left), EngineFailed)
  }

  function RestoreSnapshot(l: Limits, s: State, tokens: seq<Token>, claimed: U64, call: EngineCall): (State, Reply) {
    if |tokens| > l.ctxSize then (s, RestoreRefused)
    else if exists t :: t in tokens && !TokenOk(l, t) then (s, RestoreRefused)
    else if Prefix(tokens) != claimed then (s, RestoreRefused)
    else match call
      case Succeeds => (State(claimed, true, tokens), Restored)
      case Fails(left) => (State(s.tokenHash, false, left), EngineFailed)
  }

  datatype Event =
    | WorkFrame(w: Work, e: Engine)
    | SnapshotLoad(tokens: seq<Token>, claimed: U64, call: EngineCall)

  function Step(l: Limits, s: State, ev: Event): (State, Reply) {
    match ev
    case WorkFrame(w, e) => ProcessWork(l, s, w, e)
    case SnapshotLoad(tokens, claimed, call) => RestoreSnapshot(l, s, tokens, claimed, call)
  }

  function Run(l: Limits, s: State, events: seq<Event>): State
    decreases |events|
  {
    if events == [] then s else Run(l, Step(l, s, events[0]).0, events[1..])
  }

  lemma StepKeepsSound(l: Limits, s: State, ev: Event)
    requires Sound(s)
    ensures Sound(Step(l, s, ev).0)
  {
    if ev.WorkFrame? && FrameCheck(l, ev.w) == Evaluated {
      PrefixExtends(Refreshed(s, ev.w).timeline, ev.w.tokens);
      assert Prefix([]) == INIT;
    }
  }

  /** Over every sequence of frames, resets, engine failures and restores, a trusted hash is
      the hash of the timeline. */
  lemma {:induction false} RunKeepsSound(l: Limits, s: State, events: seq<Event>)
    requires Sound(s)
    ensures Sound(Run(l, s, events))
    decreases |events|
  {
    if events != [] {
      StepKeepsSound(l, s, events[0]);
      RunKeepsSound(l, Step(l, s, events[0]).0, events[1..]);
    }
  }

  /** The timeline a frame is meant to continue. */
  function Base(s: State, w: Work): seq<Token> { if w.reset then [] else s.timeline }

  /** Every token is one the engine can take. */
  ghost predicate InVocabulary(l: Limits, tokens: seq<Token>) {
    forall i :: 0 <= i < |tokens| ==> tokens[i] <= 0x7fff_ffff && tokens[i] < l.vocab
  }

  ghost predicate InContext(l: Limits, w: Work) { w.pos + |w.tokens| <= l.ctxSize }

  ghost predicate HashesAgree(w: Work) { UpdateSpan(w.prefixHash, w.tokens) == w.resultHash }

  /** What a frame must satisfy by itself. */
  ghost predicate WellFormed(l: Limits, w: Work) {
    w.tokens != [] && InContext(l, w) && InVocabulary(l, w.tokens) && HashesAgree(w)
  }

  lemma VocabularyChecked(l: Limits, tokens: seq<Token>)
    ensures InVocabulary(l, tokens) <==> !exists t :: t in tokens && !TokenOk(l, t)
  {
    if InVocabulary(l, tokens) {
      assert forall t :: t in tokens ==> TokenOk(l, t);
    } else {
      var i :| 0 <= i < |tokens| && !(tokens[i] <= 0x7fff_ffff && tokens[i] < l.vocab);
      assert tokens[i] in tokens && !TokenOk(l, tokens[i]);
    }
  }

  /** A frame that is not well formed is refused for the first of the four reasons, and touches nothing. */
  lemma MalformedIsRefused(l: Limits, s: State, w: Work, e: Engine)
    requires !WellFormed(l, w)
    ensures var r := ProcessWork(l, s, w, e);
            && r.0 == s
            && r.1 == if w.tokens == [] then NoTokens
                      else if !InContext(l, w) then SpanExceedsContext
                      else if !InVocabulary(l, w.tokens) then TokenOutsideVocabulary
                      else HashMetadataMismatch
  {
    VocabularyChecked(l, w.tokens);
  }

  /** A well-formed frame is refused when a requested reset fails, which changes nothing, or when the timeline it
      is to continue does not hash to its prefix hash; then that timeline stays, with its hash made current.
      Otherwise the engine runs. */
  lemma WellFormedIsTried(l: Limits, s: State, w: Work, e: Engine)
    requires Sound(s) && WellFormed(l, w)
    ensures var r := ProcessWork(l, s, w, e);
            if w.reset && !e.resetOk then r == (s, ResetFailed)
            else if Prefix(Base(s, w)) != w.prefixHash then
              r == (State(Prefix(Base(s, w)), true, Base(s, w)), PrefixMismatch)
            else match e.call
              case Succeeds => r == (State(w.resultHash, true, Base(s, w) + w.tokens), Evaluated)
              case Fails(left) => r.1 == EngineFailed && !r.0.valid && r.0.timeline == left
  {
    VocabularyChecked(l, w.tokens);
    assert Prefix([]) == INIT;
  }

  /** The engine runs a frame exactly when it has tokens, fits the context and the vocabulary, its two hashes agree,
      a requested reset succeeded and the timeline it continues hashes to its prefix hash. When it runs and succeeds,
      that timeline grows by the frame's tokens and hashes to the frame's result hash. */
  lemma EngineRunsExactlyOnPrefix(l: Limits, s: State, w: Work, e: Engine)
    requires Sound(s)
    ensures var r := ProcessWork(l, s, w, e);
            (r.1 in {Evaluated, EngineFailed} <==>
               && w.tokens != [] && w.pos + |w.tokens| <= l.ctxSize
               && (forall i :: 0 <= i < |w.tokens| ==> w.tokens[i] <= 0x7fff_ffff && w.tokens[i] < l.vocab)
               && UpdateSpan(w.prefixHash, w.tokens) == w.resultHash
               && (w.reset ==> e.resetOk) && Prefix(Base(s, w)) == w.prefixHash)
            && (r.1 == Evaluated ==>
                  e.call == Succeeds && r.0 == State(w.resultHash, true, Base(s, w) + w.tokens)
                  && Prefix(r.0.timeline) == w.resultHash)
            && (r.1 !in {Evaluated, EngineFailed} ==> r.0.timeline == s.timeline || (w.reset && r.0.timeline == []))
  {
    if WellFormed(l, w) {
      WellFormedIsTried(l, s, w, e);
      PrefixExtends(Base(s, w), w.tokens);
    } else {
      MalformedIsRefused(l, s, w, e);
    }
  }

  /** A snapshot reaches the engine exactly when its tokens fit the context and the vocabulary and hash to what is
      claimed. When the engine takes it the timeline is its tokens; a snapshot that is refused changes nothing. */
  lemma RestoresExactlyWhatIsClaimed(l: Limits, s: State, tokens: seq<Token>, claimed: U64, call: EngineCall)
    ensures var r := RestoreSnapshot(l, s, tokens, claimed, call);
            if |tokens| <= l.ctxSize && Prefix(tokens) == claimed
               && (forall i :: 0 <= i < |tokens| ==> tokens[i] <= 0x7fff_ffff && tokens[i] < l.vocab)
            then match call
              case Succeeds => r == (State(Prefix(tokens), true, tokens), Restored)
              case Fails(left) => r.1 == EngineFailed && !r.0.valid && r.0.timeline == left
            else r == (s, RestoreRefused)
  {
    VocabularyChecked(l, tokens);
  }

  /** A failing engine call, if the event makes one, leaves only tokens the engine knows. */
  ghost predicate LeavesKnown(l: Limits, ev: Event) {
    var call := if ev.WorkFrame? then ev.e.call else ev.call;
    call.Fails? ==> InVocabulary(l, call.left)
  }

  lemma StepKeepsVocabulary(l: Limits, s: State, ev: Event)
    requires InVocabulary(l, s.timeline) && LeavesKnown(l, ev)
    ensures InVocabulary(l, Step(l, s, ev).0.timeline)
  {
    VocabularyChecked(l, if ev.WorkFrame? then ev.w.tokens else ev.tokens);
  }

  /** No evaluation and no restore puts a token into a session's timeline that is outside the vocabulary. */
  lemma {:induction false} RunKeepsVocabulary(l: Limits, s: State, events: seq<Event>)
    requires InVocabulary(l, s.timeline) && forall i :: 0 <= i < |events| ==> LeavesKnown(l, events[i])
    ensures InVocabulary(l, Run(l, s, events).timeline)
    decreases |events|
  {
    if events != [] {
      StepKeepsVocabulary(l, s, events[0]);
      RunKeepsVocabulary(l, Step(l, s, events[0]).0, events[1..]);
    }
  }

  // Replay ----------------------------------------------------------------

  /** The next k frames of a span, each answered by an engine that does not fail. */
  function Replay(span: Span, from: nat, k: nat): seq<Event>
    requires span.Valid()
    decreases k
  {
    if k == 0 then []
    else [WorkFrame(span.Frame(from), Engine(true, Succeeds))] + Replay(span, from + 1, k - 1)
  }

  /** The span fits the worker: its context holds it and its vocabulary knows its tokens. */
  ghost predicate Fits(l: Limits, span: Span) {
    span.Valid() && span.End() <= l.ctxSize && forall t :: t in span.prompt ==> TokenOk(l, t)
  }

  /** The state a worker is meant to be in before frame i. */
  function Before(span: Span, i: nat): State
    requires span.Valid()
  {
    State(span.HashAt(i), true, span.prompt[..span.Bound(i)])
  }

  /** Frame i can be replayed: it resets to an empty prompt prefix, or the worker is on its prefix. */
  ghost predicate Ready(s: State, span: Span, i: nat)
    requires span.Valid()
  {
    if span.Frame(i).reset then span.start == 0
    else Sound(s) && s.timeline == span.prompt[..span.Bound(i)]
  }

  lemma ReplayStep(l: Limits, s: State, span: Span, i: nat)
    requires Fits(l, span) && i < span.Count() && Ready(s, span, i)
    ensures Step(l, s, WorkFrame(span.Frame(i), Engine(true, Succeeds))) == (Before(span, i + 1), Evaluated)
    ensures Ready(Before(span, i + 1), span, i + 1)
  {
    span.BoundStep(i);
    span.FrameChains(i);
    var w := span.Frame(i);
    assert forall t :: t in w.tokens ==> t in span.prompt;
    if w.reset {
      span.Ends();
      assert span.prompt[..span.Bound(i)] == [];
      assert Prefix([]) == INIT;
    }
    assert Refreshed(s, w).timeline == span.prompt[..span.Bound(i)];
  }

  lemma ReplayOne(l: Limits, s: State, span: Span, i: nat, k: nat)
    requires Fits(l, span) && i < span.Count() && Ready(s, span, i) && 0 < k
    ensures Run(l, s, Replay(span, i, k)) == Run(l, Before(span, i + 1), Replay(span, i + 1, k - 1))
    ensures Ready(Before(span, i + 1), span, i + 1)
  {
    ReplayStep(l, s, span, i);
    var ev := WorkFrame(span.Frame(i), Engine(true, Succeeds));
    assert ([ev] + Replay(span, i + 1, k - 1))[1..] == Replay(span, i + 1, k - 1);
  }

  /** A failure-free replay of the remaining k frames leaves the worker at the end of the span. */
  lemma {:induction false} ReplayReaches(l: Limits, s: State, span: Span, i: nat, k: nat)
    requires Fits(l, span) && 0 < k && i + k == span.Count() && Ready(s, span, i)
    ensures Run(l, s, Replay(span, i, k)) == Before(span, span.Count())
    decreases k
  {
    ReplayOne(l, s, span, i, k);
    if k > 1 {
      ReplayReaches(l, Before(span, i + 1), span, i + 1, k - 1);
    }
  }

  /** Replaying a transcript from position 0 takes a worker from any state, sound or not, to
      exactly that transcript. */
  lemma ReplayFromZeroRestoresTranscript(l: Limits, s: State, span: Span)
    requires Fits(l, span) && span.resetFirst && span.start == 0 && span.n == |span.prompt|
    ensures Run(l, s, Replay(span, 0, span.Count())) == State(Prefix(span.prompt), true, span.prompt)
  {
    span.Ends();
    ReplayReaches(l, s, span, 0, span.Count());
    assert span.prompt[..span.End()] == span.prompt;
  }

  // The session object ------------------------------------------------------

  class Session {
    var tokenHash: U64
    var tokenHashValid: bool
    var timeline: seq<Token>   // owned by the engine session

    function Abs(): State
      reads this
    {
      State(tokenHash, tokenHashValid, timeline)
    }

    constructor ()
      ensures Abs() == FRESH
    {
      tokenHash, tokenHashValid, timeline := 0, false, [];
    }

    method Process(l: Limits, w: Work, e: Engine) returns (reply: Reply)
      modifies this
      ensures (Abs(), reply) == ProcessWork(l, old(Abs()), w, e)
    {
      if w.tokens == [] { return NoTokens; }
      if w.pos > l.ctxSize || |w.tokens| > l.ctxSize - w.pos { return SpanExceedsContext; }
      for i := 0 to |w.tokens|
        invariant forall k :: 0 <= k < i ==> TokenOk(l, w.tokens[k])
        invariant Abs() == old(Abs())
      {
        if !TokenOk(l, w.tokens[i]) { return TokenOutsideVocabulary; }
      }
      var claimed := HashSpan(w.prefixHash, w.tokens);
      if claimed != w.resultHash { return HashMetadataMismatch; }
      if w.reset && !e.resetOk { return ResetFailed; }
      if w.reset {
        timeline := [];
        tokenHash, tokenHashValid := INIT, true;
      } else if !tokenHashValid {
        var h := HashPrefix(timeline);
        tokenHash, tokenHashValid := h, true;
      }
      if tokenHash != w.prefixHash { return PrefixMismatch; }
      match e.call {
        case Succeeds =>
          timeline := timeline + w.tokens;
          tokenHash, tokenHashValid := w.resultHash, true;
          return Evaluated;
        case Fails(left) =>
          timeline := left;
          tokenHashValid := false;
          return EngineFailed;
      }
    }

    method Restore(l: Limits, tokens: seq<Token>, claimed: U64, call: EngineCall) returns (reply: Reply)
      modifies this
      ensures (Abs(), reply) == RestoreSnapshot(l, old(Abs()), tokens, claimed, call)
    {
      if |tokens| > l.ctxSize { return RestoreRefused; }
      for i := 0 to |tokens|
        invariant forall k :: 0 <= k < i ==> TokenOk(l, tokens[k])
        invariant Abs() == old(Abs())
      {
        if !TokenOk(l, tokens[i]) { return RestoreRefused; }
      }
      var live := HashPrefix(tokens);
      if live != claimed { return RestoreRefused; }
      match call {
        case Succeeds =>
          timeline := tokens;
          tokenHash, tokenHashValid := claimed, true;
          return Restored;
        case Fails(left) =>
          timeline := left;
          tokenHashValid := false;
          return EngineFailed;
      }
    }
  }
}
