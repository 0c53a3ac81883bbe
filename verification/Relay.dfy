/** RESULT frames on their way back: what the size checks accept, and what each relaying worker sends on. */
module Relay {
  import opened Bytes
  import opened Forwarder

  const RESULT_WORDS: nat := 10
  const RESULT_FIXED: nat := 4 * RESULT_WORDS
  const RECORD_WORDS: nat := 10
  const RECORD_BYTES: nat := 4 * RECORD_WORDS
  const COPY_BUFFER: nat := 0x10_0000

  /** One hop's telemetry. */
  type Record = w: seq<U32> | |w| == RECORD_WORDS witness [0, 0, 0, 0, 0, 0, 0, 0, 0, 0]

  datatype Result = Result(
    requestHi: U32, requestLo: U32, hashHi: U32, hashLo: U32, status: U32, kind: U32, bits: U32,
    records: seq<Record>, payload: seq<Byte>)
  {
    function Id(): nat { requestHi * 0x1_0000_0000 + requestLo }
    function Size(): nat { RESULT_FIXED + RECORD_BYTES * |records| + |payload| }
    function Add(record: Record): Result { this.(records := records + [record]) }
  }

  function HeaderWords(r: Result): (w: seq<U32>)
    requires r.Size() <= U32_MAX
    ensures |w| == RESULT_WORDS
  {
    [r.requestHi, r.requestLo, r.hashHi, r.hashLo, r.status, r.kind,
     |r.records|, RECORD_BYTES * |r.records|, |r.payload|, r.bits]
  }

  function RecordBytes(rs: seq<Record>): (b: seq<Byte>)
    ensures |b| == RECORD_BYTES * |rs|
  {
    if rs == [] then [] else BeWords(rs[0]) + RecordBytes(rs[1..])
  }

  function Encode(r: Result): (b: seq<Byte>)
    requires r.Size() <= U32_MAX
    ensures |b| == r.Size()
  {
    BeWords(HeaderWords(r)) + (RecordBytes(r.records) + r.payload)
  }

  ghost predicate IsFrame(b: seq<Byte>, r: Result) { r.Size() <= U32_MAX && b == Encode(r) }

  lemma {:induction false} RecordBytesSplit(a: seq<Record>, b: seq<Record>)
    ensures RecordBytes(a + b) == RecordBytes(a) + RecordBytes(b)
  {
    if a == [] {
      assert a + b == b;
    } else {
      assert (a + b)[1..] == a[1..] + b;
      RecordBytesSplit(a[1..], b);
    }
  }

  lemma FirstWords(b: seq<Byte>, n: nat) returns (w: seq<U32>)
    requires 4 * n <= |b|
    ensures |w| == n && b == BeWords(w) + b[4 * n..]
  {
    BeWordsWrite(b, n);
    w := BePrefix(b, n);
  }

  /** Any whole number of records' bytes is the encoding of records. */
  lemma {:induction false} RecordsOf(b: seq<Byte>, n: nat) returns (rs: seq<Record>)
    requires |b| == RECORD_BYTES * n
    ensures |rs| == n && RecordBytes(rs) == b
    decreases n
  {
    if n == 0 { return []; }
    var first := FirstWords(b, RECORD_WORDS);
    var rest := RecordsOf(b[RECORD_BYTES..], n - 1);
    rs := [first] + rest;
  }

  lemma BeWordsCut(xs: seq<U32>, x: seq<Byte>, ys: seq<U32>, y: seq<Byte>)
    requires |xs| == |ys| && BeWords(xs) + x == BeWords(ys) + y
    ensures xs == ys && x == y
  {
    BeWordsRead(xs, x);
    BeWordsRead(ys, y);
    CutEqual(BeWords(xs), x, BeWords(ys), y);
  }

  lemma {:induction false} RecordsUnique(a: seq<Record>, b: seq<Record>)
    requires RecordBytes(a) == RecordBytes(b)
    ensures a == b
    decreases |a|
  {
    assert RECORD_BYTES * |a| == RECORD_BYTES * |b|;
    if a != [] {
      BeWordsCut(a[0], RecordBytes(a[1..]), b[0], RecordBytes(b[1..]));
      RecordsUnique(a[1..], b[1..]);
      assert a == [a[0]] + a[1..] && b == [b[0]] + b[1..];
    }
  }

  lemma FrameUnique(b: seq<Byte>, r: Result, s: Result)
    requires IsFrame(b, r) && IsFrame(b, s)
    ensures r == s
  {
    BeWordsCut(HeaderWords(r), RecordBytes(r.records) + r.payload, HeaderWords(s), RecordBytes(s.records) + s.payload);
    assert |r.records| == HeaderWords(r)[6] == HeaderWords(s)[6] == |s.records|;
    CutEqual(RecordBytes(r.records), r.payload, RecordBytes(s.records), s.payload);
    RecordsUnique(r.records, s.records);
    SameHeader(r, s);
  }

  lemma SameHeader(r: Result, s: Result)
    requires r.Size() <= U32_MAX && s.Size() <= U32_MAX && HeaderWords(r) == HeaderWords(s)
    requires r.records == s.records && r.payload == s.payload
    ensures r == s
  {
    assert forall k :: 0 <= k < RESULT_WORDS ==> HeaderWords(r)[k] == HeaderWords(s)[k];
    assert HeaderWords(r)[0] == r.requestHi && HeaderWords(r)[1] == r.requestLo && HeaderWords(r)[2] == r.hashHi;
    assert HeaderWords(r)[3] == r.hashLo && HeaderWords(r)[4] == r.status && HeaderWords(r)[5] == r.kind;
    assert HeaderWords(r)[9] == r.bits;
  }

  // The checks -------------------------------------------------------------------------

  /** The size checks on a header against the bytes that follow it. */
  predicate SizesOk(w: seq<U32>, body: nat)
    requires |w| == RESULT_WORDS
  {
    w[7] % RECORD_BYTES == 0 && w[6] == w[7] / RECORD_BYTES && w[7] <= body && w[8] == body - w[7]
  }

  function IdOf(w: seq<U32>): nat
    requires |w| == RESULT_WORDS
  {
    var hi: nat := w[0];
    hi * 0x1_0000_0000 + w[1]
  }

  /** w is the header of b. */
  ghost predicate Head(b: seq<Byte>, w: seq<U32>) {
    RESULT_FIXED <= |b| <= U32_MAX && |w| == RESULT_WORDS && b == BeWords(w) + b[RESULT_FIXED..]
  }

  method ReadHead(b: seq<Byte>, n: nat) returns (w: seq<U32>)
    requires n == RESULT_WORDS && 4 * n <= |b| <= U32_MAX
    ensures Head(b, w)
  {
    w := BePrefix(b, n);
    BeWordsWrite(b, n);
  }

  lemma AcceptedIsFrame(b: seq<Byte>, w: seq<U32>) returns (r: Result)
    requires Head(b, w) && SizesOk(w, |b| - RESULT_FIXED)
    ensures IsFrame(b, r)
  {
    var body := b[RESULT_FIXED..];
    assert w[7] == RECORD_BYTES * w[6];
    var records := RecordsOf(body[..w[7]], w[6]);
    r := Result(w[0], w[1], w[2], w[3], w[4], w[5], w[9], records, body[w[7]..]);
    assert HeaderWords(r) == w;
    assert body == body[..w[7]] + body[w[7]..];
  }

  lemma HeaderFits(r: Result)
    requires r.Size() <= U32_MAX
    ensures SizesOk(HeaderWords(r), r.Size() - RESULT_FIXED) && IdOf(HeaderWords(r)) == r.Id()
  {}

  lemma FrameIsAccepted(b: seq<Byte>, r: Result, w: seq<U32>)
    requires IsFrame(b, r) && Head(b, w)
    ensures w == HeaderWords(r) && IdOf(w) == r.Id()
    ensures SizesOk(w, |b| - RESULT_FIXED) && |b| == r.Size()
  {
    BeWordsCut(w, b[RESULT_FIXED..], HeaderWords(r), RecordBytes(r.records) + r.payload);
    HeaderFits(r);
  }

  /** The coordinator's check of a RESULT for the request it waits for. */
  method CheckResult(b: seq<Byte>, requestId: nat) returns (ok: bool)
    requires |b| <= U32_MAX
    ensures ok <==> exists r :: IsFrame(b, r) && r.Id() == requestId
  {
    if |b| < RESULT_FIXED { return false; }
    var w := ReadHead(b, RESULT_WORDS);
    forall r | IsFrame(b, r) ensures SizesOk(w, |b| - RESULT_FIXED) && r.Id() == IdOf(w) {
      FrameIsAccepted(b, r, w);
    }
    if !SizesOk(w, |b| - RESULT_FIXED) { return false; }
    ghost var r := AcceptedIsFrame(b, w);
    ok := IdOf(w) == requestId;
  }

  // The relay --------------------------------------------------------------------------

  datatype Reason =
    | InvalidResult | MetadataMismatch | RequestMismatch | TelemetryTooLarge | FrameTooLarge | ConnectionClosed
  datatype Outcome = Forwarded(frame: seq<Byte>) | Failed(id: nat, reason: Reason) | Dropped

  /** Appends src to out, a buffer at a time. */
  method CopyBytes(out: seq<Byte>, src: seq<Byte>) returns (all: seq<Byte>)
    ensures all == out + src
  {
    all := out;
    var remaining := |src|;
    while remaining > 0
      invariant 0 <= remaining <= |src| && all == out + src[..|src| - remaining]
    {
      var n := if remaining < COPY_BUFFER then remaining else COPY_BUFFER;
      var at := |src| - remaining;
      assert src[..at + n] == src[..at] + src[at..at + n];
      all := all + src[at..at + n];
      remaining := remaining - n;
    }
  }

  /** The header with one record more. */
  function Raised(w: seq<U32>): (v: seq<U32>)
    requires |w| == RESULT_WORDS && w[7] + RECORD_BYTES <= U32_MAX && w[6] < U32_MAX
    ensures |v| == RESULT_WORDS
  {
    w[6 := w[6] + 1][7 := w[7] + RECORD_BYTES]
  }

  lemma RaisedHeader(r: Result, record: Record)
    requires r.Size() + RECORD_BYTES <= U32_MAX
    ensures Raised(HeaderWords(r)) == HeaderWords(r.Add(record))
  {}

  lemma EncodedAdd(r: Result, record: Record)
    requires r.Size() + RECORD_BYTES <= U32_MAX
    ensures r.Add(record).Size() <= U32_MAX
    ensures Encode(r.Add(record)) == BeWords(HeaderWords(r.Add(record))) + RecordBytes(r.records) + BeWords(record)
            + r.payload
  {
    RecordBytesSplit(r.records, [record]);
    assert RecordBytes([record]) == BeWords(record);
    var s := r.Add(record);
    Regroup(BeWords(HeaderWords(s)), RecordBytes(r.records), BeWords(record), r.payload);
  }

  lemma Regroup(h: seq<Byte>, t: seq<Byte>, y: seq<Byte>, p: seq<Byte>)
    ensures h + t + y + p == h + ((t + y) + p)
  {}

  lemma RewrittenIsFrame(b: seq<Byte>, w: seq<U32>, record: Record, r: Result)
    requires Head(b, w) && IsFrame(b, r) && |b| + RECORD_BYTES <= U32_MAX
    ensures w[7] <= |b| - RESULT_FIXED && w[6] < U32_MAX
    ensures var t := RESULT_FIXED + w[7];
            IsFrame(BeWords(Raised(w)) + b[RESULT_FIXED..t] + BeWords(record) + b[t..], r.Add(record))
  {
    FrameIsAccepted(b, r, w);
    FrameBody(b, r);
    RaisedHeader(r, record);
    EncodedAdd(r, record);
  }

  /** The frame sent on, with one record more. */
  method Rewrite(b: seq<Byte>, w: seq<U32>, record: Record) returns (out: seq<Byte>)
    requires Head(b, w) && |b| + RECORD_BYTES <= U32_MAX && SizesOk(w, |b| - RESULT_FIXED)
    ensures forall r :: IsFrame(b, r) ==> IsFrame(out, r.Add(record))
  {
    var t := RESULT_FIXED + w[7];
    out := CopyBytes(BeWords(Raised(w)), b[RESULT_FIXED..t]);
    out := CopyBytes(out + BeWords(record), b[t..]);
    forall r | IsFrame(b, r) ensures IsFrame(out, r.Add(record)) {
      RewrittenIsFrame(b, w, record, r);
    }
  }

  lemma FrameBody(b: seq<Byte>, r: Result)
    requires IsFrame(b, r)
    ensures var t := RESULT_FIXED + RECORD_BYTES * |r.records|;
            t <= |b| && b[RESULT_FIXED..t] == RecordBytes(r.records) && b[t..] == r.payload
  {}

  /** Handles one frame from downstream. It always answers the oldest pending request: with the result
      rewritten, or with an error. Anything but a forwarded result ends the relay, which then takes in no more
      requests. record gives this hop's telemetry for the request. */
  method RelayResult(q: PendingQueue, isResult: bool, b: seq<Byte>, record: Request -> Record) returns (out: Outcome)
    requires q.Valid() && |b| <= U32_MAX
    modifies q
    ensures q.Valid() && q.closing == (old(q.closing) || !out.Forwarded?)
    ensures old(q.Contents()) == [] ==> out == Dropped && q.Contents() == []
    ensures old(q.Contents()) != [] ==>
              q.Contents() == old(q.Contents())[1..] && Answers(old(q.Contents())[0], isResult, b, record, out)
  {
    var found, oldest := q.Pop();
    if found { out := Answer(oldest, isResult, b, record); } else { out := Dropped; }
    if !out.Forwarded? { q.Close(); }
  }

  /** The connection from downstream ended: the oldest pending request is answered with an error. */
  method RelayEnd(q: PendingQueue) returns (out: Outcome)
    requires q.Valid()
    modifies q
    ensures q.Valid() && q.closing
    ensures old(q.Contents()) == [] ==> out == Dropped && q.Contents() == []
    ensures old(q.Contents()) != [] ==>
              q.Contents() == old(q.Contents())[1..] && out == Failed(old(q.Contents())[0].id, ConnectionClosed)
  {
    var found, oldest := q.Pop();
    out := if found then Failed(oldest.id, ConnectionClosed) else Dropped;
    q.Close();
  }

  datatype Incoming = Incoming(isResult: bool, bytes: seq<Byte>)

  /** What the k-th round of the relay does: frame k answers the k-th pending request, and behind the last
      frame the connection ends. */
  ghost predicate IsRound(pending: seq<Request>, frames: seq<Incoming>, k: nat, record: Request -> Record,
        out: Outcome) {
    if k >= |pending| then out == Dropped
    else if k >= |frames| then out == Failed(pending[k].id, ConnectionClosed)
    else Answers(pending[k], frames[k].isResult, frames[k].bytes, record, out)
  }

  /** The requests behind the first k. */
  ghost function Behind(pending: seq<Request>, k: nat): seq<Request> { if k >= |pending| then [] else pending[k..] }

  lemma BehindNext(pending: seq<Request>, k: nat)
    ensures var r := Behind(pending, k);
            if k >= |pending| then r == [] && Behind(pending, k + 1) == []
            else r != [] && r[0] == pending[k] && r[1..] == Behind(pending, k + 1)
  {}

  /** One round of the relay thread. */
  method RelayRound(q: PendingQueue, frames: seq<Incoming>, k: nat, record: Request -> Record,
        ghost pending: seq<Request>)
      returns (out: Outcome)
    requires q.Valid() && q.Contents() == Behind(pending, k) && (k < |frames| ==> |frames[k].bytes| <= U32_MAX)
    modifies q
    ensures q.Valid() && q.Contents() == Behind(pending, k + 1) && IsRound(pending, frames, k, record, out)
    ensures (out.Forwarded? ==> k < |frames|) && q.closing == (old(q.closing) || !out.Forwarded?)
  {
    BehindNext(pending, k);
    if k < |frames| { out := RelayResult(q, frames[k].isResult, frames[k].bytes, record); } else { out := RelayEnd(q); }
  }

  ghost predicate RoundAt(pending: seq<Request>, frames: seq<Incoming>, record: Request -> Record,
        outs: seq<Outcome>, k: nat)
    requires k < |outs|
  {
    IsRound(pending, frames, k, record, outs[k]) && (k < |outs| - 1 ==> outs[k].Forwarded?)
  }

  /** The rounds of a relay that goes on as long as it forwards. */
  ghost predicate Rounds(pending: seq<Request>, frames: seq<Incoming>, record: Request -> Record, outs: seq<Outcome>) {
    forall k :: 0 <= k < |outs| ==> RoundAt(pending, frames, record, outs, k)
  }

  lemma RoundsMore(pending: seq<Request>, frames: seq<Incoming>, record: Request -> Record, outs: seq<Outcome>,
        out: Outcome)
    requires Rounds(pending, frames, record, outs) && (outs != [] ==> outs[|outs| - 1].Forwarded?)
    requires IsRound(pending, frames, |outs|, record, out)
    ensures Rounds(pending, frames, record, outs + [out])
  {
    var more := outs + [out];
    forall k | 0 <= k < |more| ensures RoundAt(pending, frames, record, more, k) {
      if k < |outs| { assert RoundAt(pending, frames, record, outs, k) && more[k] == outs[k]; }
    }
  }

  /** What the relay has done so far: outs are its rounds, and what is left waits in the queue. */
  ghost predicate RelayedTo(q: PendingQueue, pending: seq<Request>, frames: seq<Incoming>,
        record: Request -> Record, outs: seq<Outcome>)
    reads q, q.nodes
  {
    q.Valid() && q.Contents() == Behind(pending, |outs|) && Rounds(pending, frames, record, outs)
  }

  method NextRound(q: PendingQueue, frames: seq<Incoming>, record: Request -> Record, outs: seq<Outcome>,
        ghost pending: seq<Request>)
      returns (more: seq<Outcome>, goOn: bool)
    requires RelayedTo(q, pending, frames, record, outs) && |outs| <= |frames|
             && (outs != [] ==> outs[|outs| - 1].Forwarded?)
    requires forall k :: 0 <= k < |frames| ==> |frames[k].bytes| <= U32_MAX
    modifies q
    ensures RelayedTo(q, pending, frames, record, more) && |more| == |outs| + 1 && goOn == more[|outs|].Forwarded?
    ensures (goOn ==> |outs| < |frames|) && (!goOn ==> q.closing)
  {
    var out := RelayRound(q, frames, |outs|, record, pending);
    RoundsMore(pending, frames, record, outs, out);
    more, goOn := outs + [out], out.Forwarded?;
  }

  /** The relay thread, for the requests pending when it starts and the frames that still arrive: each result
      goes to the next request in send order, until the first one that cannot be forwarded or the end of the
      connection; then the queue is closed. */
  method RelayMain(q: PendingQueue, frames: seq<Incoming>, record: Request -> Record) returns (outs: seq<Outcome>)
    requires q.Valid() && forall k :: 0 <= k < |frames| ==> |frames[k].bytes| <= U32_MAX
    modifies q
    ensures RelayedTo(q, old(q.Contents()), frames, record, outs)
    ensures q.closing && 0 < |outs| <= |frames| + 1 && !outs[|outs| - 1].Forwarded?
  {
    outs := [];
    ghost var pending := q.Contents();
    var goOn := true;
    while goOn
      invariant RelayedTo(q, pending, frames, record, outs) && |outs| <= |frames| + 1
      invariant goOn ==> |outs| <= |frames| && (outs != [] ==> outs[|outs| - 1].Forwarded?)
      invariant !goOn ==> q.closing && outs != [] && !outs[|outs| - 1].Forwarded?
      decreases goOn, |frames| + 1 - |outs|
    {
      outs, goOn := NextRound(q, frames, record, outs, pending);
    }
  }

  /** out answers this request: the result goes on exactly when it is a well-formed RESULT for it and has
      room for one more record. */
  ghost predicate Answers(oldest: Request, isResult: bool, b: seq<Byte>, record: Request -> Record, out: Outcome) {
    && (out.Forwarded? <==> isResult && exists r :: Relayable(b, r, oldest.id))
    && (out.Forwarded? ==> forall r :: IsFrame(b, r) ==> IsFrame(out.frame, r.Add(record(oldest))))
    && (!out.Forwarded? ==> out.Failed? && out.id == oldest.id && FailsFor(oldest.id, isResult, b, out.reason))
  }

  /** Why an answer to request id is an error. A frame that fits 32 bits has telemetry that can be counted. */
  ghost predicate FailsFor(id: nat, isResult: bool, b: seq<Byte>, reason: Reason) {
    match reason
    case InvalidResult => !isResult || |b| < RESULT_FIXED
    case MetadataMismatch => isResult && |b| >= RESULT_FIXED && forall r :: !IsFrame(b, r)
    case RequestMismatch => isResult && exists r :: IsFrame(b, r) && r.Id() != id
    case FrameTooLarge => isResult && exists r :: IsFrame(b, r) && r.Id() == id && r.Size() + RECORD_BYTES > U32_MAX
    case _ => false
  }

  ghost predicate Relayable(b: seq<Byte>, r: Result, id: nat) {
    IsFrame(b, r) && r.Id() == id && r.Size() + RECORD_BYTES <= U32_MAX
  }

  /** What the relay reads off the header decides whether there is a result to relay. */
  lemma HeadDecides(b: seq<Byte>, w: seq<U32>, id: nat)
    requires Head(b, w)
    ensures (exists r :: Relayable(b, r, id)) <==>
              SizesOk(w, |b| - RESULT_FIXED) && IdOf(w) == id && |b| + RECORD_BYTES <= U32_MAX
    ensures if !SizesOk(w, |b| - RESULT_FIXED) then FailsFor(id, true, b, MetadataMismatch)
            else if IdOf(w) != id then FailsFor(id, true, b, RequestMismatch)
            else |b| + RECORD_BYTES > U32_MAX ==> FailsFor(id, true, b, FrameTooLarge)
  {
    forall r | IsFrame(b, r) ensures SizesOk(w, |b| - RESULT_FIXED) && r.Id() == IdOf(w) && r.Size() == |b| {
      FrameIsAccepted(b, r, w);
    }
    if SizesOk(w, |b| - RESULT_FIXED) {
      var r := AcceptedIsFrame(b, w);
      assert IsFrame(b, r) && r.Size() == |b|;
      if IdOf(w) == id && |b| + RECORD_BYTES <= U32_MAX { assert Relayable(b, r, id); }
    }
  }

  method Answer(oldest: Request, isResult: bool, b: seq<Byte>, record: Request -> Record) returns (out: Outcome)
    requires |b| <= U32_MAX
    ensures Answers(oldest, isResult, b, record, out)
  {
    if !isResult || |b| < RESULT_FIXED { return Failed(oldest.id, InvalidResult); }
    var w := ReadHead(b, RESULT_WORDS);
    HeadDecides(b, w, oldest.id);
    out := AnswerWith(oldest, b, w, record);
  }

  method AnswerWith(oldest: Request, b: seq<Byte>, w: seq<U32>, record: Request -> Record) returns (out: Outcome)
    requires Head(b, w)
    ensures out.Forwarded? <==> SizesOk(w, |b| - RESULT_FIXED) && IdOf(w) == oldest.id && |b| + RECORD_BYTES <= U32_MAX
    ensures out.Forwarded? ==> forall r :: IsFrame(b, r) ==> IsFrame(out.frame, r.Add(record(oldest)))
    ensures !out.Forwarded? ==>
              && out.Failed? && out.id == oldest.id
              && out.reason == if !SizesOk(w, |b| - RESULT_FIXED) then MetadataMismatch
                               else if IdOf(w) != oldest.id then RequestMismatch else FrameTooLarge
  {
    if !SizesOk(w, |b| - RESULT_FIXED) { return Failed(oldest.id, MetadataMismatch); }
    if IdOf(w) != oldest.id { return Failed(oldest.id, RequestMismatch); }
    var outTelemetry: nat := w[7] + RECORD_BYTES;
    var outCount: nat := (w[6] + 1) % 0x1_0000_0000;
    if outTelemetry > U32_MAX || outCount == 0 { return Failed(oldest.id, TelemetryTooLarge); }
    if RESULT_FIXED + outTelemetry + w[8] > U32_MAX { return Failed(oldest.id, FrameTooLarge); }
    var frame := Rewrite(b, w, record(oldest));
    out := Forwarded(frame);
  }

  // A chain of relays --------------------------------------------------------------------

  /** frames[0] is a result as its worker sent it and every later frame is the previous one relayed. */
  ghost predicate Chain(frames: seq<seq<Byte>>, r: Result, records: seq<Record>) {
    && |frames| == |records| + 1 && IsFrame(frames[0], r)
    && forall k {:trigger records[k]} :: 0 <= k < |records| ==> forall s :: IsFrame(frames[k], s) ==>
          IsFrame(frames[k + 1], s.Add(records[k]))
  }

  /** After m hops a result carries m records more; the request, hash, status and payload are the ones its
      worker sent, and the coordinator's size checks accept it. */
  lemma {:induction false} RelayedResult(frames: seq<seq<Byte>>, r: Result, records: seq<Record>, m: nat)
    requires Chain(frames, r, records) && m <= |records|
    ensures IsFrame(frames[m], r.(records := r.records + records[..m]))
    decreases m
  {
    if m == 0 {
      assert r.(records := r.records + records[..0]) == r;
    } else {
      RelayedResult(frames, r, records, m - 1);
      var before := r.(records := r.records + records[..m - 1]);
      assert records[m - 1] == records[m - 1];
      assert IsFrame(frames[m - 1 + 1], before.Add(records[m - 1]));
      assert r.records + records[..m] == r.records + records[..m - 1] + [records[m - 1]];
    }
  }

  /** The next relay forwards it exactly when the frame leaves room: nothing else can fail on the way. */
  lemma RoomDecides(frames: seq<seq<Byte>>, r: Result, records: seq<Record>, m: nat)
    requires Chain(frames, r, records) && m <= |records|
    ensures (exists s :: Relayable(frames[m], s, r.Id())) <==> r.Size() + RECORD_BYTES * (m + 1) <= U32_MAX
  {
    RelayedResult(frames, r, records, m);
    var sent := r.(records := r.records + records[..m]);
    assert sent.Size() == r.Size() + RECORD_BYTES * m && sent.Id() == r.Id();
    forall s | Relayable(frames[m], s, r.Id()) ensures s == sent { FrameUnique(frames[m], s, sent); }
    if r.Size() + RECORD_BYTES * (m + 1) <= U32_MAX { assert Relayable(frames[m], sent, r.Id()); }
  }
}
