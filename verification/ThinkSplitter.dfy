/** The incremental <think> splitters: text arrives in pieces, tags may be cut anywhere, and what is shown
    must not depend on the cuts. */
module ThinkSplitter {

  const PENDING_SIZE: nat := 16

  /** What one stretch of the text means: a tag or one visible character. */
  datatype Event = Open | Close | Char(c: char)

  datatype Scanned = Scanned(events: seq<Event>, pending: string)

  datatype Tags = Tags(open: string, close: string)
  {
    predicate Valid() {
      && open != [] && close != [] && open[0] == close[0] == '<'
      && |open| < PENDING_SIZE && |close| < PENDING_SIZE && !(open <= close) && !(close <= open)
    }

    function TextOf(e: Event): string { match e case Open => open case Close => close case Char(c) => [c] }

    function Text(events: seq<Event>): string { if events == [] then [] else TextOf(events[0]) + Text(events[1..]) }

    predicate StartsTag(s: string) { open <= s || close <= s }

    /** The rest may still become a tag. */
    predicate IsPartial(s: string) { s != [] && s[0] == '<' && (s < open || s < close) }

    function First(s: string): Event
      requires s != []
    {
      if open <= s then Open else if close <= s then Close else Char(s[0])
    }

    /** Reads tags and characters from the front. Unless this is the end, a rest that may become a tag waits. */
    function Scan(s: string, finish: bool): Scanned
      requires Valid()
    {
      if s == [] then Scanned([], [])
      else if !StartsTag(s) && !finish && IsPartial(s) then Scanned([], s)
      else Before(First(s), Scan(s[|TextOf(First(s))|..], finish))
    }
  }

  function Think(): Tags { Tags("<think>", "</think>") }

  lemma ThinkIsValid()
    ensures Think().Valid()
  {
    var t := Think();
    assert t.open[1] != t.close[1];
  }

  function Before(e: Event, r: Scanned): Scanned { Scanned([e] + r.events, r.pending) }

  // What a scan means ---------------------------------------------------------------------

  /** The one reading of a text: nothing is lost and no tag is shown as characters. */
  ghost predicate IsReading(t: Tags, events: seq<Event>, rest: string) {
    forall k :: 0 <= k < |events| && events[k].Char? ==> !t.StartsTag(t.Text(events[k..]) + rest)
  }

  lemma FirstIsPrefix(t: Tags, s: string)
    requires t.Valid() && s != []
    ensures var x := t.TextOf(t.First(s)); 0 < |x| <= |s| && s[..|x|] == x && s == x + s[|x|..]
  {}

  lemma ReadingBefore(t: Tags, s: string, e: Event, events: seq<Event>, rest: string)
    requires s == t.Text([e] + events) + rest && IsReading(t, events, rest) && (e.Char? ==> !t.StartsTag(s))
    ensures IsReading(t, [e] + events, rest)
  {
    var all := [e] + events;
    forall k | 0 <= k < |all| && all[k].Char? ensures !t.StartsTag(t.Text(all[k..]) + rest) {
      if k == 0 { assert all[0..] == all; } else { assert all[k..] == events[k - 1..]; }
    }
  }

  ghost predicate Reads(t: Tags, s: string, finish: bool, r: Scanned) {
    && t.Text(r.events) + r.pending == s && IsReading(t, r.events, r.pending)
    && |r.pending| < PENDING_SIZE && (finish ==> r.pending == [])
  }

  lemma ReadsBefore(t: Tags, s: string, e: Event, more: string, finish: bool, r: Scanned)
    requires Reads(t, more, finish, r) && s == t.TextOf(e) + more && (e.Char? ==> !t.StartsTag(s))
    ensures Reads(t, s, finish, Before(e, r))
  {
    assert ([e] + r.events)[1..] == r.events;
    assert t.TextOf(e) + t.Text(r.events) + r.pending == t.TextOf(e) + (t.Text(r.events) + r.pending);
    ReadingBefore(t, s, e, r.events, r.pending);
  }

  /** The step a scan takes when nothing has to wait. */
  lemma ScanStep(t: Tags, s: string, finish: bool, e: Event, more: string)
    requires t.Valid() && s != [] && (t.StartsTag(s) || finish || !t.IsPartial(s))
    requires e == t.First(s) && s == t.TextOf(e) + more
    ensures t.Scan(s, finish) == Before(e, t.Scan(more, finish))
  {
    assert s[|t.TextOf(e)|..] == more;
  }

  lemma {:induction false} ScanIsReading(t: Tags, s: string, finish: bool)
    requires t.Valid()
    ensures Reads(t, s, finish, t.Scan(s, finish))
    decreases |s|
  {
    if s != [] && (t.StartsTag(s) || finish || !t.IsPartial(s)) {
      FirstIsPrefix(t, s);
      var e := t.First(s);
      var more := s[|t.TextOf(e)|..];
      ScanStep(t, s, finish, e, more);
      ScanIsReading(t, more, finish);
      ReadsBefore(t, s, e, more, finish, t.Scan(more, finish));
    }
  }

  lemma TextNonEmpty(t: Tags, a: seq<Event>)
    requires t.Valid()
    ensures t.Text(a) == [] <==> a == []
  {}

  lemma FirstEvent(t: Tags, a: seq<Event>)
    requires t.Valid() && a != [] && IsReading(t, a, [])
    ensures t.Text(a) != [] && a[0] == t.First(t.Text(a))
  {
    TextNonEmpty(t, a);
    var s := t.Text(a);
    assert s[..|t.TextOf(a[0])|] == t.TextOf(a[0]);
    assert a[0..] == a && s + [] == s;
    if a[0].Close? && t.open <= s { NestedPrefix(t.open, t.close, s); }
  }

  lemma NestedPrefix(a: string, b: string, s: string)
    requires a <= s && b <= s
    ensures a <= b || b <= a
  {
    if |a| <= |b| { assert a == s[..|a|] == b[..|a|]; } else { assert b == s[..|b|] == a[..|b|]; }
  }

  lemma TailReading(t: Tags, a: seq<Event>)
    requires a != [] && IsReading(t, a, [])
    ensures IsReading(t, a[1..], [])
  {
    forall k | 0 <= k < |a| - 1 && a[1..][k].Char? ensures !t.StartsTag(t.Text(a[1..][k..]) + []) {
      assert a[1..][k..] == a[k + 1..];
    }
  }

  /** There is no other reading. */
  lemma {:induction false} ReadingUnique(t: Tags, a: seq<Event>, b: seq<Event>)
    requires t.Valid() && t.Text(a) == t.Text(b) && IsReading(t, a, []) && IsReading(t, b, [])
    ensures a == b
    decreases |a|
  {
    TextNonEmpty(t, a);
    TextNonEmpty(t, b);
    if a != [] {
      FirstEvent(t, a);
      FirstEvent(t, b);
      var n := |t.TextOf(a[0])|;
      assert t.Text(a)[n..] == t.Text(a[1..]) && t.Text(b)[n..] == t.Text(b[1..]);
      TailReading(t, a);
      TailReading(t, b);
      ReadingUnique(t, a[1..], b[1..]);
      assert a == [a[0]] + a[1..] && b == [b[0]] + b[1..];
    }
  }

  // Cutting the text ------------------------------------------------------------------------

  function Append(events: seq<Event>, r: Scanned): Scanned { Scanned(events + r.events, r.pending) }

  lemma Comparable(a: string, tag: string, s: string)
    ensures a <= s && (tag <= s || s <= tag) && |a| < |tag| ==> a < tag
  {
    if a <= s && tag <= s && |a| < |tag| {
      assert a == s[..|a|] == tag[..|a|];
    }
  }

  lemma StablePrefix(a: string, b: string, tag: string)
    requires a != [] && tag != [] && !(a[0] == tag[0] && a < tag)
    ensures (tag <= a + b <==> tag <= a) && !((a + b)[0] == tag[0] && a + b < tag)
  {
    assert a == (a + b)[..|a|] && (a + b)[0] == a[0];
    Comparable(a, tag, a + b);
    if |a| >= |tag| { assert (a + b)[..|tag|] == a[..|tag|]; }
  }

  /** A decision taken on a is the decision taken on a + b. */
  lemma Stable(t: Tags, a: string, b: string)
    requires t.Valid() && a != [] && (t.StartsTag(a) || !t.IsPartial(a))
    ensures t.First(a + b) == t.First(a) && (t.StartsTag(a + b) || !t.IsPartial(a + b))
  {
    assert (a + b)[0] == a[0];
    if t.open <= a {
      assert t.open <= a + b;
    } else if t.close <= a {
      assert t.close <= a + b;
      if t.open <= a + b { NestedPrefix(t.open, t.close, a + b); }
    } else {
      StablePrefix(a, b, t.open);
      StablePrefix(a, b, t.close);
    }
  }

  /** Unless a has to wait, both scans take the same first step. */
  lemma StepBoth(t: Tags, a: string, b: string, finish: bool) returns (e: Event, more: string)
    requires t.Valid() && a != [] && (t.StartsTag(a) || !t.IsPartial(a))
    ensures |more| < |a|
    ensures t.Scan(a, false) == Before(e, t.Scan(more, false))
    ensures t.Scan(a + b, finish) == Before(e, t.Scan(more + b, finish))
  {
    e := t.First(a);
    FirstIsPrefix(t, a);
    Stable(t, a, b);
    more := a[|t.TextOf(e)|..];
    ScanStep(t, a, false, e, more);
    Regroup(t.TextOf(e), more, b);
    ScanStep(t, a + b, finish, e, more + b);
  }

  lemma BeforeAppend(e: Event, x: Scanned, y: Scanned)
    ensures Before(e, Append(x.events, y)) == Append(Before(e, x).events, y)
  {
    assert [e] + (x.events + y.events) == [e] + x.events + y.events;
  }

  /** Scanning in two goes, the pending rest put in front of the second, is scanning in one. */
  lemma {:induction false} ScanSplit(t: Tags, a: string, b: string, finish: bool)
    requires t.Valid()
    ensures var r := t.Scan(a, false); t.Scan(a + b, finish) == Append(r.events, t.Scan(r.pending + b, finish))
    decreases |a|
  {
    if a == [] {
      assert a + b == b;
    } else if t.StartsTag(a) || !t.IsPartial(a) {
      var e, more := StepBoth(t, a, b, finish);
      ScanSplit(t, more, b, finish);
      var x := t.Scan(more, false);
      BeforeAppend(e, x, t.Scan(x.pending + b, finish));
    }
  }

  // Feeding pieces --------------------------------------------------------------------------

  /** A splitter's state S with the text that still waits. apply is what one event does to S. */
  datatype Fed<S> = Fed(state: S, pending: string)

  function Run<S>(apply: (S, Event) -> S, s: S, events: seq<Event>): S {
    if events == [] then s else Run(apply, apply(s, events[0]), events[1..])
  }

  function Feed<S>(t: Tags, apply: (S, Event) -> S, fed: Fed<S>, text: string, finish: bool): Fed<S>
    requires t.Valid()
  {
    var r := t.Scan(fed.pending + text, finish);
    Fed(Run(apply, fed.state, r.events), r.pending)
  }

  function FeedAll<S>(t: Tags, apply: (S, Event) -> S, fed: Fed<S>, pieces: seq<string>): Fed<S>
    requires t.Valid()
    decreases |pieces|
  {
    if pieces == [] then fed else FeedAll(t, apply, Feed(t, apply, fed, pieces[0], false), pieces[1..])
  }

  function Concat(pieces: seq<string>): string { if pieces == [] then [] else pieces[0] + Concat(pieces[1..]) }

  lemma {:induction false} RunSplit<S>(apply: (S, Event) -> S, s: S, a: seq<Event>, b: seq<Event>)
    ensures Run(apply, s, a + b) == Run(apply, Run(apply, s, a), b)
    decreases |a|
  {
    if a == [] {
      assert a + b == b;
    } else {
      assert (a + b)[1..] == a[1..] + b;
      RunSplit(apply, apply(s, a[0]), a[1..], b);
    }
  }

  lemma RunSnoc<S>(apply: (S, Event) -> S, s: S, init: seq<Event>, e: Event)
    ensures Run(apply, s, init + [e]) == apply(Run(apply, s, init), e)
  {
    RunSplit(apply, s, init, [e]);
    assert [e][1..] == [];
  }

  lemma FeedIs<S>(t: Tags, apply: (S, Event) -> S, fed: Fed<S>, text: string, finish: bool, all: string, r: Scanned)
    requires t.Valid() && all == fed.pending + text && t.Scan(all, finish) == r
    ensures Feed(t, apply, fed, text, finish) == Fed(Run(apply, fed.state, r.events), r.pending)
  {}

  lemma FeedBoth<S>(t: Tags, apply: (S, Event) -> S, fed: Fed<S>, a: string, b: string, finish: bool,
      mid: Fed<S>, r: Scanned, q: Scanned)
    requires t.Valid() && t.Scan(fed.pending + (a + b), finish) == Append(r.events, q)
    requires mid == Fed(Run(apply, fed.state, r.events), r.pending) && t.Scan(mid.pending + b, finish) == q
    ensures Feed(t, apply, fed, a + b, finish) == Feed(t, apply, mid, b, finish)
  {
    RunSplit(apply, fed.state, r.events, q.events);
  }

  lemma ScanWaiting(t: Tags, wait: string, a: string, b: string, finish: bool, r: Scanned, q: Scanned)
    requires t.Valid() && t.Scan(wait + a, false) == r && t.Scan(r.pending + b, finish) == q
    ensures t.Scan(wait + (a + b), finish) == Append(r.events, q)
  {
    Regroup(wait, a, b);
    ScanSplit(t, wait + a, b, finish);
  }

  lemma Regroup(a: string, b: string, c: string)
    ensures a + b + c == a + (b + c)
  {}

  lemma FeedSplit<S>(t: Tags, apply: (S, Event) -> S, fed: Fed<S>, a: string, b: string, finish: bool)
    requires t.Valid()
    ensures Feed(t, apply, fed, a + b, finish) == Feed(t, apply, Feed(t, apply, fed, a, false), b, finish)
  {
    var r := t.Scan(fed.pending + a, false);
    var q := t.Scan(r.pending + b, finish);
    ScanWaiting(t, fed.pending, a, b, finish, r, q);
    FeedBoth(t, apply, fed, a, b, finish, Feed(t, apply, fed, a, false), r, q);
  }

  /** Chunking invariance: however a text is cut, feeding the pieces and then finishing does to the state
      what the one reading of the whole text does. */
  lemma {:induction false} ChunkingInvariance<S>(t: Tags, apply: (S, Event) -> S, fed: Fed<S>, pieces: seq<string>)
    requires t.Valid()
    ensures Feed(t, apply, FeedAll(t, apply, fed, pieces), "", true) == Feed(t, apply, fed, Concat(pieces), true)
    decreases |pieces|
  {
    if pieces != [] {
      ChunkingInvariance(t, apply, Feed(t, apply, fed, pieces[0], false), pieces[1..]);
      FeedSplit(t, apply, fed, pieces[0], Concat(pieces[1..]), true);
    }
  }

  /** Two ways of cutting the same text end in the same state with nothing pending. */
  lemma CutsDoNotMatter<S>(t: Tags, apply: (S, Event) -> S, fed: Fed<S>, a: seq<string>, b: seq<string>)
    requires t.Valid() && Concat(a) == Concat(b)
    ensures Feed(t, apply, FeedAll(t, apply, fed, a), "", true) == Feed(t, apply, FeedAll(t, apply, fed, b), "", true)
    ensures Feed(t, apply, FeedAll(t, apply, fed, a), "", true).pending == []
  {
    ChunkingInvariance(t, apply, fed, a);
    ChunkingInvariance(t, apply, fed, b);
    ScanIsReading(t, fed.pending + Concat(a), true);
  }

  /** How far the feeding of text has got: rest is not read yet, state is what the events so far made of fed. */
  ghost predicate Upto<S>(t: Tags, apply: (S, Event) -> S, fed: Fed<S>, text: string, finish: bool, state: S,
        rest: string)
    requires t.Valid()
  {
    Feed(t, apply, fed, text, finish) == Feed(t, apply, Fed(state, rest), "", finish)
  }

  lemma UptoStart<S>(t: Tags, apply: (S, Event) -> S, fed: Fed<S>, text: string, finish: bool)
    requires t.Valid()
    ensures Upto(t, apply, fed, text, finish, fed.state, fed.pending + text)
  {
    assert fed.pending + text + "" == fed.pending + text;
  }

  lemma UptoMore<S>(t: Tags, apply: (S, Event) -> S, fed: Fed<S>, text: string, finish: bool, state: S,
        rest: string, e: Event)
    requires t.Valid() && Upto(t, apply, fed, text, finish, state, rest)
    requires rest != [] && (t.StartsTag(rest) || finish || !t.IsPartial(rest)) && e == t.First(rest)
    ensures 0 < |t.TextOf(e)| <= |rest| && Upto(t, apply, fed, text, finish, apply(state, e), rest[|t.TextOf(e)|..])
  {
    FirstIsPrefix(t, rest);
    var more := rest[|t.TextOf(e)|..];
    ScanStep(t, rest, finish, e, more);
    var r := t.Scan(more, finish);
    FeedIs(t, apply, Fed(state, rest), "", finish, rest, Before(e, r));
    FeedIs(t, apply, Fed(apply(state, e), more), "", finish, more, r);
    assert ([e] + r.events)[1..] == r.events;
  }

  lemma UptoEnd<S>(t: Tags, apply: (S, Event) -> S, fed: Fed<S>, text: string, finish: bool, state: S, rest: string)
    requires t.Valid() && Upto(t, apply, fed, text, finish, state, rest)
    requires rest == [] || (!t.StartsTag(rest) && !finish && t.IsPartial(rest))
    ensures Feed(t, apply, fed, text, finish) == Fed(state, rest) && |rest| < PENDING_SIZE
  {
    assert rest + "" == rest;
  }

  // What the tags mean ----------------------------------------------------------------------

  ghost predicate NoTag(events: seq<Event>, a: nat, b: nat)
    requires b <= |events|
  {
    forall i :: a <= i < b ==> events[i].Char?
  }

  /** The model is thinking before event k: the last tag before it opens, or there is none and it was thinking at
      the start. */
  ghost predicate ThinkingAt(events: seq<Event>, k: nat, start: bool)
    requires k <= |events|
  {
    (start && NoTag(events, 0, k)) || exists j :: 0 <= j < k && events[j].Open? && NoTag(events, j + 1, k)
  }

  lemma ThinkingStarts(events: seq<Event>, start: bool)
    ensures ThinkingAt(events, 0, start) == start
  {}

  lemma ThinkingNext(events: seq<Event>, k: nat, start: bool)
    requires k < |events|
    ensures ThinkingAt(events, k + 1, start) == match events[k]
              case Open => true
              case Close => false
              case Char(_) => ThinkingAt(events, k, start)
  {
    if events[k].Open? {
      assert NoTag(events, k + 1, k + 1);
    }
    if events[k].Char? && ThinkingAt(events, k, start) {
      if !(start && NoTag(events, 0, k)) {
        var j :| 0 <= j < k && events[j].Open? && NoTag(events, j + 1, k);
        assert NoTag(events, j + 1, k + 1);
      }
    }
    if events[k].Char? && ThinkingAt(events, k + 1, start) {
      if !(start && NoTag(events, 0, k + 1)) {
        var j :| 0 <= j < k + 1 && events[j].Open? && NoTag(events, j + 1, k + 1);
        assert NoTag(events, j + 1, k);
      }
    }
  }

  /** Later events do not matter. */
  lemma ThinkingPrefix(init: seq<Event>, e: Event, k: nat, start: bool)
    requires k <= |init|
    ensures ThinkingAt(init + [e], k, start) == ThinkingAt(init, k, start)
  {
    var all := init + [e];
    assert forall i :: 0 <= i < k ==> all[i] == init[i];
    if ThinkingAt(init, k, start) && !(start && NoTag(init, 0, k)) {
      var j :| 0 <= j < k && init[j].Open? && NoTag(init, j + 1, k);
      assert all[j].Open? && NoTag(all, j + 1, k);
    }
    if ThinkingAt(all, k, start) && !(start && NoTag(all, 0, k)) {
      var j :| 0 <= j < k && all[j].Open? && NoTag(all, j + 1, k);
      assert init[j].Open? && NoTag(init, j + 1, k);
    }
  }

  /** events is the reading of a text. */
  ghost predicate ReadsAs(t: Tags, text: string, events: seq<Event>) {
    t.Text(events) == text && IsReading(t, events, [])
  }

  /** Whatever the cuts, feeding and finishing does what the events of the text's one reading do. */
  lemma FinishedIsReading<S>(t: Tags, apply: (S, Event) -> S, fed: Fed<S>, pieces: seq<string>, events: seq<Event>)
    requires t.Valid() && ReadsAs(t, fed.pending + Concat(pieces), events)
    ensures Feed(t, apply, FeedAll(t, apply, fed, pieces), "", true) == Fed(Run(apply, fed.state, events), [])
  {
    var s := fed.pending + Concat(pieces);
    var r := t.Scan(s, true);
    ChunkingInvariance(t, apply, fed, pieces);
    ScanIsReading(t, s, true);
    assert t.Text(r.events) + [] == t.Text(r.events);
    ReadingUnique(t, r.events, events);
  }
}
