/** The evaluation screen's stream of model output: visible bytes with one style each. */
module EvalStream {
  import opened ThinkSplitter

  /** What the splitter has shown so far, and whether the model is thinking. */
  datatype View = View(stream: string, styles: seq<nat>, inThink: bool)
  {
    function Show(c: char): View {
      View(stream + [c], styles + [if inThink then 1 else 0], inThink)
    }
  }

  /** A closing tag ends the thinking and leaves a line break in the answer's style. */
  function Apply(v: View, e: Event): View {
    match e
    case Open => v.(inThink := true)
    case Close => v.(inThink := false).Show('\n')
    case Char(c) => v.Show(c)
  }

  class Stream {
    const tags: Tags
    var stream: string
    var styles: seq<nat>
    var inThink: bool
    var pendingTag: string

    /** The pending buffer never holds more than its 16 bytes allow. */
    ghost predicate Valid()
      reads this
    {
      tags.Valid() && |pendingTag| < PENDING_SIZE
    }

    function Shown(): View
      reads this
    {
      View(stream, styles, inThink)
    }

    constructor (inThink: bool)
      ensures Valid() && tags == Think() && Shown() == View([], [], inThink) && pendingTag == []
    {
      ThinkIsValid();
      tags, stream, styles, this.inThink, pendingTag := Think(), [], [], inThink, [];
    }

    method AppendVisible(c: char)
      modifies this`stream, this`styles
      ensures Shown() == old(Shown()).Show(c)
    {
      stream := stream + [c];
      styles := styles + [if inThink then 1 else 0];
    }

    /** Feeds one piece of text. cur is what has not been read yet. */
    method AppendTokenText(text: string, finish: bool)
      requires Valid()
      modifies this`stream, this`styles, this`inThink, this`pendingTag
      ensures Valid()
      ensures Fed(Shown(), pendingTag) == Feed(tags, Apply, old(Fed(Shown(), pendingTag)), text, finish)
    {
      ghost var fed := Fed(Shown(), pendingTag);
      var cur := pendingTag + text;
      pendingTag := [];
      UptoStart(tags, Apply, fed, text, finish);
      while cur != []
        invariant pendingTag == [] && Upto(tags, Apply, fed, text, finish, Shown(), cur)
        decreases |cur|
      {
        if tags.open <= cur {
          UptoMore(tags, Apply, fed, text, finish, Shown(), cur, Open);
          inThink := true;
          cur := cur[|tags.open|..];
        } else if tags.close <= cur {
          UptoMore(tags, Apply, fed, text, finish, Shown(), cur, Close);
          inThink := false;
          AppendVisible('\n');
          cur := cur[|tags.close|..];
        } else if !finish && tags.IsPartial(cur) {
          UptoEnd(tags, Apply, fed, text, finish, Shown(), cur);
          if |cur| < PENDING_SIZE { pendingTag := cur; }
          return;
        } else {
          UptoMore(tags, Apply, fed, text, finish, Shown(), cur, Char(cur[0]));
          AppendVisible(cur[0]);
          cur := cur[1..];
        }
      }
      UptoEnd(tags, Apply, fed, text, finish, Shown(), cur);
    }
  }

  // What is shown --------------------------------------------------------------------------

  /** What an event leaves on the screen: a character, or a line break for a closing tag. */
  function Mark(e: Event): string {
    match e case Open => "" case Close => "\n" case Char(c) => [c]
  }

  function Visible(events: seq<Event>): string {
    if events == [] then [] else Visible(events[..|events| - 1]) + Mark(events[|events| - 1])
  }

  /** Event k has left its byte behind those of the earlier events: a character in the thinking style exactly when it
      was read while thinking, the line break of a closing tag in the answer's style. */
  ghost predicate StyledAt(v: View, w: View, events: seq<Event>, k: nat)
    requires k < |events|
  {
    var at := |v.styles| + |Visible(events[..k])|;
    && (events[k].Char? ==>
          at < |w.stream| == |w.styles| && w.stream[at] == events[k].c && w.styles[at] <= 1
          && (w.styles[at] == 1 <==> ThinkingAt(events, k, v.inThink)))
    && (events[k].Close? ==> at < |w.stream| == |w.styles| && w.stream[at] == '\n' && w.styles[at] == 0)
  }

  /** w is what v becomes by showing the events. */
  ghost predicate ShownAs(v: View, w: View, events: seq<Event>) {
    && w.stream == v.stream + Visible(events) && |w.styles| == |w.stream| && v.styles <= w.styles
    && (forall k :: 0 <= k < |events| ==> StyledAt(v, w, events, k))
    && w.inThink == ThinkingAt(events, |events|, v.inThink)
  }

  lemma VisibleSnoc(init: seq<Event>, e: Event)
    ensures Visible(init + [e]) == Visible(init) + Mark(e)
  {
    assert (init + [e])[..|init|] == init;
  }

  lemma StillStyled(v: View, w: View, init: seq<Event>, e: Event, more: View, k: nat)
    requires k < |init| && StyledAt(v, w, init, k) && |w.styles| == |w.stream|
    requires |more.styles| == |more.stream| && w.stream <= more.stream && w.styles <= more.styles
    ensures StyledAt(v, more, init + [e], k)
  {
    assert (init + [e])[..k] == init[..k] && (init + [e])[k] == init[k];
    ThinkingPrefix(init, e, k, v.inThink);
  }

  lemma NewlyStyled(v: View, w: View, init: seq<Event>, e: Event)
    requires ShownAs(v, w, init) && |v.styles| == |v.stream|
    ensures StyledAt(v, Apply(w, e), init + [e], |init|)
  {
    var all, n := init + [e], |init|;
    assert all[..n] == init && all[n] == e;
    ThinkingPrefix(init, e, n, v.inThink);
  }

  lemma AllStyled(v: View, w: View, init: seq<Event>, e: Event, all: seq<Event>, more: View)
    requires ShownAs(v, w, init) && |v.styles| == |v.stream| && all == init + [e] && more == Apply(w, e)
    ensures forall k :: 0 <= k < |all| ==> StyledAt(v, more, all, k)
  {
    forall k | 0 <= k < |all| ensures StyledAt(v, more, all, k) {
      if k < |init| {
        assert StyledAt(v, w, init, k);
        StillStyled(v, w, init, e, more, k);
      } else {
        NewlyStyled(v, w, init, e);
      }
    }
  }

  lemma ShownSnoc(v: View, w: View, init: seq<Event>, e: Event)
    requires ShownAs(v, w, init) && |v.styles| == |v.stream|
    ensures ShownAs(v, Apply(w, e), init + [e])
  {
    var all, more := init + [e], Apply(w, e);
    AllStyled(v, w, init, e, all, more);
    VisibleSnoc(init, e);
    assert v.stream + (Visible(init) + Mark(e)) == v.stream + Visible(init) + Mark(e);
    ThinkingNext(all, |init|, v.inThink);
    ThinkingPrefix(init, e, |init|, v.inThink);
  }

  /** Any events are shown as they should be. */
  lemma {:induction false} EventsAreShown(v: View, events: seq<Event>)
    requires |v.styles| == |v.stream|
    ensures ShownAs(v, Run(Apply, v, events), events)
    decreases |events|
  {
    if events == [] {
      assert v.stream + [] == v.stream;
      ThinkingStarts(events, v.inThink);
    } else {
      var n := |events| - 1;
      var init := events[..n];
      EventsAreShown(v, init);
      ShownSnoc(v, Run(Apply, v, init), init, events[n]);
      RunSnoc(Apply, v, init, events[n]);
      assert init + [events[n]] == events;
    }
  }

  /** Every visible byte has exactly one style. */
  lemma OneStylePerByte(v: View, events: seq<Event>)
    requires |v.styles| == |v.stream|
    ensures var w := Run(Apply, v, events); |w.styles| == |w.stream|
  {
    EventsAreShown(v, events);
  }

  /** What is on the screen once all pieces are fed and the stream is finished. */
  function Finished(fed: Fed<View>, t: Tags, pieces: seq<string>): Fed<View>
    requires t.Valid()
  {
    Feed(t, Apply, FeedAll(t, Apply, fed, pieces), "", true)
  }

  /** However the text is cut, the finished stream shows the text's one reading: the visible characters in order with
      a line break for each closing tag, every character in the style it was read in, and nothing pending. */
  lemma ShownOutput(fed: Fed<View>, t: Tags, pieces: seq<string>, events: seq<Event>)
    requires t.Valid() && |fed.state.styles| == |fed.state.stream| && ReadsAs(t, fed.pending + Concat(pieces), events)
    ensures ShownAs(fed.state, Finished(fed, t, pieces).state, events) && Finished(fed, t, pieces).pending == []
  {
    FinishedIsReading(t, Apply, fed, pieces, events);
    EventsAreShown(fed.state, events);
  }

  /** Two ways of cutting a text show the same. */
  lemma ShownAlike(fed: Fed<View>, t: Tags, a: seq<string>, b: seq<string>)
    requires t.Valid() && Concat(a) == Concat(b)
    ensures Finished(fed, t, a) == Finished(fed, t, b) && Finished(fed, t, a).pending == []
  {
    CutsDoNotMatter(t, Apply, fed, a, b);
  }
}
