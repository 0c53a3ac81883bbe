/** The command line's token printer: thinking in grey, and one line break after it. */
module TokenPrinter {
  import opened ThinkSplitter

  const GREY: string := "\U{1b}[90m"
  const RESET: string := "\U{1b}[0m"

  /** What has been written and the printer's modes. */
  datatype View = View(output: string, inThink: bool, colorOpen: bool, lastNewline: bool, useColor: bool)
  {
    function SetGrey(): View {
      if useColor && !colorOpen then this.(output := output + GREY, colorOpen := true) else this
    }

    function ResetColor(): View {
      if useColor && colorOpen then this.(output := output + RESET, colorOpen := false) else this
    }

    function Put(c: char): View { this.(output := output + [c], lastNewline := c == '\n') }

    function WriteChar(c: char): View { (if inThink then SetGrey() else this).Put(c) }

    function EndThinking(): View {
      var v := this.(inThink := false).ResetColor();
      if v.lastNewline then v else v.Put('\n')
    }
  }

  function Apply(v: View, e: Event): View {
    match e
    case Open => v.(inThink := true)
    case Close => v.EndThinking()
    case Char(c) => v.WriteChar(c)
  }

  class Printer {
    const tags: Tags
    const useColor: bool
    const formatThinking: bool
    var output: string
    var inThink: bool
    var colorOpen: bool
    var lastOutputNewline: bool
    var pending: string

    /** The pending buffer never holds more than its 16 bytes allow. */
    ghost predicate Valid()
      reads this
    {
      tags.Valid() && |pending| < PENDING_SIZE
    }

    function Now(): View
      reads this
    {
      View(output, inThink, colorOpen, lastOutputNewline, useColor)
    }

    constructor (useColor: bool, formatThinking: bool, inThink: bool)
      ensures Valid() && tags == Think() && this.formatThinking == formatThinking
      ensures Now() == View([], inThink, false, true, useColor) && pending == []
    {
      ThinkIsValid();
      tags, this.useColor, this.formatThinking := Think(), useColor, formatThinking;
      output, this.inThink, colorOpen, lastOutputNewline, pending := [], inThink, false, true, [];
    }

    method SetGrey()
      modifies this`output, this`colorOpen
      ensures Now() == old(Now()).SetGrey()
    {
      if useColor && !colorOpen {
        output := output + GREY;
        colorOpen := true;
      }
    }

    method ResetColor()
      modifies this`output, this`colorOpen
      ensures Now() == old(Now()).ResetColor()
    {
      if useColor && colorOpen {
        output := output + RESET;
        colorOpen := false;
      }
    }

    method WriteChar(c: char)
      modifies this`output, this`colorOpen, this`lastOutputNewline
      ensures Now() == old(Now()).WriteChar(c)
    {
      if inThink { SetGrey(); }
      output := output + [c];
      lastOutputNewline := c == '\n';
    }

    method EndThinking()
      modifies this`output, this`inThink, this`colorOpen, this`lastOutputNewline
      ensures Now() == old(Now()).EndThinking()
    {
      inThink := false;
      ResetColor();
      if !lastOutputNewline {
        output := output + ['\n'];
        lastOutputNewline := true;
      }
    }

    /** Feeds one piece of text. cur is what has not been read yet. */
    method Process(text: string, finish: bool)
      requires Valid()
      modifies this`output, this`inThink, this`colorOpen, this`lastOutputNewline, this`pending
      ensures Valid()
      ensures Fed(Now(), pending) == Feed(tags, Apply, old(Fed(Now(), pending)), text, finish)
    {
      ghost var fed := Fed(Now(), pending);
      var cur := pending + text;
      pending := [];
      UptoStart(tags, Apply, fed, text, finish);
      while cur != []
        invariant pending == [] && Upto(tags, Apply, fed, text, finish, Now(), cur)
        decreases |cur|
      {
        if tags.open <= cur {
          UptoMore(tags, Apply, fed, text, finish, Now(), cur, Open);
          inThink := true;
          cur := cur[|tags.open|..];
        } else if tags.close <= cur {
          UptoMore(tags, Apply, fed, text, finish, Now(), cur, Close);
          EndThinking();
          cur := cur[|tags.close|..];
        } else if !finish && tags.IsPartial(cur) {
          UptoEnd(tags, Apply, fed, text, finish, Now(), cur);
          if |cur| < PENDING_SIZE { pending := cur; }
          return;
        } else {
          UptoMore(tags, Apply, fed, text, finish, Now(), cur, Char(cur[0]));
          WriteChar(cur[0]);
          cur := cur[1..];
        }
      }
      UptoEnd(tags, Apply, fed, text, finish, Now(), cur);
    }

    method WriteText(text: string)
      requires Valid()
      modifies this`output, this`inThink, this`colorOpen, this`lastOutputNewline, this`pending
      ensures Valid()
      ensures formatThinking ==> Fed(Now(), pending) == Feed(tags, Apply, old(Fed(Now(), pending)), text, false)
      ensures !formatThinking ==> pending == old(pending) && Now() == Raw(old(Now()), text)
    {
      if formatThinking {
        Process(text, false);
      } else if |text| != 0 {
        output := output + text;
        lastOutputNewline := text[|text| - 1] == '\n';
      }
    }

    /** Ends the output: what waited is written out and the colour is switched off. */
    method Finish()
      requires Valid()
      modifies this`output, this`inThink, this`colorOpen, this`lastOutputNewline, this`pending
      ensures Valid()
      ensures formatThinking ==> Finished(old(Fed(Now(), pending)), tags) == Now() && pending == []
      ensures !formatThinking ==> Now() == old(Now()) && pending == old(pending)
    {
      if formatThinking {
        ScanIsReading(tags, pending + "", true);
        Process("", true);
        ResetColor();
      }
    }
  }

  /** Unformatted text goes out as it is. */
  function Raw(v: View, text: string): View {
    if text == [] then v else v.(output := v.output + text, lastNewline := text[|text| - 1] == '\n')
  }

  function Finished(fed: Fed<View>, t: Tags): View
    requires t.Valid()
  {
    Feed(t, Apply, fed, "", true).state.ResetColor()
  }

  /** All pieces written raw. */
  function RawAll(v: View, pieces: seq<string>): View
    decreases |pieces|
  {
    if pieces == [] then v else RawAll(Raw(v, pieces[0]), pieces[1..])
  }

  lemma {:induction false} RawCutsDoNotMatter(v: View, pieces: seq<string>)
    ensures RawAll(v, pieces) == Raw(v, Concat(pieces)) && RawAll(v, pieces).output == v.output + Concat(pieces)
    ensures var text := Concat(pieces);
            RawAll(v, pieces).lastNewline == if text == [] then v.lastNewline else text[|text| - 1] == '\n'
    decreases |pieces|
  {
    if pieces != [] {
      RawCutsDoNotMatter(Raw(v, pieces[0]), pieces[1..]);
      var rest := Concat(pieces[1..]);
      assert v.output + (pieces[0] + rest) == v.output + pieces[0] + rest;
    }
  }

  /** However the text is cut, the finished output is the same: bytes, colours, thinking and newline state. */
  lemma PrintedOutput(fed: Fed<View>, t: Tags, a: seq<string>, b: seq<string>)
    requires t.Valid() && Concat(a) == Concat(b)
    ensures Finished(FeedAll(t, Apply, fed, a), t) == Finished(FeedAll(t, Apply, fed, b), t)
  {
    CutsDoNotMatter(t, Apply, fed, a, b);
  }

  predicate GreyMeansThinking(v: View) { v.colorOpen ==> v.inThink && v.useColor }

  /** Grey is on only while the model is thinking, and never after the end. */
  lemma {:induction false} GreyOnlyWhileThinking(v: View, events: seq<Event>)
    requires GreyMeansThinking(v)
    ensures GreyMeansThinking(Run(Apply, v, events)) && !Run(Apply, v, events).ResetColor().colorOpen
    decreases |events|
  {
    if events != [] { GreyOnlyWhileThinking(Apply(v, events[0]), events[1..]); }
  }

  // What is printed -------------------------------------------------------------------------

  /** The output is made of characters and of the two colour sequences. */
  datatype Piece = Grey | Reset | Ink(c: char)

  function Bytes(p: Piece): string { match p case Grey => GREY case Reset => RESET case Ink(c) => [c] }

  function Flat(pieces: seq<Piece>): string {
    if pieces == [] then [] else Flat(pieces[..|pieces| - 1]) + Bytes(pieces[|pieces| - 1])
  }

  /** A character as it appears on the terminal. */
  datatype Shown = Shown(c: char, grey: bool)

  /** Is grey on after the pieces? */
  function GreyAfter(pieces: seq<Piece>, open: bool): bool {
    if pieces == [] then open
    else match pieces[|pieces| - 1]
      case Grey => true
      case Reset => false
      case Ink(_) => GreyAfter(pieces[..|pieces| - 1], open)
  }

  /** What the terminal shows for the pieces. */
  function Screen(pieces: seq<Piece>, open: bool): seq<Shown> {
    if pieces == [] then []
    else
      var init, last := pieces[..|pieces| - 1], pieces[|pieces| - 1];
      if last.Ink? then Screen(init, open) + [Shown(last.c, GreyAfter(init, open))] else Screen(init, open)
  }

  /** Colour sequences come only with colour, and each one changes the colour. */
  ghost predicate ColourOk(pieces: seq<Piece>, open: bool, useColor: bool) {
    && (!useColor ==> forall i :: 0 <= i < |pieces| ==> pieces[i].Ink?)
    && (forall i :: 0 <= i < |pieces| ==> ChangesAt(pieces, open, i))
  }

  ghost predicate ChangesAt(pieces: seq<Piece>, open: bool, i: nat)
    requires i < |pieces|
  {
    (pieces[i].Grey? ==> !GreyAfter(pieces[..i], open)) && (pieces[i].Reset? ==> GreyAfter(pieces[..i], open))
  }

  /** The last character ended a line; with none written yet, start says so. */
  predicate AtLineStart(shown: seq<Shown>, start: bool) {
    if shown == [] then start else shown[|shown| - 1].c == '\n'
  }

  /** What the events are to look like: the characters in order, grey exactly when read while thinking and colour is
      in use, and a plain line break for a closing tag that does not come at the start of a line. */
  ghost function Expected(v: View, events: seq<Event>): seq<Shown> {
    if events == [] then []
    else
      var n := |events| - 1;
      var before := Expected(v, events[..n]);
      match events[n]
      case Open => before
      case Close => if AtLineStart(before, v.lastNewline) then before else before + [Shown('\n', false)]
      case Char(c) => before + [Shown(c, v.useColor && ThinkingAt(events, n, v.inThink))]
  }

  /** w is v after printing the pieces, which look as the events should. */
  ghost predicate PrintedAs(v: View, w: View, events: seq<Event>, pieces: seq<Piece>) {
    && w.output == v.output + Flat(pieces) && Screen(pieces, v.colorOpen) == Expected(v, events)
    && ColourOk(pieces, v.colorOpen, v.useColor)
    && w.colorOpen == GreyAfter(pieces, v.colorOpen) && w.useColor == v.useColor
    && w.inThink == ThinkingAt(events, |events|, v.inThink)
    && w.lastNewline == AtLineStart(Expected(v, events), v.lastNewline)
    && GreyMeansThinking(w)
  }

  lemma PieceSnoc(init: seq<Piece>, p: Piece, open: bool, useColor: bool)
    requires ColourOk(init, open, useColor) && (!p.Ink? ==> useColor)
    requires (p.Grey? ==> !GreyAfter(init, open)) && (p.Reset? ==> GreyAfter(init, open))
    ensures ColourOk(init + [p], open, useColor)
    ensures GreyAfter(init + [p], open)
            == match p case Grey => true case Reset => false case Ink(_) => GreyAfter(init, open)
    ensures Screen(init + [p], open)
            == if p.Ink? then Screen(init, open) + [Shown(p.c, GreyAfter(init, open))] else Screen(init, open)
    ensures Flat(init + [p]) == Flat(init) + Bytes(p)
  {
    var all := init + [p];
    assert all[..|init|] == init;
    forall i | 0 <= i < |all| ensures ChangesAt(all, open, i) {
      if i < |init| { assert ChangesAt(init, open, i) && all[..i] == init[..i]; }
    }
  }

  lemma ExpectedSnoc(v: View, init: seq<Event>, e: Event)
    ensures var before := Expected(v, init);
            Expected(v, init + [e]) == match e
              case Open => before
              case Close => if AtLineStart(before, v.lastNewline) then before else before + [Shown('\n', false)]
              case Char(c) => before + [Shown(c, v.useColor && ThinkingAt(init, |init|, v.inThink))]
  {
    assert (init + [e])[..|init|] == init;
    ThinkingPrefix(init, e, |init|, v.inThink);
  }

  lemma Regroup3(a: string, b: string, c: string)
    ensures a + (b + c) == a + b + c
  {}

  /** Switching grey on or off leaves no character. */
  lemma GreyPrinted(v: View, w: View, events: seq<Event>, pieces: seq<Piece>) returns (more: seq<Piece>)
    requires PrintedAs(v, w, events, pieces) && w.inThink
    ensures PrintedAs(v, w.SetGrey(), events, more)
  {
    if w.useColor && !w.colorOpen {
      more := pieces + [Grey];
      PieceSnoc(pieces, Grey, v.colorOpen, v.useColor);
      Regroup3(v.output, Flat(pieces), GREY);
    } else {
      more := pieces;
    }
  }

  lemma ResetPrinted(v: View, w: View, events: seq<Event>, pieces: seq<Piece>) returns (more: seq<Piece>)
    requires PrintedAs(v, w, events, pieces)
    ensures PrintedAs(v, w.ResetColor(), events, more) && !w.ResetColor().colorOpen
  {
    if w.colorOpen {
      more := pieces + [Reset];
      PieceSnoc(pieces, Reset, v.colorOpen, v.useColor);
      Regroup3(v.output, Flat(pieces), RESET);
    } else {
      more := pieces;
    }
  }

  /** A character in the colour of the moment. */
  lemma PutPrinted(v: View, w: View, init: seq<Event>, c: char, pieces: seq<Piece>)
    requires PrintedAs(v, w, init, pieces) && (w.inThink && w.useColor ==> w.colorOpen)
    ensures PrintedAs(v, w.Put(c), init + [Char(c)], pieces + [Ink(c)])
  {
    PieceSnoc(pieces, Ink(c), v.colorOpen, v.useColor);
    Regroup3(v.output, Flat(pieces), [c]);
    ExpectedSnoc(v, init, Char(c));
    ThinkingNext(init + [Char(c)], |init|, v.inThink);
    ThinkingPrefix(init, Char(c), |init|, v.inThink);
  }

  lemma CharPrinted(v: View, w: View, init: seq<Event>, c: char, pieces: seq<Piece>) returns (more: seq<Piece>)
    requires PrintedAs(v, w, init, pieces)
    ensures PrintedAs(v, w.WriteChar(c), init + [Char(c)], more)
  {
    if w.inThink {
      var mid := GreyPrinted(v, w, init, pieces);
      PutPrinted(v, w.SetGrey(), init, c, mid);
      more := mid + [Ink(c)];
    } else {
      PutPrinted(v, w, init, c, pieces);
      more := pieces + [Ink(c)];
    }
  }

  /** The end of the thinking once grey is off. */
  lemma LeavePrinted(v: View, w: View, init: seq<Event>, pieces: seq<Piece>) returns (more: seq<Piece>)
    requires PrintedAs(v, w, init, pieces) && !w.colorOpen
    ensures var left := w.(inThink := false);
            PrintedAs(v, if w.lastNewline then left else left.Put('\n'), init + [Close], more)
  {
    ExpectedSnoc(v, init, Close);
    ThinkingNext(init + [Close], |init|, v.inThink);
    if w.lastNewline { return pieces; }
    more := pieces + [Ink('\n')];
    PieceSnoc(pieces, Ink('\n'), v.colorOpen, v.useColor);
    Regroup3(v.output, Flat(pieces), "\n");
  }

  lemma ClosePrinted(v: View, w: View, init: seq<Event>, pieces: seq<Piece>) returns (more: seq<Piece>)
    requires PrintedAs(v, w, init, pieces)
    ensures PrintedAs(v, w.EndThinking(), init + [Close], more)
  {
    var mid := ResetPrinted(v, w, init, pieces);
    more := LeavePrinted(v, w.ResetColor(), init, mid);
    assert w.(inThink := false).ResetColor() == w.ResetColor().(inThink := false);
  }

  lemma OpenPrinted(v: View, w: View, init: seq<Event>, pieces: seq<Piece>)
    requires PrintedAs(v, w, init, pieces)
    ensures PrintedAs(v, w.(inThink := true), init + [Open], pieces)
  {
    ExpectedSnoc(v, init, Open);
    ThinkingNext(init + [Open], |init|, v.inThink);
  }

  /** Any events are printed as they should look. */
  lemma {:induction false} EventsArePrinted(v: View, events: seq<Event>) returns (pieces: seq<Piece>)
    requires GreyMeansThinking(v)
    ensures PrintedAs(v, Run(Apply, v, events), events, pieces)
    decreases |events|
  {
    if events == [] {
      pieces := [];
      assert v.output + [] == v.output;
      ThinkingStarts(events, v.inThink);
    } else {
      var n := |events| - 1;
      var init, e := events[..n], events[n];
      assert init + [e] == events;
      pieces := EventsArePrinted(v, init);
      RunSnoc(Apply, v, init, e);
      var w := Run(Apply, v, init);
      match e
      case Open => OpenPrinted(v, w, init, pieces);
      case Close => pieces := ClosePrinted(v, w, init, pieces);
      case Char(c) => pieces := CharPrinted(v, w, init, c, pieces);
    }
  }

  /** However the text is cut, the finished output looks as the text's one reading should, and grey is off. */
  lemma FinishedLooks(fed: Fed<View>, t: Tags, a: seq<string>, events: seq<Event>) returns (pieces: seq<Piece>)
    requires t.Valid() && GreyMeansThinking(fed.state) && ReadsAs(t, fed.pending + Concat(a), events)
    ensures var v, w := fed.state, Finished(FeedAll(t, Apply, fed, a), t);
            && w.output == v.output + Flat(pieces) && Screen(pieces, v.colorOpen) == Expected(v, events)
            && ColourOk(pieces, v.colorOpen, v.useColor) && !GreyAfter(pieces, v.colorOpen)
            && w.inThink == ThinkingAt(events, |events|, v.inThink)
            && w.lastNewline == AtLineStart(Expected(v, events), v.lastNewline)
  {
    FinishedIsReading(t, Apply, fed, a, events);
    pieces := EventsArePrinted(fed.state, events);
    pieces := ResetPrinted(fed.state, Run(Apply, fed.state, events), events, pieces);
  }
}
