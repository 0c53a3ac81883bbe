/** The evaluation trace: counted blocks written into a line-oriented file, and the parser that finds the
    cases and copies each model output whatever it contains. */
module TraceFraming {
  import opened Bytes
  import opened TraceText
  import opened Wrappers

  const LABEL_MAX: nat := 96

  /** The fixed texts of the format. output names the model output blocks, opener what their begin
      line starts with. */
  datatype Marks = Marks(begin: string, stop: string, caseMark: string, output: string, opener: string, bytes: string,
    read: (string, nat) -> (nat, nat))
  {
    /** read understands the numbers that are written. */
    ghost predicate ReadsNumbers() {
      forall b: string, p: nat, n: nat {:trigger read(b, p), Dec(n)} ::
        n <= U64_MAX && At(b, p, Dec(n)) && (p + |Dec(n)| < |b| ==> !IsDigit(b[p + |Dec(n)|])) ==>
              read(b, p) == (n, p + |Dec(n)|)
    }

    /** begin is first found right behind the name. */
    ghost predicate GoodLabel(name: string) {
      name != [] && '\n' !in name && |name| <= LABEL_MAX && NoneIn(name + begin, 0, |name|, begin)
    }

    ghost predicate Valid() {
      && begin != [] && '\n' !in begin && caseMark != [] && '\n' !in stop
      && GoodLabel(output) && opener != [] && opener <= output + begin
      && |bytes| <= |output + begin|
      && At(output + begin, |output + begin| - |bytes|, bytes)
          && NoneIn(output + begin, 0, |output + begin| - |bytes|, bytes)
    }

    /** A line no search stops at. */
    ghost predicate Plain(l: string) { '\n' !in l && (forall i: nat :: !At(l, i, begin)) && !(opener <= l) }
    ghost predicate SafeLine(l: string) { Plain(l) && !(caseMark <= l) }
    ghost predicate CaseLine(l: string) { Plain(l) && caseMark <= l }
  }

  // Writing --------------------------------------------------------------------------------

  datatype Item = Line(text: string) | Block(name: string, text: string)

  function Ending(text: string): string { if text != [] && text[|text| - 1] != '\n' then "\n" else "" }

  /** A newline is added exactly when the text does not end a line, so the end marker starts one. */
  lemma EndsLine(text: string)
    ensures var all := text + Ending(text); all == [] || all[|all| - 1] == '\n'
    ensures text == [] || text[|text| - 1] == '\n' ==> Ending(text) == []
    ensures |Ending(text)| <= 1
  {}

  function Head(m: Marks, name: string, n: nat): string { name + m.begin + Dec(n) }

  function Render(m: Marks, i: Item): string {
    match i
    case Line(l) => l + "\n"
    case Block(name, text) => (Head(m, name, |text|) + "\n") + (text + (Ending(text) + ((name + m.stop) + "\n")))
  }

  function RenderAll(m: Marks, items: seq<Item>): string {
    if items == [] then [] else Render(m, items[0]) + RenderAll(m, items[1..])
  }

  // Parsing --------------------------------------------------------------------------------

  /** Where the counted block that starts on this line ends, if it is one. */
  function SkipCountedBlock(m: Marks, b: string, line: nat, lineEnd: nat, end: nat): (q: Option<nat>)
    requires line <= lineEnd <= end <= |b|
    ensures q.Some? ==> lineEnd <= q.value <= end
  {
    var begin := Find(b, line, lineEnd, m.begin);
    if begin.None? || begin.value == line || begin.value - line > LABEL_MAX then None
    else
      var bytes := begin.value + |m.begin|;
      var number := m.read(b, bytes);
      var content := if lineEnd < end then lineEnd + 1 else end;
      if number.1 == bytes || number.1 > lineEnd || number.0 > end - content then None
      else AfterBlock(b, b[line..begin.value] + m.stop, content + number.0, end)
  }

  /** The line behind the end marker, which may have a newline before it. */
  function AfterBlock(b: string, marker: string, contentEnd: nat, end: nat): (q: Option<nat>)
    requires contentEnd <= end <= |b|
    ensures q.Some? ==> contentEnd <= q.value <= end
  {
    var at := if contentEnd < end && b[contentEnd] == '\n' then contentEnd + 1 else contentEnd;
    if end - at < |marker| || !At(b, at, marker) then None
    else
      var q := LineEnd(b, at + |marker|, end);
      Some(if q < end then q + 1 else end)
  }

  function NextLine(b: string, lineEnd: nat, end: nat): nat { if lineEnd < end then lineEnd + 1 else end }

  function FindNextCase(m: Marks, b: string, p: nat, end: nat): (q: Option<nat>)
    requires p <= end <= |b|
    ensures q.Some? ==> p <= q.value < end
    decreases end - p
  {
    if p == end then None
    else
      var lineEnd := LineEnd(b, p, end);
      var skip := SkipCountedBlock(m, b, p, lineEnd, end);
      if skip.Some? && skip.value > p then FindNextCase(m, b, skip.value, end)
      else if lineEnd - p >= |m.caseMark| && At(b, p, m.caseMark) then Some(p)
      else FindNextCase(m, b, NextLine(b, lineEnd, end), end)
  }

  function FindBlockBegin(m: Marks, b: string, p: nat, end: nat): (q: Option<nat>)
    requires p <= end <= |b|
    ensures q.Some? ==> p <= q.value < end
    decreases end - p
  {
    if p == end then None
    else
      var lineEnd := LineEnd(b, p, end);
      var skip := SkipCountedBlock(m, b, p, lineEnd, end);
      if lineEnd - p >= |m.opener| && At(b, p, m.opener) then Some(p)
      else if skip.Some? && skip.value > p then FindBlockBegin(m, b, skip.value, end)
      else FindBlockBegin(m, b, NextLine(b, lineEnd, end), end)
  }

  /** The output of the case between start and end: counted, or in old traces up to the end marker. */
  function CopyModelOutput(m: Marks, b: string, start: nat, end: nat): Option<string>
    requires start <= end <= |b|
  {
    var begin := FindBlockBegin(m, b, start, end);
    if begin.None? then None
    else
      var lineEnd := LineEnd(b, begin.value, end);
      if lineEnd == end then None
      else
        var content := lineEnd + 1;
        var bytes := Find(b, begin.value, lineEnd, m.bytes);
        if bytes.Some? then CopyCounted(b, m.read(b, bytes.value + |m.bytes|), bytes.value + |m.bytes|, lineEnd,
            content, end, m.output + m.stop)
        else
          var finish := Find(b, content, end, "\n" + m.output + m.stop);
          if finish.None? then None else Some(b[content..finish.value])
  }

  function Copy(b: string, p: nat, n: nat): string
    requires p + n <= |b|
  {
    b[p..p + n]
  }

  function CopyCounted(b: string, number: (nat, nat), digits: nat, lineEnd: nat, content: nat, end: nat,
        endMarker: string): Option<string>
    requires content <= end <= |b|
  {
    if number.1 == digits || number.1 > lineEnd || number.0 > end - content then None
    else
      var finish := content + number.0;
      var marker := if finish < end && b[finish] == '\n' then finish + 1 else finish;
      if end - marker < |endMarker| || !At(b, marker, endMarker) then None
      else Some(Copy(b, content, number.0))
  }

  /** The outputs of all cases from start on. */
  function Outputs(m: Marks, b: string, start: nat, end: nat): seq<Option<string>>
    requires start <= end <= |b|
    decreases end - start
  {
    var s := FindNextCase(m, b, start, end);
    if s.None? then []
    else
      var e := CaseEnd(m, b, s.value, end);
      [CopyModelOutput(m, b, s.value, e)] + Outputs(m, b, e, end)
  }

  function CaseEnd(m: Marks, b: string, caseStart: nat, end: nat): (e: nat)
    requires caseStart < end <= |b|
    ensures caseStart < e <= end
  {
    var lineEnd := LineEnd(b, caseStart, end);
    var next := FindNextCase(m, b, NextLine(b, lineEnd, end), end);
    if next.Some? then next.value else end
  }

  // What is taken for a block ----------------------------------------------------------------

  /** marker stands at f or behind one newline there, and ends by end at stop. */
  ghost predicate MarkerAt(b: string, f: nat, marker: string, end: nat, stop: nat) {
    && f <= end <= |b| && stop == f + (if f < end && b[f] == '\n' then 1 else 0) + |marker|
    && stop <= end && At(b, stop - |marker|, marker)
  }

  /** The line from line to lineEnd starts a counted block whose end marker ends at stop: a name of 1 to 96 characters
      before the first begin mark, a number that ends on the line, as many characters behind it, and the name's end
      marker. */
  ghost predicate CountedAt(m: Marks, b: string, line: nat, lineEnd: nat, end: nat, begin: nat, stop: nat)
    requires line <= lineEnd <= end <= |b|
  {
    && line < begin <= line + 96 && begin + |m.begin| <= lineEnd
    && At(b, begin, m.begin) && NoneIn(b, line, begin, m.begin)
    && var digits := begin + |m.begin|;
       var (n, after) := m.read(b, digits);
       && after != digits && after <= lineEnd
       && MarkerAt(b, NextLine(b, lineEnd, end) + n, b[line..begin] + m.stop, end, stop)
  }

  /** A line is taken for the start of a counted block exactly when it is one, and then the block ends behind the line
      of its end marker. */
  lemma SkipMeans(m: Marks, b: string, line: nat, lineEnd: nat, end: nat)
    requires line <= lineEnd <= end <= |b|
    ensures SkipCountedBlock(m, b, line, lineEnd, end).Some? <==>
              exists begin: nat, stop: nat :: CountedAt(m, b, line, lineEnd, end, begin, stop)
    ensures forall begin: nat, stop: nat :: CountedAt(m, b, line, lineEnd, end, begin, stop) ==>
              SkipCountedBlock(m, b, line, lineEnd, end) == Some(NextLine(b, LineEnd(b, stop, end), end))
  {
    var r := SkipCountedBlock(m, b, line, lineEnd, end);
    if r.Some? { var begin, stop := SkippedIsCounted(m, b, line, lineEnd, end); }
    forall begin: nat, stop: nat | CountedAt(m, b, line, lineEnd, end, begin, stop)
      ensures r == Some(NextLine(b, LineEnd(b, stop, end), end))
    {
      CountedIsSkipped(m, b, line, lineEnd, end, begin, stop);
    }
  }

  lemma CountedIsSkipped(m: Marks, b: string, line: nat, lineEnd: nat, end: nat, begin: nat, stop: nat)
    requires line <= lineEnd <= end <= |b| && CountedAt(m, b, line, lineEnd, end, begin, stop)
    ensures SkipCountedBlock(m, b, line, lineEnd, end) == Some(NextLine(b, LineEnd(b, stop, end), end))
  {
    FindIs(b, line, lineEnd, m.begin, begin);
    BlockEnds(b, NextLine(b, lineEnd, end) + m.read(b, begin + |m.begin|).0, b[line..begin] + m.stop, end, stop);
  }

  lemma BlockEnds(b: string, f: nat, marker: string, end: nat, stop: nat)
    requires MarkerAt(b, f, marker, end, stop)
    ensures AfterBlock(b, marker, f, end) == Some(NextLine(b, LineEnd(b, stop, end), end))
  {}

  lemma SkippedIsCounted(m: Marks, b: string, line: nat, lineEnd: nat, end: nat) returns (begin: nat, stop: nat)
    requires line <= lineEnd <= end <= |b| && SkipCountedBlock(m, b, line, lineEnd, end).Some?
    ensures CountedAt(m, b, line, lineEnd, end, begin, stop)
  {
    FoundFirst(b, line, lineEnd, m.begin);
    begin := Find(b, line, lineEnd, m.begin).value;
    var marker := b[line..begin] + m.stop;
    var f := NextLine(b, lineEnd, end) + m.read(b, begin + |m.begin|).0;
    stop := f + (if f < end && b[f] == '\n' then 1 else 0) + |marker|;
  }

  /** The begin line of an output at p ends at lineEnd, and its first count mark ends at digits. */
  ghost predicate CountMarked(m: Marks, b: string, start: nat, end: nat, p: nat, lineEnd: nat, digits: nat) {
    && start <= p <= lineEnd < end <= |b| && FindBlockBegin(m, b, start, end) == Some(p)
    && LineEnd(b, p, end) == lineEnd
    && p + |m.bytes| <= digits <= lineEnd && At(b, digits - |m.bytes|, m.bytes)
    && NoneIn(b, p, digits - |m.bytes|, m.bytes)
  }

  lemma OutputIsCounted(m: Marks, b: string, start: nat, end: nat, p: nat, lineEnd: nat, digits: nat)
    requires CountMarked(m, b, start, end, p, lineEnd, digits)
    ensures CopyModelOutput(m, b, start, end)
            == CopyCounted(b, m.read(b, digits), digits, lineEnd, lineEnd + 1, end, m.output + m.stop)
  {
    FindIs(b, p, lineEnd, m.bytes, digits - |m.bytes|);
  }

  /** A counted output is copied exactly when its number ends on the line and as many characters and the end marker
      follow; then those characters are it. */
  lemma CountedOutputMeans(m: Marks, b: string, start: nat, end: nat, p: nat, lineEnd: nat, digits: nat)
    requires CountMarked(m, b, start, end, p, lineEnd, digits)
    ensures var (n, after) := m.read(b, digits);
            var content, marker := lineEnd + 1, m.output + m.stop;
            var finish := content + n;
            if after != digits && after <= lineEnd && exists stop: nat :: MarkerAt(b, finish, marker, end, stop)
            then finish <= end && CopyModelOutput(m, b, start, end) == Some(b[content..finish])
            else CopyModelOutput(m, b, start, end).None?
  {
    var (n, after) := m.read(b, digits);
    OutputIsCounted(m, b, start, end, p, lineEnd, digits);
    CountedCopyMeans(b, n, after, digits, lineEnd, lineEnd + 1, end, m.output + m.stop, lineEnd + 1 + n);
  }

  lemma CountedCopyMeans(b: string, n: nat, after: nat, digits: nat, lineEnd: nat, content: nat, end: nat,
        marker: string, finish: nat)
    requires content <= end <= |b| && finish == content + n
    ensures var copied := CopyCounted(b, (n, after), digits, lineEnd, content, end, marker);
            if after != digits && after <= lineEnd && exists stop: nat :: MarkerAt(b, finish, marker, end, stop)
            then finish <= end && copied == Some(b[content..finish]) else copied.None?
  {
    var stop := finish + (if finish < end <= |b| && b[finish] == '\n' then 1 else 0) + |marker|;
    if stop <= end { assert MarkerAt(b, finish, marker, end, stop) <==> At(b, stop - |marker|, marker); }
  }

  // The loops of the parser ------------------------------------------------------------------

  method NextCase(m: Marks, b: string, start: nat, end: nat) returns (q: Option<nat>)
    requires start <= end <= |b|
    ensures q == FindNextCase(m, b, start, end)
  {
    var p := start;
    while p < end
      invariant start <= p <= end && FindNextCase(m, b, start, end) == FindNextCase(m, b, p, end)
      decreases end - p
    {
      var lineEnd := LineEnd(b, p, end);
      var skip := SkipCountedBlock(m, b, p, lineEnd, end);
      if skip.Some? && skip.value > p {
        p := skip.value;
        continue;
      }
      if lineEnd - p >= |m.caseMark| && At(b, p, m.caseMark) { return Some(p); }
      p := NextLine(b, lineEnd, end);
    }
    q := None;
  }

  method BlockBegin(m: Marks, b: string, start: nat, end: nat) returns (q: Option<nat>)
    requires start <= end <= |b|
    ensures q == FindBlockBegin(m, b, start, end)
  {
    var p := start;
    while p < end
      invariant start <= p <= end && FindBlockBegin(m, b, start, end) == FindBlockBegin(m, b, p, end)
      decreases end - p
    {
      var lineEnd := LineEnd(b, p, end);
      if lineEnd - p >= |m.opener| && At(b, p, m.opener) { return Some(p); }
      var skip := SkipCountedBlock(m, b, p, lineEnd, end);
      if skip.Some? && skip.value > p {
        p := skip.value;
        continue;
      }
      p := NextLine(b, lineEnd, end);
    }
    q := None;
  }

  /** One round of the regrading loop: a case, up to the next one, and what is left. */
  lemma RoundStep(m: Marks, b: string, start: nat, end: nat, caseStart: nat, caseEnd: nat, before: seq<Option<string>>)
    requires start <= end <= |b| && FindNextCase(m, b, start, end) == Some(caseStart)
    requires caseEnd == CaseEnd(m, b, caseStart, end)
    ensures before + Outputs(m, b, start, end)
            == before + [CopyModelOutput(m, b, caseStart, caseEnd)] + Outputs(m, b, caseEnd, end)
  {
    Regroup(before, [CopyModelOutput(m, b, caseStart, caseEnd)], Outputs(m, b, caseEnd, end));
  }

  lemma Regroup<T>(a: seq<T>, b: seq<T>, c: seq<T>)
    ensures a + b + c == a + (b + c)
  {}

  /** Where a case ends: at the next one, or at the end of the file. */
  method NextEnd(m: Marks, b: string, caseStart: nat, end: nat) returns (caseEnd: nat)
    requires caseStart < end <= |b|
    ensures caseEnd == CaseEnd(m, b, caseStart, end)
  {
    var after := NextLine(b, LineEnd(b, caseStart, end), end);
    var next := NextCase(m, b, after, end);
    caseEnd := if next.Some? then next.value else end;
  }

  /** The regrading loop: case by case through the file. */
  method ReadTrace(m: Marks, b: string) returns (outputs: seq<Option<string>>)
    ensures outputs == Outputs(m, b, 0, |b|)
  {
    outputs := [];
    var start, end := 0, |b|;
    while true
      invariant start <= end == |b| && Outputs(m, b, 0, end) == outputs + Outputs(m, b, start, end)
      decreases end - start
    {
      var caseStart := NextCase(m, b, start, end);
      if caseStart.None? { return; }
      var caseEnd := NextEnd(m, b, caseStart.value, end);
      RoundStep(m, b, start, end, caseStart.value, caseEnd, outputs);
      outputs := outputs + [CopyModelOutput(m, b, caseStart.value, caseEnd)];
      start := caseEnd;
    }
  }
}
