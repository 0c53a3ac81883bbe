/** What is written to a trace is found again: every case, and every model output byte for byte. */
module TraceRoundTrip {
  import opened Bytes
  import opened TraceFraming
  import opened TraceText
  import opened Wrappers

  /** One case: its header line, the metadata lines and the three counted blocks. */
  datatype Case = Case(title: string, meta: seq<string>, system: string, question: string, output: string)

  /** Names of the two prompt blocks. */
  datatype Names = Names(system: string, question: string)

  ghost predicate NamesOk(m: Marks, n: Names) {
    && m.Valid() && m.GoodLabel(n.system) && m.GoodLabel(n.question)
    && n.system[0] != m.opener[0] && n.question[0] != m.opener[0]
  }

  /** Single-line header fields without marker text. The blocks may hold anything that fits the file. */
  ghost predicate CaseOk(m: Marks, c: Case) {
    && m.CaseLine(c.title) && (forall k :: 0 <= k < |c.meta| ==> m.SafeLine(c.meta[k]))
    && |c.system| <= U64_MAX && |c.question| <= U64_MAX && |c.output| <= U64_MAX
  }

  ghost predicate CasesOk(m: Marks, cs: seq<Case>) { cs == [] || (CaseOk(m, cs[0]) && CasesOk(m, cs[1..])) }

  function Lines(ls: seq<string>): seq<Item> { if ls == [] then [] else [Line(ls[0])] + Lines(ls[1..]) }

  /** What a case looks like before its output, and all of it. */
  function Front(n: Names, c: Case): seq<Item> {
    Lines(c.meta) + [Block(n.system, c.system), Block(n.question, c.question)]
  }

  function Back(m: Marks, c: Case): seq<Item> { [Block(m.output, c.output), Line("")] }

  function BackText(m: Marks, c: Case): string { Render(m, Block(m.output, c.output)) + "\n" }

  function RestText(m: Marks, n: Names, c: Case): string { RenderAll(m, Front(n, c)) + BackText(m, c) }

  function CaseText(m: Marks, n: Names, c: Case): string { (c.title + "\n") + RestText(m, n, c) }

  function CasesText(m: Marks, n: Names, cs: seq<Case>): string {
    if cs == [] then [] else CaseText(m, n, cs[0]) + CasesText(m, n, cs[1..])
  }

  // One line ---------------------------------------------------------------------------------

  lemma NoMark(b: string, p: nat, l: string, lineEnd: nat, mark: string)
    requires mark != [] && At(b, p, l) && lineEnd == p + |l|
    requires forall k :: 0 <= k && k + |mark| <= |l| ==> !At(l, k, mark)
    ensures Find(b, p, lineEnd, mark).None?
  {
    forall i: nat | p <= i && i + |mark| <= lineEnd ensures !At(b, i, mark) {
      Inside(b, p, l, i - p, mark);
    }
    FindNone(b, p, lineEnd, mark);
  }

  lemma LineIsNotSkipped(m: Marks, b: string, p: nat, l: string, end: nat)
    requires m.begin != [] && At(b, p, l + "\n") && p + |l| < end <= |b| && m.Plain(l)
    ensures var lineEnd := LineEnd(b, p, end); lineEnd == p + |l| && SkipCountedBlock(m, b, p, lineEnd, end).None?
    ensures At(b, p, l) && b[p + |l|] == '\n'
  {
    var lineEnd := LineEnd(b, p, end);
    LineEndIs(b, p, l, end);
    AtParts(b, p, l, "\n");
    NoMark(b, p, l, lineEnd, m.begin);
  }

  lemma PrefixAt(b: string, p: nat, l: string, mark: string)
    requires At(b, p, l)
    ensures |mark| <= |l| ==> (At(b, p, mark) <==> mark <= l)
  {
    if |mark| <= |l| {
      Inside(b, p, l, 0, mark);
      AtSlice(l, 0, mark);
    }
  }

  // One block --------------------------------------------------------------------------------

  /** Where the parts of a block at p are. */
  lemma BlockParts(m: Marks, b: string, p: nat, name: string, text: string, content: nat, marker: string, q: nat)
    requires At(b, p, Render(m, Block(name, text))) && q == p + |Render(m, Block(name, text))|
             && marker == name + m.stop
    requires content == p + |Head(m, name, |text|)| + 1
    ensures At(b, p, Head(m, name, |text|) + "\n") && Tail(b, content, text, marker, q) && content < q
  {
    var head, rest := Head(m, name, |text|) + "\n", Ending(text) + (marker + "\n");
    AtParts(b, p, head, text + rest);
    AtParts(b, content, text, rest);
    AtParts(b, content + |text|, Ending(text), marker + "\n");
  }

  lemma HeadHasNoNewline(m: Marks, name: string, n: nat)
    requires m.Valid() && m.GoodLabel(name)
    ensures '\n' !in Head(m, name, n)
  {}

  /** The first begin mark on the line is the one behind the name. */
  lemma MarkFound(m: Marks, b: string, p: nat, name: string, n: nat, mark: string, at: nat, lineEnd: nat)
    requires At(b, p, Head(m, name, n)) && lineEnd == p + |Head(m, name, n)|
    requires At(name + m.begin, at, mark) && NoneIn(name + m.begin, 0, at, mark)
    ensures Find(b, p, lineEnd, mark) == Some(p + at)
  {
    var s := name + m.begin;
    AtParts(b, p, s, Dec(n));
    forall i: nat | p <= i < p + at ensures !At(b, i, mark) {
      Inside(b, p, s, i - p, mark);
    }
    Inside(b, p, s, at, mark);
    FindIs(b, p, lineEnd, mark, p + at);
  }

  lemma NumberFound(m: Marks, b: string, d: nat, n: nat, lineEnd: nat)
    requires m.ReadsNumbers() && At(b, d, Dec(n)) && n <= U64_MAX && lineEnd == d + |Dec(n)| && At(b, lineEnd, "\n")
    ensures m.read(b, d) == (n, lineEnd) && d < lineEnd
  {
    assert m.read(b, d) == (n, d + |Dec(n)|);
  }

  /** The marker is at f or behind one newline. */
  ghost predicate MarkerBehind(b: string, f: nat, marker: string, end: nat) {
    && f < end <= |b|
    && var at := if b[f] == '\n' then f + 1 else f; At(b, at, marker) && at + |marker| <= end
  }

  /** Behind the counted bytes the end marker is found, with or without an added newline. */
  lemma TailFound(b: string, content: nat, text: string, marker: string, end: nat, q: nat)
    requires Tail(b, content, text, marker, q) && marker != [] && '\n' !in marker && q <= end <= |b|
    ensures content + |text| <= end && AfterBlock(b, marker, content + |text|, end) == Some(q)
    ensures At(b, content, text) && MarkerBehind(b, content + |text|, marker, end)
  {
    AtParts(b, content + |text| + |Ending(text)|, marker, "\n");
  }

  lemma MarkerHasNoNewline(m: Marks, name: string, marker: string)
    requires m.Valid() && m.GoodLabel(name) && marker == name + m.stop
    ensures '\n' !in marker && marker != [] && 0 < |name| <= LABEL_MAX
  {}

  /** The parser's steps once name, number and line end are known and the end marker is found. */
  lemma SkipSteps(m: Marks, b: string, line: nat, lineEnd: nat, end: nat, name: string, n: nat, marker: string, q: nat)
    requires line <= lineEnd < end <= |b| && 0 < |name| <= LABEL_MAX && marker == name + m.stop
    requires HeadRead(m, b, line, lineEnd, name, n)
    requires lineEnd + 1 + n <= end && AfterBlock(b, marker, lineEnd + 1 + n, end) == Some(q)
    ensures SkipCountedBlock(m, b, line, lineEnd, end) == Some(q)
  {
    MarkerIs(b, line, name, m.stop);
  }

  lemma MarkerIs(b: string, line: nat, name: string, stop: string)
    requires At(b, line, name)
    ensures b[line..line + |name|] + stop == name + stop
  {
    AtSlice(b, line, name);
  }

  /** The begin line at line as the parser reads it. */
  ghost predicate HeadRead(m: Marks, b: string, line: nat, lineEnd: nat, name: string, n: nat) {
    && line <= lineEnd <= |b| && At(b, line, name) && Find(b, line, lineEnd, m.begin) == Some(line + |name|)
    && m.read(b, line + |name| + |m.begin|) == (n, lineEnd) && line + |name| + |m.begin| < lineEnd
  }

  /** Text, ending and end marker behind the begin line, up to q. */
  ghost predicate Tail(b: string, content: nat, text: string, marker: string, q: nat) {
    && At(b, content, text) && At(b, content + |text|, Ending(text))
    && At(b, content + |text| + |Ending(text)|, marker + "\n")
    && q == content + |text| + |Ending(text)| + |marker| + 1
  }

  /** The tail of a written block as the parser sees it. */
  lemma BlockTail(m: Marks, b: string, p: nat, name: string, text: string, content: nat, marker: string, end: nat,
        q: nat)
    requires m.Valid() && m.GoodLabel(name) && At(b, p, Render(m, Block(name, text))) && marker == name + m.stop
    requires content == p + |Head(m, name, |text|)| + 1 && q == p + |Render(m, Block(name, text))| <= end <= |b|
    ensures content + |text| <= end && AfterBlock(b, marker, content + |text|, end) == Some(q) && content < q
    ensures At(b, p, Head(m, name, |text|) + "\n") && At(b, content, text)
            && MarkerBehind(b, content + |text|, marker, end)
  {
    BlockParts(m, b, p, name, text, content, marker, q);
    MarkerHasNoNewline(m, name, marker);
    TailFound(b, content, text, marker, end, q);
  }

  /** A counted block is skipped as a whole. */
  lemma BlockIsSkipped(m: Marks, b: string, p: nat, name: string, text: string, end: nat, q: nat)
    requires m.Valid() && m.ReadsNumbers() && m.GoodLabel(name) && |text| <= U64_MAX
             && At(b, p, Render(m, Block(name, text)))
    requires q == p + |Render(m, Block(name, text))| <= end <= |b|
    ensures p <= LineEnd(b, p, end) < q
    ensures SkipCountedBlock(m, b, p, LineEnd(b, p, end), end) == Some(q)
  {
    var lineEnd, marker := p + |Head(m, name, |text|)|, name + m.stop;
    BlockTail(m, b, p, name, text, lineEnd + 1, marker, end, q);
    BlockHead(m, b, p, name, |text|, lineEnd, end);
    SkipSteps(m, b, p, lineEnd, end, name, |text|, marker, q);
  }

  /** What the parser reads off the begin line. */
  lemma BlockHead(m: Marks, b: string, p: nat, name: string, n: nat, lineEnd: nat, end: nat)
    requires m.Valid() && m.ReadsNumbers() && m.GoodLabel(name) && n <= U64_MAX && At(b, p, Head(m, name, n) + "\n")
    requires lineEnd == p + |Head(m, name, n)| < end <= |b|
    ensures LineEnd(b, p, end) == lineEnd && HeadRead(m, b, p, lineEnd, name, n) && At(b, p, name + m.begin)
  {
    HeadHasNoNewline(m, name, n);
    LineEndIs(b, p, Head(m, name, n), end);
    AtParts(b, p, Head(m, name, n), "\n");
    MarkAtName(m, name);
    MarkFound(m, b, p, name, n, m.begin, |name|, lineEnd);
    AtParts(b, p, name + m.begin, Dec(n));
    NumberFound(m, b, p + |name + m.begin|, n, lineEnd);
    NameAt(m, b, p, name, n);
  }

  lemma MarkAtName(m: Marks, name: string)
    ensures At(name + m.begin, |name|, m.begin)
  {
    AtSlice(name + m.begin, |name|, m.begin);
  }

  lemma NameAt(m: Marks, b: string, p: nat, name: string, n: nat)
    requires At(b, p, Head(m, name, n))
    ensures At(b, p, name + m.begin) && At(b, p, name)
  {
    AtParts(b, p, name + m.begin, Dec(n));
    AtParts(b, p, name, m.begin);
  }

  // Runs of items ----------------------------------------------------------------------------

  /** The search for the next case does not stop at this item. */
  ghost predicate NoCase(m: Marks, i: Item) {
    match i
    case Line(l) => m.SafeLine(l)
    case Block(name, text) => m.GoodLabel(name) && |text| <= U64_MAX
  }

  /** The search for the model output does not stop at this item. */
  ghost predicate NoOutput(m: Marks, i: Item)
    requires m.Valid()
  {
    match i
    case Line(l) => m.Plain(l)
    case Block(name, text) => m.GoodLabel(name) && |text| <= U64_MAX && name[0] != m.opener[0]
  }

  ghost predicate NoCases(m: Marks, items: seq<Item>) { items == [] || (NoCase(m, items[0]) && NoCases(m, items[1..])) }

  ghost predicate NoOutputs(m: Marks, items: seq<Item>)
    requires m.Valid()
  {
    items == [] || (NoOutput(m, items[0]) && NoOutputs(m, items[1..]))
  }

  /** The function parameters find, copy, out and run of the lemmas below stand for what the definitions here and
      further down compute. A lemma that takes one, tied to its definition by a predicate, works on its values
      alone, and the recursion behind it stays out of the proof.
      find gives what the search for the next case finds from each position. */
  ghost predicate Cases(m: Marks, b: string, end: nat, find: nat -> Option<nat>)
    requires end <= |b|
  {
    forall p: nat {:trigger FindNextCase(m, b, p, end)} :: p <= end ==> find(p) == FindNextCase(m, b, p, end)
  }

  /** The same for the begin line of the model output. */
  ghost predicate Begins(m: Marks, b: string, end: nat, find: nat -> Option<nat>)
    requires end <= |b|
  {
    forall p: nat {:trigger FindBlockBegin(m, b, p, end)} :: p <= end ==> find(p) == FindBlockBegin(m, b, p, end)
  }

  lemma CasePasses(m: Marks, b: string, p: nat, end: nat, q: nat, find: nat -> Option<nat>)
    requires p < q <= end <= |b| && Cases(m, b, end, find)
    requires var lineEnd := LineEnd(b, p, end); var skip := SkipCountedBlock(m, b, p, lineEnd, end);
             skip == Some(q) || (skip.None? && q == NextLine(b, lineEnd, end)
                 && (lineEnd - p >= |m.caseMark| ==> !At(b, p, m.caseMark)))
    ensures find(p) == find(q)
  {
    assert FindNextCase(m, b, p, end) == FindNextCase(m, b, q, end);
  }

  lemma BeginPasses(m: Marks, b: string, p: nat, end: nat, q: nat, find: nat -> Option<nat>)
    requires p < q <= end <= |b| && Begins(m, b, end, find)
    requires var lineEnd := LineEnd(b, p, end); var skip := SkipCountedBlock(m, b, p, lineEnd, end);
             (lineEnd - p >= |m.opener| ==> !At(b, p, m.opener))
                 && (skip == Some(q) || (skip.None? && q == NextLine(b, lineEnd, end)))
    ensures find(p) == find(q)
  {
    assert FindBlockBegin(m, b, p, end) == FindBlockBegin(m, b, q, end);
  }

  lemma LinePasses(m: Marks, b: string, p: nat, l: string, end: nat, mark: string)
    requires m.begin != [] && At(b, p, l + "\n") && p + |l| < end <= |b| && m.Plain(l) && !(mark <= l)
    ensures var lineEnd := LineEnd(b, p, end);
            && SkipCountedBlock(m, b, p, lineEnd, end).None? && p + |l| + 1 == NextLine(b, lineEnd, end)
            && (lineEnd - p >= |mark| ==> !At(b, p, mark))
  {
    LineIsNotSkipped(m, b, p, l, end);
    PrefixAt(b, p, l, mark);
  }

  lemma CaseStep(m: Marks, b: string, p: nat, i: Item, end: nat, q: nat, find: nat -> Option<nat>)
    requires m.Valid() && m.ReadsNumbers() && NoCase(m, i) && At(b, p, Render(m, i))
             && q == p + |Render(m, i)| <= end <= |b| && Cases(m, b, end, find)
    ensures find(p) == find(q)
  {
    match i
    case Line(l) =>
      LinePasses(m, b, p, l, end, m.caseMark);
      CasePasses(m, b, p, end, q, find);
    case Block(name, text) =>
      BlockIsSkipped(m, b, p, name, text, end, q);
      CasePasses(m, b, p, end, q, find);
  }

  lemma OutputStep(m: Marks, b: string, p: nat, i: Item, end: nat, q: nat, find: nat -> Option<nat>)
    requires m.Valid() && m.ReadsNumbers() && NoOutput(m, i) && At(b, p, Render(m, i))
             && q == p + |Render(m, i)| <= end <= |b| && Begins(m, b, end, find)
    ensures find(p) == find(q)
  {
    match i
    case Line(l) =>
      LinePasses(m, b, p, l, end, m.opener);
      BeginPasses(m, b, p, end, q, find);
    case Block(name, text) =>
      BlockIsSkipped(m, b, p, name, text, end, q);
      FirstCharacter(m, b, p, name, text);
      BeginPasses(m, b, p, end, q, find);
  }

  lemma FirstCharacter(m: Marks, b: string, p: nat, name: string, text: string)
    requires At(b, p, Render(m, Block(name, text))) && name != [] && m.opener != [] && name[0] != m.opener[0]
    ensures !At(b, p, m.opener)
  {
    var q := p + |Render(m, Block(name, text))|;
    BlockParts(m, b, p, name, text, p + |Head(m, name, |text|)| + 1, name + m.stop, q);
    AtParts(b, p, Head(m, name, |text|), "\n");
    NameAt(m, b, p, name, |text|);
  }

  lemma RestAt(m: Marks, b: string, p: nat, items: seq<Item>)
    requires items != [] && At(b, p, RenderAll(m, items))
    ensures At(b, p, Render(m, items[0])) && At(b, p + |Render(m, items[0])|, RenderAll(m, items[1..]))
    ensures |RenderAll(m, items)| == |Render(m, items[0])| + |RenderAll(m, items[1..])|
  {
    AtParts(b, p, Render(m, items[0]), RenderAll(m, items[1..]));
  }

  lemma {:induction false} CaseOver(m: Marks, b: string, p: nat, items: seq<Item>, end: nat, q: nat,
        find: nat -> Option<nat>)
    requires m.Valid() && m.ReadsNumbers() && NoCases(m, items) && end <= |b| && Cases(m, b, end, find)
    requires At(b, p, RenderAll(m, items)) && q == p + |RenderAll(m, items)| <= end
    ensures find(p) == find(q)
    decreases |items|
  {
    if items != [] {
      var next := p + |Render(m, items[0])|;
      RestAt(m, b, p, items);
      CaseStep(m, b, p, items[0], end, next, find);
      CaseOver(m, b, next, items[1..], end, q, find);
    }
  }

  lemma {:induction false} OutputOver(m: Marks, b: string, p: nat, items: seq<Item>, end: nat, q: nat,
        find: nat -> Option<nat>)
    requires m.Valid() && m.ReadsNumbers() && NoOutputs(m, items) && end <= |b| && Begins(m, b, end, find)
    requires At(b, p, RenderAll(m, items)) && q == p + |RenderAll(m, items)| <= end
    ensures find(p) == find(q)
    decreases |items|
  {
    if items != [] {
      var next := p + |Render(m, items[0])|;
      RestAt(m, b, p, items);
      OutputStep(m, b, p, items[0], end, next, find);
      OutputOver(m, b, next, items[1..], end, q, find);
    }
  }

  lemma CaseHit(m: Marks, b: string, p: nat, l: string, end: nat, find: nat -> Option<nat>)
    requires m.Valid() && m.CaseLine(l) && At(b, p, l + "\n") && p + |l| < end <= |b| && Cases(m, b, end, find)
    ensures find(p) == Some(p) && LineEnd(b, p, end) == p + |l|
  {
    LineIsNotSkipped(m, b, p, l, end);
    PrefixAt(b, p, l, m.caseMark);
    assert FindNextCase(m, b, p, end) == Some(p);
  }

  // The output of one case -------------------------------------------------------------------

  lemma OutputLine(m: Marks, b: string, p: nat, n: nat, lineEnd: nat, digits: nat, end: nat)
    requires m.Valid() && m.ReadsNumbers() && n <= U64_MAX && At(b, p, Head(m, m.output, n) + "\n")
    requires lineEnd == p + |Head(m, m.output, n)| < end <= |b| && digits == p + |m.output + m.begin|
    ensures LineEnd(b, p, end) == lineEnd && p < digits < lineEnd && At(b, p, m.output + m.begin)
    ensures |m.bytes| <= digits && Find(b, p, lineEnd, m.bytes) == Some(digits - |m.bytes|)
            && m.read(b, digits) == (n, lineEnd)
  {
    BlockHead(m, b, p, m.output, n, lineEnd, end);
    AtParts(b, p, Head(m, m.output, n), "\n");
    MarkFound(m, b, p, m.output, n, m.bytes, |m.output + m.begin| - |m.bytes|, lineEnd);
  }

  /** There the search stops. */
  lemma OutputHit(m: Marks, b: string, p: nat, lineEnd: nat, digits: nat, end: nat, find: nat -> Option<nat>)
    requires m.Valid() && p < digits < lineEnd < end <= |b| && LineEnd(b, p, end) == lineEnd
             && digits == p + |m.output + m.begin|
    requires At(b, p, m.output + m.begin) && Begins(m, b, end, find)
    ensures find(p) == Some(p)
  {
    PrefixAt(b, p, m.output + m.begin, m.opener);
    assert FindBlockBegin(m, b, p, end) == Some(p);
  }

  lemma CopyAt(b: string, p: nat, s: string)
    requires At(b, p, s)
    ensures Copy(b, p, |s|) == s
  {
    AtSlice(b, p, s);
  }

  lemma CountedSteps(b: string, digits: nat, lineEnd: nat, end: nat, text: string, marker: string)
    requires digits < lineEnd < end <= |b|
    requires At(b, lineEnd + 1, text) && MarkerBehind(b, lineEnd + 1 + |text|, marker, end)
    ensures CopyCounted(b, (|text|, lineEnd), digits, lineEnd, lineEnd + 1, end, marker) == Some(text)
  {
    CopyAt(b, lineEnd + 1, text);
  }

  lemma CopySteps(m: Marks, b: string, start: nat, end: nat, p: nat, lineEnd: nat, digits: nat, copied: Option<string>)
    requires start <= p < lineEnd < end <= |b| && FindBlockBegin(m, b, start, end) == Some(p)
             && LineEnd(b, p, end) == lineEnd
    requires |m.bytes| <= digits && Find(b, p, lineEnd, m.bytes) == Some(digits - |m.bytes|)
    requires CopyCounted(b, m.read(b, digits), digits, lineEnd, lineEnd + 1, end, m.output + m.stop) == copied
    ensures CopyModelOutput(m, b, start, end) == copied
  {}

  /** What the parser reads at the output block. */
  lemma OutputCounted(m: Marks, b: string, p: nat, text: string, end: nat, q: nat, lineEnd: nat, digits: nat)
    requires m.Valid() && m.ReadsNumbers() && |text| <= U64_MAX && At(b, p, Render(m, Block(m.output, text)))
    requires q == p + |Render(m, Block(m.output, text))| <= end <= |b|
    requires lineEnd == p + |Head(m, m.output, |text|)| && digits == p + |m.output + m.begin|
    ensures p < digits < lineEnd < end && LineEnd(b, p, end) == lineEnd && At(b, p, m.output + m.begin)
    ensures |m.bytes| <= digits && Find(b, p, lineEnd, m.bytes) == Some(digits - |m.bytes|)
    ensures CopyCounted(b, m.read(b, digits), digits, lineEnd, lineEnd + 1, end, m.output + m.stop) == Some(text)
  {
    BlockTail(m, b, p, m.output, text, lineEnd + 1, m.output + m.stop, end, q);
    OutputLine(m, b, p, |text|, lineEnd, digits, end);
    CountedSteps(b, digits, lineEnd, end, text, m.output + m.stop);
  }

  /** If the search from start gets to the output block, the output is copied byte for byte. */
  lemma OutputCopied(m: Marks, b: string, start: nat, end: nat, p: nat, text: string, q: nat, find: nat -> Option<nat>)
    requires m.Valid() && m.ReadsNumbers() && |text| <= U64_MAX && At(b, p, Render(m, Block(m.output, text)))
    requires start <= p && q == p + |Render(m, Block(m.output, text))| <= end <= |b| && Begins(m, b, end, find)
             && find(start) == find(p)
    ensures CopyModelOutput(m, b, start, end) == Some(text)
  {
    var lineEnd, digits := p + |Head(m, m.output, |text|)|, p + |m.output + m.begin|;
    OutputCounted(m, b, p, text, end, q, lineEnd, digits);
    OutputHit(m, b, p, lineEnd, digits, end, find);
    assert FindBlockBegin(m, b, start, end) == Some(p);
    CopySteps(m, b, start, end, p, lineEnd, digits, Some(text));
  }

  // Old traces -------------------------------------------------------------------------------

  /** A begin line as older versions wrote it, without a byte count. */
  ghost predicate OldBegin(m: Marks, l: string) {
    '\n' !in l && m.opener <= l && m.bytes != [] && forall i: nat :: !At(l, i, m.bytes)
  }

  /** What the parser reads of it. */
  lemma OldLine(m: Marks, b: string, p: nat, l: string, lineEnd: nat, end: nat)
    requires OldBegin(m, l) && At(b, p, l + "\n") && p + |l| == lineEnd < end <= |b|
    ensures LineEnd(b, p, end) == lineEnd && Find(b, p, lineEnd, m.bytes).None? && At(b, p, m.opener)
  {
    LineEndIs(b, p, l, end);
    AtParts(b, p, l, "\n");
    NoMark(b, p, l, lineEnd, m.bytes);
    PrefixAt(b, p, l, m.opener);
  }

  /** The search stops there, and the line, ending at lineEnd, gives no count. */
  ghost predicate OldRead(m: Marks, b: string, p: nat, lineEnd: nat, end: nat, find: nat -> Option<nat>) {
    && p <= lineEnd < end <= |b| && find(p) == Some(p) && LineEnd(b, p, end) == lineEnd
    && Find(b, p, lineEnd, m.bytes).None?
  }

  lemma OldHit(m: Marks, b: string, p: nat, l: string, lineEnd: nat, end: nat, find: nat -> Option<nat>)
    requires OldBegin(m, l) && At(b, p, l + "\n") && p + |l| == lineEnd < end <= |b| && Begins(m, b, end, find)
    ensures OldRead(m, b, p, lineEnd, end, find)
  {
    OldLine(m, b, p, l, lineEnd, end);
    assert FindBlockBegin(m, b, p, end) == Some(p);
  }

  /** Where the marker is first found, and the text before it. */
  ghost predicate MarkerSearch(b: string, content: nat, end: nat, marker: string, finish: Option<nat>, text: string) {
    && content <= end <= |b| && Find(b, content, end, marker) == finish
    && (finish.Some? ==> b[content..finish.value] == text)
  }

  /** The marker stands behind the text and nowhere before. */
  ghost predicate Ends(b: string, content: nat, text: string, marker: string, end: nat) {
    var q := content + |text|;
    At(b, content, text) && At(b, q, marker) && q + |marker| <= end <= |b| && NoneIn(b, content, q, marker)
  }

  lemma MarkerFirst(b: string, content: nat, text: string, marker: string, end: nat)
    requires Ends(b, content, text, marker, end)
    ensures MarkerSearch(b, content, end, marker, Some(content + |text|), text)
  {
    FindIs(b, content, end, marker, content + |text|);
    AtSlice(b, content, text);
  }

  ghost predicate Nowhere(b: string, content: nat, marker: string, end: nat) {
    content <= end <= |b| && forall i: nat :: content <= i && i + |marker| <= end ==> !At(b, i, marker)
  }

  lemma MarkerNowhere(b: string, content: nat, marker: string, end: nat)
    requires Nowhere(b, content, marker, end) && marker != []
    ensures MarkerSearch(b, content, end, marker, None, [])
  {
    FindNone(b, content, end, marker);
  }

  /** The parser's steps behind a begin line without a count. */
  lemma UncountedSteps(m: Marks, b: string, start: nat, end: nat, p: nat, lineEnd: nat, finish: Option<nat>,
        text: string, find: nat -> Option<nat>)
    requires OldRead(m, b, p, lineEnd, end, find) && start <= p && Begins(m, b, end, find) && find(start) == find(p)
    requires MarkerSearch(b, lineEnd + 1, end, "\n" + m.output + m.stop, finish, text)
    ensures CopyModelOutput(m, b, start, end) == if finish.None? then None else Some(text)
  {
    assert FindBlockBegin(m, b, start, end) == Some(p);
  }

  // Cases ------------------------------------------------------------------------------------

  lemma {:induction false} RenderSplit(m: Marks, a: seq<Item>, c: seq<Item>)
    ensures RenderAll(m, a + c) == RenderAll(m, a) + RenderAll(m, c)
    decreases |a|
  {
    if a == [] {
      assert a + c == c;
    } else {
      assert (a + c)[1..] == a[1..] + c;
      RenderSplit(m, a[1..], c);
    }
  }

  lemma {:induction false} NoCasesConcat(m: Marks, a: seq<Item>, c: seq<Item>)
    requires NoCases(m, a) && NoCases(m, c)
    ensures NoCases(m, a + c)
    decreases |a|
  {
    if a == [] {
      assert a + c == c;
    } else {
      assert (a + c)[1..] == a[1..] + c;
      NoCasesConcat(m, a[1..], c);
    }
  }

  lemma {:induction false} NoOutputsConcat(m: Marks, a: seq<Item>, c: seq<Item>)
    requires m.Valid() && NoOutputs(m, a) && NoOutputs(m, c)
    ensures NoOutputs(m, a + c)
    decreases |a|
  {
    if a == [] {
      assert a + c == c;
    } else {
      assert (a + c)[1..] == a[1..] + c;
      NoOutputsConcat(m, a[1..], c);
    }
  }

  lemma {:induction false} LinesAreSafe(m: Marks, ls: seq<string>)
    requires m.Valid() && forall k :: 0 <= k < |ls| ==> m.SafeLine(ls[k])
    ensures NoCases(m, Lines(ls)) && NoOutputs(m, Lines(ls))
    decreases |ls|
  {
    if ls != [] {
      LinesAreSafe(m, ls[1..]);
      assert Lines(ls)[1..] == Lines(ls[1..]);
    }
  }

  lemma FrontIsSafe(m: Marks, n: Names, c: Case)
    requires NamesOk(m, n) && CaseOk(m, c)
    ensures NoCases(m, Front(n, c)) && NoOutputs(m, Front(n, c))
  {
    var system, question := Block(n.system, c.system), Block(n.question, c.question);
    var prompts := [system, question];
    assert prompts[1..] == [question] && [question][1..] == [];
    LinesAreSafe(m, c.meta);
    NoCasesConcat(m, Lines(c.meta), prompts);
    NoOutputsConcat(m, Lines(c.meta), prompts);
  }

  lemma EmptyLineIsSafe(m: Marks)
    requires m.Valid()
    ensures m.SafeLine("")
  {}

  lemma BackRendered(m: Marks, c: Case)
    ensures RenderAll(m, Back(m, c)) == BackText(m, c)
  {
    assert Back(m, c)[1..] == [Line("")] && [Line("")][1..] == [];
    assert RenderAll(m, [Line("")]) == Render(m, Line("")) == "\n";
  }

  lemma RestIsSafe(m: Marks, n: Names, c: Case)
    requires NamesOk(m, n) && CaseOk(m, c)
    ensures NoCases(m, Front(n, c) + Back(m, c)) && RenderAll(m, Front(n, c) + Back(m, c)) == RestText(m, n, c)
  {
    assert Back(m, c)[1..] == [Line("")] && [Line("")][1..] == [];
    EmptyLineIsSafe(m);
    FrontIsSafe(m, n, c);
    NoCasesConcat(m, Front(n, c), Back(m, c));
    BackRendered(m, c);
    RenderSplit(m, Front(n, c), Back(m, c));
  }

  /** The text s runs from p to q. */
  ghost predicate Span(b: string, p: nat, s: string, q: nat) { At(b, p, s) && q == p + |s| }

  /** run says which texts run where. */
  ghost predicate IsRun(b: string, run: (nat, string, nat) -> bool) {
    forall p: nat, s: string, q: nat {:trigger Span(b, p, s, q)} :: run(p, s, q) == Span(b, p, s, q)
  }

  lemma RunParts(b: string, run: (nat, string, nat) -> bool, p: nat, x: string, y: string, q: nat) returns (mid: nat)
    requires IsRun(b, run) && run(p, x + y, q)
    ensures run(p, x, mid) && run(mid, y, q) && p <= mid <= q
  {
    assert Span(b, p, x + y, q);
    AtParts(b, p, x, y);
    mid := p + |x|;
    assert Span(b, p, x, mid) && Span(b, mid, y, q);
  }

  lemma RunAt(b: string, run: (nat, string, nat) -> bool, p: nat, s: string, q: nat)
    requires IsRun(b, run) && run(p, s, q)
    ensures At(b, p, s) && q == p + |s| <= |b|
  {
    assert Span(b, p, s, q);
  }

  lemma NoCaseOnTheWay(m: Marks, b: string, run: (nat, string, nat) -> bool, p: nat, items: seq<Item>, q: nat,
        end: nat, find: nat -> Option<nat>)
    requires m.Valid() && m.ReadsNumbers() && NoCases(m, items) && IsRun(b, run) && run(p, RenderAll(m, items), q)
    requires q <= end <= |b| && Cases(m, b, end, find)
    ensures find(p) == find(q)
  {
    RunAt(b, run, p, RenderAll(m, items), q);
    CaseOver(m, b, p, items, end, q, find);
  }

  lemma NoOutputOnTheWay(m: Marks, b: string, run: (nat, string, nat) -> bool, p: nat, items: seq<Item>, q: nat,
        end: nat, find: nat -> Option<nat>)
    requires m.Valid() && m.ReadsNumbers() && NoOutputs(m, items) && IsRun(b, run) && run(p, RenderAll(m, items), q)
    requires q <= end <= |b| && Begins(m, b, end, find)
    ensures find(p) == find(q)
  {
    RunAt(b, run, p, RenderAll(m, items), q);
    OutputOver(m, b, p, items, end, q, find);
  }

  lemma TitlePassed(m: Marks, b: string, run: (nat, string, nat) -> bool, p: nat, l: string, q: nat, end: nat,
        find: nat -> Option<nat>)
    requires m.Valid() && m.ReadsNumbers() && m.CaseLine(l) && IsRun(b, run) && run(p, l + "\n", q)
             && q <= end <= |b| && Begins(m, b, end, find)
    ensures find(p) == find(q)
  {
    RunAt(b, run, p, l + "\n", q);
    OutputStep(m, b, p, Line(l), end, q, find);
  }

  lemma TitleFound(m: Marks, b: string, run: (nat, string, nat) -> bool, p: nat, l: string, q: nat, end: nat,
        find: nat -> Option<nat>)
    requires m.Valid() && m.CaseLine(l) && IsRun(b, run) && run(p, l + "\n", q) && q <= end <= |b|
             && Cases(m, b, end, find)
    ensures find(p) == Some(p) && p < q == LineEnd(b, p, end) + 1
  {
    RunAt(b, run, p, l + "\n", q);
    CaseHit(m, b, p, l, end, find);
  }

  lemma OutputFound(m: Marks, b: string, run: (nat, string, nat) -> bool, start: nat, p: nat, text: string, q: nat,
        end: nat, find: nat -> Option<nat>)
    requires m.Valid() && m.ReadsNumbers() && |text| <= U64_MAX && IsRun(b, run)
             && run(p, Render(m, Block(m.output, text)), q)
    requires start <= p <= q <= end <= |b| && Begins(m, b, end, find) && find(start) == find(p)
    ensures CopyModelOutput(m, b, start, end) == Some(text)
  {
    RunAt(b, run, p, Render(m, Block(m.output, text)), q);
    OutputCopied(m, b, start, end, p, text, q, find);
  }

  /** A case of an old trace: items without an output from start to p, and the begin line up to content. */
  ghost predicate OldCase(m: Marks, run: (nat, string, nat) -> bool, start: nat, items: seq<Item>, p: nat, l: string,
        content: nat)
    requires m.Valid()
  {
    && NoOutputs(m, items) && OldBegin(m, l)
    && start <= p < content && run(start, RenderAll(m, items), p) && run(p, l + "\n", content)
  }

  lemma OldFound(m: Marks, b: string, run: (nat, string, nat) -> bool, start: nat, items: seq<Item>, p: nat, l: string,
        content: nat, end: nat, find: nat -> Option<nat>)
    requires m.Valid() && m.ReadsNumbers() && IsRun(b, run) && OldCase(m, run, start, items, p, l, content)
    requires content <= end <= |b| && Begins(m, b, end, find)
    ensures OldRead(m, b, p, content - 1, end, find) && find(start) == find(p)
  {
    RunAt(b, run, p, l + "\n", content);
    OldHit(m, b, p, l, content - 1, end, find);
    NoOutputOnTheWay(m, b, run, start, items, p, end, find);
  }

  /** In an old trace the output ends where a line first starts with the end marker, whatever stands before it. */
  lemma OldOutputCopied(m: Marks, b: string, run: (nat, string, nat) -> bool, start: nat, items: seq<Item>, p: nat,
        l: string, content: nat, text: string, end: nat, find: nat -> Option<nat>)
    requires m.Valid() && m.ReadsNumbers() && IsRun(b, run) && OldCase(m, run, start, items, p, l, content)
    requires Ends(b, content, text, "\n" + m.output + m.stop, end) && Begins(m, b, end, find)
    ensures CopyModelOutput(m, b, start, end) == Some(text)
  {
    MarkerFirst(b, content, text, "\n" + m.output + m.stop, end);
    OldFound(m, b, run, start, items, p, l, content, end, find);
    UncountedSteps(m, b, start, end, p, content - 1, Some(content + |text|), text, find);
  }

  /** Without such a line there is no output. */
  lemma OldOutputMissing(m: Marks, b: string, run: (nat, string, nat) -> bool, start: nat, items: seq<Item>, p: nat,
        l: string, content: nat, end: nat, find: nat -> Option<nat>)
    requires m.Valid() && m.ReadsNumbers() && IsRun(b, run) && OldCase(m, run, start, items, p, l, content)
    requires Nowhere(b, content, "\n" + m.output + m.stop, end) && Begins(m, b, end, find)
    ensures CopyModelOutput(m, b, start, end).None?
  {
    MarkerNowhere(b, content, "\n" + m.output + m.stop, end);
    OldFound(m, b, run, start, items, p, l, content, end, find);
    UncountedSteps(m, b, start, end, p, content - 1, None, [], find);
  }

  /** The output of a case that ends at q is copied. */
  lemma CaseIsCopied(m: Marks, n: Names, b: string, run: (nat, string, nat) -> bool, p: nat, c: Case, front: nat,
        q: nat, find: nat -> Option<nat>)
    requires NamesOk(m, n) && m.ReadsNumbers() && CaseOk(m, c) && IsRun(b, run) && q <= |b| && Begins(m, b, q, find)
    requires p <= front <= q && run(p, c.title + "\n", front) && run(front, RestText(m, n, c), q)
    ensures CopyModelOutput(m, b, p, q) == Some(c.output)
  {
    var output := RunParts(b, run, front, RenderAll(m, Front(n, c)), BackText(m, c), q);
    var behind := RunParts(b, run, output, Render(m, Block(m.output, c.output)), "\n", q);
    FrontIsSafe(m, n, c);
    TitlePassed(m, b, run, p, c.title, front, q, find);
    NoOutputOnTheWay(m, b, run, front, Front(n, c), output, q, find);
    OutputFound(m, b, run, p, output, c.output, behind, q, find);
  }

  lemma CaseCopied(m: Marks, n: Names, b: string, run: (nat, string, nat) -> bool, p: nat, c: Case, front: nat,
        q: nat, copy: (nat, nat) -> Option<string>)
    requires NamesOk(m, n) && m.ReadsNumbers() && CaseOk(m, c) && IsRun(b, run) && q <= |b| && Copies(m, b, copy)
    requires p <= front <= q && run(p, c.title + "\n", front) && run(front, RestText(m, n, c), q)
    ensures copy(p, q) == Some(c.output)
  {
    CaseIsCopied(m, n, b, run, p, c, front, q, (k: nat) => if k <= q then FindBlockBegin(m, b, k, q) else None);
    assert CopyModelOutput(m, b, p, q) == copy(p, q);
  }

  /** From behind its header line the search for the next case passes the whole case. */
  lemma CaseIsPassed(m: Marks, n: Names, b: string, run: (nat, string, nat) -> bool, c: Case, front: nat, q: nat,
        end: nat, find: nat -> Option<nat>)
    requires NamesOk(m, n) && m.ReadsNumbers() && CaseOk(m, c) && IsRun(b, run) && run(front, RestText(m, n, c), q)
    requires q <= end <= |b| && Cases(m, b, end, find)
    ensures find(front) == find(q)
  {
    RestIsSafe(m, n, c);
    NoCaseOnTheWay(m, b, run, front, Front(n, c) + Back(m, c), q, end, find);
  }

  /** What the regrading loop collects from each position. */
  ghost predicate Collects(m: Marks, b: string, out: nat -> seq<Option<string>>) {
    forall p: nat {:trigger Outputs(m, b, p, |b|)} :: p <= |b| ==> out(p) == Outputs(m, b, p, |b|)
  }

  /** What is copied for a case from one position to another. */
  ghost predicate Copies(m: Marks, b: string, copy: (nat, nat) -> Option<string>) {
    forall p: nat, q: nat {:trigger CopyModelOutput(m, b, p, q)} :: p <= q <= |b| ==>
          copy(p, q) == CopyModelOutput(m, b, p, q)
  }

  /** One round of the regrading loop. */
  lemma OutputsStep(m: Marks, b: string, p: nat, front: nat, q: nat, output: Option<string>,
      find: nat -> Option<nat>, copy: (nat, nat) -> Option<string>, out: nat -> seq<Option<string>>)
    requires p < front <= |b| && Cases(m, b, |b|, find) && find(p) == Some(p) && LineEnd(b, p, |b|) + 1 == front
    requires find(front) == (if q < |b| then Some(q) else None) && p < q <= |b| && copy(p, q) == output
    requires Copies(m, b, copy) && Collects(m, b, out)
    ensures out(p) == [output] + out(q)
  {
    assert NextLine(b, LineEnd(b, p, |b|), |b|) == front;
    assert FindNextCase(m, b, p, |b|) == Some(p) && FindNextCase(m, b, front, |b|) == find(front);
    assert CaseEnd(m, b, p, |b|) == q && CopyModelOutput(m, b, p, q) == copy(p, q);
    assert Outputs(m, b, p, |b|) == [output] + Outputs(m, b, q, |b|);
  }

  lemma OutputsFrom(m: Marks, b: string, p: nat, q: nat, end: nat)
    requires p <= q <= end <= |b| && FindNextCase(m, b, p, end) == FindNextCase(m, b, q, end)
    ensures Outputs(m, b, p, end) == Outputs(m, b, q, end)
  {}

  /** A case starts at its header line, and the next search from behind that line goes on at its end. */
  lemma CaseIsFound(m: Marks, n: Names, b: string, run: (nat, string, nat) -> bool, p: nat, c: Case, front: nat,
        q: nat, find: nat -> Option<nat>)
    requires NamesOk(m, n) && m.ReadsNumbers() && CaseOk(m, c) && IsRun(b, run) && front <= q <= |b|
    requires run(p, c.title + "\n", front) && run(front, RestText(m, n, c), q) && Cases(m, b, |b|, find)
    ensures find(p) == Some(p) && p < front == LineEnd(b, p, |b|) + 1 && find(front) == find(q)
  {
    TitleFound(m, b, run, p, c.title, front, |b|, find);
    CaseIsPassed(m, n, b, run, c, front, q, |b|, find);
  }

  /** One case, found and copied. */
  lemma CaseCollected(m: Marks, n: Names, b: string, run: (nat, string, nat) -> bool, p: nat, c: Case, front: nat,
        q: nat, find: nat -> Option<nat>, copy: (nat, nat) -> Option<string>, out: nat -> seq<Option<string>>)
    requires NamesOk(m, n) && m.ReadsNumbers() && CaseOk(m, c) && IsRun(b, run) && p <= front <= q <= |b|
    requires run(p, c.title + "\n", front) && run(front, RestText(m, n, c), q)
    requires Cases(m, b, |b|, find) && Copies(m, b, copy) && Collects(m, b, out)
             && find(q) == if q < |b| then Some(q) else None
    ensures p < q && find(p) == Some(p) && out(p) == [Some(c.output)] + out(q)
  {
    CaseIsFound(m, n, b, run, p, c, front, q, find);
    CaseCopied(m, n, b, run, p, c, front, q, copy);
    OutputsStep(m, b, p, front, q, Some(c.output), find, copy, out);
  }

  function OutputsOf(cs: seq<Case>): seq<Option<string>> {
    if cs == [] then [] else [Some(cs[0].output)] + OutputsOf(cs[1..])
  }

  lemma NothingLeft(m: Marks, b: string, find: nat -> Option<nat>, out: nat -> seq<Option<string>>)
    requires Cases(m, b, |b|, find) && Collects(m, b, out)
    ensures out(|b|) == [] && find(|b|) == None
  {
    assert Outputs(m, b, |b|, |b|) == [] && FindNextCase(m, b, |b|, |b|) == None;
  }

  lemma {:induction false} AllOutputs(m: Marks, n: Names, b: string, run: (nat, string, nat) -> bool, p: nat,
        cs: seq<Case>, find: nat -> Option<nat>, copy: (nat, nat) -> Option<string>, out: nat -> seq<Option<string>>)
    requires NamesOk(m, n) && m.ReadsNumbers() && CasesOk(m, cs) && IsRun(b, run) && run(p, CasesText(m, n, cs), |b|)
    requires Cases(m, b, |b|, find) && Copies(m, b, copy) && Collects(m, b, out)
    ensures find(p) == (if p < |b| then Some(p) else None) && out(p) == OutputsOf(cs)
    decreases |cs|
  {
    if cs == [] {
      RunAt(b, run, p, "", |b|);
      NothingLeft(m, b, find, out);
    } else {
      var q := RunParts(b, run, p, CaseText(m, n, cs[0]), CasesText(m, n, cs[1..]), |b|);
      AllOutputs(m, n, b, run, q, cs[1..], find, copy, out);
      var front := RunParts(b, run, p, cs[0].title + "\n", RestText(m, n, cs[0]), q);
      CaseCollected(m, n, b, run, p, cs[0], front, q, find, copy, out);
    }
  }

  lemma Joined(before: string, text: string)
    ensures At(before + text, 0, before) && At(before + text, |before|, text)
  {
    AtSlice(before + text, 0, before);
    AtSlice(before + text, |before|, text);
  }

  /** The round trip: scanning what was written, behind any lines without marker text, finds exactly the
      written cases and copies each output byte for byte. */
  lemma TraceRoundTrip(m: Marks, n: Names, preamble: seq<string>, cs: seq<Case>)
    requires NamesOk(m, n) && m.ReadsNumbers() && CasesOk(m, cs)
    requires forall k :: 0 <= k < |preamble| ==> m.SafeLine(preamble[k])
    ensures var b := RenderAll(m, Lines(preamble)) + CasesText(m, n, cs); Outputs(m, b, 0, |b|) == OutputsOf(cs)
  {
    var before, text := RenderAll(m, Lines(preamble)), CasesText(m, n, cs);
    var b := before + text;
    Joined(before, text);
    LinesAreSafe(m, preamble);
    var run := (p: nat, s: string, q: nat) => Span(b, p, s, q);
    BehindPreamble(m, n, b, run, Lines(preamble), |before|, cs);
  }

  lemma BehindPreamble(m: Marks, n: Names, b: string, run: (nat, string, nat) -> bool, preamble: seq<Item>, p: nat,
        cs: seq<Case>)
    requires NamesOk(m, n) && m.ReadsNumbers() && CasesOk(m, cs) && NoCases(m, preamble)
    requires IsRun(b, run) && p <= |b| && run(0, RenderAll(m, preamble), p) && run(p, CasesText(m, n, cs), |b|)
    ensures Outputs(m, b, 0, |b|) == OutputsOf(cs)
  {
    var find := (k: nat) => if k <= |b| then FindNextCase(m, b, k, |b|) else None;
    NoCaseOnTheWay(m, b, run, 0, preamble, p, |b|, find);
    var copy := (k: nat, q: nat) => if k <= q <= |b| then CopyModelOutput(m, b, k, q) else None;
    AllOutputs(m, n, b, run, p, cs, find, copy, (k: nat) => if k <= |b| then Outputs(m, b, k, |b|) else []);
    assert FindNextCase(m, b, 0, |b|) == find(0) && FindNextCase(m, b, p, |b|) == find(p);
    OutputsFrom(m, b, 0, p, |b|);
  }

  // The format in use --------------------------------------------------------------------------

  function Trace(): Marks {
    Marks("_BEGIN bytes=", "_END", "===== CASE ", "MODEL_OUTPUT", "MODEL_OUTPUT_BEGIN", "bytes=", Strtoull)
  }

  function Prompts(): Names { Names("SYSTEM_PROMPT", "QUESTION_PROMPT") }

  lemma TraceReadsNumbers()
    ensures Trace().ReadsNumbers()
  {
    forall b: string, p: nat, n: nat | n <= U64_MAX && At(b, p, Dec(n))
        && (p + |Dec(n)| < |b| ==> !IsDigit(b[p + |Dec(n)|]))
      ensures Strtoull(b, p) == (n, p + |Dec(n)|)
    {
      NumberReadBack(b, p, n);
    }
  }

  lemma NotAtOther(s: string, hi: nat, mark: string)
    requires mark != [] && hi <= |s| && mark[0] !in s[..hi]
    ensures NoneIn(s, 0, hi, mark)
  {
    assert forall i :: 0 <= i < hi ==> s[i] == s[..hi][i];
  }

  lemma FirstTwo(s: string, i: nat, mark: string)
    ensures |mark| >= 2 && At(s, i, mark) ==> i + 1 < |s| && s[i] == mark[0] && s[i + 1] == mark[1]
  {
    if |mark| >= 2 && At(s, i, mark) {
      AtSlice(s, i, mark);
      assert s[i..i + |mark|][0] == s[i] && s[i..i + |mark|][1] == s[i + 1];
    }
  }

  /** A mark cannot start inside a name whose only occurrence of its first character is followed by another
      character than its second. */
  lemma NotInName(x: string, y: string, mark: string)
    requires |mark| >= 2 && mark[0] !in x && mark[0] !in y && y != [] && y[0] != mark[1]
    ensures NoneIn(x + [mark[0]] + y + mark, 0, |x| + 1 + |y|, mark)
  {
    var s := x + [mark[0]] + y + mark;
    forall i: nat | i < |x| + 1 + |y| ensures !At(s, i, mark) {
      FirstTwo(s, i, mark);
      assert s[i] == if i < |x| then x[i] else if i == |x| then mark[0] else y[i - |x| - 1];
      assert s[|x| + 1] == y[0];
    }
  }

  lemma NameIsGood(m: Marks, x: string, y: string)
    requires |m.begin| >= 2 && m.begin[0] !in x && m.begin[0] !in y && y != [] && y[0] != m.begin[1]
    requires |x| + |y| < LABEL_MAX && '\n' !in x && '\n' !in y && m.begin[0] != '\n'
    ensures m.GoodLabel(x + [m.begin[0]] + y)
  {
    NotInName(x, y, m.begin);
  }

  lemma SystemIsGood()
    ensures Trace().GoodLabel(Prompts().system)
  {
    NameIsGood(Trace(), "SYSTEM", "PROMPT");
    assert "SYSTEM" + ['_'] + "PROMPT" == "SYSTEM_PROMPT";
  }

  lemma QuestionIsGood()
    ensures Trace().GoodLabel(Prompts().question)
  {
    NameIsGood(Trace(), "QUESTION", "PROMPT");
    assert "QUESTION" + ['_'] + "PROMPT" == "QUESTION_PROMPT";
  }

  lemma OutputIsGood()
    ensures Trace().GoodLabel(Trace().output)
  {
    NameIsGood(Trace(), "MODEL", "OUTPUT");
    assert "MODEL" + ['_'] + "OUTPUT" == "MODEL_OUTPUT";
  }

  /** The byte count is the first one on the begin line. */
  lemma BytesAreFirst(s: string, bytes: string, at: nat)
    requires at + |bytes| == |s| && s[at..] == bytes && bytes != [] && bytes[0] !in s[..at]
    ensures At(s, |s| - |bytes|, bytes) && NoneIn(s, 0, |s| - |bytes|, bytes)
  {
    AtSlice(s, at, bytes);
    NotAtOther(s, at, bytes);
  }

  lemma BytesInBeginLine()
    ensures var s := Trace().output + Trace().begin; |s| == 25 && s[19..] == Trace().bytes && 'b' !in s[..19]
  {
    var x := "MODEL_OUTPUT";
    assert x + "_BEGIN bytes=" == "MODEL_OUTPUT_BEGIN " + "bytes=";
  }

  lemma OpenerInBeginLine()
    ensures Trace().opener <= Trace().output + Trace().begin
  {
    assert "MODEL_OUTPUT" + "_BEGIN bytes=" == "MODEL_OUTPUT_BEGIN" + " bytes=";
  }

  lemma TraceIsValid()
    ensures NamesOk(Trace(), Prompts())
  {
    SystemIsGood();
    QuestionIsGood();
    OutputIsGood();
    OpenerInBeginLine();
    BytesInBeginLine();
    BytesAreFirst(Trace().output + Trace().begin, Trace().bytes, 19);
  }

  /** The round trip for the format in use. */
  lemma WrittenTraceIsRead(preamble: seq<string>, cs: seq<Case>)
    requires CasesOk(Trace(), cs) && forall k :: 0 <= k < |preamble| ==> Trace().SafeLine(preamble[k])
    ensures var b := RenderAll(Trace(), Lines(preamble)) + CasesText(Trace(), Prompts(), cs);
            Outputs(Trace(), b, 0, |b|) == OutputsOf(cs)
  {
    TraceIsValid();
    TraceReadsNumbers();
    TraceRoundTrip(Trace(), Prompts(), preamble, cs);
  }
}
