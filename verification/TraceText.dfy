/** Text searching and number reading as the trace parser does it: positions in one buffer, a NUL behind its end. */
module TraceText {
  import opened Bytes
  import opened Wrappers

  /** s stands at position p. */
  predicate At(b: string, p: nat, s: string)
    ensures At(b, p, s) ==> p + |s| <= |b|
    decreases |s|
  {
    if s == [] then p <= |b| else p < |b| && b[p] == s[0] && At(b, p + 1, s[1..])
  }

  lemma {:induction false} AtSlice(b: string, p: nat, s: string)
    ensures At(b, p, s) <==> p + |s| <= |b| && b[p..p + |s|] == s
    decreases |s|
  {
    if s != [] && p < |b| {
      AtSlice(b, p + 1, s[1..]);
      assert p + |s| <= |b| ==> b[p..p + |s|] == [b[p]] + b[p + 1..p + |s|];
      assert s == [s[0]] + s[1..];
    }
  }

  lemma {:induction false} AtParts(b: string, p: nat, s: string, t: string)
    ensures At(b, p, s + t) <==> At(b, p, s) && At(b, p + |s|, t)
    decreases |s|
  {
    if s == [] {
      assert s + t == t;
    } else {
      assert (s + t)[1..] == s[1..] + t;
      AtParts(b, p + 1, s[1..], t);
    }
  }

  lemma {:induction false} Inside(b: string, p: nat, s: string, i: nat, t: string)
    requires At(b, p, s) && i + |t| <= |s|
    ensures At(b, p + i, t) <==> At(s, i, t)
    decreases |t|
  {
    AtSlice(b, p, s);
    assert i < |s| ==> b[p + i] == b[p..p + |s|][i] == s[i];
    if t != [] { Inside(b, p, s, i + 1, t[1..]); }
  }

  /** The first newline from p on, or end. */
  function LineEnd(b: string, p: nat, end: nat): (q: nat)
    requires p <= end <= |b|
    ensures p <= q <= end && (q < end ==> b[q] == '\n')
    decreases end - p
  {
    if p == end || b[p] == '\n' then p else LineEnd(b, p + 1, end)
  }

  /** The first place of needle that fits between p and end. */
  function Find(b: string, p: nat, end: nat, needle: string): (q: Option<nat>)
    requires p <= end <= |b|
    ensures q.Some? ==> p <= q.value && q.value + |needle| <= end
    decreases end - p
  {
    if p + |needle| > end then None
    else if At(b, p, needle) then Some(p)
    else if p == end then None
    else Find(b, p + 1, end, needle)
  }

  method FindText(b: string, start: nat, end: nat, needle: string) returns (q: Option<nat>)
    requires start <= end <= |b|
    ensures q == Find(b, start, end, needle)
  {
    if |needle| == 0 { return Some(start); }
    if end - start < |needle| { return None; }
    var p := start;
    while p + |needle| <= end
      invariant start <= p <= end && Find(b, start, end, needle) == Find(b, p, end, needle)
    {
      if At(b, p, needle) { return Some(p); }
      p := p + 1;
    }
    q := None;
  }

  ghost predicate NoneIn(b: string, lo: nat, hi: nat, needle: string) {
    forall i: nat :: lo <= i < hi ==> !At(b, i, needle)
  }

  /** Find is exact. */
  lemma {:induction false} FindIs(b: string, p: nat, end: nat, needle: string, q: nat)
    requires p <= q && q + |needle| <= end <= |b| && At(b, q, needle) && NoneIn(b, p, q, needle)
    ensures Find(b, p, end, needle) == Some(q)
    decreases q - p
  {
    if p < q { FindIs(b, p + 1, end, needle, q); }
  }

  lemma {:induction false} FoundFirst(b: string, p: nat, end: nat, needle: string)
    requires p <= end <= |b| && Find(b, p, end, needle).Some?
    ensures var q := Find(b, p, end, needle).value; At(b, q, needle) && NoneIn(b, p, q, needle)
    decreases end - p
  {
    if !At(b, p, needle) { FoundFirst(b, p + 1, end, needle); }
  }

  lemma {:induction false} FindNone(b: string, p: nat, end: nat, needle: string)
    requires p <= end <= |b| && needle != [] && forall i: nat :: p <= i && i + |needle| <= end ==> !At(b, i, needle)
    ensures Find(b, p, end, needle).None?
    decreases end - p
  {
    if p + |needle| <= end { FindNone(b, p + 1, end, needle); }
  }

  lemma {:induction false} LineEndIs(b: string, p: nat, l: string, end: nat)
    requires At(b, p, l + "\n") && p + |l| < end <= |b| && '\n' !in l
    ensures LineEnd(b, p, end) == p + |l|
    decreases |l|
  {
    if l != [] {
      assert (l + "\n")[1..] == l[1..] + "\n";
      LineEndIs(b, p + 1, l[1..], end);
    }
  }

  lemma {:induction false} LineEndFirst(b: string, p: nat, end: nat)
    requires p <= end <= |b|
    ensures forall i :: p <= i < LineEnd(b, p, end) ==> b[i] != '\n'
    decreases end - p
  {
    if p < end && b[p] != '\n' { LineEndFirst(b, p + 1, end); }
  }

  // Numbers --------------------------------------------------------------------------------

  predicate IsDigit(c: char) { '0' <= c <= '9' }
  predicate IsSpace(c: char) { c == ' ' || c == '\t' || c == '\n' || c == '\U{b}' || c == '\U{c}' || c == '\r' }

  function DigitOf(c: char): nat
    requires IsDigit(c)
  {
    c as int - '0' as int
  }

  function Digit(d: nat): (c: char)
    requires d < 10
    ensures IsDigit(c) && DigitOf(c) == d
  {
    ('0' as int + d) as char
  }

  /** Decimal, as %zu writes it. */
  function Dec(n: nat): (s: string)
    ensures s != [] && forall i :: 0 <= i < |s| ==> IsDigit(s[i])
  {
    if n < 10 then [Digit(n)] else Dec(n / 10) + [Digit(n % 10)]
  }

  /** Reads on while there are digits. */
  function ReadDigits(b: string, p: nat, acc: nat): (r: (nat, nat))
    ensures p <= r.1
    decreases |b| - p
  {
    if p < |b| && IsDigit(b[p]) then ReadDigits(b, p + 1, 10 * acc + DigitOf(b[p])) else (acc, p)
  }

  function SkipSpace(b: string, p: nat): (q: nat)
    ensures p <= q
    decreases |b| - p
  {
    if p < |b| && IsSpace(b[p]) then SkipSpace(b, p + 1) else p
  }

  /** strtoull at base 10: leading space, a sign, digits; overflow saturates and a minus wraps. The second part is
      where the number ends, which is p when there is none. */
  function Strtoull(b: string, p: nat): (nat, nat) {
    var q := SkipSpace(b, p);
    var neg := q < |b| && b[q] == '-';
    var start := if q < |b| && (b[q] == '-' || b[q] == '+') then q + 1 else q;
    var (v, end) := ReadDigits(b, start, 0);
    if end == start then (0, p)
    else if v > U64_MAX then (U64_MAX, end)
    else if neg && v > 0 then (U64_MAX + 1 - v, end)
    else (v, end)
  }

  function ValueOf(s: string, acc: nat): nat
    requires forall i :: 0 <= i < |s| ==> IsDigit(s[i])
  {
    if s == [] then acc else ValueOf(s[1..], 10 * acc + DigitOf(s[0]))
  }

  lemma {:induction false} ValueSnoc(s: string, d: char, acc: nat)
    requires (forall i :: 0 <= i < |s| ==> IsDigit(s[i])) && IsDigit(d)
    ensures ValueOf(s + [d], acc) == 10 * ValueOf(s, acc) + DigitOf(d)
    decreases |s|
  {
    if s == [] {
      assert (s + [d])[1..] == [];
    } else {
      assert (s + [d])[1..] == s[1..] + [d];
      ValueSnoc(s[1..], d, 10 * acc + DigitOf(s[0]));
    }
  }

  lemma {:induction false} DecValue(n: nat)
    ensures ValueOf(Dec(n), 0) == n
  {
    if n < 10 {
      assert Dec(n)[1..] == [];
    } else {
      DecValue(n / 10);
      ValueSnoc(Dec(n / 10), Digit(n % 10), 0);
    }
  }

  lemma {:induction false} ReadDigitsIs(b: string, p: nat, s: string, acc: nat)
    requires (forall i :: 0 <= i < |s| ==> IsDigit(s[i])) && At(b, p, s) && (p + |s| < |b| ==> !IsDigit(b[p + |s|]))
    ensures ReadDigits(b, p, acc) == (ValueOf(s, acc), p + |s|)
    decreases |s|
  {
    if s != [] {
      ReadDigitsIs(b, p + 1, s[1..], 10 * acc + DigitOf(s[0]));
    }
  }

  lemma {:induction false} SpaceSkipped(b: string, p: nat, s: string)
    requires At(b, p, s) && (forall i :: 0 <= i < |s| ==> IsSpace(s[i])) && (p + |s| < |b| ==> !IsSpace(b[p + |s|]))
    ensures SkipSpace(b, p) == p + |s|
    decreases |s|
  {
    if s != [] { SpaceSkipped(b, p + 1, s[1..]); }
  }

  /** Spaces, an optional sign and digits are read as the number they write: what does not fit 64 bits becomes the
      largest number there is, and a minus counts down from 2^64. Without a digit nothing is read. */
  lemma NumberMeans(b: string, p: nat, spaces: string, sign: string, digits: string, start: nat)
    requires At(b, p, spaces) && (forall i :: 0 <= i < |spaces| ==> IsSpace(spaces[i]))
    requires (sign == "" || sign == "+" || sign == "-") && At(b, p + |spaces|, sign)
    requires start == p + |spaces| + |sign| && At(b, start, digits)
             && (forall i :: 0 <= i < |digits| ==> IsDigit(digits[i]))
    requires start + |digits| < |b| ==> var c := b[start + |digits|];
               !IsDigit(c) && (digits == [] && sign == "" ==> !IsSpace(c) && c != '+' && c != '-')
    ensures var v := ValueOf(digits, 0);
            Strtoull(b, p) == if digits == [] then (0, p)
                              else (if v > U64_MAX then U64_MAX
                                    else if sign == "-" && v > 0 then 0x1_0000_0000_0000_0000 - v else v,
                                    start + |digits|)
  {
    assert sign != "" ==> b[p + |spaces|] == sign[0];
    SpaceSkipped(b, p, spaces);
    ReadDigitsIs(b, start, digits, 0);
  }

  /** A written number is read back, up to the first character behind it. */
  lemma NumberReadBack(b: string, p: nat, n: nat)
    requires n <= U64_MAX && At(b, p, Dec(n)) && (p + |Dec(n)| < |b| ==> !IsDigit(b[p + |Dec(n)|]))
    ensures Strtoull(b, p) == (n, p + |Dec(n)|)
  {
    ReadDigitsIs(b, p, Dec(n), 0);
    DecValue(n);
  }
}
