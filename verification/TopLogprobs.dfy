/** The k most likely tokens, kept by insertion into a short array while the logits go by. */
module TopLogprobs {

  datatype Logit = Finite(value: real) | NotFinite
  datatype Score = Score(id: int, logit: real)

  // Reference: rank everything, then take the first k ------------------------------------

  /** s goes behind everything that is at least as large. */
  function Insert(list: seq<Score>, s: Score): (r: seq<Score>)
    ensures |r| == |list| + 1
  {
    if list == [] then [s]
    else if s.logit > list[0].logit then [s] + list
    else [list[0]] + Insert(list[1..], s)
  }

  function Added(logits: seq<Logit>, n: nat, before: seq<Score>): seq<Score>
    requires n < |logits|
  {
    if logits[n].NotFinite? then before else Insert(before, Score(n, logits[n].value))
  }

  /** All finite logits among the first n, in stable descending order. */
  function Ranked(logits: seq<Logit>, n: nat): seq<Score>
    requires n <= |logits|
  {
    if n == 0 then [] else Added(logits, n - 1, Ranked(logits, n - 1))
  }

  function Take(list: seq<Score>, k: nat): seq<Score> { if |list| <= k then list else list[..k] }

  ghost predicate Descending(list: seq<Score>) { forall i, j :: 0 <= i < j < |list| ==> list[i].logit >= list[j].logit }

  /** a comes before b: larger, or equally large with the lower id. */
  predicate Beats(a: Score, b: Score) { a.logit > b.logit || (a.logit == b.logit && a.id < b.id) }

  lemma {:induction false} InsertAt(list: seq<Score>, s: Score, pos: nat)
    requires pos <= |list|
    requires forall i :: 0 <= i < pos ==> list[i].logit >= s.logit
    requires pos < |list| ==> s.logit > list[pos].logit
    ensures Insert(list, s) == list[..pos] + [s] + list[pos..]
    decreases pos
  {
    if pos > 0 {
      InsertAt(list[1..], s, pos - 1);
      assert list[..pos] == [list[0]] + list[1..][..pos - 1] && list[1..][pos - 1..] == list[pos..];
    }
  }

  lemma InsertFound(list: seq<Score>, s: Score, pos: nat)
    requires Descending(list) && pos <= |list|
    requires pos > 0 ==> s.logit <= list[pos - 1].logit
    requires pos < |list| ==> s.logit > list[pos].logit
    ensures Insert(list, s) == list[..pos] + [s] + list[pos..]
  {
    InsertAt(list, s, pos);
  }

  /** Where a new score goes. */
  lemma {:induction false} Position(list: seq<Score>, s: Score) returns (pos: nat)
    requires Descending(list)
    ensures pos <= |list| && (pos < |list| ==> s.logit > list[pos].logit)
    ensures forall i :: 0 <= i < pos ==> list[i].logit >= s.logit
  {
    pos := 0;
    while pos < |list| && list[pos].logit >= s.logit
      invariant pos <= |list| && forall i :: 0 <= i < pos ==> list[i].logit >= s.logit
    {
      pos := pos + 1;
    }
  }

  lemma InsertKeepsOrder(list: seq<Score>, s: Score)
    requires Descending(list)
    ensures Descending(Insert(list, s))
  {
    var pos := Position(list, s);
    InsertAt(list, s, pos);
  }

  /** r lists exactly the finite logits below n with their ids, strictly ordered, ties by lower id. */
  ghost predicate IsRanking(logits: seq<Logit>, n: nat, r: seq<Score>)
    requires n <= |logits|
  {
    && (forall s: Score :: s in r <==> 0 <= s.id < n && logits[s.id] == Finite(s.logit))
    && Ordered(r)
  }

  ghost predicate Ordered(r: seq<Score>) { forall i, j :: 0 <= i < j < |r| ==> Beats(r[i], r[j]) }

  lemma RankingMore(logits: seq<Logit>, n: nat, before: seq<Score>, r: seq<Score>)
    requires n < |logits| && IsRanking(logits, n, before)
    requires if logits[n].NotFinite? then r == before
             else Ordered(r) && forall x :: x in r <==> x in before || x == Score(n, logits[n].value)
    ensures IsRanking(logits, n + 1, r)
  {
    forall s: Score ensures s in r <==> 0 <= s.id < n + 1 && logits[s.id] == Finite(s.logit) {
      assert s in before <==> 0 <= s.id < n && logits[s.id] == Finite(s.logit);
    }
  }

  lemma InsertedRanking(logits: seq<Logit>, n: nat, before: seq<Score>, s: Score)
    requires n < |logits| && IsRanking(logits, n, before) && Descending(before) && s.id == n
    ensures Ordered(Insert(before, s)) && forall x :: x in Insert(before, s) <==> x in before || x == s
  {
    var pos := Position(before, s);
    InsertAt(before, s, pos);
    InsertedOrder(before, s, pos);
    InsertedMembers(before, s, pos);
  }

  lemma RankStep(logits: seq<Logit>, n: nat, before: seq<Score>)
    requires n < |logits| && IsRanking(logits, n, before) && Descending(before)
    ensures IsRanking(logits, n + 1, Added(logits, n, before)) && Descending(Added(logits, n, before))
  {
    if logits[n].Finite? {
      InsertedRanking(logits, n, before, Score(n, logits[n].value));
      InsertKeepsOrder(before, Score(n, logits[n].value));
    }
    RankingMore(logits, n, before, Added(logits, n, before));
  }

  lemma {:induction false} RankedIsTheOrder(logits: seq<Logit>, n: nat)
    requires n <= |logits|
    ensures IsRanking(logits, n, Ranked(logits, n)) && Descending(Ranked(logits, n))
  {
    if n > 0 {
      RankedIsTheOrder(logits, n - 1);
      RankStep(logits, n - 1, Ranked(logits, n - 1));
    }
  }

  /** Spelled out: the ranking lists every finite logit with its id, larger ones first and equal ones by id, no id
      twice. */
  lemma RankedMeans(logits: seq<Logit>, n: nat)
    requires n <= |logits|
    ensures var r := Ranked(logits, n);
            && (forall i :: 0 <= i < |r| ==> 0 <= r[i].id < n && logits[r[i].id] == Finite(r[i].logit))
            && (forall id :: 0 <= id < n && logits[id].Finite? ==> Score(id, logits[id].value) in r)
            && forall i, j :: 0 <= i < j < |r| ==>
                 r[i].id != r[j].id && (r[i].logit > r[j].logit || (r[i].logit == r[j].logit && r[i].id < r[j].id))
  {
    RankedIsTheOrder(logits, n);
    var r := Ranked(logits, n);
    forall i, j | 0 <= i < j < |r| ensures r[i].id != r[j].id {
      assert Beats(r[i], r[j]);
      assert r[i] in r && r[j] in r;
    }
    forall i, j | 0 <= i < j < |r|
      ensures r[i].logit > r[j].logit || (r[i].logit == r[j].logit && r[i].id < r[j].id)
    {
      assert Beats(r[i], r[j]);
    }
  }

  lemma InsertedOrder(list: seq<Score>, s: Score, pos: nat)
    requires pos <= |list| && Descending(list) && (pos < |list| ==> s.logit > list[pos].logit)
    requires forall i :: 0 <= i < pos ==> list[i].logit >= s.logit
    requires Ordered(list) && forall x :: x in list ==> x.id < s.id
    ensures Ordered(list[..pos] + [s] + list[pos..])
  {
    var r := list[..pos] + [s] + list[pos..];
    forall i, j | 0 <= i < j < |r| ensures Beats(r[i], r[j]) {
      assert r[i] == (if i < pos then list[i] else if i == pos then s else list[i - 1]);
      assert r[j] == (if j < pos then list[j] else if j == pos then s else list[j - 1]);
      if i == pos { assert list[pos].logit >= list[j - 1].logit; }
    }
  }

  lemma InsertedMembers(list: seq<Score>, s: Score, pos: nat)
    requires pos <= |list|
    ensures forall x :: x in list[..pos] + [s] + list[pos..] <==> x in list || x == s
  {
    assert list == list[..pos] + list[pos..];
  }

  lemma TakeBelow(list: seq<Score>, s: Score, pos: nat, k: nat)
    requires k <= pos <= |list|
    ensures Take(list[..pos] + [s] + list[pos..], k) == list[..k]
  {}

  lemma TakeAbove(list: seq<Score>, s: Score, pos: nat, k: nat)
    requires pos < k <= |list|
    ensures Take(list[..pos] + [s] + list[pos..], k) == list[..k - 1][..pos] + [s] + list[..k - 1][pos..]
  {}

  /** What falls off the end of the first k does not matter for the next insertion. */
  lemma TakeInsert(list: seq<Score>, s: Score, k: nat)
    requires Descending(list) && 0 < k <= |list|
    ensures Take(Insert(list, s), k) == if s.logit <= list[k - 1].logit then list[..k] else Insert(list[..k - 1], s)
  {
    var pos := Position(list, s);
    InsertAt(list, s, pos);
    if s.logit > list[k - 1].logit {
      assert pos <= k - 1;
      InsertAt(list[..k - 1], s, pos);
      TakeAbove(list, s, pos, k);
    } else {
      TakeBelow(list, s, pos, k);
    }
  }

  // The one-pass insertion ----------------------------------------------------------------

  /** Moves smaller scores one place up from m, which leaves a gap at pos. */
  method MakeGap(scores: array<Score>, m: nat, s: Score) returns (pos: nat)
    requires m < scores.Length
    modifies scores
    ensures pos <= m && forall i :: 0 <= i < pos ==> scores[i] == old(scores[i])
    ensures forall j :: pos < j <= m ==> scores[j] == old(scores[j - 1])
    ensures pos > 0 ==> s.logit <= old(scores[pos - 1].logit)
    ensures pos < m ==> s.logit > old(scores[pos].logit)
    ensures forall j :: m < j < scores.Length ==> scores[j] == old(scores[j])
  {
    pos := m;
    while pos > 0 && s.logit > scores[pos - 1].logit
      invariant pos <= m && (pos < m ==> s.logit > old(scores[pos].logit))
      invariant forall i :: 0 <= i < pos ==> scores[i] == old(scores[i])
      invariant forall j :: pos < j <= m ==> scores[j] == old(scores[j - 1])
      invariant forall j :: m < j < scores.Length ==> scores[j] == old(scores[j])
    {
      scores[pos] := scores[pos - 1];
      pos := pos - 1;
    }
  }

  lemma Placed(list: seq<Score>, s: Score, pos: nat, now: seq<Score>)
    requires Descending(list) && pos <= |list| && |now| == |list| + 1
    requires (pos > 0 ==> s.logit <= list[pos - 1].logit) && (pos < |list| ==> s.logit > list[pos].logit)
    requires now[pos] == s && (forall i :: 0 <= i < pos ==> now[i] == list[i])
             && (forall j :: pos < j < |now| ==> now[j] == list[j - 1])
    ensures now == Insert(list, s)
  {
    InsertFound(list, s, pos);
    assert now == list[..pos] + [s] + list[pos..];
  }

  /** Puts s in its place among the first m scores. */
  method Shift(scores: array<Score>, m: nat, s: Score)
    requires m < scores.Length && Descending(scores[..m])
    modifies scores
    ensures scores[..m + 1] == Insert(old(scores[..m]), s)
    ensures forall j :: m < j < scores.Length ==> scores[j] == old(scores[j])
  {
    ghost var was := scores[..m];
    var pos := MakeGap(scores, m, s);
    scores[pos] := s;
    Placed(was, s, pos, scores[..m + 1]);
  }

  /** Refines rank-and-take: the n scores left in the array are the first ones of the full ranking. */
  method TopScores(logits: seq<Logit>, scores: array<Score>, k: int, lowest: real) returns (n: nat)
    requires k <= scores.Length
    modifies scores
    ensures k <= 0 ==> n == 0 && scores[..] == old(scores[..])
    ensures k > 0 ==> n <= k && scores[..n] == Take(Ranked(logits, |logits|), k)
    ensures k > 0 ==> var r := Ranked(logits, |logits|); n == (if |r| < k then |r| else k) && scores[..n] == r[..n]
    ensures k > 0 ==> forall j :: n <= j < scores.Length ==>
              scores[j] == if j < k then Score(-1, lowest) else old(scores[j])
  {
    n := 0;
    if k <= 0 { return; }
    for i := 0 to k
      invariant forall j :: 0 <= j < scores.Length ==> scores[j] == if j < i then Score(-1, lowest) else old(scores[j])
    {
      scores[i] := Score(-1, lowest);
    }
    for i := 0 to |logits|
      invariant n <= k && scores[..n] == Take(Ranked(logits, i), k)
      invariant n < k ==> n == |Ranked(logits, i)|
      invariant forall j :: n <= j < scores.Length ==> scores[j] == if j < k then Score(-1, lowest) else old(scores[j])
    {
      if logits[i].NotFinite? { continue; }
      n := Keep(logits, i, scores, k, n);
    }
  }

  /** Takes in one finite logit. */
  method Keep(logits: seq<Logit>, i: nat, scores: array<Score>, k: nat, n0: nat) returns (n: nat)
    requires i < |logits| && logits[i].Finite? && 0 < k <= scores.Length && n0 <= k
    requires scores[..n0] == Take(Ranked(logits, i), k) && (n0 < k ==> n0 == |Ranked(logits, i)|)
    modifies scores
    ensures n <= k && scores[..n] == Take(Ranked(logits, i + 1), k) && (n < k ==> n == |Ranked(logits, i + 1)|)
    ensures n0 <= n && forall j :: n <= j < scores.Length ==> scores[j] == old(scores[j])
  {
    ghost var ranked := Ranked(logits, i);
    var s := Score(i, logits[i].value);
    RankedIsTheOrder(logits, i);
    n := n0;
    if n == k {
      TakeInsert(ranked, s, k);
      assert scores[k - 1] == scores[..n][k - 1] == ranked[k - 1];
      if s.logit <= scores[k - 1].logit { return; }
    }
    var m := if n < k then n else k - 1;
    if n < k { n := n + 1; }
    assert scores[..m] == scores[..n0][..m] == ranked[..m];
    Shift(scores, m, s);
    assert n0 < k ==> ranked[..m] == ranked;
  }
}
