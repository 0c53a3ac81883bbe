/** The route blob: variable-length entries in network byte order followed by a return record, as
    the coordinator writes it and as each worker validates and reads it. A reader's pointer and
    remaining count are the suffix of the blob not read yet. */
module RouteBlob {
  import opened Bytes
  import opened Wrappers

  const NI_MAXHOST: nat := 1025
  const HEADER_WORDS: nat := 5   // host_len, port, layer_start, layer_end, flags
  const FIXED: nat := 4 * HEADER_WORDS
  const RETURN_WORDS: nat := 3   // kind, host_len, port
  const OUTPUT_LOGITS: U32 := 1
  const RETURN_UPSTREAM: U32 := 1

  type Host = s: seq<Byte> | |s| < 0x1_0000_0000

  datatype Entry = Entry(host: Host, port: U32, layerStart: U32, layerEnd: U32, flags: U32)
  datatype Return = Return(kind: U32, host: Host, port: U32)

  function Header(e: Entry): (w: seq<U32>)
    ensures |w| == HEADER_WORDS
  {
    [|e.host|, e.port, e.layerStart, e.layerEnd, e.flags]
  }

  function ReturnHeader(r: Return): (w: seq<U32>)
    ensures |w| == RETURN_WORDS
  {
    [r.kind, |r.host|, r.port]
  }

  const UPSTREAM := Return(RETURN_UPSTREAM, [], 0)

  predicate HostOk(h: Host) { 0 < |h| < NI_MAXHOST && 0 !in h }

  /** What a worker demands of one entry. */
  predicate EntryOk(e: Entry, nLayers: nat) {
    && HostOk(e.host) && 0 < e.port <= 65535
    && e.layerStart <= e.layerEnd < nLayers
    && e.flags <= OUTPUT_LOGITS && (e.flags == OUTPUT_LOGITS ==> e.layerEnd + 1 == nLayers)
  }

  ghost predicate RouteOk(es: seq<Entry>, nLayers: nat) {
    && (forall k :: 0 <= k < |es| ==> EntryOk(es[k], nLayers))
    && (forall k :: 0 < k < |es| ==> es[k].layerStart == es[k - 1].layerEnd + 1)
  }

  /** Spelled out: hosts of 1 to 1024 bytes without a NUL, real ports, ranges that join to contiguous layers, and logits
      asked for at the last layer alone, so of the last entry alone. */
  lemma RouteMeans(es: seq<Entry>, nLayers: nat)
    ensures RouteOk(es, nLayers) <==>
              && (forall k :: 0 <= k < |es| ==>
                    && 1 <= |es[k].host| <= 1024 && (forall i :: 0 <= i < |es[k].host| ==> es[k].host[i] != 0)
                    && 1 <= es[k].port <= 0xffff && es[k].layerStart <= es[k].layerEnd < nLayers
                    && (es[k].flags == 0 || (es[k].flags == 1 && es[k].layerEnd == nLayers - 1)))
              && (forall k :: 0 < k < |es| ==> es[k].layerStart == es[k - 1].layerEnd + 1)
    ensures RouteOk(es, nLayers) ==> forall k :: 0 <= k < |es| - 1 ==> es[k].flags == 0
  {
    forall k | 0 <= k < |es| - 1 && RouteOk(es, nLayers) ensures es[k].flags == 0 {
      assert EntryOk(es[k], nLayers) && EntryOk(es[k + 1], nLayers) && es[k + 1].layerStart == es[k].layerEnd + 1;
    }
  }

  ghost predicate HostsOk(es: seq<Entry>) { forall k :: 0 <= k < |es| ==> HostOk(es[k].host) }

  // Record formats ------------------------------------------------------------------

  /** How one record is written and taken off the front of a suffix. The readers below work over any
      lawful format; Wire() is the one in use. */
  datatype Format = Format(
    put: Entry -> seq<Byte>, take: seq<Byte> -> Option<(Entry, seq<Byte>)>,
    putReturn: Return -> seq<Byte>, takeReturn: seq<Byte> -> Option<Return>)
  {
    ghost predicate Lawful() {
      && (forall e: Entry, t: seq<Byte> {:trigger take(put(e) + t)} :: take(put(e) + t) == Some((e, t)))
      && (forall b: seq<Byte> {:trigger take(b)} :: take(b).Some? ==> b == put(take(b).value.0) + take(b).value.1)
      && (forall r: Return {:trigger putReturn(r)} :: |r.host| < NI_MAXHOST ==> takeReturn(putReturn(r)) == Some(r))
      && (forall b: seq<Byte> {:trigger takeReturn(b)} :: takeReturn(b).Some? ==>
            b == putReturn(takeReturn(b).value) && |takeReturn(b).value.host| < NI_MAXHOST)
    }

    function Entries(es: seq<Entry>): seq<Byte> { if es == [] then [] else put(es[0]) + Entries(es[1..]) }

    /** A whole route blob. */
    function Blob(es: seq<Entry>): seq<Byte> { Entries(es) + putReturn(UPSTREAM) }
  }

  function TakeEntryWith(w: seq<U32>, b: seq<Byte>): Option<(Entry, seq<Byte>)>
    requires |w| == HEADER_WORDS && FIXED <= |b|
  {
    if w[0] > |b| - FIXED then None
    else Some((Entry(b[FIXED..FIXED + w[0]], w[1], w[2], w[3], w[4]), b[FIXED + w[0]..]))
  }

  function TakeReturnWith(w: seq<U32>, b: seq<Byte>): Option<Return>
    requires |w| == RETURN_WORDS && 4 * RETURN_WORDS <= |b|
  {
    if w[1] >= NI_MAXHOST || w[1] != |b| - 4 * RETURN_WORDS then None
    else Some(Return(w[0], b[4 * RETURN_WORDS..], w[2]))
  }

  function PutEntry(e: Entry): seq<Byte> { BeWords(Header(e)) + e.host }

  function TakeEntry(b: seq<Byte>): Option<(Entry, seq<Byte>)> {
    if |b| < FIXED then None else TakeEntryWith(BePrefix(b, HEADER_WORDS), b)
  }

  function PutReturn(r: Return): seq<Byte> { BeWords(ReturnHeader(r)) + r.host }

  function TakeReturn(b: seq<Byte>): Option<Return> {
    if |b| < 4 * RETURN_WORDS then None else TakeReturnWith(BePrefix(b, RETURN_WORDS), b)
  }

  function Wire(): Format { Format(PutEntry, TakeEntry, PutReturn, TakeReturn) }

  lemma EntryTaken(e: Entry, header: seq<Byte>, tail: seq<Byte>)
    requires |header| == FIXED
    ensures TakeEntryWith(Header(e), header + e.host + tail) == Some((e, tail))
  {
    var b := header + e.host + tail;
    assert b[FIXED..FIXED + |e.host|] == e.host && b[FIXED + |e.host|..] == tail;
  }

  lemma EntryRebuilt(w: seq<U32>, b: seq<Byte>)
    requires |w| == HEADER_WORDS && FIXED <= |b| && TakeEntryWith(w, b).Some?
    ensures var t := TakeEntryWith(w, b).value;
            Header(t.0) == w && b[FIXED..] == t.0.host + t.1
  {}

  lemma EntryRead(e: Entry, t: seq<Byte>)
    ensures TakeEntry(PutEntry(e) + t) == Some((e, t))
  {
    BeWordsRead(Header(e), e.host + t);
    assert PutEntry(e) + t == BeWords(Header(e)) + (e.host + t) == BeWords(Header(e)) + e.host + t;
    EntryTaken(e, BeWords(Header(e)), t);
  }

  lemma EntryWritten(b: seq<Byte>)
    requires TakeEntry(b).Some?
    ensures b == PutEntry(TakeEntry(b).value.0) + TakeEntry(b).value.1
  {
    BeWordsWrite(b, HEADER_WORDS);
    EntryRebuilt(BePrefix(b, HEADER_WORDS), b);
  }

  lemma ReturnTaken(r: Return, header: seq<Byte>)
    requires |header| == 4 * RETURN_WORDS && |r.host| < NI_MAXHOST
    ensures TakeReturnWith(ReturnHeader(r), header + r.host) == Some(r)
  {}

  lemma ReturnRebuilt(w: seq<U32>, b: seq<Byte>)
    requires |w| == RETURN_WORDS && 4 * RETURN_WORDS <= |b| && TakeReturnWith(w, b).Some?
    ensures var r := TakeReturnWith(w, b).value;
            ReturnHeader(r) == w && b[4 * RETURN_WORDS..] == r.host && |r.host| < NI_MAXHOST
  {}

  lemma ReturnRead(r: Return)
    requires |r.host| < NI_MAXHOST
    ensures TakeReturn(PutReturn(r)) == Some(r)
  {
    BeWordsRead(ReturnHeader(r), r.host);
    ReturnTaken(r, BeWords(ReturnHeader(r)));
  }

  lemma ReturnWritten(b: seq<Byte>)
    requires TakeReturn(b).Some?
    ensures b == PutReturn(TakeReturn(b).value) && |TakeReturn(b).value.host| < NI_MAXHOST
  {
    BeWordsWrite(b, RETURN_WORDS);
    ReturnRebuilt(BePrefix(b, RETURN_WORDS), b);
  }

  lemma WireIsLawful()
    ensures Wire().Lawful()
  {
    forall e: Entry, t: seq<Byte> ensures TakeEntry(PutEntry(e) + t) == Some((e, t)) { EntryRead(e, t); }
    forall b: seq<Byte> | TakeEntry(b).Some? ensures b == PutEntry(TakeEntry(b).value.0) + TakeEntry(b).value.1 {
      EntryWritten(b);
    }
    forall r: Return | |r.host| < NI_MAXHOST ensures TakeReturn(PutReturn(r)) == Some(r) { ReturnRead(r); }
    forall b: seq<Byte> | TakeReturn(b).Some?
      ensures b == PutReturn(TakeReturn(b).value) && |TakeReturn(b).value.host| < NI_MAXHOST
    {
      ReturnWritten(b);
    }
  }

  lemma {:induction false} EntriesSplit(f: Format, a: seq<Entry>, b: seq<Entry>)
    ensures f.Entries(a + b) == f.Entries(a) + f.Entries(b)
  {
    if a == [] {
      assert a + b == b;
    } else {
      assert (a + b)[1..] == a[1..] + b;
      EntriesSplit(f, a[1..], b);
    }
  }

  lemma EntriesStep(f: Format, es: seq<Entry>, tail: seq<Byte>)
    requires f.Lawful() && es != []
    ensures f.take(f.Entries(es) + tail) == Some((es[0], f.Entries(es[1..]) + tail))
  {
    assert f.Entries(es) + tail == f.put(es[0]) + (f.Entries(es[1..]) + tail);
  }

  /** Two ways to read entries off the same bytes agree: each entry is where it is for one reason only. */
  lemma {:induction false} EntriesUnique(f: Format, a: seq<Entry>, ta: seq<Byte>, b: seq<Entry>, tb: seq<Byte>)
    requires f.Lawful() && |a| <= |b| && f.Entries(a) + ta == f.Entries(b) + tb
    ensures a == b[..|a|] && ta == f.Entries(b[|a|..]) + tb
  {
    if a != [] {
      EntriesStep(f, a, ta);
      EntriesStep(f, b, tb);
      EntriesUnique(f, a[1..], ta, b[1..], tb);
      assert b[1..][|a| - 1..] == b[|a|..] && a == [a[0]] + a[1..];
    }
  }

  /** If the bytes read so far and the rest can be read as a longer run of entries, the rest starts with the next
      one. */
  lemma NextEntry(f: Format, done: seq<Entry>, rest: seq<Byte>, all: seq<Entry>, tail: seq<Byte>)
    requires f.Lawful() && |done| < |all| && f.Entries(done) + rest == f.Entries(all) + tail
    ensures f.take(rest).Some? && f.take(rest).value.0 == all[|done|] && done == all[..|done|]
  {
    EntriesUnique(f, done, rest, all, tail);
    EntriesStep(f, all[|done|..], tail);
  }

  lemma AllRead(f: Format, done: seq<Entry>, rest: seq<Byte>, all: seq<Entry>, tail: seq<Byte>)
    requires f.Lawful() && |done| == |all| && f.Entries(done) + rest == f.Entries(all) + tail
    ensures done == all && rest == tail
  {
    EntriesUnique(f, done, rest, all, tail);
    assert all[|done|..] == [] && all[..|done|] == all;
  }

  lemma ReadOne(f: Format, done: seq<Entry>, rest: seq<Byte>)
    requires f.Lawful() && f.take(rest).Some?
    ensures f.Entries(done + [f.take(rest).value.0]) + f.take(rest).value.1 == f.Entries(done) + rest
  {
    var e := f.take(rest).value.0;
    EntriesSplit(f, done, [e]);
    assert f.Entries([e]) == f.put(e);
  }

  // The worker's readers --------------------------------------------------------------

  ghost predicate Represents(f: Format, blob: seq<Byte>, es: seq<Entry>, count: nat, nLayers: nat) {
    |es| == count && RouteOk(es, nLayers) && blob == f.Blob(es)
  }

  /** Accepts exactly the encodings of well-formed routes with the announced number of entries. */
  method ValidateBlob(f: Format, blob: seq<Byte>, count: nat, nLayers: nat) returns (ok: bool)
    requires f.Lawful()
    ensures count == 0 ==> (ok <==> blob == [])
    ensures count > 0 ==> (ok <==> exists es :: Represents(f, blob, es, count, nLayers))
  {
    if count == 0 { return blob == []; }
    var rest := blob;
    var prevEnd: nat := 0;
    ghost var done: seq<Entry> := [];
    for i := 0 to count
      invariant |done| == i && blob == f.Entries(done) + rest && RouteOk(done, nLayers)
      invariant i > 0 ==> prevEnd == done[i - 1].layerEnd
    {
      var t := f.take(rest);
      forall es | Represents(f, blob, es, count, nLayers)
        ensures t.Some? && EntryOk(t.value.0, nLayers) && (i != 0 ==> t.value.0.layerStart == prevEnd + 1)
      {
        NextEntry(f, done, rest, es, f.putReturn(UPSTREAM));
      }
      if t.None? { return false; }
      var e := t.value.0;
      if !EntryOk(e, nLayers) { return false; }
      if i != 0 && e.layerStart != prevEnd + 1 { return false; }
      ReadOne(f, done, rest);
      done := done + [e];
      rest := t.value.1;
      prevEnd := e.layerEnd;
    }
    var ret := f.takeReturn(rest);
    forall es | Represents(f, blob, es, count, nLayers) ensures rest == f.putReturn(UPSTREAM) {
      AllRead(f, done, rest, es, f.putReturn(UPSTREAM));
    }
    ok := ret.Some? && 0 !in ret.value.host && ret.value.kind == RETURN_UPSTREAM && ret.value.host == []
        && ret.value.port == 0;
    if ok {
      assert Represents(f, blob, done, count, nLayers);
    }
  }

  /** The first target+1 entries the blob starts with, hosts checked. */
  ghost predicate StartsWith(f: Format, blob: seq<Byte>, es: seq<Entry>, tail: seq<Byte>) {
    HostsOk(es) && blob == f.Entries(es) + tail
  }

  /** Finds entry target exactly when the blob starts with that many readable entries. */
  method GetEntry(f: Format, blob: seq<Byte>, count: nat, target: nat) returns (r: Option<Entry>)
    requires f.Lawful()
    ensures r.Some? <==> target < count && exists es, tail :: |es| == target + 1 && StartsWith(f, blob, es, tail)
    ensures r.Some? ==> forall es, tail :: |es| > target && StartsWith(f, blob, es, tail) ==> r.value == es[target]
  {
    if target >= count { return None; }
    var rest := blob;
    ghost var done: seq<Entry> := [];
    for i := 0 to count
      invariant i <= target && |done| == i && StartsWith(f, blob, done, rest)
    {
      var t := f.take(rest);
      forall es, tail | |es| > target && StartsWith(f, blob, es, tail)
        ensures t.Some? && HostOk(t.value.0.host) && t.value.0 == es[i]
      {
        NextEntry(f, done, rest, es, tail);
      }
      if t.None? { return None; }
      var e := t.value.0;
      if !HostOk(e.host) { return None; }
      ReadOne(f, done, rest);
      if i == target {
        assert StartsWith(f, blob, done + [e], t.value.1);
        return Some(e);
      }
      done := done + [e];
      rest := t.value.1;
    }
    return None;
  }

  /** The return record behind count entries; here empty and overlong entry hosts pass. */
  ghost predicate EndsIn(f: Format, blob: seq<Byte>, es: seq<Entry>, ret: Return) {
    && (forall k :: 0 <= k < |es| ==> 0 !in es[k].host)
    && |ret.host| < NI_MAXHOST && 0 !in ret.host
    && blob == f.Entries(es) + f.putReturn(ret)
  }

  method GetReturnTarget(f: Format, blob: seq<Byte>, count: nat) returns (r: Option<Return>)
    requires f.Lawful()
    ensures r.Some? <==> count > 0 && exists es, ret :: |es| == count && EndsIn(f, blob, es, ret)
    ensures r.Some? ==> forall es, ret :: |es| == count && EndsIn(f, blob, es, ret) ==> r.value == ret
  {
    if count == 0 { return None; }
    var rest := blob;
    ghost var done: seq<Entry> := [];
    for i := 0 to count
      invariant |done| == i && blob == f.Entries(done) + rest && forall k :: 0 <= k < i ==> 0 !in done[k].host
    {
      var t := f.take(rest);
      forall es, ret | |es| == count && EndsIn(f, blob, es, ret) ensures t.Some? && t.value.0 == es[i] {
        NextEntry(f, done, rest, es, f.putReturn(ret));
      }
      if t.None? { return None; }
      if 0 in t.value.0.host { return None; }
      ReadOne(f, done, rest);
      done := done + [t.value.0];
      rest := t.value.1;
    }
    r := f.takeReturn(rest);
    forall es, ret | |es| == count && EndsIn(f, blob, es, ret) ensures r == Some(ret) {
      AllRead(f, done, rest, es, f.putReturn(ret));
    }
    if r.None? { return; }
    if 0 in r.value.host { return None; }
    assert EndsIn(f, blob, done, r.value);
  }
}
