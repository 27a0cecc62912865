// Allocation of token hashes within one call: the tracker and the span loop.
module CollisionTracker {
  import opened Wrappers
  import opened TokenFormat
  import opened SpanFusion

  const MAX_ATTEMPTS := 10

  predicate Taken(seen: map<string, string>, h: string, v: string) {
    h in seen && seen[h] != v
  }

  // The first candidate, from the given attempt on, that no other value holds.
  function Pick(seen: map<string, string>, base: string, v: string, attempt: nat): Option<string>
    decreases MAX_ATTEMPTS + 1 - attempt
  {
    if attempt > MAX_ATTEMPTS then None
    else
      var h := CollisionHash(base, attempt).value;
      if Taken(seen, h, v) then Pick(seen, base, v, attempt + 1) else Some(h)
  }

  // Allocation fails only when all ten candidates belong to other values, and
  // otherwise returns the first one that does not.
  lemma {:induction false} PickExact(seen: map<string, string>, base: string, v: string, attempt: nat)
    requires 1 <= attempt
    ensures Pick(seen, base, v, attempt).None? <==>
              forall i :: attempt <= i <= 10 ==> Taken(seen, CollisionHash(base, i).value, v)
    ensures Pick(seen, base, v, attempt).Some? ==>
              exists i :: attempt <= i <= 10
                && Pick(seen, base, v, attempt) == CollisionHash(base, i)
                && !Taken(seen, CollisionHash(base, i).value, v)
                && forall j :: attempt <= j < i ==> Taken(seen, CollisionHash(base, j).value, v)
    decreases MAX_ATTEMPTS + 1 - attempt
  {
    hide CollisionHash;
    if attempt <= MAX_ATTEMPTS && Taken(seen, CollisionHash(base, attempt).value, v) {
      PickExact(seen, base, v, attempt + 1);
    }
  }

  // The items of an insertion-ordered dictionary from value to token.
  type Carry = seq<(string, string)>

  function SeedOne(seen: map<string, string>, item: (string, string)): map<string, string> {
    match ParseToken(item.1) case Some((_, h)) => seen[h := item.0] case None => seen
  }

  function SeedAll(seen: map<string, string>, items: Carry): map<string, string>
    decreases |items|
  {
    if items == [] then seen else SeedAll(SeedOne(seen, items[0]), items[1..])
  }

  class Tracker {
    var seen: map<string, string>

    constructor ()
      ensures seen == map[]
    {
      seen := map[];
    }

    method Seed(items: Carry)
      modifies this
      ensures seen == SeedAll(old(seen), items)
    {
      for n := 0 to |items|
        invariant SeedAll(seen, items[n..]) == SeedAll(old(seen), items)
      {
        assert items[n..][1..] == items[n + 1..];
        match ParseToken(items[n].1) {
          case Some((_, h)) => seen := seen[h := items[n].0];
          case None =>
        }
      }
    }

    method FindOrAllocate(base: string, v: string) returns (r: Option<string>)
      modifies this
      ensures r == Pick(old(seen), base, v, 1)
      ensures seen == if r.Some? then old(seen)[r.value := v] else old(seen)
    {
      for attempt := 1 to MAX_ATTEMPTS + 1
        invariant seen == old(seen)
        invariant Pick(seen, base, v, attempt) == Pick(seen, base, v, 1)
      {
        var candidate := CollisionHash(base, attempt).value;
        if candidate !in seen {
          seen := seen[candidate := v];
          return Some(candidate);
        }
        if seen[candidate] == v {
          assert old(seen) == old(seen)[candidate := v];
          return Some(candidate);
        }
      }
      return None;
    }
  }

  datatype TokenEntry = TokenEntry(token: string, original: string, piiType: string, hash: string,
                         start: int, end: int, source: Source)

  datatype Assigned = Assigned(entries: seq<TokenEntry>, seen: map<string, string>, memo: map<string, TokenEntry>)

  // One span of the loop in TokenizeTextUseCase.execute; base is the HMAC of its
  // text under the DEK held at that moment.
  function AssignOne(a: Assigned, span: Span, base: string): (r: Option<Assigned>)
    ensures r.Some? ==> |r.value.entries| == |a.entries| + 1
  {
    if span.text in a.memo then Some(a.(entries := a.entries + [a.memo[span.text]]))
    else match Pick(a.seen, base, span.text, 1)
      case None => None
      case Some(h) =>
        match FormatToken(span.piiType, h)
        case None => None
        case Some(tok) =>
          var e := TokenEntry(tok, span.text, span.piiType, h, span.start, span.end, span.source);
          Some(Assigned(a.entries + [e], a.seen[h := span.text], a.memo[span.text := e]))
  }

  // The spans not yet assigned, in order.
  function AssignRest(a: Assigned, spans: seq<Span>, bases: seq<string>): (r: Option<Assigned>)
    requires |a.entries| <= |spans| == |bases|
    ensures r.Some? ==> |r.value.entries| == |spans|
    decreases |spans| - |a.entries|
  {
    var n := |a.entries|;
    if n == |spans| then Some(a)
    else match AssignOne(a, spans[n], bases[n])
      case None => None
      case Some(b) => AssignRest(b, spans, bases)
  }

  function Assign(seen: map<string, string>, spans: seq<Span>, bases: seq<string>): (r: Option<Assigned>)
    requires |spans| == |bases|
    ensures r.Some? ==> |r.value.entries| == |spans|
  {
    AssignRest(Assigned([], seen, map[]), spans, bases)
  }

  // The span loop; None is any of its exceptions.
  method AssignTokens(tracker: Tracker, spans: seq<Span>, bases: seq<string>) returns (r: Option<seq<TokenEntry>>)
    requires |spans| == |bases|
    modifies tracker
    ensures var spec := Assign(old(tracker.seen), spans, bases);
            match r
            case Some(entries) => spec.Some? && entries == spec.value.entries && tracker.seen == spec.value.seen
            case None => spec.None?
  {
    var entries, memo := [], map[];
    ghost var spec := Assign(tracker.seen, spans, bases);
    for n := 0 to |spans|
      invariant |entries| == n
      invariant AssignRest(Assigned(entries, tracker.seen, memo), spans, bases) == spec
    {
      var span := spans[n];
      if span.text in memo {
        entries := entries + [memo[span.text]];
      } else {
        var h := tracker.FindOrAllocate(bases[n], span.text);
        if h.None? {
          return None;
        }
        var tok := FormatToken(span.piiType, h.value);
        if tok.None? {
          return None;
        }
        var e := TokenEntry(tok.value, span.text, span.piiType, h.value, span.start, span.end, span.source);
        entries := entries + [e];
        memo := memo[span.text := e];
      }
    }
    return Some(entries);
  }

  predicate EntryOk(seen: map<string, string>, e: TokenEntry) {
    && (exists t :: t in VALID_TYPES && ParseToken(e.token) == Some((t, e.hash)))
    && e.hash in seen && seen[e.hash] == e.original
  }

  lemma EntryHash(seen: map<string, string>, e: TokenEntry)
    requires EntryOk(seen, e)
    ensures HashOf(e.token) == Some(e.hash) && e.hash in seen && seen[e.hash] == e.original
  {
  }

  ghost predicate Extends(seen: map<string, string>, more: map<string, string>) {
    forall h :: h in seen ==> h in more && more[h] == seen[h]
  }

  predicate Listed(entries: seq<TokenEntry>, e: TokenEntry) { e in entries }

  // Each entry carries its span's text.
  ghost predicate EntriesOk(a: Assigned, spans: seq<Span>) {
    && |a.entries| <= |spans|
    && forall i :: 0 <= i < |a.entries| ==> EntryOk(a.seen, a.entries[i]) && a.entries[i].original == spans[i].text
  }

  // The memo holds entries of its values, and one for each value given.
  ghost predicate MemoOk(a: Assigned) {
    forall v :: v in a.memo ==> EntryOk(a.seen, a.memo[v]) && a.memo[v].original == v && Listed(a.entries, a.memo[v])
  }

  ghost predicate MemoFull(a: Assigned) {
    forall i :: 0 <= i < |a.entries| ==>
      a.entries[i].original in a.memo && a.memo[a.entries[i].original] == a.entries[i]
  }

  ghost predicate AssignedOk(a: Assigned, spans: seq<Span>) {
    EntriesOk(a, spans) && MemoOk(a) && MemoFull(a)
  }

  lemma PickIsFree(seen: map<string, string>, base: string, v: string)
    requires Pick(seen, base, v, 1).Some?
    ensures var h := Pick(seen, base, v, 1).value; h in seen ==> seen[h] == v
  {
    PickExact(seen, base, v, 1);
  }

  lemma FromMemo(a: Assigned, x: Span, base: string)
    requires x.text in a.memo
    ensures AssignOne(a, x, base) == Some(a.(entries := a.entries + [a.memo[x.text]]))
  {
  }

  lemma AssignOneOk(a: Assigned, spans: seq<Span>, base: string)
    requires AssignedOk(a, spans) && |a.entries| < |spans|
    requires AssignOne(a, spans[|a.entries|], base).Some?
    ensures AssignedOk(AssignOne(a, spans[|a.entries|], base).value, spans)
  {
    var span := spans[|a.entries|];
    var b := AssignOne(a, span, base).value;
    if span.text !in a.memo {
      NewEntryOk(a, span, base);
    } else {
      FromMemo(a, span, base);
    }
    hide AssignOne, AssignedOk, EntryOk, Extends;
    AddEntry(a, b, spans, b.entries[|a.entries|]);
  }

  // b has one more entry than a, new or from the memo.
  ghost predicate Adds(a: Assigned, b: Assigned, e: TokenEntry) {
    && b.entries == a.entries + [e] && Extends(a.seen, b.seen) && EntryOk(b.seen, e)
    && (if e.original in a.memo then b.memo == a.memo && a.memo[e.original] == e
        else b.memo == a.memo[e.original := e])
  }

  lemma AddEntry(a: Assigned, b: Assigned, spans: seq<Span>, e: TokenEntry)
    requires AssignedOk(a, spans) && Adds(a, b, e) && |a.entries| < |spans| && e.original == spans[|a.entries|].text
    ensures AssignedOk(b, spans)
  {
    forall x | EntryOk(a.seen, x) ensures EntryOk(b.seen, x) {
      EntryStays(a.seen, b.seen, x);
    }
    hide EntryOk, Extends, MemoOk, MemoFull;
    AddToMemo(a, b, e);
    AddCovered(a, b, e);
  }

  lemma AddToMemo(a: Assigned, b: Assigned, e: TokenEntry)
    requires MemoOk(a) && Adds(a, b, e)
    ensures MemoOk(b)
  {
    forall x | EntryOk(a.seen, x) ensures EntryOk(b.seen, x) {
      EntryStays(a.seen, b.seen, x);
    }
    hide EntryOk, Extends;
  }

  lemma AddCovered(a: Assigned, b: Assigned, e: TokenEntry)
    requires MemoFull(a) && Adds(a, b, e)
    ensures MemoFull(b)
  {
    hide EntryOk, Extends;
  }

  lemma EntryStays(seen: map<string, string>, more: map<string, string>, e: TokenEntry)
    requires EntryOk(seen, e) && Extends(seen, more)
    ensures EntryOk(more, e)
  {
  }

  // The entry of a new value.
  lemma NewEntryOk(a: Assigned, span: Span, base: string)
    requires span.text !in a.memo && AssignOne(a, span, base).Some?
    ensures var b := AssignOne(a, span, base).value;
            && Extends(a.seen, b.seen) && |b.entries| == |a.entries| + 1
            && var e := b.entries[|a.entries|];
               && EntryOk(b.seen, e) && e.original == span.text
               && b.entries == a.entries + [e] && b.memo == a.memo[span.text := e]
  {
    hide Pick, FormatToken, ParseToken, Groups;
    PickIsFree(a.seen, base, span.text);
    FormatParses(span.piiType, Pick(a.seen, base, span.text, 1).value);
  }

  lemma FormatParses(t: string, h: string)
    requires FormatToken(t, h).Some?
    ensures t in VALID_TYPES && ParseToken(FormatToken(t, h).value) == Some((t, h))
  {
    ParseUndoesFormat(FormatToken(t, h).value, t, h);
  }

  // Whatever the bases are (the DEK may change during the call): each entry
  // carries its span's text, its token parses to its hash, and a hash stands for
  // one value only.
  lemma {:induction false} AssignSound(a: Assigned, spans: seq<Span>, bases: seq<string>)
    requires AssignedOk(a, spans) && |spans| == |bases| && AssignRest(a, spans, bases).Some?
    ensures AssignedOk(AssignRest(a, spans, bases).value, spans)
    ensures |AssignRest(a, spans, bases).value.entries| == |spans|
    decreases |spans| - |a.entries|
  {
    var n := |a.entries|;
    if n < |spans| {
      AssignOneOk(a, spans, bases[n]);
      AssignSound(AssignOne(a, spans[n], bases[n]).value, spans, bases);
    }
  }

  // One more span: nothing already given is changed or taken away.
  lemma GrowOne(a: Assigned, span: Span, base: string)
    requires AssignOne(a, span, base).Some?
    ensures var b := AssignOne(a, span, base).value;
            && Extends(a.seen, b.seen)
            && b.entries[..|a.entries|] == a.entries
            && (forall h :: h in b.seen ==> h in a.seen || b.entries[|a.entries|].hash == h)
  {
    hide FormatToken, Pick;
    if span.text !in a.memo {
      PickIsFree(a.seen, base, span.text);
    }
  }

  lemma {:induction false} GrowAll(a: Assigned, spans: seq<Span>, bases: seq<string>)
    requires |a.entries| <= |spans| == |bases| && AssignRest(a, spans, bases).Some?
    ensures var b := AssignRest(a, spans, bases).value;
            && Extends(a.seen, b.seen)
            && b.entries[..|a.entries|] == a.entries
            && (forall h :: h in b.seen ==>
                  h in a.seen || exists i :: |a.entries| <= i < |b.entries| && b.entries[i].hash == h)
    decreases |spans| - |a.entries|
  {
    hide AssignOne;
    var n := |a.entries|;
    if n < |spans| {
      GrowOne(a, spans[n], bases[n]);
      var b := AssignOne(a, spans[n], bases[n]).value;
      GrowAll(b, spans, bases);
      var c := AssignRest(a, spans, bases).value;
      assert c.entries[..n] == c.entries[..n + 1][..n];
      assert c.entries[n] == c.entries[..n + 1][n];
    }
  }

  // The spans of a call with one more at the end.
  lemma {:induction false} AssignMore(a: Assigned, spans: seq<Span>, bases: seq<string>, x: Span, base: string)
    requires |a.entries| <= |spans| == |bases| && AssignRest(a, spans, bases).Some?
    ensures AssignRest(a, spans + [x], bases + [base]) == AssignOne(AssignRest(a, spans, bases).value, x, base)
    decreases |spans| - |a.entries|
  {
    hide AssignOne;
    var n := |a.entries|;
    if n < |spans| {
      assert (spans + [x])[n] == spans[n] && (bases + [base])[n] == bases[n];
      AssignMore(AssignOne(a, spans[n], bases[n]).value, spans, bases, x, base);
    } else {
      LastSpan(a, spans + [x], bases + [base]);
    }
  }

  // A call that gets through all spans gets through the first n.
  lemma {:induction false} AssignPrefix(seed: map<string, string>, spans: seq<Span>, bases: seq<string>, n: nat)
    requires n <= |spans| == |bases| && Assign(seed, spans, bases).Some?
    ensures Assign(seed, spans[..n], bases[..n]).Some?
    ensures n < |spans| ==>
              AssignOne(Assign(seed, spans[..n], bases[..n]).value, spans[n], bases[n])
              == Assign(seed, spans[..n + 1], bases[..n + 1])
    decreases |spans| - n
  {
    hide AssignRest, AssignOne;
    assert spans[..|spans|] == spans && bases[..|bases|] == bases;
    if n < |spans| {
      AssignPrefix(seed, spans, bases, n + 1);
      assert spans[..n + 1] == spans[..n] + [spans[n]] && bases[..n + 1] == bases[..n] + [bases[n]];
      NeedsFirst(Assigned([], seed, map[]), spans[..n], bases[..n], spans[n], bases[n]);
      AssignMore(Assigned([], seed, map[]), spans[..n], bases[..n], spans[n], bases[n]);
    }
  }

  lemma {:induction false} NeedsFirst(a: Assigned, spans: seq<Span>, bases: seq<string>, x: Span, base: string)
    requires |a.entries| <= |spans| == |bases| && AssignRest(a, spans + [x], bases + [base]).Some?
    ensures AssignRest(a, spans, bases).Some?
    decreases |spans| - |a.entries|
  {
    hide AssignOne;
    var n := |a.entries|;
    if n < |spans| {
      assert (spans + [x])[n] == spans[n] && (bases + [base])[n] == bases[n];
      NeedsFirst(AssignOne(a, spans[n], bases[n]).value, spans, bases, x, base);
    }
  }

  lemma LastSpan(a: Assigned, spans: seq<Span>, bases: seq<string>)
    requires |a.entries| + 1 == |spans| == |bases|
    ensures AssignRest(a, spans, bases) == AssignOne(a, spans[|spans| - 1], bases[|spans| - 1])
  {
    hide AssignOne;
  }

  // One more span for a call: it is given an entry for its value, an old one if
  // the value came before, and everything given before stays.
  lemma AssignNext(seed: map<string, string>, spans: seq<Span>, bases: seq<string>, x: Span, base: string)
    requires |spans| == |bases| && Assign(seed, spans, bases).Some?
    requires AssignOne(Assign(seed, spans, bases).value, x, base).Some?
    ensures var a := Assign(seed, spans, bases).value;
            var b := AssignOne(a, x, base).value;
            && Assign(seed, spans + [x], bases + [base]) == Some(b)
            && Extends(a.seen, b.seen)
            && |b.entries| == |a.entries| + 1 && b.entries[..|a.entries|] == a.entries
            && var e := b.entries[|a.entries|];
               && e.original == x.text && e.hash in b.seen && b.seen[e.hash] == x.text
               && (x.text in a.memo ==> e in a.entries)
  {
    hide AssignRest, AssignOne, EntryOk;
    var first := Assigned([], seed, map[]);
    AssignMore(first, spans, bases, x, base);
    var a := Assign(seed, spans, bases).value;
    var b := AssignOne(a, x, base).value;
    GrowOne(a, x, base);
    AssignSound(first, spans + [x], bases + [base]);
    AssignSound(first, spans, bases);
    EntryHash(b.seen, b.entries[|a.entries|]);
    if x.text in a.memo {
      FromMemo(a, x, base);
    }
  }

  // ---- What an entry is made of ----

  // Candidate k of the base, those before it being taken by other values.
  ghost predicate FirstFree(seen: map<string, string>, base: string, v: string, h: string, k: nat) {
    && 1 <= k <= 10 && CollisionHash(base, k) == Some(h)
    && forall j :: 1 <= j < k ==> Taken(seen, CollisionHash(base, j).value, v)
  }

  // The entry carries the span, and its token the span's type and such a candidate.
  ghost predicate MadeFor(seen: map<string, string>, e: TokenEntry, x: Span, base: string) {
    && e.original == x.text && e.piiType == x.piiType && e.start == x.start && e.end == x.end && e.source == x.source
    && e.token == "[#" + x.piiType + ":" + e.hash + "]"
    && exists k :: FirstFree(seen, base, x.text, e.hash, k)
  }

  // The first span with the value of span i.
  ghost predicate FirstWith(spans: seq<Span>, i: nat, j: nat) {
    j <= i < |spans| && spans[j].text == spans[i].text && forall k :: 0 <= k < j ==> spans[k].text != spans[i].text
  }

  // Entry i is the one made for the first span with its value, span j.
  ghost predicate EntryFrom(a: Assigned, spans: seq<Span>, bases: seq<string>, i: nat, j: nat)
    requires |spans| == |bases| && i < |a.entries| <= |spans|
  {
    FirstWith(spans, i, j) && a.entries[i] == a.entries[j] && MadeFor(a.seen, a.entries[j], spans[j], bases[j])
  }

  ghost predicate EntryMade(a: Assigned, spans: seq<Span>, bases: seq<string>, i: nat)
    requires |spans| == |bases| && i < |a.entries| <= |spans|
  {
    exists j: nat :: EntryFrom(a, spans, bases, i, j)
  }

  ghost predicate AllMade(a: Assigned, spans: seq<Span>, bases: seq<string>)
    requires |spans| == |bases| && |a.entries| <= |spans|
  {
    forall i :: 0 <= i < |a.entries| ==> EntryMade(a, spans, bases, i)
  }

  lemma NewEntryMade(a: Assigned, x: Span, base: string)
    requires x.text !in a.memo && AssignOne(a, x, base).Some?
    ensures var b := AssignOne(a, x, base).value; MadeFor(b.seen, b.entries[|a.entries|], x, base)
  {
    hide Groups, IsHash, CollisionHash;
    PickExact(a.seen, base, x.text, 1);
    var h := Pick(a.seen, base, x.text, 1).value;
    var b := AssignOne(a, x, base).value;
    var k :| 1 <= k <= 10 && CollisionHash(base, k) == Some(h)
             && forall j :: 1 <= j < k ==> Taken(a.seen, CollisionHash(base, j).value, x.text);
    assert !Taken(a.seen, h, x.text);
    forall j | 1 <= j < k ensures Taken(b.seen, CollisionHash(base, j).value, x.text) {
    }
    assert FirstFree(b.seen, base, x.text, h, k);
  }

  lemma MadeStays(seen: map<string, string>, more: map<string, string>, e: TokenEntry, x: Span, base: string)
    requires MadeFor(seen, e, x, base) && Extends(seen, more)
    ensures MadeFor(more, e, x, base)
  {
    hide CollisionHash;
    var k :| FirstFree(seen, base, x.text, e.hash, k);
    assert FirstFree(more, base, x.text, e.hash, k);
  }

  // One more entry changes nothing for those before it.
  lemma StillMade(a: Assigned, b: Assigned, spans: seq<Span>, bases: seq<string>, i: nat)
    requires |spans| == |bases| && i < |a.entries| < |b.entries| <= |spans| && EntryMade(a, spans, bases, i)
    requires b.entries[..|a.entries|] == a.entries && Extends(a.seen, b.seen)
    ensures EntryMade(b, spans, bases, i)
  {
    hide MadeFor, Extends;
    var j: nat :| EntryFrom(a, spans, bases, i, j);
    MadeStays(a.seen, b.seen, a.entries[j], spans[j], bases[j]);
    assert b.entries[i] == b.entries[..|a.entries|][i] && b.entries[j] == b.entries[..|a.entries|][j];
    assert EntryFrom(b, spans, bases, i, j);
  }

  lemma MemoMade(b: Assigned, spans: seq<Span>, bases: seq<string>, m: nat, n: nat)
    requires |spans| == |bases| && m < n < |b.entries| <= |spans| && EntryMade(b, spans, bases, m)
    requires b.entries[n] == b.entries[m] && spans[n].text == spans[m].text
    ensures EntryMade(b, spans, bases, n)
  {
    hide MadeFor;
    var j: nat :| EntryFrom(b, spans, bases, m, j);
    assert EntryFrom(b, spans, bases, n, j);
  }

  lemma OneMoreMade(a: Assigned, spans: seq<Span>, bases: seq<string>)
    requires |spans| == |bases| && |a.entries| < |spans| && AssignedOk(a, spans) && AllMade(a, spans, bases)
    requires AssignOne(a, spans[|a.entries|], bases[|a.entries|]).Some?
    ensures AllMade(AssignOne(a, spans[|a.entries|], bases[|a.entries|]).value, spans, bases)
  {
    hide MadeFor, EntryOk, Extends, AssignOne, EntryMade;
    var n := |a.entries|;
    var x := spans[n];
    var b := AssignOne(a, x, bases[n]).value;
    GrowOne(a, x, bases[n]);
    forall i | 0 <= i < n ensures EntryMade(b, spans, bases, i) {
      StillMade(a, b, spans, bases, i);
    }
    if x.text in a.memo {
      FromMemo(a, x, bases[n]);
      assert Listed(a.entries, a.memo[x.text]);
      var m: nat :| m < n && a.entries[m] == a.memo[x.text];
      MemoMade(b, spans, bases, m, n);
    } else {
      NewEntryMade(a, x, bases[n]);
      FirstMade(b, spans, bases, n) by {
        forall k | 0 <= k < n ensures spans[k].text != x.text { assert a.entries[k].original in a.memo; }
      }
    }
  }

  lemma FirstMade(b: Assigned, spans: seq<Span>, bases: seq<string>, n: nat)
    requires |spans| == |bases| && n < |b.entries| <= |spans| && MadeFor(b.seen, b.entries[n], spans[n], bases[n])
    requires forall k :: 0 <= k < n ==> spans[k].text != spans[n].text
    ensures EntryMade(b, spans, bases, n)
  {
    hide MadeFor;
    assert EntryFrom(b, spans, bases, n, n);
  }

  lemma {:induction false} RestMade(a: Assigned, spans: seq<Span>, bases: seq<string>)
    requires |a.entries| <= |spans| == |bases| && AssignedOk(a, spans) && AllMade(a, spans, bases)
    requires AssignRest(a, spans, bases).Some?
    ensures AllMade(AssignRest(a, spans, bases).value, spans, bases)
    decreases |spans| - |a.entries|
  {
    hide AssignOne, AssignedOk, AllMade;
    var n := |a.entries|;
    if n < |spans| {
      AssignOneOk(a, spans, bases[n]);
      OneMoreMade(a, spans, bases);
      RestMade(AssignOne(a, spans[n], bases[n]).value, spans, bases);
    }
  }

  // Every span gets the entry of the first span with its value. That entry carries
  // this span's type, place and source; its hash is the first candidate of this
  // span's HMAC that no other value holds.
  lemma EntryExact(seed: map<string, string>, spans: seq<Span>, bases: seq<string>, i: nat) returns (j: nat)
    requires |spans| == |bases| && Assign(seed, spans, bases).Some? && i < |spans|
    ensures var a := Assign(seed, spans, bases).value;
            FirstWith(spans, i, j) && a.entries[i] == a.entries[j] && MadeFor(a.seen, a.entries[j], spans[j], bases[j])
  {
    hide MadeFor, AssignRest, FirstWith;
    RestMade(Assigned([], seed, map[]), spans, bases);
    var a := Assign(seed, spans, bases).value;
    assert EntryMade(a, spans, bases, i);
    j :| EntryFrom(a, spans, bases, i, j);
  }

  // A new value is refused exactly when its type is not one of the fourteen or all
  // ten candidates stand for other values.
  lemma RefusedIff(a: Assigned, x: Span, base: string)
    requires IsBaseHash(base)
    ensures AssignOne(a, x, base).None? <==>
              && x.text !in a.memo
              && (|| x.piiType !in {
                       "pe", "org", "loc", "ind", "tel", "em", "cf", "ib", "med", "leg", "rel", "fin", "pro", "dt"}
                  || forall k :: 1 <= k <= 10 ==> Taken(a.seen, CollisionHash(base, k).value, x.text))
  {
    hide Taken, IsHash, IsBaseHash, CollisionHash;
    PickExact(a.seen, base, x.text, 1);
    if Pick(a.seen, base, x.text, 1).Some? {
      var k :| 1 <= k <= 10 && Pick(a.seen, base, x.text, 1) == CollisionHash(base, k)
               && !Taken(a.seen, CollisionHash(base, k).value, x.text);
      CandidatesAreHashes(base, k);
    }
  }

  // A call that seeds its own tracker with the carry-over map it was given.
  method Allocate(existing: Carry, spans: seq<Span>, bases: seq<string>) returns (r: Option<seq<TokenEntry>>)
    requires |spans| == |bases|
    ensures var spec := Assign(SeedAll(map[], existing), spans, bases);
            r == match spec case Some(a) => Some(a.entries) case None => None
  {
    var tracker := new Tracker();
    tracker.Seed(existing);
    r := AssignTokens(tracker, spans, bases);
  }
}
