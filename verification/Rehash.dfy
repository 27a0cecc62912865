// When the DEK changes between the texts of a request: exactly when a hash can
// come to stand for two values.
module Rehash {
  import opened Wrappers
  import opened TokenFormat
  import opened SpanFusion
  import opened CollisionTracker
  import opened CarryOver

  // ---- What recording leaves in the carry-over map ----

  ghost predicate Overwritten(entries: seq<TokenEntry>, v: string) {
    exists n :: 0 <= n < |entries| && entries[n].original == v
  }

  ghost predicate Recorded(entries: seq<TokenEntry>, item: (string, string)) {
    exists n :: 0 <= n < |entries| && item == (entries[n].original, entries[n].token)
  }

  ghost predicate Distinct(items: Carry) {
    forall i, j :: 0 <= i < j < |items| ==> items[i].0 != items[j].0
  }

  lemma DictSetHas(items: Carry, v: string, tok: string, item: (string, string))
    requires Distinct(items)
    ensures Distinct(DictSet(items, v, tok))
    ensures item in DictSet(items, v, tok) <==> item == (v, tok) || (item in items && item.0 != v)
  {
    var p, items' := Find(items, v), DictSet(items, v, tok);
    assert items'[p] == (v, tok);
    forall i | 0 <= i < |items| && i != p ensures items'[i] == items[i] {
    }
  }

  // An item is in the new map if a new entry made it, or if it was there and no
  // new entry has its value.
  lemma {:induction false} RecordHas(items: Carry, entries: seq<TokenEntry>, item: (string, string))
    requires Distinct(items) && item in Record(items, entries)
    ensures Recorded(entries, item) || (item in items && !Overwritten(entries, item.0))
    decreases |entries|
  {
    hide DictSet;
    if entries != [] {
      var e, rest := entries[0], entries[1..];
      DictSetHas(items, e.original, e.token, item);
      RecordHas(DictSet(items, e.original, e.token), rest, item);
      if Recorded(rest, item) {
        var n :| 0 <= n < |rest| && item == (rest[n].original, rest[n].token);
        assert entries[n + 1] == rest[n];
      } else if Overwritten(entries, item.0) {
        var n :| 0 <= n < |entries| && entries[n].original == item.0;
        assert n > 0 ==> rest[n - 1] == entries[n];
      }
    }
  }

  lemma {:induction false} SeedHas(seen: map<string, string>, items: Carry, h: string)
    requires h in SeedAll(seen, items)
    ensures h in seen || exists i :: 0 <= i < |items| && HashOf(items[i].1) == Some(h)
    decreases |items|
  {
    hide ParseToken;
    if items != [] {
      SeedHas(SeedOne(seen, items[0]), items[1..], h);
      if exists i :: 0 <= i < |items| - 1 && HashOf(items[1..][i].1) == Some(h) {
        var i :| 0 <= i < |items| - 1 && HashOf(items[1..][i].1) == Some(h);
        assert items[i + 1] == items[1..][i];
      } else {
        assert HashOf(items[0].1) == Some(h) || h in seen;
      }
    }
  }

  // A carried value whose hash p the call did not give it again.
  ghost predicate Loses(items: Carry, entries: seq<TokenEntry>, p: string) {
    exists i, n :: 0 <= i < |items| && 0 <= n < |entries| && items[i].0 == entries[n].original
                   && HashOf(items[i].1) == Some(p) && entries[n].hash != p
  }

  // The next call's tracker does not know such a hash.
  lemma LostIsFree(items: Carry, seen: map<string, string>, w: Work, p: string)
    requires Mirrors(items, seen) && Call(items, w).Some? && Loses(items, Call(items, w).value.entries, p)
    ensures p !in SeedAll(map[], Record(items, Call(items, w).value.entries))
    ensures p in seen && p in Call(items, w).value.seen && Call(items, w).value.seen[p] == seen[p]
  {
    hide HashOf, EntryOk, Record, Call, SeedAll;
    CallGrows(items, seen, w);
    var a := Call(items, w).value;
    var i, n :| 0 <= i < |items| && 0 <= n < |a.entries| && items[i].0 == a.entries[n].original
                && HashOf(items[i].1) == Some(p) && a.entries[n].hash != p;
    assert Holds(seen, items[i]);
    var items' := Record(items, a.entries);
    if p in SeedAll(map[], items') {
      SeedHas(map[], items', p);
      var j :| 0 <= j < |items'| && HashOf(items'[j].1) == Some(p);
      RecordHas(items, a.entries, items'[j]);
      NotCarried(items, seen, a, p, i, n, items'[j]);
    }
  }

  lemma NotCarried(items: Carry, seen: map<string, string>, a: Assigned, p: string, i: nat, n: nat,
                   item: (string, string))
    requires Mirrors(items, seen) && Extends(seen, a.seen) && Single(a.entries)
    requires forall k :: 0 <= k < |a.entries| ==> EntryOk(a.seen, a.entries[k])
    requires i < |items| && n < |a.entries| && items[i].0 == a.entries[n].original
    requires HashOf(items[i].1) == Some(p) && a.entries[n].hash != p
    ensures !(HashOf(item.1) == Some(p)
              && (Recorded(a.entries, item) || (item in items && !Overwritten(a.entries, item.0))))
  {
    hide HashOf, EntryOk;
    assert Holds(seen, items[i]);
    if HashOf(item.1) == Some(p) {
      if Recorded(a.entries, item) {
        var k :| 0 <= k < |a.entries| && item == (a.entries[k].original, a.entries[k].token);
        EntryHash(a.seen, a.entries[k]);
      }
      if item in items {
        var k :| 0 <= k < |items| && items[k] == item;
        assert Holds(seen, items[k]);
        assert Overwritten(a.entries, item.0);
      }
    }
  }

  // ---- A lost hash is given to another value ----

  function Minted(v: Span, h: string): TokenEntry {
    TokenEntry(Spell(v.piiType, h), v.text, v.piiType, h, v.start, v.end, v.source)
  }

  function JustOne(x: Span, base: string): Work { Detections([x], [base]) }

  // One span whose first candidate is free.
  lemma OneSpan(seen: map<string, string>, v: Span, base: string)
    requires v.piiType in VALID_TYPES && IsBaseHash(base) && base !in seen
    ensures var a := Assign(seen, [v], [base]); a.Some? && a.value.entries == [Minted(v, base)]
  {
    CandidatesAreHashes(base, 1);
    hide ParseToken;
    LastSpan(Assigned([], seen, map[]), [v], [base]);
    assert Pick(seen, base, v.text, 1) == Some(base);
  }

  // If a carried value loses a base hash p, every text whose only value has HMAC
  // p is given p next, whatever that value is.
  lemma LostIsReused(items: Carry, seen: map<string, string>, w: Work, p: string, x: Span)
    requires Mirrors(items, seen) && Call(items, w).Some? && Loses(items, Call(items, w).value.entries, p)
    requires IsBaseHash(p) && x.piiType in VALID_TYPES
    ensures var next := Call(Record(items, Call(items, w).value.entries), JustOne(x, p));
            next.Some? && next.value.entries == [Minted(x, p)]
  {
    LostIsFree(items, seen, w, p);
    OneSpan(SeedAll(map[], Record(items, Call(items, w).value.entries)), x, p);
  }

  function Slot(b: string, k: nat): (h: string)
    requires k <= MAX_ATTEMPTS
    ensures CollisionHash(b, k) == Some(h)
  {
    CollisionHash(b, k).value
  }

  predicate BaseHashes(bases: seq<string>) {
    forall i :: 0 <= i < |bases| ==> IsBaseHash(bases[i])
  }

  // Every hash is one that allocation can give.
  ghost predicate AllMinted(seen: map<string, string>) {
    forall h :: h in seen ==> exists b, k :: IsBaseHash(b) && 1 <= k <= MAX_ATTEMPTS && CollisionHash(b, k) == Some(h)
  }

  // No later text gives a hash that is taken to another value: not the next one,
  // and none after texts that gave their carried values the carried hashes.
  ghost predicate Safe(items: Carry, taken: map<string, string>) {
    forall between: seq<Work>, w: Work :: SafeAfter(items, between, w, taken)
  }

  ghost predicate SafeAfter(items: Carry, between: seq<Work>, w: Work, taken: map<string, string>) {
    KeepsAll(items, between) && Texts(items, between).Some? && BaseHashes(w.bases)
    && Call(Texts(items, between).value.0, w).Some?
    ==> Respects(Call(Texts(items, between).value.0, w).value.entries, taken)
  }

  ghost predicate Respects(entries: seq<TokenEntry>, taken: map<string, string>) {
    forall n :: 0 <= n < |entries| && entries[n].hash in taken ==> taken[entries[n].hash] == entries[n].original
  }

  // A value of any length that is wanted.
  function Filler(len: nat): Span {
    Span(0, 1, seq(len, _ => 'x'), "pe", Regex, 1.0)
  }

  ghost predicate Shorter(seen: map<string, string>, len: nat) {
    forall h :: h in seen ==> |seen[h]| < len
  }

  lemma {:induction false} SomeLength(seen: map<string, string>) returns (len: nat)
    ensures Shorter(seen, len)
    decreases |seen|
  {
    len := 0;
    if seen != map[] {
      var h :| h in seen;
      len := SomeLength(seen - {h});
      var before := len;
      len := if |seen[h]| < before then before else |seen[h]| + 1;
      forall g | g in seen ensures |seen[g]| < len {
        assert g != h ==> g in seen - {h} && (seen - {h})[g] == seen[g];
      }
    }
  }

  // New values with one base take its free candidates one after the other, so
  // candidate k is reached; the first candidates up to f are known to be taken.
  lemma {:induction false} Reach(seed: map<string, string>, w: Work, a: Assigned, b: string, k: nat, f: nat, len: nat)
    returns (w': Work, a': Assigned)
    requires IsBaseHash(b) && 1 <= f <= k <= MAX_ATTEMPTS && BaseHashes(w.bases)
    requires Assign(seed, w.spans, w.bases) == Some(a) && Shorter(a.seen, len)
    requires forall v :: v in a.memo ==> |v| < len
    requires forall i :: 1 <= i < f ==> Slot(b, i) in a.seen
    requires Slot(b, k) !in a.seen
    ensures BaseHashes(w'.bases) && Assign(seed, w'.spans, w'.bases) == Some(a')
    ensures a'.entries != []
    ensures var e := a'.entries[|a'.entries| - 1]; e.hash == Slot(b, k) && |e.original| >= len
    decreases k - f
  {
    hide FormatToken, AssignRest, IsBaseHash, CollisionHash, Slot;
    var x := Filler(len);
    assert |x.text| == len;
    assert x.text !in a.memo;
    var i := Free(a.seen, b, x.text, k, f);
    w', a' := OneMore(seed, w, a, b, x, i);
    if i < k {
      CandidatesDiffer(b, i, b, k);
      forall j | 1 <= j < i + 1 ensures Slot(b, j) in a'.seen {
      }
      w', a' := Reach(seed, w', a', b, k, i + 1, len + 1);
    }
  }

  // A call with one more span, whose value is given candidate i.
  lemma OneMore(seed: map<string, string>, w: Work, a: Assigned, b: string, x: Span, i: nat)
    returns (w': Work, a': Assigned)
    requires Assign(seed, w.spans, w.bases) == Some(a) && x.text !in a.memo && x.piiType in VALID_TYPES
    requires IsBaseHash(b) && 1 <= i <= MAX_ATTEMPTS && Pick(a.seen, b, x.text, 1) == CollisionHash(b, i)
    ensures w' == Detections(w.spans + [x], w.bases + [b]) && Assign(seed, w'.spans, w'.bases) == Some(a')
    ensures var h := Slot(b, i);
            a' == Assigned(a.entries + [Minted(x, h)], a.seen[h := x.text], a.memo[x.text := Minted(x, h)])
  {
    hide Pick, AssignRest, IsHash;
    CandidatesAreHashes(b, i);
    AssignMore(Assigned([], seed, map[]), w.spans, w.bases, x, b);
    w' := Detections(w.spans + [x], w.bases + [b]);
    a' := AssignOne(a, x, b).value;
  }

  // The candidate that a new value is given.
  lemma Free(seen: map<string, string>, b: string, v: string, k: nat, f: nat) returns (i: nat)
    requires 1 <= f <= k <= MAX_ATTEMPTS && forall h :: h in seen ==> seen[h] != v
    requires forall j :: 1 <= j < f ==> Slot(b, j) in seen
    requires Slot(b, k) !in seen
    ensures f <= i <= k && Pick(seen, b, v, 1) == CollisionHash(b, i) && CollisionHash(b, i).Some?
    ensures forall j :: 1 <= j < i ==> Slot(b, j) in seen
  {
    PickExact(seen, b, v, 1);
    assert !Taken(seen, Slot(b, k), v);
    i :| 1 <= i <= MAX_ATTEMPTS && Pick(seen, b, v, 1) == CollisionHash(b, i)
         && !Taken(seen, Slot(b, i), v)
         && forall j :: 1 <= j < i ==> Taken(seen, Slot(b, j), v);
    assert i < f ==> Taken(seen, Slot(b, i), v);
  }

  // A text whose values take a free hash p of some base, none of them equal to v.
  lemma TakeFree(seed: map<string, string>, b: string, k: nat, v: string) returns (w: Work, a: Assigned, e: TokenEntry)
    requires IsBaseHash(b) && 1 <= k <= MAX_ATTEMPTS && Slot(b, k) !in seed
    ensures BaseHashes(w.bases) && Assign(seed, w.spans, w.bases) == Some(a)
    ensures e in a.entries && e.hash == Slot(b, k) && e.original != v
  {
    hide CollisionHash, Slot, IsBaseHash, AssignRest;
    var len := SomeLength(seed);
    var start := if len > |v| then len else |v| + 1;
    NothingAssigned(seed);
    w, a := Reach(seed, Detections([], []), Assigned([], seed, map[]), b, k, 1, start);
    e := a.entries[|a.entries| - 1];
  }

  lemma NothingAssigned(seed: map<string, string>)
    ensures Assign(seed, [], []) == Some(Assigned([], seed, map[]))
  {
  }

  // From any carry-over map that calls have produced: no later text gives a hash
  // handed out so far to another value, as long as the texts in between keep
  // theirs, if and only if every carried value that recurs in this text is given
  // its carried hash again.
  lemma KeepsIffSafe(items: Carry, seen: map<string, string>, w: Work)
    requires Mirrors(items, seen) && AllMinted(seen) && Call(items, w).Some?
    ensures var a := Call(items, w).value;
            Keeps(items, a.entries) <==> Safe(Record(items, a.entries), a.seen)
  {
    hide Mirrors, Keeps, Call, Record, AllMinted, SafeAfter;
    var a := Call(items, w).value;
    var items' := Record(items, a.entries);
    if Keeps(items, a.entries) {
      CallSound(items, seen, w);
      forall between: seq<Work>, next: Work ensures SafeAfter(items', between, next, a.seen) {
        LaterRespects(items', a.seen, between, next);
      }
    } else {
      var next := NextTakes(items, seen, w);
      assert !SafeAfter(items', [], next, a.seen);
    }
  }

  lemma LaterRespects(items: Carry, seen: map<string, string>, between: seq<Work>, w: Work)
    requires Mirrors(items, seen)
    ensures SafeAfter(items, between, w, seen)
  {
    hide Mirrors, KeepsAll, Texts, Call, EntryOk;
    if KeepsAll(items, between) && Texts(items, between).Some? && Call(Texts(items, between).value.0, w).Some? {
      var final := TextsSound(items, seen, between);
      NextRespects(Texts(items, between).value.0, final, w);
    }
  }

  // If a carried value is not given its carried hash p, a next text can take p.
  lemma NextTakes(items: Carry, seen: map<string, string>, w: Work) returns (next: Work)
    requires Mirrors(items, seen) && AllMinted(seen) && Call(items, w).Some?
    requires !Keeps(items, Call(items, w).value.entries)
    ensures var a := Call(items, w).value; !SafeAfter(Record(items, a.entries), [], next, a.seen)
  {
    hide Mirrors, AllMinted, EntryOk, Call, Record, HashOf, Loses;
    var a := Call(items, w).value;
    var i, n :| 0 <= i < |items| && 0 <= n < |a.entries| && items[i].0 == a.entries[n].original
                && HashOf(items[i].1) != Some(a.entries[n].hash);
    ItemHolds(items, seen, i);
    var p := HashOf(items[i].1).value;
    assert Loses(items, a.entries, p) by { LosesHere(items, a.entries, i, n, p); }
    LostIsFree(items, seen, w, p);
    var b, k := MintedFrom(seen, p);
    var c, e;
    next, c, e := TakeFree(SeedAll(map[], Record(items, a.entries)), b, k, seen[p]);
    CallIs(Record(items, a.entries), next);
    assert !Respects(c.entries, a.seen);
    assert Texts(Record(items, a.entries), []) == Some((Record(items, a.entries), []));
  }

  lemma NextRespects(items: Carry, seen: map<string, string>, w: Work)
    requires Mirrors(items, seen) && Call(items, w).Some?
    ensures Respects(Call(items, w).value.entries, seen)
  {
    hide Mirrors, Call;
    CallGrows(items, seen, w);
  }

  lemma CallIs(items: Carry, w: Work)
    ensures Call(items, w) == Assign(SeedAll(map[], items), w.spans, w.bases)
  {
  }

  lemma ItemHolds(items: Carry, seen: map<string, string>, i: nat)
    requires Mirrors(items, seen) && i < |items|
    ensures HashOf(items[i].1).Some? && HashOf(items[i].1).value in seen && seen[HashOf(items[i].1).value] == items[i].0
  {
    assert Holds(seen, items[i]);
  }

  lemma LosesHere(items: Carry, entries: seq<TokenEntry>, i: nat, n: nat, p: string)
    requires i < |items| && n < |entries| && items[i].0 == entries[n].original
    requires HashOf(items[i].1) == Some(p) && entries[n].hash != p
    ensures Loses(items, entries, p)
  {
  }

  lemma MintedFrom(seen: map<string, string>, p: string) returns (b: string, k: nat)
    requires AllMinted(seen) && p in seen
    ensures IsBaseHash(b) && 1 <= k <= MAX_ATTEMPTS && CollisionHash(b, k) == Some(p)
  {
    b, k :| IsBaseHash(b) && 1 <= k <= MAX_ATTEMPTS && CollisionHash(b, k) == Some(p);
  }

  // Allocation gives only such hashes, so every map that calls produce has them.
  lemma {:induction false} AssignMints(a: Assigned, spans: seq<Span>, bases: seq<string>)
    requires |a.entries| <= |spans| == |bases| && AllMinted(a.seen) && BaseHashes(bases)
    requires AssignRest(a, spans, bases).Some?
    ensures AllMinted(AssignRest(a, spans, bases).value.seen)
    decreases |spans| - |a.entries|
  {
    hide AssignOne, AllMinted, IsBaseHash;
    var n := |a.entries|;
    if n < |spans| {
      OneMints(a, spans[n], bases[n]);
      AssignMints(AssignOne(a, spans[n], bases[n]).value, spans, bases);
    }
  }

  lemma OneMints(a: Assigned, x: Span, b: string)
    requires AllMinted(a.seen) && IsBaseHash(b) && AssignOne(a, x, b).Some?
    ensures AllMinted(AssignOne(a, x, b).value.seen)
  {
    hide FormatToken, IsBaseHash, Pick, CollisionHash;
    if x.text !in a.memo {
      PickExact(a.seen, b, x.text, 1);
    }
  }

  lemma CallMints(items: Carry, seen: map<string, string>, w: Work)
    requires Mirrors(items, seen) && AllMinted(seen) && BaseHashes(w.bases) && Call(items, w).Some?
    ensures AllMinted(Call(items, w).value.seen)
  {
    hide AllMinted, Mirrors, AssignRest;
    CallGrows(items, seen, w);
    AssignMints(Assigned([], seen, map[]), w.spans, w.bases);
  }

  // The same over a whole request: after any texts in which carried values kept
  // their hashes, one more text leaves every hash safe exactly if it keeps them too.
  lemma RequestKeepsIffSafe(works: seq<Work>, w: Work)
    requires Texts([], works).Some? && KeepsAll([], works)
    requires forall n :: 0 <= n < |works| ==> BaseHashes(works[n].bases)
    requires Call(Texts([], works).value.0, w).Some?
    ensures var items := Texts([], works).value.0;
            var a := Call(items, w).value;
            Keeps(items, a.entries) <==> Safe(Record(items, a.entries), a.seen)
  {
    hide Texts, KeepsAll, Call, Keeps, Safe, Mirrors, IsBaseHash;
    NothingCarried();
    var final := TextsMint([], map[], works);
    KeepsIffSafe(Texts([], works).value.0, final, w);
  }

  lemma {:induction false} TextsMint(items: Carry, seen: map<string, string>, works: seq<Work>)
    returns (final: map<string, string>)
    requires Mirrors(items, seen) && AllMinted(seen) && Texts(items, works).Some? && KeepsAll(items, works)
    requires forall n :: 0 <= n < |works| ==> BaseHashes(works[n].bases)
    ensures Mirrors(Texts(items, works).value.0, final) && AllMinted(final)
    decreases |works|
  {
    hide Mirrors, AllMinted, Call, Keeps, Record, BaseHashes;
    final := seen;
    if works != [] {
      CallSound(items, seen, works[0]);
      CallMints(items, seen, works[0]);
      var a := Call(items, works[0]).value;
      final := TextsMint(Record(items, a.entries), a.seen, works[1..]);
    }
  }

  // Two calls that do not share a carry-over map give one hash to two values
  // whose HMACs agree, with no change of DEK.
  lemma SeparateCalls(v: Span, x: Span, p: string)
    requires v.piiType in VALID_TYPES && x.piiType in VALID_TYPES && IsBaseHash(p)
    ensures Call([], JustOne(v, p)).Some? && Call([], JustOne(v, p)).value.entries == [Minted(v, p)]
    ensures Call([], JustOne(x, p)).Some? && Call([], JustOne(x, p)).value.entries == [Minted(x, p)]
  {
    OneSpan(map[], v, p);
    OneSpan(map[], x, p);
  }

  lemma NothingCarried()
    ensures Mirrors([], map[])
  {
  }

  lemma RecordFirst(v: Span, p: string)
    requires v.piiType in VALID_TYPES && IsBaseHash(p)
    ensures Record([], [Minted(v, p)]) == [(v.text, Minted(v, p).token)] && HashOf(Minted(v, p).token) == Some(p)
  {
    CandidatesAreHashes(p, 1);
    FormatParses(v.piiType, p);
    hide ParseToken;
    assert [Minted(v, p)][1..] == [];
  }

  lemma AfterFirst(v: Span, p: string, q: string)
    requires v.piiType in VALID_TYPES && IsBaseHash(p) && IsBaseHash(q) && p != q
    ensures var r := Call([(v.text, Minted(v, p).token)], JustOne(v, q));
            r.Some? && r.value.entries == [Minted(v, q)]
  {
    RecordFirst(v, p);
    hide ParseToken;
    var items := [(v.text, Minted(v, p).token)];
    assert HashOf(items[0].1) == Some(p);
    SeedMirrors(map[], items, map[p := v.text]);
    OneSpan(map[p := v.text], v, q);
  }

  lemma TextsOn(items: Carry, w: Work, rest: seq<Work>)
    requires Call(items, w).Some?
    ensures var a, r := Call(items, w).value, Texts(items, [w] + rest);
            var next := Texts(Record(items, a.entries), rest);
            if next.Some? then r == Some((next.value.0, [a] + next.value.1)) else r == None
  {
    hide Call, Record;
    assert ([w] + rest)[1..] == rest;
  }

  lemma ThreeTexts(items: Carry, w1: Work, w2: Work, w3: Work)
    requires Call(items, w1).Some? && Call(Record(items, Call(items, w1).value.entries), w2).Some?
    requires var items' := Record(items, Call(items, w1).value.entries);
             Call(Record(items', Call(items', w2).value.entries), w3).Some?
    ensures var a := Call(items, w1).value;
            var items' := Record(items, a.entries);
            var b := Call(items', w2).value;
            var c := Call(Record(items', b.entries), w3).value;
            Texts(items, [w1, w2, w3]).Some? && Texts(items, [w1, w2, w3]).value.1 == [a, b, c]
  {
    hide Call, Record, Texts;
    var a := Call(items, w1).value;
    var items' := Record(items, a.entries);
    var b := Call(items', w2).value;
    var items'' := Record(items', b.entries);
    TextsOn(items, w1, [w2, w3]);
    TextsOn(items', w2, [w3]);
    TextsOn(items'', w3, []);
    NoTexts(Record(items'', Call(items'', w3).value.entries), []);
    assert [w1] + [w2, w3] == [w1, w2, w3] && [w2] + [w3] == [w2, w3] && [w3] + [] == [w3];
  }

  // With a rotation between texts and a hash that comes round again: v is
  // rehashed from p to q, p drops out of the carry-over map, and x is given p.
  lemma RotationBetweenTexts(v: Span, x: Span, p: string, q: string)
    requires v.text != x.text && p != q && IsBaseHash(p) && IsBaseHash(q)
    requires v.piiType in VALID_TYPES && x.piiType in VALID_TYPES
    ensures var works := [JustOne(v, p), JustOne(v, q), JustOne(x, p)];
            var r := Texts([], works);
            && r.Some? && |r.value.1| == 3
            && r.value.1[0].entries == [Minted(v, p)]
            && r.value.1[1].entries == [Minted(v, q)]
            && r.value.1[2].entries == [Minted(x, p)]
  {
    hide Call, Texts, Record, SeedAll, ParseToken, Mirrors;
    SeparateCalls(v, v, p);
    NothingCarried();
    var a := Call([], JustOne(v, p)).value;
    CallSound([], map[], JustOne(v, p));
    RecordFirst(v, p);
    var items := Record([], a.entries);
    AfterFirst(v, p, q);
    var b := Call(items, JustOne(v, q)).value;
    LosesHere(items, b.entries, 0, 0, p);
    LostIsReused(items, a.seen, JustOne(v, q), p, x);
    ThreeTexts([], JustOne(v, p), JustOne(v, q), JustOne(x, p));
  }
}
