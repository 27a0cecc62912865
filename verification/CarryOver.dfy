// The texts of one request: a carry-over map from values to tokens seeds each
// call's tracker, and each call's entries are recorded in it.
module CarryOver {
  import opened Wrappers
  import opened TokenFormat
  import opened SpanFusion
  import opened CollisionTracker

  // The fused spans of one text, with their HMACs.
  datatype Detections = Detections(spans: seq<Span>, bases: seq<string>)
  type Work = w: Detections | |w.spans| == |w.bases| witness Detections([], [])

  function Call(items: Carry, w: Work): Option<Assigned> {
    Assign(SeedAll(map[], items), w.spans, w.bases)
  }

  function Find(items: Carry, v: string): (p: nat)
    ensures p <= |items| && (p < |items| ==> items[p].0 == v)
    ensures forall i :: 0 <= i < p ==> items[i].0 != v
  {
    if items == [] || items[0].0 == v then 0 else 1 + Find(items[1..], v)
  }

  // A value that is there keeps its place; a new one comes last.
  function DictSet(items: Carry, v: string, tok: string): (r: Carry)
    ensures |r| == |items| + (if exists i :: 0 <= i < |items| && items[i].0 == v then 0 else 1) && (v, tok) in r
    ensures forall i :: 0 <= i < |items| ==> r[i].0 == items[i].0 && (items[i].0 != v ==> r[i] == items[i])
  {
    var p := Find(items, v);
    if p < |items| then
      var r := items[p := (v, tok)];
      assert r[p] == (v, tok);
      r
    else
      items + [(v, tok)]
  }

  function Record(items: Carry, entries: seq<TokenEntry>): Carry
    decreases |entries|
  {
    if entries == [] then items
    else Record(DictSet(items, entries[0].original, entries[0].token), entries[1..])
  }

  // The carry-over map after the texts, and what each call assigned.
  function Texts(items: Carry, works: seq<Work>): Option<(Carry, seq<Assigned>)>
    decreases |works|
  {
    if works == [] then Some((items, []))
    else match Call(items, works[0])
      case None => None
      case Some(a) =>
        match Texts(Record(items, a.entries), works[1..])
        case None => None
        case Some((items', more)) => Some((items', [a] + more))
  }

  // The calls so far in front of those of the remaining texts.
  function After(calls: seq<Assigned>, rest: Option<(Carry, seq<Assigned>)>): Option<(Carry, seq<Assigned>)> {
    match rest case None => None case Some((items, more)) => Some((items, calls + more))
  }

  lemma AfterOne(calls: seq<Assigned>, items: Carry, works: seq<Work>)
    requires works != []
    ensures After(calls, Texts(items, works))
         == match Call(items, works[0])
            case None => None
            case Some(a) => After(calls + [a], Texts(Record(items, a.entries), works[1..]))
  {
    hide Call, Record;
    if Call(items, works[0]).Some? {
      var a := Call(items, works[0]).value;
      var rest := Texts(Record(items, a.entries), works[1..]);
      assert rest.Some? ==> calls + ([a] + rest.value.1) == calls + [a] + rest.value.1;
    }
  }

  // The loop over the texts; None is any exception of a call.
  method TokenizeTexts(existing: Carry, works: seq<Work>) returns (r: Option<(Carry, seq<seq<TokenEntry>>)>)
    ensures r.Some? <==> Texts(existing, works).Some?
    ensures r.Some? ==>
              var (items, calls) := Texts(existing, works).value;
              && r.value.0 == items && |r.value.1| == |calls|
              && forall n :: 0 <= n < |calls| ==> r.value.1[n] == calls[n].entries
  {
    hide Texts, Record, Assign;
    var items, all := existing, [];
    ghost var calls: seq<Assigned> := [];
    NoTexts(existing, works);
    for n := 0 to |works|
      invariant |all| == |calls| && forall k :: 0 <= k < |all| ==> all[k] == calls[k].entries
      invariant After(calls, Texts(items, works[n..])) == Texts(existing, works)
    {
      AfterOne(calls, items, works[n..]);
      assert works[n..][1..] == works[n + 1..];
      var entries := Allocate(items, works[n].spans, works[n].bases);
      if entries.None? {
        return None;
      }
      ghost var a := Call(items, works[n]).value;
      items := RecordAll(items, entries.value);
      all, calls := all + [entries.value], calls + [a];
    }
    NoTexts(items, works[|works|..]);
    return Some((items, all));
  }

  lemma NoTexts(items: Carry, works: seq<Work>)
    ensures works == [] ==> Texts(items, works) == Some((items, []))
    ensures After([], Texts(items, works[0..])) == Texts(items, works)
  {
    hide Call, Record;
    assert works[0..] == works;
    if Texts(items, works).Some? {
      var calls := Texts(items, works).value.1;
      assert [] + calls == calls;
    }
  }

  method RecordAll(existing: Carry, entries: seq<TokenEntry>) returns (items: Carry)
    ensures items == Record(existing, entries)
  {
    items := existing;
    for n := 0 to |entries|
      invariant Record(items, entries[n..]) == Record(existing, entries)
    {
      assert entries[n..][1..] == entries[n + 1..];
      items := DictSet(items, entries[n].original, entries[n].token);
    }
  }

  // ---- What the carry-over map says ----

  predicate Holds(seen: map<string, string>, item: (string, string)) {
    match HashOf(item.1) case Some(h) => h in seen && seen[h] == item.0 case None => false
  }

  // It says exactly what the tracker would be seeded with.
  ghost predicate Mirrors(items: Carry, seen: map<string, string>) {
    && (forall i :: 0 <= i < |items| ==> Holds(seen, items[i]))
    && (forall i, j :: 0 <= i < j < |items| ==> items[i].0 != items[j].0)
    && (forall h :: h in seen ==> exists i :: 0 <= i < |items| && HashOf(items[i].1) == Some(h))
  }

  lemma {:induction false} SeedMirrors(seen: map<string, string>, items: Carry, final: map<string, string>)
    requires Extends(seen, final)
    requires forall i :: 0 <= i < |items| ==> Holds(final, items[i])
    requires forall h :: h in final ==> h in seen || exists i :: 0 <= i < |items| && HashOf(items[i].1) == Some(h)
    ensures SeedAll(seen, items) == final
    decreases |items|
  {
    hide ParseToken;
    if items == [] {
      assert seen.Keys == final.Keys;
    } else {
      assert Holds(final, items[0]);
      var seen' := SeedOne(seen, items[0]);
      forall h | h in final
        ensures h in seen' || exists i :: 0 <= i < |items| - 1 && HashOf(items[1..][i].1) == Some(h)
      {
        if h !in seen {
          var i :| 0 <= i < |items| && HashOf(items[i].1) == Some(h);
          assert i > 0 ==> HashOf(items[1..][i - 1].1) == Some(h);
        }
      }
      SeedMirrors(seen', items[1..], final);
    }
  }

  // A carried value has one hash.
  lemma OneHash(items: Carry, seen: map<string, string>, h: string, g: string)
    requires Mirrors(items, seen) && h in seen && g in seen && seen[h] == seen[g]
    ensures h == g
  {
    hide HashOf;
    var i :| 0 <= i < |items| && HashOf(items[i].1) == Some(h);
    var j :| 0 <= j < |items| && HashOf(items[j].1) == Some(g);
    assert Holds(seen, items[i]) && Holds(seen, items[j]);
  }

  // Every carried value that recurs is given its carried hash again.
  ghost predicate Keeps(items: Carry, entries: seq<TokenEntry>) {
    forall i, n :: 0 <= i < |items| && 0 <= n < |entries| && items[i].0 == entries[n].original ==>
      HashOf(items[i].1) == Some(entries[n].hash)
  }

  // One value, one hash, within a call.
  ghost predicate Single(entries: seq<TokenEntry>) {
    forall m, n :: 0 <= m < |entries| && 0 <= n < |entries| && entries[m].original == entries[n].original ==>
      entries[m].hash == entries[n].hash
  }

  // Recording an entry whose value, if carried, already has the entry's hash.
  lemma RecordOne(items: Carry, seen: map<string, string>, e: TokenEntry)
    requires Mirrors(items, seen) && HashOf(e.token) == Some(e.hash)
    requires e.hash in seen ==> seen[e.hash] == e.original
    requires forall i :: 0 <= i < |items| && items[i].0 == e.original ==> HashOf(items[i].1) == Some(e.hash)
    ensures Mirrors(DictSet(items, e.original, e.token), seen[e.hash := e.original])
  {
    hide ParseToken, HashOf;
    var p := Find(items, e.original);
    var items', seen' := DictSet(items, e.original, e.token), seen[e.hash := e.original];
    assert items'[p] == (e.original, e.token);
    forall i | 0 <= i < |items'| ensures Holds(seen', items'[i]) {
      assert i != p ==> Holds(seen, items[i]);
    }
    forall h | h in seen' ensures exists i :: 0 <= i < |items'| && HashOf(items'[i].1) == Some(h) {
      if h in seen && h != e.hash {
        var i :| 0 <= i < |items| && HashOf(items[i].1) == Some(h);
        assert i != p && items'[i] == items[i];
      } else {
        assert HashOf(items'[p].1) == Some(h);
      }
    }
  }

  lemma KeepsOn(items: Carry, entries: seq<TokenEntry>)
    requires entries != [] && Keeps(items, entries) && Single(entries)
    requires HashOf(entries[0].token) == Some(entries[0].hash)
    ensures Keeps(DictSet(items, entries[0].original, entries[0].token), entries[1..])
    ensures Single(entries[1..])
  {
    hide HashOf;
    var e, rest := entries[0], entries[1..];
    var items' := DictSet(items, e.original, e.token);
    forall i, n | 0 <= i < |items'| && 0 <= n < |rest| && items'[i].0 == rest[n].original
      ensures HashOf(items'[i].1) == Some(rest[n].hash)
    {
      assert rest[n] == entries[n + 1];
      if i == Find(items, e.original) {
        assert items'[i] == (e.original, e.token);
      } else {
        assert items'[i] == items[i];
      }
    }
  }

  lemma {:induction false} RecordMirrors(items: Carry, seen: map<string, string>, entries: seq<TokenEntry>,
                                         final: map<string, string>)
    requires Mirrors(items, seen) && Extends(seen, final) && Keeps(items, entries) && Single(entries)
    requires forall i :: 0 <= i < |entries| ==> EntryOk(final, entries[i])
    requires forall h :: h in final ==> h in seen || exists i :: 0 <= i < |entries| && entries[i].hash == h
    ensures Mirrors(Record(items, entries), final)
    decreases |entries|
  {
    hide EntryOk, HashOf, DictSet, Mirrors, Single;
    if entries == [] {
      assert seen.Keys == final.Keys;
      assert seen == final;
    } else {
      var e := entries[0];
      EntryHash(final, e);
      RecordOne(items, seen, e);
      KeepsOn(items, entries);
      var seen' := seen[e.hash := e.original];
      forall h | h in final ensures h in seen' || exists i :: 0 <= i < |entries| - 1 && entries[1..][i].hash == h {
        if h !in seen {
          var i :| 0 <= i < |entries| && entries[i].hash == h;
          assert i > 0 ==> entries[1..][i - 1].hash == h;
        }
      }
      RecordMirrors(DictSet(items, e.original, e.token), seen', entries[1..], final);
    }
  }

  // One call from a carry-over map produced by earlier calls.
  lemma CallGrows(items: Carry, seen: map<string, string>, w: Work)
    requires Mirrors(items, seen) && Call(items, w).Some?
    ensures SeedAll(map[], items) == seen
    ensures var a := Call(items, w).value;
            && Extends(seen, a.seen) && Single(a.entries)
            && (forall i :: 0 <= i < |a.entries| ==> EntryOk(a.seen, a.entries[i]))
            && (forall h :: h in a.seen ==> h in seen || exists i :: 0 <= i < |a.entries| && a.entries[i].hash == h)
  {
    hide EntryOk;
    SeedMirrors(map[], items, seen);
    var first := Assigned([], seen, map[]);
    AssignSound(first, w.spans, w.bases);
    GrowAll(first, w.spans, w.bases);
  }

  lemma CallSound(items: Carry, seen: map<string, string>, w: Work)
    requires Mirrors(items, seen) && Call(items, w).Some? && Keeps(items, Call(items, w).value.entries)
    ensures var a := Call(items, w).value; Mirrors(Record(items, a.entries), a.seen)
  {
    hide EntryOk, Mirrors, Keeps, Single, Call;
    CallGrows(items, seen, w);
    var a := Call(items, w).value;
    RecordMirrors(items, seen, a.entries, a.seen);
  }

  ghost predicate KeepsAll(items: Carry, works: seq<Work>)
    decreases |works|
  {
    works == [] ||
    match Call(items, works[0])
    case None => true
    case Some(a) => Keeps(items, a.entries) && KeepsAll(Record(items, a.entries), works[1..])
  }

  ghost predicate Given(calls: seq<Assigned>, e: TokenEntry) {
    exists n :: 0 <= n < |calls| && e in calls[n].entries
  }

  // If carried values keep their hashes, the carry-over map says after each text
  // what the tracker knew, and nothing that a tracker knew is ever changed.
  lemma {:induction false} TextsSound(items: Carry, seen: map<string, string>, works: seq<Work>)
    returns (final: map<string, string>)
    requires Mirrors(items, seen) && Texts(items, works).Some? && KeepsAll(items, works)
    ensures Extends(seen, final) && Mirrors(Texts(items, works).value.0, final)
    ensures var calls := Texts(items, works).value.1;
            forall n :: 0 <= n < |calls| ==>
              Extends(calls[n].seen, final) && forall e :: e in calls[n].entries ==> EntryOk(calls[n].seen, e)
    decreases |works|
  {
    hide EntryOk, Mirrors, Record, Call, Keeps;
    final := seen;
    if works != [] {
      CallGrows(items, seen, works[0]);
      CallSound(items, seen, works[0]);
      var a := Call(items, works[0]).value;
      final := TextsSound(Record(items, a.entries), a.seen, works[1..]);
    }
  }

  // Over all texts of a request, as long as carried values keep their hashes:
  // every value keeps one hash, and no hash stands for two values.
  lemma OneEach(items: Carry, seen: map<string, string>, works: seq<Work>, x: TokenEntry, y: TokenEntry)
    requires Mirrors(items, seen) && Texts(items, works).Some? && KeepsAll(items, works)
    requires Given(Texts(items, works).value.1, x) && Given(Texts(items, works).value.1, y)
    ensures x.original == y.original <==> x.hash == y.hash
  {
    hide KeepsAll, Mirrors, Texts, EntryOk;
    var final := TextsSound(items, seen, works);
    var calls := Texts(items, works).value.1;
    var m :| 0 <= m < |calls| && x in calls[m].entries;
    var n :| 0 <= n < |calls| && y in calls[n].entries;
    EntryHash(calls[m].seen, x);
    EntryHash(calls[n].seen, y);
    if x.original == y.original {
      OneHash(Texts(items, works).value.0, final, x.hash, y.hash);
    }
  }

  // ---- The DEK unchanged: one HMAC function for all texts ----

  ghost predicate ByHmac(w: Work, hmac: string -> string) {
    forall n :: 0 <= n < |w.spans| ==> w.bases[n] == hmac(w.spans[n].text)
  }

  // Every value that holds a hash would be given that hash again.
  ghost predicate Settled(seen: map<string, string>, hmac: string -> string) {
    forall h :: h in seen ==> Pick(seen, hmac(seen[h]), seen[h], 1) == Some(h)
  }

  lemma {:induction false} PickKeeps(seen: map<string, string>, more: map<string, string>,
                                     base: string, v: string, attempt: nat)
    requires Extends(seen, more) && Pick(seen, base, v, attempt).Some?
    requires var h := Pick(seen, base, v, attempt).value; h in more && more[h] == v
    ensures Pick(more, base, v, attempt) == Pick(seen, base, v, attempt)
    decreases MAX_ATTEMPTS + 1 - attempt
  {
    if Taken(seen, CollisionHash(base, attempt).value, v) {
      PickKeeps(seen, more, base, v, attempt + 1);
    }
  }

  lemma SettledOne(a: Assigned, span: Span, hmac: string -> string)
    requires Settled(a.seen, hmac) && AssignOne(a, span, hmac(span.text)).Some?
    ensures Settled(AssignOne(a, span, hmac(span.text)).value.seen, hmac)
  {
    hide Pick, FormatToken, ParseToken;
    var b := AssignOne(a, span, hmac(span.text)).value;
    if span.text !in a.memo {
      PickIsFree(a.seen, hmac(span.text), span.text);
      forall h | h in b.seen ensures Pick(b.seen, hmac(b.seen[h]), b.seen[h], 1) == Some(h) {
        PickKeeps(a.seen, b.seen, hmac(b.seen[h]), b.seen[h], 1);
      }
    }
  }

  lemma {:induction false} SettledAll(a: Assigned, w: Work, hmac: string -> string)
    requires |a.entries| <= |w.spans| && Settled(a.seen, hmac) && ByHmac(w, hmac)
    requires AssignRest(a, w.spans, w.bases).Some?
    ensures Settled(AssignRest(a, w.spans, w.bases).value.seen, hmac)
    decreases |w.spans| - |a.entries|
  {
    hide AssignOne, Settled;
    var n := |a.entries|;
    if n < |w.spans| {
      SettledOne(a, w.spans[n], hmac);
      SettledAll(AssignOne(a, w.spans[n], w.bases[n]).value, w, hmac);
    }
  }

  // Under one HMAC function carried values are always given their hashes again.
  lemma HmacKeeps(items: Carry, seen: map<string, string>, w: Work, hmac: string -> string)
    requires Mirrors(items, seen) && Settled(seen, hmac) && ByHmac(w, hmac) && Call(items, w).Some?
    ensures Settled(Call(items, w).value.seen, hmac) && Keeps(items, Call(items, w).value.entries)
  {
    hide Pick, ParseToken, AssignRest;
    CallGrows(items, seen, w);
    SettledAll(Assigned([], seen, map[]), w, hmac);
    var a := Call(items, w).value;
    forall i, n | 0 <= i < |items| && 0 <= n < |a.entries| && items[i].0 == a.entries[n].original
      ensures HashOf(items[i].1) == Some(a.entries[n].hash)
    {
      assert Holds(seen, items[i]) && EntryOk(a.seen, a.entries[n]);
    }
  }

  lemma {:induction false} HmacKeepsAll(items: Carry, seen: map<string, string>, works: seq<Work>,
                                        hmac: string -> string)
    requires Mirrors(items, seen) && Settled(seen, hmac)
    requires forall n :: 0 <= n < |works| ==> ByHmac(works[n], hmac)
    ensures KeepsAll(items, works)
    decreases |works|
  {
    hide Mirrors, Settled, ByHmac, Keeps, Record;
    if works != [] && Call(items, works[0]).Some? {
      HmacKeeps(items, seen, works[0], hmac);
      CallSound(items, seen, works[0]);
      var a := Call(items, works[0]).value;
      HmacKeepsAll(Record(items, a.entries), a.seen, works[1..], hmac);
    }
  }

  // Across all texts of one request with the DEK unchanged, from an empty
  // carry-over map: every value keeps one hash, and no hash stands for two values.
  lemma OneRequest(works: seq<Work>, hmac: string -> string, x: TokenEntry, y: TokenEntry)
    requires Texts([], works).Some? && forall n :: 0 <= n < |works| ==> ByHmac(works[n], hmac)
    requires Given(Texts([], works).value.1, x) && Given(Texts([], works).value.1, y)
    ensures x.original == y.original <==> x.hash == y.hash
  {
    hide Texts, KeepsAll, ByHmac, Given, Pick;
    HmacKeepsAll([], map[], works, hmac);
    OneEach([], map[], works, x, y);
  }
}
